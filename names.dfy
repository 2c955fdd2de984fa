/** Clinic names: `clean_session_name` (analysis.py) and the campus a
    clinic is held at (`determine_location` in ta_sched.py and shifts.py,
    the same if-chain inline in analysis.py). */
module Names {
  import opened Seqs
  import opened Text
  import opened Rows

  // ---------------------------------------------------------------------
  // clean_session_name
  // ---------------------------------------------------------------------

  /** The words of a name, with the non-breaking space read as a space. */
  function NameWords(name: string): (ws: seq<string>)
    ensures forall i :: 0 <= i < |ws| ==> IsWord(ws[i])
  {
    WordsAreWords(ReplaceChar(name, '\U{A0}', ' '));
    Words(ReplaceChar(name, '\U{A0}', ' '))
  }

  /** The result of `clean_session_name`: the first occurrence of every
      word, in order, joined by single spaces. */
  function CleanName(name: string): string
  {
    Strip(JoinWith(Dedup(NameWords(name)), " "))
  }

  method CleanSessionName(name: string) returns (r: string)
    ensures r == CleanName(name)
  {
    var parts := NameWords(name);
    var cleanParts := FirstOccurrences(parts);
    r := Strip(JoinWith(cleanParts, " "));
  }

  /** The `seen` loop of `clean_session_name`: keep a word only the first
      time it comes up. */
  method FirstOccurrences(parts: seq<string>) returns (cleanParts: seq<string>)
    ensures cleanParts == Dedup(parts)
  {
    var seen: set<string> := {};
    cleanParts := [];
    for i := 0 to |parts|
      invariant cleanParts == Dedup(parts[..i])
      invariant forall x :: x in seen <==> x in cleanParts
    {
      TakeSnoc(parts, i);
      DedupSnoc(parts[..i], parts[i]);
      var p := parts[i];
      if p !in seen {
        cleanParts := cleanParts + [p];
        seen := seen + {p};
      }
    }
    TakeAll(parts);
  }

  lemma DedupWords(ws: seq<string>)
    requires forall i :: 0 <= i < |ws| ==> IsWord(ws[i])
    ensures forall i :: 0 <= i < |Dedup(ws)| ==> IsWord(Dedup(ws)[i])
  {
    forall i | 0 <= i < |Dedup(ws)| ensures IsWord(Dedup(ws)[i]) {
      assert Dedup(ws)[i] in ws;
    }
  }

  /** The words of the cleaned name are the de-duplicated words of the
      input: first occurrences only, in their original order. */
  lemma CleanNameWords(name: string)
    ensures Words(CleanName(name)) == Dedup(NameWords(name))
    ensures NoDup(Words(CleanName(name)))
  {
    var d := Dedup(NameWords(name));
    DedupWords(NameWords(name));
    JoinedWordsStripped(d);
    WordsOfJoin(d);
  }

  lemma JoinedWordsStripped(ws: seq<string>)
    requires forall i :: 0 <= i < |ws| ==> IsWord(ws[i])
    ensures Strip(JoinWith(ws, " ")) == JoinWith(ws, " ")
  {
    JoinedWordsEdges(ws);
    StripNoEdgeSpace(JoinWith(ws, " "));
  }

  /** A space-joined list of words holds no whitespace character other
      than the plain space. */
  lemma {:induction false} JoinedWordsNoChar(ws: seq<string>, c: char)
    requires forall i :: 0 <= i < |ws| ==> IsWord(ws[i])
    requires IsSpace(c) && c != ' '
    ensures c !in JoinWith(ws, " ")
  {
    if |ws| > 1 {
      JoinedWordsNoChar(ws[1..], c);
      assert ws[0] == ws[0];
      assert JoinWith(ws, " ") == ws[0] + " " + JoinWith(ws[1..], " ");
      assert c !in ws[0] by {
        assert NoSpace(ws[0]);
      }
    } else if |ws| == 1 {
      assert NoSpace(ws[0]);
    }
  }

  lemma ReplaceAbsent(s: string, a: char, b: char)
    requires a !in s
    ensures ReplaceChar(s, a, b) == s
  {
  }

  /** Cleaning a cleaned name changes nothing. */
  lemma CleanNameIdempotent(name: string)
    ensures CleanName(CleanName(name)) == CleanName(name)
  {
    var d := Dedup(NameWords(name));
    var j := JoinWith(d, " ");
    DedupWords(NameWords(name));
    JoinedWordsStripped(d);
    assert CleanName(name) == j;
    JoinedWordsNoChar(d, '\U{A0}');
    ReplaceAbsent(j, '\U{A0}', ' ');
    WordsOfJoin(d);
    assert NameWords(j) == d;
    DedupOfNoDup(d);
  }

  // ---------------------------------------------------------------------
  // determine_location
  // ---------------------------------------------------------------------

  datatype Location = NewCampus | OldCampus | Celt

  /** The clinics that are always held at the Old Campus. */
  const OldCampusClinics: seq<string> := [
    "\U{639}\U{64A}\U{627}\U{62F}\U{629} \U{637}\U{628} \U{623}\U{633}\U{646}\U{627}\U{646} \U{627}\U{644}\U{623}\U{637}\U{641}\U{627}\U{644} 1",
    "\U{639}\U{64A}\U{627}\U{62F}\U{629} \U{627}\U{633}\U{62A}\U{639}\U{627}\U{636}\U{629} \U{633}\U{646}\U{64A}\U{629} \U{645}\U{62A}\U{62D}\U{631}\U{643}\U{629} 4",
    "\U{639}\U{64A}\U{627}\U{62F}\U{629} \U{62C}\U{631}\U{627}\U{62D}\U{629} \U{627}\U{644}\U{641}\U{645} \U{648}\U{627}\U{644}\U{623}\U{633}\U{646}\U{627}\U{646} \U{648}\U{627}\U{644}\U{641}\U{643}\U{64A}\U{646} 1",
    "\U{639}\U{64A}\U{627}\U{62F}\U{629} \U{637}\U{628} \U{627}\U{644}\U{623}\U{633}\U{646}\U{627}\U{646} \U{627}\U{644}\U{62A}\U{62D}\U{641}\U{638}\U{64A} 5",
    "\U{639}\U{64A}\U{627}\U{62F}\U{629} \U{645}\U{62F}\U{627}\U{648}\U{627}\U{629} \U{627}\U{644}\U{623}\U{633}\U{646}\U{627}\U{646} \U{627}\U{644}\U{644}\U{628}\U{64A}\U{629} 4",
    "\U{639}\U{64A}\U{627}\U{62F}\U{629} \U{639}\U{644}\U{645} \U{623}\U{645}\U{631}\U{627}\U{636} \U{627}\U{644}\U{644}\U{62B}\U{629} 3"
  ]

  /** Practical and laboratory sessions are at the New Campus; the listed
      clinics at the Old Campus; every other clinic at CELT. */
  function DetermineLocation(name: string): (l: Location)
    ensures l == NewCampus <==> Contains(name, PracticalWord) || Contains(name, LabWord)
    ensures l == OldCampus <==> !Contains(name, PracticalWord) && !Contains(name, LabWord) && name in OldCampusClinics
  {
    if Contains(name, PracticalWord) || Contains(name, LabWord) then NewCampus
    else if name in OldCampusClinics then OldCampus
    else Celt
  }

  lemma OccurrenceLetters(s: string, p: string)
    ensures forall i, k :: OccursAt(s, p, i) && 0 <= k < |p| ==> s[i + k] == p[k]
  {
    forall i, k | OccursAt(s, p, i) && 0 <= k < |p| ensures s[i + k] == p[k] {
      assert s[i..i + |p|][k] == s[i + k];
    }
  }

  /** A text lacking one letter of `p` does not contain `p`. */
  lemma MissingLetter(s: string, p: string, k: int)
    requires 0 <= k < |p| && p[k] !in s
    ensures !Contains(s, p)
  {
    ContainsIff(s, p);
    OccurrenceLetters(s, p);
  }

  /** A text in which the first two letters of `p` never stand side by
      side does not contain `p`. */
  lemma MissingPair(s: string, p: string)
    requires |p| >= 2
    requires forall i :: 0 <= i < |s| - 1 ==> !(s[i] == p[0] && s[i + 1] == p[1])
    ensures !Contains(s, p)
  {
    ContainsIff(s, p);
    OccurrenceLetters(s, p);
  }

  /** Every listed clinic does land at the Old Campus: no listed name
      mentions a practical or a laboratory. */
  lemma OldCampusListHonoured(i: int)
    requires 0 <= i < |OldCampusClinics|
    ensures DetermineLocation(OldCampusClinics[i]) == OldCampus
  {
    var n := OldCampusClinics[i];
    ListedLetters(i);
    MissingLetter(n, LabWord, 1);
    MissingPair(n, PracticalWord);
  }

  /** Neither "laboratory" nor "practical" can occur in `n`: it lacks the
      second letter of the one and the opening letter pair of the other. */
  predicate LacksNewCampusLetters(n: string)
  {
    && LabWord[1] !in n
    && forall j :: 0 <= j < |n| - 1 ==> !(n[j] == PracticalWord[0] && n[j + 1] == PracticalWord[1])
  }

  lemma ListedLetters(i: int)
    requires 0 <= i < |OldCampusClinics|
    ensures LacksNewCampusLetters(OldCampusClinics[i])
  {
    if i == 0 { Listed0(); }
    else if i == 1 { Listed1(); }
    else if i == 2 { Listed2(); }
    else if i == 3 { Listed3(); }
    else if i == 4 { Listed4(); }
    else { Listed5(); }
  }

  lemma Listed0() ensures LacksNewCampusLetters(OldCampusClinics[0]) { }
  lemma Listed1() ensures LacksNewCampusLetters(OldCampusClinics[1]) { }
  lemma Listed2() ensures LacksNewCampusLetters(OldCampusClinics[2]) { }
  lemma Listed3() ensures LacksNewCampusLetters(OldCampusClinics[3]) { }
  lemma Listed4() ensures LacksNewCampusLetters(OldCampusClinics[4]) { }
  lemma Listed5() ensures LacksNewCampusLetters(OldCampusClinics[5]) { }

  /** A New Campus session always passed the clinic keyword filter. */
  lemma NewCampusIsClinic(name: string)
    requires DetermineLocation(name) == NewCampus
    ensures HasKeyword(name)
  {
  }
}
