/** String helpers the scripts lean on: Python's notion of whitespace,
    `str.strip`, substring `in`, `str.split()` / `" ".join`, and the
    cell cleaner `normalize_text`. */
module Text {
  import opened Seqs

  /** Python's `str.isspace()` for one character; `\s` in a `re` pattern,
      `str.strip()` and `str.split()` all use this set. */
  predicate IsSpace(c: char)
  {
    var n := c as int;
    || 0x9 <= n <= 0xD     // tab, line feed, vertical tab, form feed, carriage return
    || 0x1C <= n <= 0x20   // the four separator controls and the space
    || n == 0x85 || n == 0xA0 || n == 0x1680
    || 0x2000 <= n <= 0x200A
    || n == 0x2028 || n == 0x2029 || n == 0x202F || n == 0x205F || n == 0x3000
  }

  predicate NoSpace(s: string)
  {
    forall i :: 0 <= i < |s| ==> !IsSpace(s[i])
  }

  /** What `str.split()` yields: a non-empty run without whitespace. */
  predicate IsWord(w: string)
  {
    w != [] && NoSpace(w)
  }

  // ---------------------------------------------------------------------
  // str.strip()
  // ---------------------------------------------------------------------

  function TrimLeft(s: string): (r: string)
    ensures |r| <= |s| && r == s[|s| - |r|..]
    ensures r == [] || !IsSpace(r[0])
    ensures forall i :: 0 <= i < |s| - |r| ==> IsSpace(s[i])
  {
    if s != [] && IsSpace(s[0]) then TrimLeft(s[1..]) else s
  }

  function TrimRight(s: string): (r: string)
    ensures |r| <= |s| && r == s[..|r|]
    ensures r == [] || !IsSpace(r[|r| - 1])
    ensures forall i :: |r| <= i < |s| ==> IsSpace(s[i])
  {
    if s != [] && IsSpace(s[|s| - 1]) then TrimRight(s[..|s| - 1]) else s
  }

  /** `s.strip()`: the longest middle part of `s` that neither starts nor ends with whitespace. */
  function Strip(s: string): (r: string)
  {
    TrimRight(TrimLeft(s))
  }

  /** What `strip` leaves is a piece of the input with only whitespace cut off either side. */
  lemma StripSpec(s: string) returns (k: nat)
    ensures var r := Strip(s);
      && k + |r| <= |s| && r == s[k..k + |r|]
      && (r == [] || (!IsSpace(r[0]) && !IsSpace(r[|r| - 1])))
      && (forall i :: 0 <= i < k ==> IsSpace(s[i]))
      && (forall i :: k + |r| <= i < |s| ==> IsSpace(s[i]))
  {
    var l := TrimLeft(s);
    var r := Strip(s);
    k := |s| - |l|;
    assert r == TrimRight(l);
    assert l == s[k..];
    assert r == l[..|r|];
    StripPieces(s, l, r, k);
  }

  /** The pieces of `strip`: `l` is `s` without its leading run of
      whitespace, `r` is `l` without its trailing one. */
  lemma StripPieces(s: string, l: string, r: string, k: nat)
    requires k + |l| == |s| && l == s[k..]
    requires l == [] || !IsSpace(l[0])
    requires |r| <= |l| && r == l[..|r|]
    requires r == [] || !IsSpace(r[|r| - 1])
    requires forall i :: |r| <= i < |l| ==> IsSpace(l[i])
    requires forall i :: 0 <= i < k ==> IsSpace(s[i])
    ensures k + |r| <= |s| && r == s[k..k + |r|]
    ensures r == [] || (!IsSpace(r[0]) && !IsSpace(r[|r| - 1]))
    ensures forall i :: 0 <= i < k ==> IsSpace(s[i])
    ensures forall i :: k + |r| <= i < |s| ==> IsSpace(s[i])
  {
    SliceOfSlice(s, k, |r|);
    if r != [] {
      assert r[0] == l[0];
    }
    forall i | k + |r| <= i < |s| ensures IsSpace(s[i]) {
      assert s[i] == l[i - k];
    }
  }

  lemma SliceOfSlice(s: string, k: nat, n: nat)
    requires k + n <= |s|
    ensures s[k..][..n] == s[k..k + n]
  {
  }

  lemma StripNoEdgeSpace(s: string)
    requires s == [] || (!IsSpace(s[0]) && !IsSpace(s[|s| - 1]))
    ensures Strip(s) == s
  {
  }

  lemma StripIdempotent(s: string)
    ensures Strip(Strip(s)) == Strip(s)
  {
    var _ := StripSpec(s);
    StripNoEdgeSpace(Strip(s));
  }

  // ---------------------------------------------------------------------
  // Substring test: Python's `p in s` on strings.
  // ---------------------------------------------------------------------

  predicate StartsWith(s: string, p: string)
  {
    |p| <= |s| && s[..|p|] == p
  }

  predicate Contains(s: string, p: string)
  {
    StartsWith(s, p) || (s != [] && Contains(s[1..], p))
  }

  predicate OccursAt(s: string, p: string, i: int)
  {
    0 <= i && i + |p| <= |s| && s[i..i + |p|] == p
  }

  lemma {:induction false} ContainsIff(s: string, p: string)
    ensures Contains(s, p) <==> exists i :: OccursAt(s, p, i)
  {
    if StartsWith(s, p) {
      assert OccursAt(s, p, 0);
    } else if s != [] {
      ContainsIff(s[1..], p);
      forall i | OccursAt(s, p, i) ensures OccursAt(s[1..], p, i - 1) {
        assert s[1..][i - 1..i - 1 + |p|] == s[i..i + |p|];
      }
      if Contains(s[1..], p) {
        var i :| OccursAt(s[1..], p, i);
        assert s[1..][i..i + |p|] == s[i + 1..i + 1 + |p|];
        assert OccursAt(s, p, i + 1);
      }
    }
  }

  /** An occurrence of a space-free word in `a + " " + b` lies wholly in `a` or wholly in `b`. */
  lemma OccursAcrossSpace(a: string, b: string, p: string, i: int)
    requires forall j :: 0 <= j < |p| ==> p[j] != ' '
    requires OccursAt(a + " " + b, p, i)
    ensures OccursAt(a, p, i) || OccursAt(b, p, i - |a| - 1)
  {
    var s := a + " " + b;
    forall j | i <= j < i + |p| ensures s[j] == p[j - i] {
      assert s[i..i + |p|][j - i] == s[j];
    }
    assert s[|a|] == ' ';
    assert i + |p| <= |a| || i > |a|;
    if i + |p| <= |a| {
      assert s[i..i + |p|] == a[i..i + |p|];
    } else {
      assert s[i..i + |p|] == b[i - |a| - 1..i - |a| - 1 + |p|];
    }
  }

  /** A word without a space occurs in `a + " " + b` exactly when it occurs in `a` or in `b`. */
  lemma ContainsAcrossSpace(a: string, b: string, p: string)
    requires forall i :: 0 <= i < |p| ==> p[i] != ' '
    ensures Contains(a + " " + b, p) <==> Contains(a, p) || Contains(b, p)
  {
    var s := a + " " + b;
    ContainsIff(s, p);
    ContainsIff(a, p);
    ContainsIff(b, p);
    if Contains(s, p) {
      var i :| OccursAt(s, p, i);
      OccursAcrossSpace(a, b, p, i);
    }
    if Contains(a, p) {
      var i :| OccursAt(a, p, i);
      OccursInLeft(a, b, p, i);
    }
    if Contains(b, p) {
      var i :| OccursAt(b, p, i);
      OccursInRight(a, b, p, i);
    }
  }

  lemma OccursInLeft(a: string, b: string, p: string, i: int)
    requires OccursAt(a, p, i)
    ensures OccursAt(a + " " + b, p, i)
  {
    var s := a + " " + b;
    assert s[i..i + |p|] == a[i..i + |p|];
  }

  lemma OccursInRight(a: string, b: string, p: string, i: int)
    requires OccursAt(b, p, i)
    ensures OccursAt(a + " " + b, p, |a| + 1 + i)
  {
    var s := a + " " + b;
    assert s[|a| + 1 + i..|a| + 1 + i + |p|] == b[i..i + |p|];
  }

  // ---------------------------------------------------------------------
  // " ".join(parts) and str.split()
  // ---------------------------------------------------------------------

  function JoinWith(parts: seq<string>, sep: string): string
  {
    if parts == [] then ""
    else if |parts| == 1 then parts[0]
    else parts[0] + sep + JoinWith(parts[1..], sep)
  }

  lemma JoinCons(parts: seq<string>, sep: string)
    requires |parts| > 1
    ensures JoinWith(parts, sep) == parts[0] + sep + JoinWith(parts[1..], sep)
  {
  }

  lemma JoinTwo(x: string, y: string, sep: string)
    ensures JoinWith([x, y], sep) == x + sep + y
  {
    assert [x, y][1..] == [y];
  }

  /** A word without a space occurs in the space-joined cells exactly when it occurs in one of them. */
  lemma {:induction false} ContainsInJoin(parts: seq<string>, p: string)
    requires p != [] && forall i :: 0 <= i < |p| ==> p[i] != ' '
    ensures Contains(JoinWith(parts, " "), p) <==> exists j :: 0 <= j < |parts| && Contains(parts[j], p)
  {
    if parts == [] {
      assert !StartsWith("", p);
    } else if |parts| > 1 {
      ContainsInJoin(parts[1..], p);
      ContainsAcrossSpace(parts[0], JoinWith(parts[1..], " "), p);
      if exists j :: 0 <= j < |parts| && Contains(parts[j], p) {
        var j :| 0 <= j < |parts| && Contains(parts[j], p);
        if j > 0 {
          assert parts[1..][j - 1] == parts[j];
        }
      }
    }
  }

  /** The longest prefix of `s` without whitespace. */
  function TakeWord(s: string): (w: string)
    ensures |w| <= |s| && w == s[..|w|] && NoSpace(w)
    ensures |w| == |s| || IsSpace(s[|w|])
    ensures s != [] && !IsSpace(s[0]) ==> w != []
  {
    if s == [] || IsSpace(s[0]) then [] else [s[0]] + TakeWord(s[1..])
  }

  /** `s.split()`: the maximal runs of non-whitespace characters. */
  function Words(s: string): seq<string>
    decreases |s|
  {
    var t := TrimLeft(s);
    if t == [] then []
    else
      var w := TakeWord(t);
      [w] + Words(t[|w|..])
  }

  /** Every piece `split()` yields is a non-empty word without whitespace. */
  lemma {:induction false} WordsAreWords(s: string)
    ensures forall i :: 0 <= i < |Words(s)| ==> IsWord(Words(s)[i])
    decreases |s|
  {
    var t := TrimLeft(s);
    if t != [] {
      var w := TakeWord(t);
      WordsAreWords(t[|w|..]);
      var rest := Words(t[|w|..]);
      assert Words(s) == [w] + rest;
      forall i | 0 < i < |Words(s)| ensures IsWord(Words(s)[i]) {
        assert Words(s)[i] == rest[i - 1];
      }
    }
  }

  lemma TakeWordOfJoin(w: string, rest: string)
    requires NoSpace(w)
    ensures TakeWord(w + " " + rest) == w
  {
    if w == [] {
    } else {
      assert (w + " " + rest)[1..] == w[1..] + " " + rest;
      TakeWordOfJoin(w[1..], rest);
    }
  }

  lemma TakeWordAll(w: string)
    requires NoSpace(w)
    ensures TakeWord(w) == w
  {
    if w != [] {
      TakeWordAll(w[1..]);
    }
  }

  lemma WordsSingle(w: string)
    requires IsWord(w)
    ensures Words(w) == [w]
  {
    TakeWordAll(w);
    assert w[|w|..] == [];
  }

  lemma WordsSkipSpace(rest: string)
    ensures Words(" " + rest) == Words(rest)
  {
    TrimLeftSpace(rest);
  }

  lemma TrimLeftSpace(rest: string)
    ensures TrimLeft(" " + rest) == TrimLeft(rest)
  {
    AppendParts(" ", rest);
  }

  lemma WordsFront(w: string, tail: string)
    requires IsWord(w) && TakeWord(w + tail) == w
    ensures Words(w + tail) == [w] + Words(tail)
  {
    var s := w + tail;
    assert TrimLeft(s) == s;
    assert s[|w|..] == tail;
  }

  lemma WordsCons(w: string, rest: string)
    requires IsWord(w)
    ensures Words(w + " " + rest) == [w] + Words(rest)
  {
    TakeWordOfJoin(w, rest);
    assert w + " " + rest == w + (" " + rest);
    WordsFront(w, " " + rest);
    WordsSkipSpace(rest);
  }

  /** `" ".join(ws).split()` gives back `ws` when every item is a non-empty word. */
  lemma {:induction false} WordsOfJoin(ws: seq<string>)
    requires forall i :: 0 <= i < |ws| ==> IsWord(ws[i])
    ensures Words(JoinWith(ws, " ")) == ws
  {
    if ws == [] {
      assert JoinWith(ws, " ") == [];
    } else if |ws| == 1 {
      WordsSingle(ws[0]);
      assert JoinWith(ws, " ") == ws[0];
    } else {
      assert IsWord(ws[0]);
      WordsOfJoin(ws[1..]);
      WordsOfJoinStep(ws);
    }
  }

  lemma WordsOfJoinStep(ws: seq<string>)
    requires |ws| > 1 && IsWord(ws[0])
    requires Words(JoinWith(ws[1..], " ")) == ws[1..]
    ensures Words(JoinWith(ws, " ")) == ws
  {
    var tail := JoinWith(ws[1..], " ");
    WordsCons(ws[0], tail);
    JoinCons(ws, " ");
    assert [ws[0]] + ws[1..] == ws;
  }

  lemma {:induction false} JoinedWordsEdges(ws: seq<string>)
    requires forall i :: 0 <= i < |ws| ==> IsWord(ws[i])
    ensures var s := JoinWith(ws, " "); s == [] || (!IsSpace(s[0]) && !IsSpace(s[|s| - 1]))
  {
    if |ws| > 1 {
      JoinedWordsEdges(ws[1..]);
    }
  }

  /** `s.replace(a, b)` for single characters. */
  function ReplaceChar(s: string, a: char, b: char): (r: string)
    ensures |r| == |s|
    ensures forall i :: 0 <= i < |s| ==> r[i] == if s[i] == a then b else s[i]
  {
    seq(|s|, i requires 0 <= i < |s| => if s[i] == a then b else s[i])
  }

  // ---------------------------------------------------------------------
  // normalize_text
  // ---------------------------------------------------------------------

  const Entity: string := "&nbsp;"

  /** `s.replace("&nbsp;", " ")`: non-overlapping occurrences, left to right. */
  function ReplaceEntity(s: string): string
  {
    if StartsWith(s, Entity) then " " + ReplaceEntity(s[|Entity|..])
    else if s == [] then []
    else [s[0]] + ReplaceEntity(s[1..])
  }

  /** `re.sub(r"\s+", " ", s)`: every run of whitespace becomes one space. */
  function CollapseSpaces(s: string): string
  {
    if s == [] then []
    else if IsSpace(s[0]) && |s| > 1 && IsSpace(s[1]) then CollapseSpaces(s[1..])
    else [if IsSpace(s[0]) then ' ' else s[0]] + CollapseSpaces(s[1..])
  }

  /** `normalize_text` from master.py, shifts.py, ta_sched.py and test.py. The
      falsy-input guard returns "" for the empty string, as the general path does. */
  function NormalizeText(s: string): string
  {
    if s == [] then ""
    else Strip(CollapseSpaces(ReplaceEntity(ReplaceChar(s, '\U{A0}', ' '))))
  }

  predicate NoEntity(s: string)
  {
    s == [] || (!StartsWith(s, Entity) && NoEntity(s[1..]))
  }

  predicate OnlyPlainSpaces(t: string)
  {
    forall i :: 0 <= i < |t| && IsSpace(t[i]) ==> t[i] == ' '
  }

  predicate NoDoubleSpace(t: string)
  {
    forall i :: 0 <= i < |t| - 1 ==> !(t[i] == ' ' && t[i + 1] == ' ')
  }

  /** What `normalize_text` promises of its result. */
  predicate IsNormalText(t: string)
  {
    && OnlyPlainSpaces(t)
    && (t == [] || (t[0] != ' ' && t[|t| - 1] != ' '))
    && NoDoubleSpace(t)
    && NoEntity(t)
  }

  predicate SpaceFree(w: string)
  {
    forall i :: 0 <= i < |w| ==> w[i] != ' '
  }

  lemma StartsWithCons(c: char, r: string, w: string)
    requires w != []
    ensures StartsWith([c] + r, w) <==> w[0] == c && StartsWith(r, w[1..])
  {
    if |w| <= 1 + |r| {
      assert ([c] + r)[..|w|] == [c] + r[..|w| - 1];
    }
  }

  /** `ReplaceEntity` only writes spaces, so a space-free word at its front was already there. */
  lemma {:induction false} ReplaceEntityKeepsWord(s: string, w: string)
    requires SpaceFree(w)
    ensures StartsWith(ReplaceEntity(s), w) ==> StartsWith(s, w)
    decreases |s|
  {
    if w != [] {
      if StartsWith(s, Entity) {
        assert ReplaceEntity(s)[0] == ' ';
      } else if s != [] {
        ReplaceEntityKeepsWord(s[1..], w[1..]);
        StartsWithCons(s[0], ReplaceEntity(s[1..]), w);
        StartsWithCons(s[0], s[1..], w);
        assert [s[0]] + s[1..] == s;
      }
    }
  }

  lemma {:induction false} ReplaceEntityNoEntity(s: string)
    ensures NoEntity(ReplaceEntity(s))
    decreases |s|
  {
    if StartsWith(s, Entity) {
      ReplaceEntityNoEntity(s[|Entity|..]);
      assert (" " + ReplaceEntity(s[|Entity|..]))[1..] == ReplaceEntity(s[|Entity|..]);
    } else if s != [] {
      var r := ReplaceEntity(s[1..]);
      ReplaceEntityNoEntity(s[1..]);
      assert ([s[0]] + r)[1..] == r;
      ReplaceEntityKeepsWord(s[1..], Entity[1..]);
      StartsWithCons(s[0], r, Entity);
      StartsWithCons(s[0], s[1..], Entity);
      assert [s[0]] + s[1..] == s;
    }
  }

  lemma {:induction false} ReplaceEntityFixpoint(s: string)
    requires NoEntity(s)
    ensures ReplaceEntity(s) == s
  {
    if s != [] {
      ReplaceEntityFixpoint(s[1..]);
    }
  }

  lemma CollapseFirst(s: string)
    requires s != [] && IsSpace(s[0])
    ensures CollapseSpaces(s) != [] && CollapseSpaces(s)[0] == ' '
    decreases |s|
  {
    if |s| > 1 && IsSpace(s[1]) {
      CollapseFirst(s[1..]);
    }
  }

  lemma CollapseFirstKept(s: string)
    requires s != [] && !IsSpace(s[0])
    ensures CollapseSpaces(s) == [s[0]] + CollapseSpaces(s[1..])
  {
  }

  lemma {:induction false} CollapseShape(s: string)
    ensures OnlyPlainSpaces(CollapseSpaces(s)) && NoDoubleSpace(CollapseSpaces(s))
    decreases |s|
  {
    if s != [] {
      CollapseShape(s[1..]);
      if IsSpace(s[0]) && |s| > 1 && !IsSpace(s[1]) {
        CollapseFirstKept(s[1..]);
      }
    }
  }

  /** Collapsing only writes spaces, so a space-free word at its front was already there. */
  lemma {:induction false} CollapseKeepsWord(s: string, w: string)
    requires SpaceFree(w)
    ensures StartsWith(CollapseSpaces(s), w) ==> StartsWith(s, w)
    decreases |s|
  {
    if w != [] && s != [] {
      if IsSpace(s[0]) {
        CollapseFirst(s);
      } else {
        CollapseKeepsWord(s[1..], w[1..]);
        StartsWithCons(s[0], CollapseSpaces(s[1..]), w);
        StartsWithCons(s[0], s[1..], w);
        assert [s[0]] + s[1..] == s;
      }
    }
  }

  lemma {:induction false} CollapseNoEntity(s: string)
    requires NoEntity(s)
    ensures NoEntity(CollapseSpaces(s))
  {
    if s == [] {
    } else if IsSpace(s[0]) && |s| > 1 && IsSpace(s[1]) {
      CollapseNoEntity(s[1..]);
    } else {
      var r := CollapseSpaces(s[1..]);
      var c := if IsSpace(s[0]) then ' ' else s[0];
      CollapseNoEntity(s[1..]);
      assert ([c] + r)[1..] == r;
      CollapseKeepsWord(s[1..], Entity[1..]);
      StartsWithCons(c, r, Entity);
      StartsWithCons(s[0], s[1..], Entity);
      assert [s[0]] + s[1..] == s;
    }
  }

  lemma {:induction false} CollapseFixpoint(s: string)
    requires OnlyPlainSpaces(s) && NoDoubleSpace(s)
    ensures CollapseSpaces(s) == s
  {
    if s != [] {
      assert OnlyPlainSpaces(s[1..]) && NoDoubleSpace(s[1..]) by {
        forall i | 0 <= i < |s| - 1 ensures s[1..][i] == s[i + 1] { }
      }
      CollapseFixpoint(s[1..]);
    }
  }

  lemma StartsWithOfPrefix(s: string, b: nat, w: string)
    requires b <= |s|
    ensures StartsWith(s[..b], w) ==> StartsWith(s, w)
  {
    if |w| <= b {
      assert s[..b][..|w|] == s[..|w|];
    }
  }

  lemma {:induction false} NoEntitySlice(s: string, a: nat, b: nat)
    requires NoEntity(s) && a <= b <= |s|
    ensures NoEntity(s[a..b])
    decreases |s|
  {
    if a > 0 {
      assert s[a..b] == s[1..][a - 1..b - 1];
      NoEntitySlice(s[1..], a - 1, b - 1);
    } else if b > 0 {
      assert s[..b][1..] == s[1..][..b - 1];
      NoEntitySlice(s[1..], 0, b - 1);
      StartsWithOfPrefix(s, b, Entity);
    }
  }

  lemma SliceShape(s: string, a: nat, b: nat)
    requires OnlyPlainSpaces(s) && NoDoubleSpace(s) && a <= b <= |s|
    ensures OnlyPlainSpaces(s[a..b]) && NoDoubleSpace(s[a..b])
  {
    var r := s[a..b];
    forall i | 0 <= i < |r| - 1 ensures !(r[i] == ' ' && r[i + 1] == ' ') {
      assert r[i] == s[a + i] && r[i + 1] == s[a + i + 1];
    }
    forall i | 0 <= i < |r| && IsSpace(r[i]) ensures r[i] == ' ' {
      assert r[i] == s[a + i];
    }
  }

  lemma StripShape(c: string)
    requires OnlyPlainSpaces(c) && NoDoubleSpace(c) && NoEntity(c)
    ensures IsNormalText(Strip(c))
  {
    StripKeepsNoEntity(c);
    StripKeepsSpaces(c);
    var _ := StripSlice(c);
    NormalOfParts(Strip(c));
  }

  lemma StripKeepsNoEntity(c: string)
    requires NoEntity(c)
    ensures NoEntity(Strip(c))
  {
    var k := StripSlice(c);
    NoEntitySlice(c, k, k + |Strip(c)|);
  }

  lemma StripKeepsSpaces(c: string)
    requires OnlyPlainSpaces(c) && NoDoubleSpace(c)
    ensures OnlyPlainSpaces(Strip(c)) && NoDoubleSpace(Strip(c))
  {
    var k := StripSlice(c);
    SliceShape(c, k, k + |Strip(c)|);
  }

  /** What `strip` leaves is a slice of its input with no whitespace at either end. */
  lemma StripSlice(s: string) returns (k: nat)
    ensures var r := Strip(s);
      && k + |r| <= |s| && r == s[k..k + |r|]
      && (r == [] || (!IsSpace(r[0]) && !IsSpace(r[|r| - 1])))
  {
    k := StripSpec(s);
  }

  lemma NormalOfParts(r: string)
    requires OnlyPlainSpaces(r) && NoDoubleSpace(r) && NoEntity(r)
    requires r == [] || (!IsSpace(r[0]) && !IsSpace(r[|r| - 1]))
    ensures IsNormalText(r)
  {
    assert IsSpace(' ');
  }

  /** The result of `normalize_text` is trimmed, uses single plain spaces only,
      and holds neither a non-breaking space nor the `&nbsp;` entity. */
  lemma NormalizeTextIsNormal(s: string)
    ensures IsNormalText(NormalizeText(s))
  {
    if s != [] {
      var a := ReplaceEntity(ReplaceChar(s, '\U{A0}', ' '));
      ReplaceEntityNoEntity(ReplaceChar(s, '\U{A0}', ' '));
      CollapseShape(a);
      CollapseNoEntity(a);
      StripShape(CollapseSpaces(a));
    }
  }

  /** Normal text is left unchanged by `normalize_text`. */
  lemma NormalTextFixpoint(t: string)
    requires IsNormalText(t)
    ensures NormalizeText(t) == t
  {
    if t != [] {
      assert ReplaceChar(t, '\U{A0}', ' ') == t;
      ReplaceEntityFixpoint(t);
      CollapseFixpoint(t);
      StripNoEdgeSpace(t);
    }
  }

  lemma NormalizeTextIdempotent(s: string)
    ensures NormalizeText(NormalizeText(s)) == NormalizeText(s)
  {
    NormalizeTextIsNormal(s);
    NormalTextFixpoint(NormalizeText(s));
  }
}
