/** Times of day. The scripts carry times as "HH:MM" strings and turn them
    into datetimes (`strptime`) or minutes (`time_to_minutes`); here a time
    is a number of minutes since midnight. */
module Times {
  import opened Seqs
  import opened Text

  // ---------------------------------------------------------------------
  // str.split(c) for a one-character separator
  // ---------------------------------------------------------------------

  function SplitOn(s: string, c: char): (parts: seq<string>)
    ensures |parts| >= 1
    ensures forall i :: 0 <= i < |parts| ==> c !in parts[i]
  {
    if s == [] then [""]
    else
      var rest := SplitOn(s[1..], c);
      if s[0] == c then [""] + rest
      else [[s[0]] + rest[0]] + rest[1..]
  }

  function Count(s: string, c: char): nat
  {
    if s == [] then 0 else (if s[0] == c then 1 else 0) + Count(s[1..], c)
  }

  /** `s.split(c)` has one more piece than `s` has separators. */
  lemma {:induction false} SplitOnCount(s: string, c: char)
    ensures |SplitOn(s, c)| == Count(s, c) + 1
  {
    if s != [] {
      SplitOnCount(s[1..], c);
    }
  }

  /** `c.join(s.split(c)) == s`. */
  lemma {:induction false} JoinSplitOn(s: string, c: char)
    ensures JoinWith(SplitOn(s, c), [c]) == s
  {
    if s != [] {
      JoinSplitOn(s[1..], c);
      var rest := SplitOn(s[1..], c);
      assert s == [s[0]] + s[1..];
      if s[0] == c {
        assert ([""] + rest)[1..] == rest;
        assert JoinWith(SplitOn(s, c), [c]) == "" + [c] + JoinWith(rest, [c]);
      } else {
        var parts := [[s[0]] + rest[0]] + rest[1..];
        if |rest| > 1 {
          assert parts[1..] == rest[1..];
          assert JoinWith(rest, [c]) == rest[0] + [c] + JoinWith(rest[1..], [c]);
          assert JoinWith(parts, [c]) == [s[0]] + rest[0] + [c] + JoinWith(rest[1..], [c]);
        }
      }
    }
  }

  lemma {:induction false} SplitOnFree(a: string, c: char)
    requires c !in a
    ensures SplitOn(a, c) == [a]
  {
    if a != [] {
      SplitOnFree(a[1..], c);
      assert a == [a[0]] + a[1..];
    }
  }

  lemma {:induction false} SplitOnFront(a: string, c: char, b: string)
    requires c !in a
    ensures SplitOn(a + [c] + b, c) == [a] + SplitOn(b, c)
  {
    if a == [] {
      assert ([c] + b)[1..] == b;
    } else {
      assert (a + [c] + b)[1..] == a[1..] + [c] + b;
      SplitOnFront(a[1..], c, b);
      assert [a[0]] + a[1..] == a;
    }
  }

  /** `c.join(parts).split(c) == parts` when no part holds the separator. */
  lemma {:induction false} SplitOnJoin(parts: seq<string>, c: char)
    requires |parts| >= 1
    requires forall i :: 0 <= i < |parts| ==> c !in parts[i]
    ensures SplitOn(JoinWith(parts, [c]), c) == parts
  {
    if |parts| == 1 {
      SplitOnFree(parts[0], c);
    } else {
      SplitOnJoin(parts[1..], c);
      SplitOnFront(parts[0], c, JoinWith(parts[1..], [c]));
    }
  }

  // ---------------------------------------------------------------------
  // normalize_time
  // ---------------------------------------------------------------------

  /** `normalize_time`: a blank cell gives ("", ""); a cell that splits on
      "-" into exactly two pieces gives the stripped pieces; anything else
      makes the tuple unpacking fail, and the handler gives ("", ""). */
  function NormalizeTime(s: string): (string, string)
  {
    if Strip(s) == "" then ("", "")
    else
      var parts := SplitOn(s, '-');
      if |parts| == 2 then (Strip(parts[0]), Strip(parts[1])) else ("", "")
  }

  lemma SplitInTwo(s: string, c: char)
    requires |SplitOn(s, c)| == 2
    ensures var parts := SplitOn(s, c); s == parts[0] + [c] + parts[1]
  {
    JoinSplitOn(s, c);
  }

  /** With exactly one dash, `normalize_time` gives the stripped text either side of it. */
  lemma NormalizeTimeOneDash(s: string, i: int)
    requires Strip(s) != "" && 0 <= i < |s| && s[i] == '-' && Count(s, '-') == 1
    ensures NormalizeTime(s) == (Strip(s[..i]), Strip(s[i + 1..]))
  {
    SplitOnCount(s, '-');
    SeparatorPosition(s, '-', i);
  }

  lemma SeparatorPosition(s: string, c: char, i: int)
    requires |SplitOn(s, c)| == 2 && 0 <= i < |s| && s[i] == c
    ensures var parts := SplitOn(s, c); s[..i] == parts[0] && s[i + 1..] == parts[1]
  {
    var parts := SplitOn(s, c);
    SplitInTwo(s, c);
    var k := |parts[0]|;
    assert s[..k] == parts[0] && s[k + 1..] == parts[1];
    forall j | 0 <= j < k ensures s[j] == parts[0][j] { }
    forall j | k < j < |s| ensures s[j] == parts[1][j - k - 1] { }
    assert i == k;
  }

  /** With no dash, or more than one, `normalize_time` gives ("", ""). */
  lemma NormalizeTimeOtherDashes(s: string)
    requires Count(s, '-') != 1
    ensures NormalizeTime(s) == ("", "")
  {
    SplitOnCount(s, '-');
  }

  lemma StripKeepsOut(s: string, c: char)
    requires c !in s
    ensures c !in Strip(s)
  {
    var k := StripSpec(s);
    var r := Strip(s);
    forall j | 0 <= j < |r| ensures r[j] != c {
      assert r[j] == s[k + j];
    }
  }

  lemma StripEdges(s: string)
    ensures var r := Strip(s); r == [] || (!IsSpace(r[0]) && !IsSpace(r[|r| - 1]))
  {
    var _ := StripSpec(s);
  }

  /** Neither half of a normalized time holds a dash or edge whitespace. */
  lemma NormalizeTimeHalves(s: string)
    ensures var (a, b) := NormalizeTime(s);
      '-' !in a && '-' !in b
      && (a == [] || (!IsSpace(a[0]) && !IsSpace(a[|a| - 1])))
      && (b == [] || (!IsSpace(b[0]) && !IsSpace(b[|b| - 1])))
  {
    var parts := SplitOn(s, '-');
    if Strip(s) != "" && |parts| == 2 {
      StripKeepsOut(parts[0], '-');
      StripKeepsOut(parts[1], '-');
      StripEdges(parts[0]);
      StripEdges(parts[1]);
    }
  }

  // ---------------------------------------------------------------------
  // Decimal digits: `str.isdecimal()`, `\d` in a `str` pattern, `int()`
  // ---------------------------------------------------------------------

  const MinutesPerDay: int := 1440

  predicate InRun(n: int, zero: int)
  {
    zero <= n < zero + 10
  }

  /** The runs of ten decimal digits are the characters of general
      category Nd in Unicode 15.0, the digits `\d` matches and `int()`
      reads; run `k` starts at code point `ZeroAt(k)`. */
  const RunCount: int := 68

  function ZeroAt(k: int): int
    requires 0 <= k < RunCount
  {
    if k == 0 then 0x0030           // ASCII
    else if k == 1 then 0x0660      // Arabic-Indic
    else if k == 2 then 0x06F0      // Extended Arabic-Indic
    else if k == 3 then 0x07C0      // NKo
    else if k == 4 then 0x0966      // Devanagari
    else if k == 5 then 0x09E6      // Bengali
    else if k == 6 then 0x0A66      // Gurmukhi
    else if k == 7 then 0x0AE6      // Gujarati
    else if k == 8 then 0x0B66      // Oriya
    else if k == 9 then 0x0BE6      // Tamil
    else if k == 10 then 0x0C66     // Telugu
    else if k == 11 then 0x0CE6     // Kannada
    else if k == 12 then 0x0D66     // Malayalam
    else if k == 13 then 0x0DE6     // Sinhala Lith
    else if k == 14 then 0x0E50     // Thai
    else if k == 15 then 0x0ED0     // Lao
    else if k == 16 then 0x0F20     // Tibetan
    else if k == 17 then 0x1040     // Myanmar
    else if k == 18 then 0x1090     // Myanmar Shan
    else if k == 19 then 0x17E0     // Khmer
    else if k == 20 then 0x1810     // Mongolian
    else if k == 21 then 0x1946     // Limbu
    else if k == 22 then 0x19D0     // New Tai Lue
    else if k == 23 then 0x1A80     // Tai Tham Hora
    else if k == 24 then 0x1A90     // Tai Tham Tham
    else if k == 25 then 0x1B50     // Balinese
    else if k == 26 then 0x1BB0     // Sundanese
    else if k == 27 then 0x1C40     // Lepcha
    else if k == 28 then 0x1C50     // Ol Chiki
    else if k == 29 then 0xA620     // Vai
    else if k == 30 then 0xA8D0     // Saurashtra
    else if k == 31 then 0xA900     // Kayah Li
    else if k == 32 then 0xA9D0     // Javanese
    else if k == 33 then 0xA9F0     // Myanmar Tai Laing
    else if k == 34 then 0xAA50     // Cham
    else if k == 35 then 0xABF0     // Meetei Mayek
    else if k == 36 then 0xFF10     // Fullwidth
    else if k == 37 then 0x104A0    // Osmanya
    else if k == 38 then 0x10D30    // Hanifi Rohingya
    else if k == 39 then 0x11066    // Brahmi
    else if k == 40 then 0x110F0    // Sora Sompeng
    else if k == 41 then 0x11136    // Chakma
    else if k == 42 then 0x111D0    // Sharada
    else if k == 43 then 0x112F0    // Khudawadi
    else if k == 44 then 0x11450    // Newa
    else if k == 45 then 0x114D0    // Tirhuta
    else if k == 46 then 0x11650    // Modi
    else if k == 47 then 0x116C0    // Takri
    else if k == 48 then 0x11730    // Ahom
    else if k == 49 then 0x118E0    // Warang Citi
    else if k == 50 then 0x11950    // Dives Akuru
    else if k == 51 then 0x11C50    // Bhaiksuki
    else if k == 52 then 0x11D50    // Masaram Gondi
    else if k == 53 then 0x11DA0    // Gunjala Gondi
    else if k == 54 then 0x11F50    // Kawi
    else if k == 55 then 0x16A60    // Mro
    else if k == 56 then 0x16AC0    // Tangsa
    else if k == 57 then 0x16B50    // Pahawh Hmong
    else if k == 58 then 0x1D7CE    // Mathematical bold
    else if k == 59 then 0x1D7D8    // Mathematical double-struck
    else if k == 60 then 0x1D7E2    // Mathematical sans-serif
    else if k == 61 then 0x1D7EC    // Mathematical sans-serif bold
    else if k == 62 then 0x1D7F6    // Mathematical monospace
    else if k == 63 then 0x1E140    // Nyiakeng Puachue Hmong
    else if k == 64 then 0x1E2F0    // Wancho
    else if k == 65 then 0x1E4F0    // Nag Mundari
    else if k == 66 then 0x1E950    // Adlam
    else 0x1FBF0                    // Segmented
  }

  /** A run other than the ASCII one lies above U+00A0, clear of U+1680 and
      of U+2000 to U+3000, where the other whitespace characters are. */
  predicate ClearRun(z: int)
  {
    z == 0x30 || (0xA0 < z && !InRun(0x1680, z) && (z + 10 <= 0x2000 || 0x3000 < z))
  }

  /** The zero of the run, from run `k` on, that holds code point `n`, or -1. */
  function RunFrom(n: int, k: int): (z: int)
    requires 0 <= k <= RunCount
    ensures z == -1 || (InRun(n, z) && ClearRun(z))
    decreases RunCount - k
  {
    if k == RunCount then -1
    else if InRun(n, ZeroAt(k)) then ZeroAt(k)
    else RunFrom(n, k + 1)
  }

  /** `c.isdecimal()`. */
  predicate IsDecimal(c: char)
  {
    RunFrom(c as int, 0) != -1
  }

  /** The value `int()` gives one decimal digit. */
  function DigitValue(c: char): (d: int)
    requires IsDecimal(c)
    ensures 0 <= d < 10
  {
    c as int - RunFrom(c as int, 0)
  }

  predicate IsAsciiDigit(c: char)
  {
    '0' <= c <= '9'
  }

  predicate IsAscii(s: string)
  {
    forall i :: 0 <= i < |s| ==> s[i] < '\U{80}'
  }

  /** The only decimal digits below 0x80 are the ASCII ones, worth what they show. */
  lemma AsciiDecimal(c: char)
    ensures IsAsciiDigit(c) ==> IsDecimal(c) && DigitValue(c) == (c as int) - ('0' as int)
    ensures IsDecimal(c) && c < '\U{80}' ==> IsAsciiDigit(c)
  {
  }

  /** No decimal digit is whitespace, a colon, a dash or an underscore. */
  lemma DecimalIsNot(c: char)
    requires IsDecimal(c)
    ensures !IsSpace(c) && c != ':' && c != '-' && c != '+' && c != '_'
  {
  }

  predicate AllDigits(s: string)
  {
    forall i :: 0 <= i < |s| ==> IsDecimal(s[i])
  }

  predicate DigitsOrUnderscores(b: string)
  {
    forall i :: 0 <= i < |b| ==> IsDecimal(b[i]) || b[i] == '_'
  }

  /** What `int()` reads after the sign: decimal digits, with single
      underscores allowed between two digits. Read from the right, a
      numeral is a digit after nothing, after a numeral, or after a
      numeral and one underscore. */
  predicate IsNumeral(b: string)
    ensures IsNumeral(b) ==> b != [] && DigitsOrUnderscores(b) && IsDecimal(b[0])
  {
    && b != [] && IsDecimal(b[|b| - 1])
    && var p := b[..|b| - 1];
       (p == [] || IsNumeral(p) || (p[|p| - 1] == '_' && IsNumeral(p[..|p| - 1])))
  }

  /** The number the digits of `b` spell, underscores skipped. */
  function NumeralValue(b: string): (v: nat)
    requires DigitsOrUnderscores(b)
  {
    if b == [] then 0
    else if b[|b| - 1] == '_' then NumeralValue(b[..|b| - 1])
    else NumeralValue(b[..|b| - 1]) * 10 + DigitValue(b[|b| - 1])
  }

  function DigitChar(d: int): (c: char)
    requires 0 <= d < 10
    ensures IsAsciiDigit(c) && IsDecimal(c) && DigitValue(c) == d
  {
    (('0' as int) + d) as char
  }

  /** A field of one or two digits is a numeral worth its one or two digits. */
  lemma ShortNumeral(f: string)
    requires 1 <= |f| <= 2 && AllDigits(f)
    ensures IsNumeral(f)
    ensures NumeralValue(f) == if |f| == 1 then DigitValue(f[0]) else DigitValue(f[0]) * 10 + DigitValue(f[1])
  {
    assert f[..|f| - 1][..0] == [];
    if |f| == 2 {
      assert f[..1] == [f[0]];
    }
  }

  // ---------------------------------------------------------------------
  // strptime(s, "%H:%M") and strftime("%H:%M")
  // ---------------------------------------------------------------------

  /** The text `%H` matches: `2[0-3]|[0-1]\d|\d`. */
  predicate HourField(h: string)
  {
    || (|h| == 2 && h[0] == '2' && '0' <= h[1] <= '3')
    || (|h| == 2 && (h[0] == '0' || h[0] == '1') && IsDecimal(h[1]))
    || (|h| == 1 && IsDecimal(h[0]))
  }

  /** The text `%M` matches: `[0-5]\d|\d`. */
  predicate MinuteField(m: string)
  {
    || (|m| == 2 && '0' <= m[0] <= '5' && IsDecimal(m[1]))
    || (|m| == 1 && IsDecimal(m[0]))
  }

  /** A matched hour is below 24 and a matched minute below 60. */
  lemma FieldBounds(h: string, m: string)
    requires HourField(h) && MinuteField(m)
    ensures AllDigits(h) && AllDigits(m) && IsNumeral(h) && IsNumeral(m)
    ensures NumeralValue(h) < 24 && NumeralValue(m) < 60
  {
    AsciiDecimal(h[0]);
    AsciiDecimal(m[0]);
    if |h| == 2 {
      AsciiDecimal(h[1]);
    }
    ShortNumeral(h);
    ShortNumeral(m);
  }

  /** `strptime(s, "%H:%M")`: an hour field, a colon and a minute field,
      with nothing around them, read by `int()`; `None` where Python
      raises `ValueError`. */
  function ParseClock(s: string): (r: Option<int>)
    ensures r.Some? ==> 0 <= r.value < MinutesPerDay
  {
    var parts := SplitOn(s, ':');
    if |parts| == 2 then ClockOfParts(parts[0], parts[1]) else None
  }

  /** The hour and minute fields either side of the colon. */
  function ClockOfParts(h: string, m: string): (r: Option<int>)
    ensures r.Some? ==> 0 <= r.value < MinutesPerDay
  {
    if HourField(h) && MinuteField(m) then
      FieldBounds(h, m);
      Some(NumeralValue(h) * 60 + NumeralValue(m))
    else None
  }

  /** Single digits of any script either side of the colon make a time. */
  lemma ParseClockSingleDigits(x: char, y: char)
    requires IsDecimal(x) && IsDecimal(y)
    ensures ParseClock([x, ':', y]) == Some(DigitValue(x) * 60 + DigitValue(y))
  {
    DecimalIsNot(x);
    DecimalIsNot(y);
    assert [x, ':', y] == [x] + [':'] + [y];
    SplitOnFront([x], ':', [y]);
    SplitOnFree([y], ':');
    ShortNumeral([x]);
    ShortNumeral([y]);
  }

  function TwoDigits(n: int): (s: string)
    requires 0 <= n < 100
  {
    [DigitChar(n / 10), DigitChar(n % 10)]
  }

  /** `strftime("%H:%M")` of a time `m` minutes after midnight of the first day;
      times on a later day print their time of day. */
  function FormatClock(m: int): (s: string)
    ensures |s| == 5 && s[2] == ':'
  {
    var w := m % MinutesPerDay;
    TwoDigits(w / 60) + ":" + TwoDigits(w % 60)
  }

  lemma TwoDigitsValue(n: int)
    requires 0 <= n < 100
    ensures AllDigits(TwoDigits(n)) && IsNumeral(TwoDigits(n)) && NumeralValue(TwoDigits(n)) == n
  {
    ShortNumeral(TwoDigits(n));
  }

  /** The printed hour and minute are what `%H` and `%M` match. */
  lemma TwoDigitsFields(m: int)
    requires 0 <= m < MinutesPerDay
    ensures HourField(TwoDigits(m / 60)) && MinuteField(TwoDigits(m % 60))
  {
  }

  /** Printing a time of day and parsing it back gives the time again. */
  lemma ParseFormatClock(m: int)
    requires 0 <= m < MinutesPerDay
    ensures ParseClock(FormatClock(m)) == Some(m)
  {
    var h, mm := TwoDigits(m / 60), TwoDigits(m % 60);
    ClockFields(m, m / 60, m % 60);
    JoinTwo(h, mm, [':']);
    TwoDigitsValue(m / 60);
    TwoDigitsValue(m % 60);
    TwoDigitsFields(m);
    DigitsNoColon(h);
    DigitsNoColon(mm);
    SplitOnJoin([h, mm], ':');
  }

  /** A five-character ASCII time that parses prints back to itself. */
  lemma FormatParseClock(s: string)
    requires |s| == 5 && IsAscii(s) && ParseClock(s).Some?
    ensures FormatClock(ParseClock(s).value) == s
  {
    var parts := SplitOn(s, ':');
    var a, b := parts[0], parts[1];
    JoinSplitOn(s, ':');
    assert parts == [a, b];
    JoinTwo(a, b, [':']);
    assert s == a + ":" + b;
    FieldBounds(a, b);
    assert |a| == 2 && |b| == 2;
    assert a[0] == s[0] && a[1] == s[1] && b[0] == s[3] && b[1] == s[4];
    AsciiDecimal(a[0]);
    AsciiDecimal(a[1]);
    AsciiDecimal(b[0]);
    AsciiDecimal(b[1]);
    TwoDigitsOf(a);
    TwoDigitsOf(b);
    ClockFields(ParseClock(s).value, NumeralValue(a), NumeralValue(b));
  }

  /** The printed form of `h` hours and `mm` minutes. */
  lemma ClockFields(m: int, h: int, mm: int)
    requires 0 <= h < 24 && 0 <= mm < 60 && m == h * 60 + mm
    ensures FormatClock(m) == TwoDigits(h) + ":" + TwoDigits(mm)
  {
    assert m % MinutesPerDay == m;
    assert m / 60 == h && m % 60 == mm;
  }

  /** Two ASCII digits read as a number print back as the same two digits. */
  lemma TwoDigitsOf(a: string)
    requires |a| == 2 && IsAsciiDigit(a[0]) && IsAsciiDigit(a[1])
    ensures AllDigits(a) && NumeralValue(a) < 100 && TwoDigits(NumeralValue(a)) == a
  {
    AsciiDecimal(a[0]);
    AsciiDecimal(a[1]);
    ShortNumeral(a);
    var d0, d1 := DigitValue(a[0]), DigitValue(a[1]);
    var n := d0 * 10 + d1;
    assert n / 10 == d0 && n % 10 == d1;
    assert DigitChar(d0) == a[0] && DigitChar(d1) == a[1];
    assert a == [a[0], a[1]];
  }

  lemma DigitsNoColon(a: string)
    requires AllDigits(a)
    ensures ':' !in a
  {
    forall i | 0 <= i < |a| ensures a[i] != ':' {
      DecimalIsNot(a[i]);
    }
  }

  /** Python's `<` on strings: lexicographic order by code point. */
  predicate LexLess(s: string, t: string)
  {
    t != [] && (s == [] || s[0] < t[0] || (s[0] == t[0] && LexLess(s[1..], t[1..])))
  }

  lemma LexLessCons(x: char, s: string, y: char, t: string)
    ensures LexLess([x] + s, [y] + t) <==> x < y || (x == y && LexLess(s, t))
  {
    assert ([x] + s)[1..] == s && ([y] + t)[1..] == t;
  }

  lemma TwoDigitOrder(x: int, y: int)
    requires 0 <= x < 100 && 0 <= y < 100
    ensures (x / 10 < y / 10 || (x / 10 == y / 10 && x % 10 < y % 10)) <==> x < y
  {
  }

  lemma ClockOrder(a: int, b: int)
    requires 0 <= a < MinutesPerDay && 0 <= b < MinutesPerDay
    ensures (a / 60 < b / 60 || (a / 60 == b / 60 && a % 60 < b % 60)) <==> a < b
  {
  }

  lemma DigitCharOrder(x: int, y: int)
    requires 0 <= x < 10 && 0 <= y < 10
    ensures DigitChar(x) < DigitChar(y) <==> x < y
    ensures DigitChar(x) == DigitChar(y) <==> x == y
  {
  }

  lemma TwoDigitsLex(x: int, r1: string, y: int, r2: string)
    requires 0 <= x < 100 && 0 <= y < 100
    ensures LexLess(TwoDigits(x) + r1, TwoDigits(y) + r2) <==> x < y || (x == y && LexLess(r1, r2))
  {
    var a, b := TwoDigits(x) + r1, TwoDigits(y) + r2;
    assert a == [DigitChar(x / 10)] + ([DigitChar(x % 10)] + r1);
    assert b == [DigitChar(y / 10)] + ([DigitChar(y % 10)] + r2);
    LexLessCons(DigitChar(x / 10), [DigitChar(x % 10)] + r1, DigitChar(y / 10), [DigitChar(y % 10)] + r2);
    LexLessCons(DigitChar(x % 10), r1, DigitChar(y % 10), r2);
    DigitCharOrder(x / 10, y / 10);
    DigitCharOrder(x % 10, y % 10);
    TwoDigitOrder(x, y);
  }

  lemma FormatClockParts(a: int)
    requires 0 <= a < MinutesPerDay
    ensures FormatClock(a) == TwoDigits(a / 60) + (":" + TwoDigits(a % 60))
  {
    assert a % MinutesPerDay == a;
  }

  /** On zero-padded "HH:MM" strings, the string order the scripts use
      (`t >= s["From"]`, sorting slot tuples) is the order of the minutes. */
  lemma FormatClockOrder(a: int, b: int)
    requires 0 <= a < MinutesPerDay && 0 <= b < MinutesPerDay
    ensures LexLess(FormatClock(a), FormatClock(b)) <==> a < b
  {
    FormatClockParts(a);
    FormatClockParts(b);
    TwoDigitsLex(a / 60, ":" + TwoDigits(a % 60), b / 60, ":" + TwoDigits(b % 60));
    LexLessCons(':', TwoDigits(a % 60), ':', TwoDigits(b % 60));
    assert TwoDigits(a % 60) == TwoDigits(a % 60) + [];
    assert TwoDigits(b % 60) == TwoDigits(b % 60) + [];
    TwoDigitsLex(a % 60, [], b % 60, []);
    ClockOrder(a, b);
  }

  /** `parse_time` in conflict.py: strip, then `strptime`. */
  function ParseTime(t: string): Option<int>
  {
    ParseClock(Strip(t))
  }

  // ---------------------------------------------------------------------
  // time_to_minutes
  // ---------------------------------------------------------------------

  /** `int(s)`: edge whitespace, an optional sign, then a numeral of any
      script's decimal digits; `None` where `int` raises `ValueError`. */
  function ParseInt(s: string): Option<int>
  {
    IntOfStripped(Strip(s))
  }

  /** `int()` once the whitespace is gone: a numeral, or a sign and a numeral. */
  function IntOfStripped(t: string): Option<int>
  {
    if IsNumeral(t) then Some(NumeralValue(t))
    else if |t| > 1 && (t[0] == '-' || t[0] == '+') && IsNumeral(t[1..]) then
      Some((if t[0] == '-' then -1 else 1) * NumeralValue(t[1..]))
    else None
  }

  /** `time_to_minutes`: `h, m = map(int, t.split(":"))`, then `h*60 + m`;
      `None` where the unpacking or `int` raises. */
  function TimeToMinutes(t: string): Option<int>
  {
    var parts := SplitOn(t, ':');
    if |parts| != 2 then None else MinutesOfParts(parts[0], parts[1])
  }

  /** `h*60 + m` of the two pieces read by `int()`. */
  function MinutesOfParts(h: string, m: string): Option<int>
  {
    match (ParseInt(h), ParseInt(m))
    case (Some(x), Some(y)) => Some(x * 60 + y)
    case _ => None
  }

  lemma NumeralNoSpace(s: string)
    requires IsNumeral(s)
    ensures Strip(s) == s
  {
    DecimalIsNot(s[0]);
    DecimalIsNot(s[|s| - 1]);
  }

  /** Wherever `strptime` accepts a time, `time_to_minutes` reads the same minute. */
  lemma TimeToMinutesAgrees(t: string)
    requires ParseClock(t).Some?
    ensures TimeToMinutes(t) == ParseClock(t)
  {
    var parts := SplitOn(t, ':');
    PartsAgree(parts[0], parts[1]);
  }

  lemma PartsAgree(h: string, m: string)
    requires ClockOfParts(h, m).Some?
    ensures MinutesOfParts(h, m) == ClockOfParts(h, m)
  {
    ClockOfFields(h, m);
    var vh := IntOfNumeral(h);
    var vm := IntOfNumeral(m);
    assert MinutesOfParts(h, m) == Some(vh * 60 + vm);
  }

  lemma ClockOfFields(h: string, m: string)
    requires ClockOfParts(h, m).Some?
    ensures IsNumeral(h) && IsNumeral(m)
    ensures ClockOfParts(h, m) == Some(NumeralValue(h) * 60 + NumeralValue(m))
  {
    FieldBounds(h, m);
  }

  /** `int` of a bare numeral. */
  lemma IntOfNumeral(b: string) returns (v: nat)
    requires IsNumeral(b)
    ensures v == NumeralValue(b) && ParseInt(b) == Some(v)
  {
    NumeralNoSpace(b);
    v := NumeralValue(b);
  }

  /** `int` of a numeral is its value, with either sign in front of it
      and whitespace around it. */
  lemma ParseIntNumeral(b: string, sign: char)
    requires IsNumeral(b) && (sign == '-' || sign == '+')
    ensures ParseInt(b) == Some(NumeralValue(b))
    ensures ParseInt([sign] + b) == Some((if sign == '-' then -1 else 1) * NumeralValue(b))
    ensures ParseInt(" " + b + " ") == Some(NumeralValue(b))
  {
    var _ := IntOfNumeral(b);
    IntOfSigned(b, sign);
    IntOfPadded(b);
  }

  lemma IntOfSigned(b: string, sign: char)
    requires IsNumeral(b) && (sign == '-' || sign == '+')
    ensures ParseInt([sign] + b) == Some((if sign == '-' then -1 else 1) * NumeralValue(b))
  {
    DecimalIsNot(b[|b| - 1]);
    var t := [sign] + b;
    assert t[1..] == b && t[|t| - 1] == b[|b| - 1];
    StripFixed(t);
    SignedStripped(b, sign, t);
  }

  lemma SignedStripped(b: string, sign: char, t: string)
    requires IsNumeral(b) && (sign == '-' || sign == '+') && t == [sign] + b
    ensures IntOfStripped(t) == Some((if sign == '-' then -1 else 1) * NumeralValue(b))
  {
    assert t[1..] == b;
    assert !IsNumeral(t) by {
      assert !IsDecimal(t[0]);
    }
  }

  lemma StripFixed(s: string)
    requires s != [] && !IsSpace(s[0]) && !IsSpace(s[|s| - 1])
    ensures Strip(s) == s
  {
  }

  lemma IntOfPadded(b: string)
    requires IsNumeral(b)
    ensures ParseInt(" " + b + " ") == Some(NumeralValue(b))
  {
    DecimalIsNot(b[0]);
    DecimalIsNot(b[|b| - 1]);
    var u := " " + b + " ";
    StripPadded(b, u);
  }

  lemma StripPadded(b: string, u: string)
    requires b != [] && !IsSpace(b[0]) && !IsSpace(b[|b| - 1]) && u == " " + b + " "
    ensures Strip(u) == b
  {
    assert TrimLeft(u) == u[1..] by {
      assert u[1..][0] == b[0];
    }
    assert u[1..] == b + " ";
    assert TrimRight(b + " ") == b by {
      assert (b + " ")[..|b|] == b;
    }
  }

  /** The underscores of a numeral carry no value: `int("1_0") == int("10")`. */
  lemma {:induction false} NumeralUnderscore(a: string, b: string)
    requires DigitsOrUnderscores(a) && DigitsOrUnderscores(b)
    ensures DigitsOrUnderscores(a + ['_'] + b) && DigitsOrUnderscores(a + b)
    ensures NumeralValue(a + ['_'] + b) == NumeralValue(a + b)
    decreases |b|
  {
    var x, y := a + ['_'] + b, a + b;
    if b == [] {
      assert x[..|x| - 1] == a && y == a;
    } else {
      var b' := b[..|b| - 1];
      NumeralUnderscore(a, b');
      assert x[..|x| - 1] == a + ['_'] + b' && x[|x| - 1] == b[|b| - 1];
      assert y[..|y| - 1] == a + b' && y[|y| - 1] == b[|b| - 1];
    }
  }

  /** Joining two numerals with one underscore makes a numeral. */
  lemma {:induction false} NumeralJoin(a: string, b: string)
    requires IsNumeral(a) && IsNumeral(b)
    ensures IsNumeral(a + ['_'] + b)
    decreases |b|
  {
    var p, d := b[..|b| - 1], b[|b| - 1];
    if p == [] {
      assert a + ['_'] + b == a + ['_'] + [d];
      NumeralUnderscoreSnoc(a, d);
    } else if IsNumeral(p) {
      assert a + ['_'] + b == (a + ['_'] + p) + [d];
      NumeralJoin(a, p);
      NumeralSnoc(a + ['_'] + p, d);
    } else {
      var q := p[..|p| - 1];
      assert a + ['_'] + b == (a + ['_'] + q) + ['_'] + [d];
      NumeralJoin(a, q);
      NumeralUnderscoreSnoc(a + ['_'] + q, d);
    }
  }

  /** A digit after a numeral extends it. */
  lemma NumeralSnoc(p: string, d: char)
    requires IsDecimal(d) && IsNumeral(p)
    ensures IsNumeral(p + [d])
  {
    assert (p + [d])[..|p|] == p;
  }

  /** An underscore and a digit after a numeral extend it. */
  lemma NumeralUnderscoreSnoc(p: string, d: char)
    requires IsDecimal(d) && IsNumeral(p)
    ensures IsNumeral(p + ['_'] + [d])
  {
    var x := p + ['_'] + [d];
    assert x[..|x| - 1] == p + ['_'];
    assert (p + ['_'])[..|p|] == p;
  }

  lemma TimeToMinutesOfClock(m: int)
    requires 0 <= m < MinutesPerDay
    ensures TimeToMinutes(FormatClock(m)) == Some(m)
  {
    ParseFormatClock(m);
    TimeToMinutesAgrees(FormatClock(m));
  }

  // ---------------------------------------------------------------------
  // is_overlap
  // ---------------------------------------------------------------------

  /** `is_overlap`: half-open intervals [start1, end1) and [start2, end2) meet. */
  predicate IsOverlap(start1: int, end1: int, start2: int, end2: int)
  {
    !(end1 <= start2 || end2 <= start1)
  }

  predicate Within(t: int, start: int, end: int)
  {
    start <= t < end
  }

  lemma OverlapSymmetric(s1: int, e1: int, s2: int, e2: int)
    ensures IsOverlap(s1, e1, s2, e2) == IsOverlap(s2, e2, s1, e1)
  {
  }

  /** For non-empty intervals, overlap means sharing a minute; intervals that
      only touch (`end1 == start2`) share none. */
  lemma OverlapSharesMinute(s1: int, e1: int, s2: int, e2: int)
    requires s1 < e1 && s2 < e2
    ensures IsOverlap(s1, e1, s2, e2) <==> exists t :: Within(t, s1, e1) && Within(t, s2, e2)
  {
    if IsOverlap(s1, e1, s2, e2) {
      var t := if s1 < s2 then s2 else s1;
      assert Within(t, s1, e1) && Within(t, s2, e2);
    }
  }

  // ---------------------------------------------------------------------
  // normalize_times (sched.py)
  // ---------------------------------------------------------------------

  /** `normalize_times`: parse both stripped times, put the earlier first,
      and print them again; `None` where `strptime` raises. */
  function NormalizeTimes(from: string, to: string): Option<(string, string)>
  {
    var a, b := ParseClock(Strip(from)), ParseClock(Strip(to));
    if a.None? || b.None? then None
    else if a.value > b.value then Some((FormatClock(b.value), FormatClock(a.value)))
    else Some((FormatClock(a.value), FormatClock(b.value)))
  }

  /** The result is the input pair of times, in order, possibly swapped. */
  lemma NormalizeTimesOrdered(from: string, to: string)
    requires NormalizeTimes(from, to).Some?
    ensures var r := NormalizeTimes(from, to).value;
      var a, b := ParseClock(Strip(from)).value, ParseClock(Strip(to)).value;
      && ParseClock(r.0).Some? && ParseClock(r.1).Some?
      && ParseClock(r.0).value <= ParseClock(r.1).value
      && ((ParseClock(r.0).value == a && ParseClock(r.1).value == b)
          || (ParseClock(r.0).value == b && ParseClock(r.1).value == a))
  {
    var a, b := ParseClock(Strip(from)).value, ParseClock(Strip(to)).value;
    PrintedPair(NormalizeTimes(from, to).value, a, b);
  }

  /** The pair `normalize_times` prints parses back to its two times, earlier first. */
  lemma PrintedPair(r: (string, string), a: int, b: int)
    requires 0 <= a < MinutesPerDay && 0 <= b < MinutesPerDay
    requires r == if a > b then (FormatClock(b), FormatClock(a)) else (FormatClock(a), FormatClock(b))
    ensures && ParseClock(r.0).Some? && ParseClock(r.1).Some?
      && ParseClock(r.0).value <= ParseClock(r.1).value
      && ((ParseClock(r.0).value == a && ParseClock(r.1).value == b)
          || (ParseClock(r.0).value == b && ParseClock(r.1).value == a))
  {
    ParseFormatClock(a);
    ParseFormatClock(b);
  }

  lemma FormatClockNoSpace(m: int)
    ensures Strip(FormatClock(m)) == FormatClock(m)
  {
    var s := FormatClock(m);
    assert IsAsciiDigit(s[0]) && IsAsciiDigit(s[4]);
    assert !IsSpace(s[0]) && !IsSpace(s[4]);
  }

  lemma NormalizeTimesIdempotent(from: string, to: string)
    requires NormalizeTimes(from, to).Some?
    ensures var r := NormalizeTimes(from, to).value; NormalizeTimes(r.0, r.1) == Some(r)
  {
    var a, b := ParseClock(Strip(from)).value, ParseClock(Strip(to)).value;
    if a > b {
      NormalizeTimesOfClocks(b, a);
    } else {
      NormalizeTimesOfClocks(a, b);
    }
  }

  lemma NormalizeTimesOfClocks(a: int, b: int)
    requires 0 <= a <= b < MinutesPerDay
    ensures NormalizeTimes(FormatClock(a), FormatClock(b)) == Some((FormatClock(a), FormatClock(b)))
  {
    var x, y := FormatClock(a), FormatClock(b);
    ParseFormatClock(a);
    ParseFormatClock(b);
    FormatClockNoSpace(a);
    FormatClockNoSpace(b);
    var pa, pb := ParseClock(Strip(x)), ParseClock(Strip(y));
    assert pa == Some(a) && pb == Some(b);
  }

  /** Two numerals around a colon: `time_to_minutes` reads them, and
      `strptime` agrees only when the fields fit `%H` and `%M`. */
  lemma ClockTexts(h: string, m: string)
    requires IsNumeral(h) && IsNumeral(m)
    ensures TimeToMinutes(h + [':'] + m) == Some(NumeralValue(h) * 60 + NumeralValue(m))
    ensures ParseClock(h + [':'] + m) == ClockOfParts(h, m)
  {
    var t := h + [':'] + m;
    ColonSplit(h, m);
    NumeralParts(h, m);
    SplitParts(t, h, m);
  }

  lemma ColonSplit(h: string, m: string)
    requires IsNumeral(h) && IsNumeral(m)
    ensures SplitOn(h + [':'] + m, ':') == [h, m]
  {
    DigitsNoColonNumeral(h);
    DigitsNoColonNumeral(m);
    SplitOnFront(h, ':', m);
    SplitOnFree(m, ':');
  }

  lemma NumeralParts(h: string, m: string)
    requires IsNumeral(h) && IsNumeral(m)
    ensures MinutesOfParts(h, m) == Some(NumeralValue(h) * 60 + NumeralValue(m))
  {
    var vh := IntOfNumeral(h);
    var vm := IntOfNumeral(m);
    assert MinutesOfParts(h, m) == Some(vh * 60 + vm);
  }

  lemma SplitParts(t: string, h: string, m: string)
    requires SplitOn(t, ':') == [h, m]
    ensures TimeToMinutes(t) == MinutesOfParts(h, m)
    ensures ParseClock(t) == ClockOfParts(h, m)
  {
  }

  lemma DigitsNoColonNumeral(b: string)
    requires IsNumeral(b)
    ensures ':' !in b
  {
    forall i | 0 <= i < |b| ensures b[i] != ':' {
      if b[i] != '_' {
        DecimalIsNot(b[i]);
      }
    }
  }
}
