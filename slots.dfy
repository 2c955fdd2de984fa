/** The "used time slots" of the lecture sheets (master.py, lecture-sech.py,
    per-instructor.py): every session is cut into fixed-width slots from its
    own start, the slots of all sessions are pooled in a set and sorted, and
    each session is then drawn over the first through last slot it overlaps. */
module Slots {
  import opened Seqs
  import opened Text
  import opened Times

  /** A slot (start, end) in minutes. */
  datatype Slot = Slot(start: int, end: int)

  /** The times of one entry, both `None` when the entry is skipped. */
  datatype Span = Span(from: Option<int>, to: Option<int>)

  /** Python's order on (start, end) tuples. */
  predicate SlotLess(a: Slot, b: Slot)
  {
    a.start < b.start || (a.start == b.start && a.end < b.end)
  }

  predicate StrictlySorted(s: seq<Slot>)
  {
    forall i, j :: 0 <= i < j < |s| ==> SlotLess(s[i], s[j])
  }

  // ---------------------------------------------------------------------
  // The slots of one session
  // ---------------------------------------------------------------------

  /** The slots the `while current < end` loop adds, starting from `cur`. */
  function SessionSlots(cur: int, end: int, w: int): (r: set<Slot>)
    requires w > 0
    ensures forall x :: x in r ==> x.end == x.start + w && cur <= x.start < end
    decreases end - cur
  {
    if cur >= end then {} else {Slot(cur, cur + w)} + SessionSlots(cur + w, end, w)
  }

  function NthSlot(start: int, w: int, k: nat): Slot
  {
    Slot(start + k * w, start + (k + 1) * w)
  }

  /** Slot k + 1 counted from `s` is slot k counted from `s + w`. */
  lemma NthShift(s: int, w: int, k: nat)
    ensures NthSlot(s + w, w, k) == NthSlot(s, w, k + 1)
  {
    assert (k + 1) * w == k * w + w && (k + 2) * w == (k + 1) * w + w;
  }

  lemma {:induction false} SessionSlotsAreNth(s: int, e: int, w: int, x: Slot) returns (k: nat)
    requires w > 0 && x in SessionSlots(s, e, w)
    ensures s + k * w < e && x == NthSlot(s, w, k)
    decreases e - s
  {
    if x == Slot(s, s + w) {
      k := 0;
    } else {
      var k' := SessionSlotsAreNth(s + w, e, w, x);
      NthShift(s, w, k');
      assert s + (k' + 1) * w == s + w + k' * w;
      k := k' + 1;
    }
  }

  lemma {:induction false} NthInSessionSlots(s: int, e: int, w: int, k: nat)
    requires w > 0 && s + k * w < e
    ensures NthSlot(s, w, k) in SessionSlots(s, e, w)
    decreases k
  {
    if k > 0 {
      assert s + w + (k - 1) * w == s + k * w;
      NthInSessionSlots(s + w, e, w, k - 1);
      NthShift(s, w, k - 1);
    }
  }

  /** The slots of a session are exactly (start + k*w, start + (k+1)*w) for
      every k with start + k*w < end. */
  lemma SessionSlotsShape(s: int, e: int, w: int, x: Slot)
    requires w > 0
    ensures x in SessionSlots(s, e, w) <==> exists k: nat :: s + k * w < e && x == NthSlot(s, w, k)
  {
    if x in SessionSlots(s, e, w) {
      var k := SessionSlotsAreNth(s, e, w, x);
    }
    if exists k: nat :: s + k * w < e && x == NthSlot(s, w, k) {
      var k: nat :| s + k * w < e && x == NthSlot(s, w, k);
      NthInSessionSlots(s, e, w, k);
    }
  }

  /** A session with start < end has a slot starting exactly at its start. */
  lemma FirstSlot(s: int, e: int, w: int)
    requires w > 0 && s < e
    ensures Slot(s, s + w) in SessionSlots(s, e, w)
  {
  }

  /** Every minute of the session lies in one of its slots; in particular
      the last slot ends at or after the session's end. */
  lemma {:induction false} SlotsCover(s: int, e: int, w: int, t: int)
    requires w > 0 && s <= t < e
    ensures exists x :: x in SessionSlots(s, e, w) && x.start <= t < x.end
    decreases e - s
  {
    if t < s + w {
      assert Slot(s, s + w) in SessionSlots(s, e, w);
    } else {
      SlotsCover(s + w, e, w, t);
    }
  }

  /** 09:00-10:05 in 30-minute slots reaches into the 10:00-10:30 slot. */
  lemma SlotsExample()
    ensures SessionSlots(540, 605, 30) == {Slot(540, 570), Slot(570, 600), Slot(600, 630)}
  {
    assert SessionSlots(630, 605, 30) == {};
  }

  // ---------------------------------------------------------------------
  // Reading an entry's "From" and "To"
  // ---------------------------------------------------------------------

  /** How a script tests and reads an entry's "From" and "To" texts. */
  datatype Reading =
    | TestStripped  // master.py, lecture-sech.py: skipped when either strips to ""; the text itself is parsed
    | ReadStripped  // generate_used_time_slots of per-instructor.py: both stripped, then tested and parsed
    | TestRaw       // add_entry of per-instructor.py: skipped when either is ""; the text itself is parsed

  /** The text `strptime` receives. */
  function ReadText(s: string, how: Reading): string
  {
    if how == ReadStripped then Strip(s) else s
  }

  /** Whether the script skips the entry for this field. */
  predicate IsBlank(s: string, how: Reading)
  {
    if how == TestRaw then s == [] else Strip(s) == []
  }

  /** The span of a skipped entry. */
  const Skipped: Span := Span(None, None)

  /** One entry's span: `Skipped` when either field is blank, the two
      parsed times otherwise; `None` where `strptime` raises and the
      script stops. */
  function SpanOf(from: string, to: string, how: Reading): Option<Span>
  {
    if IsBlank(from, how) || IsBlank(to, how) then Some(Skipped)
    else
      var a, b := ParseClock(ReadText(from, how)), ParseClock(ReadText(to, how));
      if a.Some? && b.Some? then Some(Span(a, b)) else None
  }

  /** `SpanOf` as a function of one ("From", "To") pair. */
  function Reader(how: Reading): ((string, string)) -> Option<Span>
  {
    (t: (string, string)) => SpanOf(t.0, t.1, how)
  }

  /** The spans of a list of ("From", "To") texts; `None` once one raises. */
  function SpansOf(ts: seq<(string, string)>, how: Reading): Option<seq<Span>>
  {
    MapAll(ts, Reader(how))
  }

  /** Printed times are read back under every reading. */
  lemma SpanOfClocks(a: int, b: int, how: Reading)
    requires 0 <= a < MinutesPerDay && 0 <= b < MinutesPerDay
    ensures SpanOf(FormatClock(a), FormatClock(b), how) == Some(Span(Some(a), Some(b)))
  {
    FormatClockNoSpace(a);
    FormatClockNoSpace(b);
    ParseFormatClock(a);
    ParseFormatClock(b);
  }

  /** A time with a leading space stops master.py and lecture-sech.py, whose
      `strptime` gets the text unstripped, but not the slot pass of
      per-instructor.py, which strips it first. */
  lemma PaddedTimeStops(a: int, b: int)
    requires 0 <= a < MinutesPerDay && 0 <= b < MinutesPerDay
    ensures SpanOf(" " + FormatClock(a), FormatClock(b), TestStripped).None?
    ensures SpanOf(" " + FormatClock(a), FormatClock(b), TestRaw).None?
    ensures SpanOf(" " + FormatClock(a), FormatClock(b), ReadStripped) == Some(Span(Some(a), Some(b)))
  {
    var x, y := FormatClock(a), FormatClock(b);
    FormatClockNoSpace(a);
    FormatClockNoSpace(b);
    ParseFormatClock(a);
    ParseFormatClock(b);
    ClockShape(a);
    PaddedClockFails(x);
    StripLeadingSpace(x);
    PaddedSpan(x, y, a, b);
  }

  /** The same, for any texts that behave as printed times do. */
  lemma PaddedSpan(x: string, y: string, a: int, b: int)
    requires x != [] && Strip(x) == x && ParseClock(x) == Some(a)
    requires y != [] && Strip(y) == y && ParseClock(y) == Some(b)
    requires Strip(" " + x) == x && ParseClock(" " + x).None?
    ensures SpanOf(" " + x, y, TestStripped).None?
    ensures SpanOf(" " + x, y, TestRaw).None?
    ensures SpanOf(" " + x, y, ReadStripped) == Some(Span(Some(a), Some(b)))
  {
    var px := " " + x;
    assert px != [];
    assert ReadText(px, TestStripped) == px && ReadText(px, TestRaw) == px;
    assert ReadText(px, ReadStripped) == x && ReadText(y, ReadStripped) == y;
    assert !IsBlank(px, TestStripped) && !IsBlank(px, TestRaw) && !IsBlank(px, ReadStripped);
  }

  /** A printed time is five characters with its one colon in the middle. */
  lemma ClockShape(a: int)
    requires 0 <= a < MinutesPerDay
    ensures var x := FormatClock(a);
      |x| == 5 && x[2] == ':' && ':' !in x[..2] && ':' !in x[3..]
  {
    var x := FormatClock(a);
    var h, m := TwoDigits(a / 60), TwoDigits(a % 60);
    FormatClockParts(a);
    TwoDigitsValue(a / 60);
    TwoDigitsValue(a % 60);
    DigitsNoColon(h);
    DigitsNoColon(m);
    assert x[..2] == h && x[3..] == m;
  }

  lemma StripLeadingSpace(x: string)
    requires x != [] && Strip(x) == x
    ensures Strip(" " + x) == x
  {
    var y := " " + x;
    assert y[1..] == x;
    assert TrimLeft(y) == TrimLeft(x);
  }

  /** The hour field of " HH:MM" has three characters, more than `%H` takes. */
  lemma PaddedClockFails(x: string)
    requires |x| == 5 && x[2] == ':' && ':' !in x[..2] && ':' !in x[3..]
    ensures ParseClock(" " + x).None?
  {
    var y, h := " " + x, " " + x[..2];
    assert y == h + [':'] + x[3..];
    assert ':' !in h;
    SplitOnFront(h, ':', x[3..]);
    SplitOnFree(x[3..], ':');
    assert SplitOn(y, ':') == [h, x[3..]];
    assert !HourField(h);
  }

  /** A field of spaces only is skipped where the blank test strips, and
      stops `add_entry` of per-instructor.py, which tests only for "". */
  lemma SpacesField(to: string)
    requires to != []
    ensures SpanOf(" ", to, TestStripped) == Some(Skipped)
    ensures SpanOf(" ", to, TestRaw).None?
  {
    assert Strip(" ") == [];
    assert !IsBlank(" ", TestRaw) && !IsBlank(to, TestRaw);
    SplitOnFree(" ", ':');
    assert ParseClock(ReadText(" ", TestRaw)).None?;
  }

  // ---------------------------------------------------------------------
  // generate_used_time_slots
  // ---------------------------------------------------------------------

  /** An entry with a blank time contributes no slot. */
  function EntrySlots(e: Span, w: int): set<Slot>
    requires w > 0
  {
    if e.from.Some? && e.to.Some? then SessionSlots(e.from.value, e.to.value, w) else {}
  }

  /** The union of the slots of all entries. */
  function UsedSlots(es: seq<Span>, w: int): set<Slot>
    requires w > 0
  {
    if es == [] then {} else UsedSlots(es[..|es| - 1], w) + EntrySlots(es[|es| - 1], w)
  }

  lemma {:induction false} UsedSlotsAppend(a: seq<Span>, b: seq<Span>, w: int)
    requires w > 0
    ensures UsedSlots(a + b, w) == UsedSlots(a, w) + UsedSlots(b, w)
    decreases |b|
  {
    if b != [] {
      assert (a + b)[..|a + b| - 1] == a + b[..|b| - 1];
      UsedSlotsAppend(a, b[..|b| - 1], w);
    } else {
      assert a + b == a;
    }
  }

  /** A slot is used exactly when some entry with both times produces it. */
  lemma {:induction false} UsedSlotsMember(es: seq<Span>, w: int, x: Slot)
    requires w > 0
    ensures x in UsedSlots(es, w) <==> exists i :: 0 <= i < |es| && x in EntrySlots(es[i], w)
  {
    if es != [] {
      var init, last := es[..|es| - 1], es[|es| - 1];
      UsedSlotsMember(init, w, x);
      assert es == init + [last];
      UsedSlotsSnoc(init, last, w, x);
    }
  }

  lemma UsedSlotsSnoc(init: seq<Span>, last: Span, w: int, x: Slot)
    requires w > 0
    requires x in UsedSlots(init, w) <==> exists i :: 0 <= i < |init| && x in EntrySlots(init[i], w)
    ensures x in UsedSlots(init + [last], w) <==> exists i :: 0 <= i < |init + [last]| && x in EntrySlots((init + [last])[i], w)
  {
    var es := init + [last];
    assert es[..|es| - 1] == init;
    assert UsedSlots(es, w) == UsedSlots(init, w) + EntrySlots(last, w);
    if x in UsedSlots(init, w) {
      var i :| 0 <= i < |init| && x in EntrySlots(init[i], w);
      assert es[i] == init[i];
    }
    if x in EntrySlots(last, w) {
      assert es[|init|] == last;
    }
    if exists i :: 0 <= i < |es| && x in EntrySlots(es[i], w) {
      var i :| 0 <= i < |es| && x in EntrySlots(es[i], w);
      if i < |init| {
        assert init[i] == es[i];
      }
    }
  }

  /** The inner `while current < end` loop for one entry. */
  method AddEntrySlots(used: set<Slot>, e: Span, w: int) returns (u: set<Slot>)
    requires w > 0
    ensures u == used + EntrySlots(e, w)
  {
    u := used;
    if e.from.Some? && e.to.Some? {
      var start, end := e.from.value, e.to.value;
      var current := start;
      while current < end
        invariant u + SessionSlots(current, end, w) == used + SessionSlots(start, end, w)
        decreases end - current
      {
        var slotEnd := current + w;
        SessionSlotsStep(current, end, w);
        UnionRegroup(u, {Slot(current, slotEnd)}, SessionSlots(slotEnd, end, w));
        u := u + {Slot(current, slotEnd)};
        current := slotEnd;
      }
    }
  }

  lemma SessionSlotsStep(cur: int, end: int, w: int)
    requires w > 0 && cur < end
    ensures SessionSlots(cur, end, w) == {Slot(cur, cur + w)} + SessionSlots(cur + w, end, w)
  {
  }

  lemma UnionRegroup(u: set<Slot>, a: set<Slot>, b: set<Slot>)
    ensures (u + a) + b == u + (a + b)
  {
  }

  function InsertSlot(x: Slot, t: seq<Slot>): (r: seq<Slot>)
    requires StrictlySorted(t) && x !in t
    ensures StrictlySorted(r) && |r| == |t| + 1
    ensures forall y :: y in r <==> y == x || y in t
  {
    if t == [] || SlotLess(x, t[0]) then [x] + t
    else
      var rest := InsertSlot(x, t[1..]);
      SortedHeadBelow(t);
      assert forall j :: 0 <= j < |rest| ==> rest[j] in rest;
      [t[0]] + rest
  }

  /** `sorted(list(s))`: the slots of `s` in increasing order. */
  method SortSlotSet(s: set<Slot>) returns (r: seq<Slot>)
    ensures StrictlySorted(r)
    ensures forall x :: x in r <==> x in s
  {
    r := [];
    var rest := s;
    while rest != {}
      invariant StrictlySorted(r)
      invariant forall x :: x in s <==> x in r || x in rest
      invariant forall x :: x in r ==> x !in rest
      decreases |rest|
    {
      var x :| x in rest;
      r := InsertSlot(x, r);
      rest := rest - {x};
    }
  }

  /** Two strictly sorted lists with the same slots are the same list, so the
      sorted result of a set is determined by the set. */
  lemma SortedHeadBelow(t: seq<Slot>)
    requires StrictlySorted(t) && t != []
    ensures forall y :: y in t[1..] ==> SlotLess(t[0], y)
  {
    forall y | y in t[1..] ensures SlotLess(t[0], y) {
      var k :| 0 <= k < |t[1..]| && t[1..][k] == y;
      assert t[k + 1] == y;
    }
  }

  lemma SortedHeadMin(t: seq<Slot>, y: Slot)
    requires StrictlySorted(t) && y in t
    ensures t[0] == y || SlotLess(t[0], y)
  {
    var k :| 0 <= k < |t| && t[k] == y;
  }

  /** Two strictly sorted lists with the same slots are the same list, so the
      sorted result of a set is determined by the set. */
  lemma {:induction false} SortedUnique(a: seq<Slot>, b: seq<Slot>)
    requires StrictlySorted(a) && StrictlySorted(b)
    requires forall x :: x in a <==> x in b
    ensures a == b
  {
    assert a != [] ==> a[0] in b;
    assert b != [] ==> b[0] in a;
    if a != [] && b != [] {
      SortedHeadMin(a, b[0]);
      SortedHeadMin(b, a[0]);
      assert a[0] == b[0];
      SortedHeadBelow(a);
      SortedHeadBelow(b);
      forall x ensures x in a[1..] <==> x in b[1..] {
        assert x in a <==> x == a[0] || x in a[1..];
        assert x in b <==> x == b[0] || x in b[1..];
      }
      SortedUnique(a[1..], b[1..]);
      assert a == [a[0]] + a[1..] && b == [b[0]] + b[1..];
    }
  }

  /** `generate_used_time_slots` (master.py, lecture-sech.py): sorted,
      without repeats and holding exactly the slots of the entries; `None`
      where a time does not parse, which stops the script. */
  method GenerateUsedTimeSlots(ts: seq<(string, string)>, w: int, how: Reading) returns (r: Option<seq<Slot>>)
    requires w > 0
    ensures r.None? <==> exists i :: 0 <= i < |ts| && SpanOf(ts[i].0, ts[i].1, how).None?
    ensures r.Some? ==> SpansOf(ts, how).Some? && StrictlySorted(r.value)
    ensures r.Some? ==> forall x :: x in r.value <==> x in UsedSlots(SpansOf(ts, how).value, w)
  {
    var used: set<Slot> := {};
    for i := 0 to |ts|
      invariant SpansOf(ts[..i], how).Some? && used == UsedSlots(SpansOf(ts[..i], how).value, w)
    {
      var span := SpanOf(ts[i].0, ts[i].1, how);
      assert Reader(how)(ts[i]) == span;
      if span.None? {
        return None;
      }
      SpansStep(ts, i, how);
      UsedSlotsPush(SpansOf(ts[..i], how).value, span.value, w);
      used := AddEntrySlots(used, span.value, w);
    }
    TakeAll(ts);
    var slots := SortSlotSet(used);
    r := Some(slots);
  }

  /** One more readable entry extends the spans by its own. */
  lemma SpansStep(ts: seq<(string, string)>, i: int, how: Reading)
    requires 0 <= i < |ts| && SpansOf(ts[..i], how).Some? && Reader(how)(ts[i]).Some?
    ensures SpansOf(ts[..i + 1], how) == Some(SpansOf(ts[..i], how).value + [Reader(how)(ts[i]).value])
  {
    assert ts[..i + 1] == ts[..i] + [ts[i]];
    MapAllPush(ts[..i], ts[i], Reader(how));
  }

  lemma UsedSlotsPush(es: seq<Span>, e: Span, w: int)
    requires w > 0
    ensures UsedSlots(es + [e], w) == UsedSlots(es, w) + EntrySlots(e, w)
  {
    assert (es + [e])[..|es|] == es;
  }

  function Flatten<T>(days: seq<seq<T>>): seq<T>
  {
    if days == [] then [] else Flatten(days[..|days| - 1]) + days[|days| - 1]
  }

  lemma UsedSlotsStep(es: seq<Span>, i: int, w: int)
    requires w > 0 && 0 <= i < |es|
    ensures UsedSlots(es[..i + 1], w) == UsedSlots(es[..i], w) + EntrySlots(es[i], w)
  {
    assert es[..i + 1][..i] == es[..i];
  }

  lemma FlattenStep<T>(days: seq<seq<T>>, d: int)
    requires 0 <= d < |days|
    ensures Flatten(days[..d + 1]) == Flatten(days[..d]) + days[d]
  {
    assert days[..d + 1][..d] == days[..d];
  }

  /** The per-instructor variant walks a dict of per-day lists and strips
      both times first; it yields the sorted slots of all entries of all
      days, or `None` where a time does not parse. */
  method GenerateUsedTimeSlotsNested(days: seq<seq<(string, string)>>, w: int) returns (r: Option<seq<Slot>>)
    requires w > 0
    ensures r.None? <==> exists d, i :: 0 <= d < |days| && 0 <= i < |days[d]| && SpanOf(days[d][i].0, days[d][i].1, ReadStripped).None?
    ensures r.Some? ==> SpansOf(Flatten(days), ReadStripped).Some? && StrictlySorted(r.value)
    ensures r.Some? ==> forall x :: x in r.value <==> x in UsedSlots(SpansOf(Flatten(days), ReadStripped).value, w)
  {
    var used: set<Slot> := {};
    for d := 0 to |days|
      invariant SpansOf(Flatten(days[..d]), ReadStripped).Some?
      invariant used == UsedSlots(SpansOf(Flatten(days[..d]), ReadStripped).value, w)
    {
      var dayEntries := days[d];
      ghost var done := Flatten(days[..d]);
      assert done + dayEntries[..0] == done;
      for i := 0 to |dayEntries|
        invariant SpansOf(done + dayEntries[..i], ReadStripped).Some?
        invariant used == UsedSlots(SpansOf(done + dayEntries[..i], ReadStripped).value, w)
      {
        var span := SpanOf(dayEntries[i].0, dayEntries[i].1, ReadStripped);
        if span.None? {
          return None;
        }
        NestedStep(done, dayEntries, i);
        UsedSlotsPush(SpansOf(done + dayEntries[..i], ReadStripped).value, span.value, w);
        used := AddEntrySlots(used, span.value, w);
      }
      TakeAll(dayEntries);
      FlattenStep(days, d);
    }
    TakeAll(days);
    MapAllFlatten(days, Reader(ReadStripped));
    var slots := SortSlotSet(used);
    r := Some(slots);
  }

  /** Every item of every day has a result when the whole walk has them. */
  lemma {:induction false} MapAllFlatten<T, U>(days: seq<seq<T>>, f: T -> Option<U>)
    requires MapAll(Flatten(days), f).Some?
    ensures forall d, i :: 0 <= d < |days| && 0 <= i < |days[d]| ==> f(days[d][i]).Some?
  {
    if days != [] {
      var init, last := days[..|days| - 1], days[|days| - 1];
      var fi := Flatten(init);
      assert Flatten(days) == fi + last;
      forall j | 0 <= j < |fi| ensures f(fi[j]).Some? {
        assert Flatten(days)[j] == fi[j];
      }
      MapAllFlatten(init, f);
      forall d, i | 0 <= d < |days| && 0 <= i < |days[d]| ensures f(days[d][i]).Some? {
        if d < |init| {
          assert days[d] == init[d];
        } else {
          assert Flatten(days)[|fi| + i] == last[i];
        }
      }
    }
  }

  /** Entry `i` of a day, read after the entries `done`, extends the spans. */
  lemma NestedStep(done: seq<(string, string)>, day: seq<(string, string)>, i: int)
    requires 0 <= i < |day| && SpansOf(done + day[..i], ReadStripped).Some?
    requires SpanOf(day[i].0, day[i].1, ReadStripped).Some?
    ensures SpansOf(done + day[..i + 1], ReadStripped) ==
      Some(SpansOf(done + day[..i], ReadStripped).value + [SpanOf(day[i].0, day[i].1, ReadStripped).value])
  {
    assert done + day[..i + 1] == (done + day[..i]) + [day[i]];
    assert Reader(ReadStripped)(day[i]) == SpanOf(day[i].0, day[i].1, ReadStripped);
    MapAllPush(done + day[..i], day[i], Reader(ReadStripped));
  }

  /** `sorted(list(set(a + b)))` in per-instructor.py: the sorted union. */
  method MergeSlots(a: seq<Slot>, b: seq<Slot>) returns (r: seq<Slot>)
    ensures StrictlySorted(r)
    ensures forall x :: x in r <==> x in a || x in b
  {
    r := SortSlotSet(set x | x in a + b);
  }

  // ---------------------------------------------------------------------
  // Drawing a session over the slot columns
  // ---------------------------------------------------------------------

  /** `start_time < slot_end and end_time > slot_start`. */
  predicate Hits(x: Slot, start: int, end: int)
  {
    IsOverlap(start, end, x.start, x.end)
  }

  /** The index loop of the lecture sheets: the column of the first and of
      the last slot the session overlaps, counted from `offset` (4 in
      master.py and lecture-sech.py, `len(row_info) + 1` in per-instructor.py). */
  method SlotColumns(slots: seq<Slot>, start: int, end: int, offset: int) returns (cols: Option<(int, int)>)
    ensures cols.None? <==> forall i :: 0 <= i < |slots| ==> !Hits(slots[i], start, end)
    ensures cols.Some? ==>
      var (first, last) := cols.value;
      && 0 <= first - offset <= last - offset < |slots|
      && Hits(slots[first - offset], start, end) && Hits(slots[last - offset], start, end)
      && forall i :: 0 <= i < |slots| && Hits(slots[i], start, end) ==> first - offset <= i <= last - offset
  {
    var startCol: Option<int> := None;
    var endCol: Option<int> := None;
    for idx := 0 to |slots|
      invariant startCol.None? <==> forall i :: 0 <= i < idx ==> !Hits(slots[i], start, end)
      invariant startCol.None? ==> endCol.None?
      invariant startCol.Some? ==>
        && endCol.Some?
        && 0 <= startCol.value - offset <= endCol.value - offset < idx
        && Hits(slots[startCol.value - offset], start, end) && Hits(slots[endCol.value - offset], start, end)
        && forall i :: 0 <= i < idx && Hits(slots[i], start, end) ==> startCol.value - offset <= i <= endCol.value - offset
    {
      var hit := Hits(slots[idx], start, end);
      if startCol.None? && hit {
        startCol := Some(idx + offset);
      }
      if startCol.Some? && hit {
        endCol := Some(idx + offset);
      }
    }
    if startCol.Some? && endCol.Some? {
      cols := Some((startCol.value, endCol.value));
    } else {
      cols := None;
    }
  }

  /** What the sheet receives for one session. */
  datatype Placement = NoCell | Single(col: int) | Merged(first: int, last: int)

  /** No cell when nothing overlaps; a merge only when the columns differ. */
  function Place(cols: Option<(int, int)>): (p: Placement)
    requires cols.Some? ==> cols.value.0 <= cols.value.1
    ensures p.NoCell? <==> cols.None?
    ensures p.Merged? ==> cols == Some((p.first, p.last)) && p.first < p.last
    ensures p.Single? ==> cols == Some((p.col, p.col))
  {
    if cols.None? then NoCell
    else if cols.value.0 != cols.value.1 then Merged(cols.value.0, cols.value.1)
    else Single(cols.value.0)
  }

  /** The cells `p` fills are those of the slots the session overlaps:
      none, exactly one, or a merged run from the first to the last. */
  predicate Covers(p: Placement, slots: seq<Slot>, start: int, end: int, offset: int)
  {
    match p
    case NoCell => forall i :: 0 <= i < |slots| ==> !Hits(slots[i], start, end)
    case Single(c) =>
      && 0 <= c - offset < |slots| && Hits(slots[c - offset], start, end)
      && forall i :: 0 <= i < |slots| && Hits(slots[i], start, end) ==> i == c - offset
    case Merged(f, l) =>
      && 0 <= f - offset < l - offset < |slots|
      && Hits(slots[f - offset], start, end) && Hits(slots[l - offset], start, end)
      && forall i :: 0 <= i < |slots| && Hits(slots[i], start, end) ==> f - offset <= i <= l - offset
  }

  /** One entry of the drawing loops: a skipped entry draws nothing, an
      unparsable time stops the script (`None`), and otherwise the entry
      covers exactly the columns of the slots it overlaps. */
  method DrawEntry(slots: seq<Slot>, from: string, to: string, how: Reading, offset: int) returns (r: Option<Placement>)
    ensures r.None? <==> SpanOf(from, to, how).None?
    ensures SpanOf(from, to, how) == Some(Skipped) ==> r == Some(NoCell)
    ensures SpanOf(from, to, how).Some? && SpanOf(from, to, how) != Some(Skipped) ==>
      var e := SpanOf(from, to, how).value;
      e.from.Some? && e.to.Some? && r.Some? && Covers(r.value, slots, e.from.value, e.to.value, offset)
  {
    var span := SpanOf(from, to, how);
    if span.None? {
      return None;
    }
    if span.value == Skipped {
      return Some(NoCell);
    }
    var p := DrawSession(slots, span.value.from.value, span.value.to.value, offset);
    r := Some(p);
  }

  /** The column search and the merge decision for one session. */
  method DrawSession(slots: seq<Slot>, start: int, end: int, offset: int) returns (p: Placement)
    ensures Covers(p, slots, start, end, offset)
  {
    var cols := SlotColumns(slots, start, end, offset);
    p := Place(cols);
  }
}
