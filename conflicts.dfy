/** The room-conflict report of conflict.py: each day's lectures grouped
    by room, each room sorted by start, and every lecture that starts
    before the one sorted just ahead of it ends is reported with it. */
module Conflicts {
  import opened Seqs
  import opened Times
  import opened Schedule

  /** A lecture with the start `parse_time` read for sorting. */
  datatype Keyed = Keyed(lecture: Lecture, start: int)

  /** A lecture with both times parsed. */
  datatype Slot = Slot(lecture: Lecture, start: int, end: int)

  /** One line of the report. */
  datatype Conflict = Conflict(day: string, room: string, first: Lecture, second: Lecture)

  function RoomOf(l: Lecture): string
  {
    l.room
  }

  function StartKey(k: Keyed): int
  {
    k.start
  }

  function SlotStart(s: Slot): int
  {
    s.start
  }

  predicate StartParses(parse: string -> Option<int>, l: Lecture)
  {
    parse(l.from).Some?
  }

  predicate StartsParse(parse: string -> Option<int>, ls: seq<Lecture>)
  {
    forall i :: 0 <= i < |ls| ==> StartParses(parse, ls[i])
  }

  /** The sort key of every lecture of a room. */
  function Keys(parse: string -> Option<int>, ls: seq<Lecture>): (ks: seq<Keyed>)
    requires StartsParse(parse, ls)
    ensures |ks| == |ls|
    ensures forall i :: 0 <= i < |ls| ==> ks[i].lecture == ls[i] && parse(ls[i].from) == Some(ks[i].start)
  {
    seq(|ls|, i requires 0 <= i < |ls| => Keyed(ls[i], parse(ls[i].from).value))
  }

  /** The end of the lecture reads under `parse`. */
  predicate EndParsesBy(parse: string -> Option<int>, k: Keyed)
  {
    parse(k.lecture.to).Some?
  }

  predicate EndsParseBy(parse: string -> Option<int>, ks: seq<Keyed>)
  {
    forall i :: 0 <= i < |ks| ==> EndParsesBy(parse, ks[i])
  }

  function SlotOf(parse: string -> Option<int>, k: Keyed): Slot
    requires EndParsesBy(parse, k)
  {
    Slot(k.lecture, k.start, parse(k.lecture.to).value)
  }

  function SlotsBy(parse: string -> Option<int>, ks: seq<Keyed>): (s: seq<Slot>)
    requires EndsParseBy(parse, ks)
    ensures |s| == |ks| && forall i :: 0 <= i < |ks| ==> s[i] == SlotOf(parse, ks[i])
  {
    seq(|ks|, i requires 0 <= i < |ks| => SlotOf(parse, ks[i]))
  }

  // ---------------------------------------------------------------------
  // The scan of one sorted room
  // ---------------------------------------------------------------------

  /** The pair at positions i and i+1 is reported. */
  predicate Clash(s: seq<Slot>, i: int)
    requires 0 <= i < |s| - 1
  {
    s[i + 1].start < s[i].end
  }

  /** The reports of the adjacent-pair scan over a sorted room. */
  function Adjacent(day: string, room: string, s: seq<Slot>): seq<Conflict>
  {
    if |s| < 2 then []
    else
      var n := |s| - 1;
      Adjacent(day, room, s[..n]) + (if Clash(s, n - 1) then [Conflict(day, room, s[n - 1].lecture, s[n].lecture)] else [])
  }

  /** A pair is reported exactly when the later lecture starts before the
      earlier one ends; touching lectures are not. */
  lemma {:induction false} AdjacentReports(day: string, room: string, s: seq<Slot>, c: Conflict)
    ensures c in Adjacent(day, room, s) <==>
      exists i :: 0 <= i < |s| - 1 && Clash(s, i) && c == Conflict(day, room, s[i].lecture, s[i + 1].lecture)
  {
    if |s| >= 2 {
      var n := |s| - 1;
      AdjacentReports(day, room, s[..n], c);
      assert forall k :: 0 <= k < n ==> s[..n][k] == s[k];
      assert forall i :: 0 <= i < n - 1 ==> (Clash(s[..n], i) <==> Clash(s, i));
    }
  }

  /** At most one report per neighbouring pair. */
  lemma {:induction false} AdjacentCount(day: string, room: string, s: seq<Slot>)
    ensures |Adjacent(day, room, s)| <= if s == [] then 0 else |s| - 1
  {
    if |s| >= 2 {
      AdjacentCount(day, room, s[..|s| - 1]);
    }
  }

  /** Two lectures of a sorted room that overlap make the earlier one
      reported with its successor, even when they are not neighbours. */
  lemma OverlapReported(day: string, room: string, s: seq<Slot>, i: int, j: int)
    requires SortedBy(s, SlotStart)
    requires 0 <= i < j < |s| && s[j].start < s[i].end
    ensures Conflict(day, room, s[i].lecture, s[i + 1].lecture) in Adjacent(day, room, s)
  {
    assert SlotStart(s[i + 1]) <= SlotStart(s[j]);
    AdjacentReports(day, room, s, Conflict(day, room, s[i].lecture, s[i + 1].lecture));
  }

  /** For lectures of positive length sorted by start, the test on a
      neighbouring pair is exactly interval overlap. */
  lemma ClashIsOverlap(s: seq<Slot>, i: int)
    requires SortedBy(s, SlotStart) && 0 <= i < |s| - 1 && s[i + 1].start < s[i + 1].end
    ensures Clash(s, i) <==> IsOverlap(s[i].start, s[i].end, s[i + 1].start, s[i + 1].end)
  {
    assert SlotStart(s[i]) <= SlotStart(s[i + 1]);
  }

  /** Only neighbours are compared: 08:00-12:00, 09:00-10:00 and
      11:00-12:00 in one room give one report, for the first two, though
      the first and the third overlap too. */
  lemma NeighboursOnly(day: string, room: string, a: Lecture, b: Lecture, c: Lecture)
    ensures var s := [Slot(a, 480, 720), Slot(b, 540, 600), Slot(c, 660, 720)];
            && IsOverlap(480, 720, 660, 720)
            && Adjacent(day, room, s) == [Conflict(day, room, a, b)]
  {
    var s := [Slot(a, 480, 720), Slot(b, 540, 600), Slot(c, 660, 720)];
    assert s[..2] == [Slot(a, 480, 720), Slot(b, 540, 600)];
    assert s[..2][..1] == [Slot(a, 480, 720)];
    assert Clash(s[..2], 0) && !Clash(s, 1);
    assert Adjacent(day, room, s[..2]) == [] + [Conflict(day, room, a, b)];
  }

  /** The first n neighbouring pairs of a sorted room as the loop meets
      them: both ends parsed, `None` at the first that does not parse. */
  function Scan(parse: string -> Option<int>, day: string, room: string, ks: seq<Keyed>, n: nat): Option<seq<Conflict>>
    requires n < |ks|
  {
    if n == 0 then Some([])
    else
      var prev := Scan(parse, day, room, ks, n - 1);
      var end1, end2 := parse(ks[n - 1].lecture.to), parse(ks[n].lecture.to);
      if prev.None? || end1.None? || end2.None? then None
      else if ks[n].start < end1.value then Some(prev.value + [Conflict(day, room, ks[n - 1].lecture, ks[n].lecture)])
      else prev
  }

  /** A scan that stopped stays stopped. */
  lemma {:induction false} ScanStops(parse: string -> Option<int>, day: string, room: string, ks: seq<Keyed>, n: nat, m: nat)
    requires n <= m < |ks| && Scan(parse, day, room, ks, n).None?
    ensures Scan(parse, day, room, ks, m).None?
    decreases m - n
  {
    if n < m {
      ScanStops(parse, day, room, ks, n, m - 1);
    }
  }

  /** The scan of a room goes through exactly when every end parses, and
      then reports the neighbouring pairs that clash. */
  lemma {:induction false} ScanAdjacent(parse: string -> Option<int>, day: string, room: string, ks: seq<Keyed>, n: nat)
    requires 0 < n < |ks|
    ensures Scan(parse, day, room, ks, n).Some? <==> EndsParseBy(parse, ks[..n + 1])
    ensures EndsParseBy(parse, ks[..n + 1]) ==> Scan(parse, day, room, ks, n) == Some(Adjacent(day, room, SlotsBy(parse, ks[..n + 1])))
  {
    if n > 1 {
      ScanAdjacent(parse, day, room, ks, n - 1);
      ScanParsesStep(parse, day, room, ks, n);
      if EndsParseBy(parse, ks[..n + 1]) {
        ScanStep(parse, day, room, ks, n);
      }
    } else {
      ScanFirst(parse, day, room, ks);
    }
  }

  /** The first n+1 ends parse exactly when the first n do and the next one does. */
  lemma EndsParseSnoc(parse: string -> Option<int>, ks: seq<Keyed>, n: nat)
    requires 0 < n < |ks|
    ensures EndsParseBy(parse, ks[..n + 1]) <==> EndsParseBy(parse, ks[..n]) && EndParsesBy(parse, ks[n])
    ensures EndsParseBy(parse, ks[..n]) ==> EndParsesBy(parse, ks[n - 1])
  {
    assert forall k :: 0 <= k < n ==> ks[..n + 1][k] == ks[..n][k] == ks[k];
    assert ks[..n + 1][n] == ks[n];
  }

  lemma ScanParsesStep(parse: string -> Option<int>, day: string, room: string, ks: seq<Keyed>, n: nat)
    requires 1 < n < |ks|
    requires Scan(parse, day, room, ks, n - 1).Some? <==> EndsParseBy(parse, ks[..n])
    ensures Scan(parse, day, room, ks, n).Some? <==> EndsParseBy(parse, ks[..n + 1])
  {
    EndsParseSnoc(parse, ks, n);
  }

  /** The slots of a longer prefix extend those of the shorter one. */
  lemma SlotsSnoc(parse: string -> Option<int>, ks: seq<Keyed>, n: nat)
    requires 0 < n < |ks| && EndsParseBy(parse, ks[..n + 1])
    ensures EndsParseBy(parse, ks[..n]) && EndParsesBy(parse, ks[n - 1]) && EndParsesBy(parse, ks[n])
    ensures var s := SlotsBy(parse, ks[..n + 1]);
            && s[..n] == SlotsBy(parse, ks[..n])
            && s[n - 1] == SlotOf(parse, ks[n - 1]) && s[n] == SlotOf(parse, ks[n])
  {
    EndsParseSnoc(parse, ks, n);
    var s := SlotsBy(parse, ks[..n + 1]);
    assert forall k :: 0 <= k <= n ==> ks[..n + 1][k] == ks[k];
    assert forall k :: 0 <= k < n ==> ks[..n][k] == ks[k];
  }

  lemma AdjacentSnoc(day: string, room: string, s: seq<Slot>)
    requires |s| >= 2
    ensures Adjacent(day, room, s) == Adjacent(day, room, s[..|s| - 1])
      + (if Clash(s, |s| - 2) then [Conflict(day, room, s[|s| - 2].lecture, s[|s| - 1].lecture)] else [])
  {
  }

  lemma AppendNone<T>(a: seq<T>)
    ensures a + [] == a
  {
  }

  /** One more pair: the scan reports it exactly when the adjacent-pair report does. */
  lemma ScanStep(parse: string -> Option<int>, day: string, room: string, ks: seq<Keyed>, n: nat)
    requires 1 < n < |ks| && EndsParseBy(parse, ks[..n + 1])
    requires EndsParseBy(parse, ks[..n]) ==> Scan(parse, day, room, ks, n - 1) == Some(Adjacent(day, room, SlotsBy(parse, ks[..n])))
    ensures Scan(parse, day, room, ks, n) == Some(Adjacent(day, room, SlotsBy(parse, ks[..n + 1])))
  {
    SlotsSnoc(parse, ks, n);
    var s := SlotsBy(parse, ks[..n + 1]);
    AdjacentSnoc(day, room, s);
    AppendNone(Adjacent(day, room, s[..n]));
  }

  lemma ScanFirst(parse: string -> Option<int>, day: string, room: string, ks: seq<Keyed>)
    requires 1 < |ks|
    ensures Scan(parse, day, room, ks, 1).Some? <==> EndsParseBy(parse, ks[..2])
    ensures EndsParseBy(parse, ks[..2]) ==> Scan(parse, day, room, ks, 1) == Some(Adjacent(day, room, SlotsBy(parse, ks[..2])))
  {
    var t := ks[..2];
    assert t[0] == ks[0] && t[1] == ks[1];
    assert EndsParseBy(parse, t) <==> EndParsesBy(parse, ks[0]) && EndParsesBy(parse, ks[1]);
    if EndsParseBy(parse, t) {
      var s := SlotsBy(parse, t);
      assert Adjacent(day, room, s[..1]) == [];
      assert Adjacent(day, room, s) == [] + (if Clash(s, 0) then [Conflict(day, room, s[0].lecture, s[1].lecture)] else []);
    }
  }

  /** What one room gives: `None` where `parse_time` raises, on a start
      while sorting or on an end while scanning. */
  function RoomClashes(parse: string -> Option<int>, day: string, room: string, ls: seq<Lecture>): Option<seq<Conflict>>
  {
    if !StartsParse(parse, ls) then None
    else
      var sorted := SortBy(Keys(parse, ls), StartKey);
      if |sorted| < 2 then Some([]) else Scan(parse, day, room, sorted, |sorted| - 1)
  }

  /** The scan: parse both lectures of each neighbouring pair and report
      them when the second starts before the first ends. */
  method ScanRoom(parse: string -> Option<int>, day: string, room: string, ks: seq<Keyed>) returns (r: Option<seq<Conflict>>)
    requires forall k :: k in ks ==> parse(k.lecture.from) == Some(k.start)
    ensures r == if |ks| < 2 then Some([]) else Scan(parse, day, room, ks, |ks| - 1)
  {
    if |ks| < 2 {
      return Some([]);
    }
    var cs: seq<Conflict> := [];
    for i := 0 to |ks| - 1
      invariant Scan(parse, day, room, ks, i) == Some(cs)
    {
      var lec1, lec2 := ks[i].lecture, ks[i + 1].lecture;
      var start1, end1 := parse(lec1.from), parse(lec1.to);
      var start2, end2 := parse(lec2.from), parse(lec2.to);
      if end1.None? || end2.None? {
        ScanStops(parse, day, room, ks, i + 1, |ks| - 1);
        return None;
      }
      assert ks[i + 1] in ks;
      if start2.value < end1.value {
        cs := cs + [Conflict(day, room, lec1, lec2)];
      }
    }
    r := Some(cs);
  }

  /** A room's report, when it goes through, is the neighbouring-pair scan
      of its lectures sorted by start. */
  lemma RoomAdjacent(parse: string -> Option<int>, day: string, room: string, ls: seq<Lecture>)
    requires RoomClashes(parse, day, room, ls).Some? && |ls| >= 2
    ensures StartsParse(parse, ls)
    ensures var sorted := SortBy(Keys(parse, ls), StartKey);
            && EndsParseBy(parse, sorted)
            && SortedBy(SlotsBy(parse, sorted), SlotStart)
            && RoomClashes(parse, day, room, ls) == Some(Adjacent(day, room, SlotsBy(parse, sorted)))
  {
    var sorted := SortBy(Keys(parse, ls), StartKey);
    ScanWhole(parse, day, room, sorted);
    SlotsSorted(parse, sorted);
  }

  lemma ScanWhole(parse: string -> Option<int>, day: string, room: string, ks: seq<Keyed>)
    requires |ks| >= 2
    ensures Scan(parse, day, room, ks, |ks| - 1).Some? <==> EndsParseBy(parse, ks)
    ensures EndsParseBy(parse, ks) ==> Scan(parse, day, room, ks, |ks| - 1) == Some(Adjacent(day, room, SlotsBy(parse, ks)))
  {
    ScanAdjacent(parse, day, room, ks, |ks| - 1);
    TakeAll(ks);
  }

  /** Parsing the ends keeps the order by start. */
  lemma SlotsSorted(parse: string -> Option<int>, ks: seq<Keyed>)
    requires SortedBy(ks, StartKey) && EndsParseBy(parse, ks)
    ensures SortedBy(SlotsBy(parse, ks), SlotStart)
  {
    var sl := SlotsBy(parse, ks);
    assert forall i :: 0 <= i < |sl| ==> SlotStart(sl[i]) == StartKey(ks[i]);
  }

  /** Every report of a room names two of its lectures, the second
      starting before the first ends. */
  lemma RoomReport(parse: string -> Option<int>, day: string, room: string, ls: seq<Lecture>, c: Conflict)
    requires RoomClashes(parse, day, room, ls).Some? && c in RoomClashes(parse, day, room, ls).value
    ensures c.day == day && c.room == room && c.first in ls && c.second in ls
    ensures && parse(c.first.to).Some? && parse(c.second.from).Some?
            && parse(c.second.from).value < parse(c.first.to).value
  {
    RoomAdjacent(parse, day, room, ls);
    var sorted := SortBy(Keys(parse, ls), StartKey);
    SortedKeysFrom(parse, ls);
    SlotReport(parse, day, room, ls, sorted, c);
  }

  lemma SlotReport(parse: string -> Option<int>, day: string, room: string, ls: seq<Lecture>, sorted: seq<Keyed>, c: Conflict)
    requires forall k :: k in sorted ==> k.lecture in ls && parse(k.lecture.from) == Some(k.start)
    requires EndsParseBy(parse, sorted)
    requires c in Adjacent(day, room, SlotsBy(parse, sorted))
    ensures c.day == day && c.room == room && c.first in ls && c.second in ls
    ensures && parse(c.first.to).Some? && parse(c.second.from).Some?
            && parse(c.second.from).value < parse(c.first.to).value
  {
    var sl := SlotsBy(parse, sorted);
    AdjacentReports(day, room, sl, c);
    var i :| 0 <= i < |sl| - 1 && Clash(sl, i) && c == Conflict(day, room, sl[i].lecture, sl[i + 1].lecture);
    assert sorted[i] in sorted && sorted[i + 1] in sorted;
  }

  /** The sorted keys are the room's lectures, each with the start read from it. */
  lemma SortedKeysFrom(parse: string -> Option<int>, ls: seq<Lecture>)
    requires StartsParse(parse, ls)
    ensures forall k :: k in SortBy(Keys(parse, ls), StartKey) ==> k.lecture in ls && parse(k.lecture.from) == Some(k.start)
  {
    var ks := Keys(parse, ls);
    forall k | k in SortBy(ks, StartKey) ensures k.lecture in ls && parse(k.lecture.from) == Some(k.start) {
      assert k in multiset(SortBy(ks, StartKey));
      assert k in multiset(ks);
      var a :| 0 <= a < |ks| && ks[a] == k;
    }
  }

  // ---------------------------------------------------------------------
  // Days and rooms
  // ---------------------------------------------------------------------

  /** `for x in xs: out += f(x)`, stopping with `None` at the first `x`
      whose part stops. */
  function Collect<T, O>(f: T -> Option<seq<O>>, xs: seq<T>): Option<seq<O>>
  {
    if xs == [] then Some([])
    else
      var prev := Collect(f, xs[..|xs| - 1]);
      var last := f(xs[|xs| - 1]);
      if prev.None? || last.None? then None else Some(prev.value + last.value)
  }

  lemma CollectSnoc<T, O>(f: T -> Option<seq<O>>, xs: seq<T>, i: int)
    requires 0 <= i < |xs|
    ensures Collect(f, xs[..i + 1]) ==
      if Collect(f, xs[..i]).None? || f(xs[i]).None? then None
      else Some(Collect(f, xs[..i]).value + f(xs[i]).value)
  {
    assert xs[..i + 1][..i] == xs[..i];
  }

  lemma {:induction false} CollectStops<T, O>(f: T -> Option<seq<O>>, xs: seq<T>, i: int)
    requires 0 <= i <= |xs| && Collect(f, xs[..i]).None?
    ensures Collect(f, xs).None?
    decreases |xs| - i
  {
    if i < |xs| {
      CollectSnoc(f, xs, i);
      CollectStops(f, xs, i + 1);
    } else {
      assert xs[..i] == xs;
    }
  }

  /** Every part goes through exactly when the whole does, and each item
      of the whole comes from one part. */
  lemma {:induction false} CollectParts<T(!new), O(!new)>(f: T -> Option<seq<O>>, xs: seq<T>)
    ensures Collect(f, xs).Some? <==> forall x :: x in xs ==> f(x).Some?
    ensures Collect(f, xs).Some? ==>
      forall c :: c in Collect(f, xs).value ==> exists x :: x in xs && c in f(x).value
  {
    if xs != [] {
      var init := xs[..|xs| - 1];
      CollectParts(f, init);
      assert xs == init + [xs[|xs| - 1]];
      assert forall x :: x in xs <==> x in init || x == xs[|xs| - 1];
    }
  }

  function RoomPart(parse: string -> Option<int>, day: string, ls: seq<Lecture>): string -> Option<seq<Conflict>>
  {
    room => RoomClashes(parse, day, room, Filter(ls, KeyIs(RoomOf, room)))
  }

  /** The reports of one day, room by room in order of first appearance. */
  function DayClashes(parse: string -> Option<int>, day: string, ls: seq<Lecture>): Option<seq<Conflict>>
  {
    Collect(RoomPart(parse, day, ls), Dedup(Map(RoomOf, ls)))
  }

  function DayPart(parse: string -> Option<int>, g: Grouping<string, Lecture>): string -> Option<seq<Conflict>>
  {
    day => if day in g.groups then DayClashes(parse, day, g.groups[day]) else Some([])
  }

  /** The whole report, day by day. */
  function AllClashes(parse: string -> Option<int>, g: Grouping<string, Lecture>): Option<seq<Conflict>>
  {
    Collect(DayPart(parse, g), g.keys)
  }

  /** One room: sort by start, then scan. */
  method RoomConflicts(parse: string -> Option<int>, day: string, room: string, ls: seq<Lecture>) returns (r: Option<seq<Conflict>>)
    ensures r == RoomClashes(parse, day, room, ls)
  {
    if !StartsParse(parse, ls) {
      return None;
    }
    var ks := Keys(parse, ls);
    var sorted := SortBy(ks, StartKey);
    forall k | k in sorted ensures parse(k.lecture.from) == Some(k.start) {
      assert k in multiset(ks);
    }
    r := ScanRoom(parse, day, room, sorted);
  }

  /** The rooms of one day: group by room, then each room in turn. */
  method DayConflicts(parse: string -> Option<int>, day: string, ls: seq<Lecture>) returns (r: Option<seq<Conflict>>)
    ensures r == DayClashes(parse, day, ls)
  {
    var rooms := GroupInto(ls, RoomOf, Identity);
    var f := RoomPart(parse, day, ls);
    var out: seq<Conflict> := [];
    for i := 0 to |rooms.keys|
      invariant Collect(f, rooms.keys[..i]) == Some(out)
    {
      var room := rooms.keys[i];
      MapIdentity(Filter(ls, KeyIs(RoomOf, room)));
      var c := RoomConflicts(parse, day, room, rooms.groups[room]);
      CollectSnoc(f, rooms.keys, i);
      if c.None? {
        CollectStops(f, rooms.keys, i + 1);
        return None;
      }
      out := out + c.value;
    }
    TakeAll(rooms.keys);
    r := Some(out);
  }

  /** conflict.py's conflict loop over the lecture schedule. */
  method DetectConflicts(parse: string -> Option<int>, g: Grouping<string, Lecture>) returns (r: Option<seq<Conflict>>)
    requires forall d :: d in g.keys ==> d in g.groups
    ensures r == AllClashes(parse, g)
  {
    var f := DayPart(parse, g);
    var out: seq<Conflict> := [];
    for i := 0 to |g.keys|
      invariant Collect(f, g.keys[..i]) == Some(out)
    {
      var day := g.keys[i];
      var c := DayConflicts(parse, day, g.groups[day]);
      CollectSnoc(f, g.keys, i);
      if c.None? {
        CollectStops(f, g.keys, i + 1);
        return None;
      }
      out := out + c.value;
    }
    TakeAll(g.keys);
    r := Some(out);
  }

  /** Every line of the report names two lectures held that day in the
      reported room, the second starting before the first ends. */
  lemma ReportShape(parse: string -> Option<int>, g: Grouping<string, Lecture>, c: Conflict)
    requires AllClashes(parse, g).Some? && c in AllClashes(parse, g).value
    ensures c.day in g.keys && c.day in g.groups
    ensures c.first in g.groups[c.day] && c.second in g.groups[c.day]
    ensures c.first.room == c.room && c.second.room == c.room
    ensures && parse(c.first.to).Some? && parse(c.second.from).Some?
            && parse(c.second.from).value < parse(c.first.to).value
  {
    CollectParts(DayPart(parse, g), g.keys);
    var d :| d in g.keys && c in DayPart(parse, g)(d).value;
    assert d in g.groups;
    var ls := g.groups[d];
    var rooms := Dedup(Map(RoomOf, ls));
    CollectParts(RoomPart(parse, d, ls), rooms);
    var room :| room in rooms && c in RoomPart(parse, d, ls)(room).value;
    var mine := Filter(ls, KeyIs(RoomOf, room));
    RoomReport(parse, d, room, mine, c);
  }
}
