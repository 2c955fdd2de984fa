/** The assignment loop of ta_sched.py and shifts.py over a whole clinic
    schedule: how many workers each session needs, the order the sessions
    are visited in, and the run of the engine over them. */
module Staffing {
  import opened Seqs
  import opened Text
  import opened Times
  import opened Rows
  import opened Names
  import opened Schedule
  import opened Campus
  import opened Assign

  // ---------------------------------------------------------------------
  // How many workers a session needs
  // ---------------------------------------------------------------------

  /** The one New Campus practical that needs two workers. */
  const ConservativePractical := "\U{637}\U{628} \U{627}\U{644}\U{623}\U{633}\U{646}\U{627}\U{646} \U{627}\U{644}\U{62A}\U{62D}\U{641}\U{638}\U{64A} 1/ \U{639}\U{645}\U{644}\U{64A}"

  /** shifts.py: one worker for a New Campus session, except that
      practical; two for it and for every other campus. */
  function RequiredWorkers(loc: Location, course: string): (n: nat)
    ensures n == 1 <==> loc == NewCampus && course != ConservativePractical
    ensures n == 2 <==> loc != NewCampus || course == ConservativePractical
  {
    if loc == NewCampus && course != ConservativePractical then 1 else 2
  }

  /** ta_sched.py as written: the New Campus test reads `course_name`, a
      variable last set by the clinic loop, instead of the session's own
      course. */
  function RequiredWorkersAsWritten(loc: Location, staleCourse: string): nat
  {
    if loc == NewCampus then (if Strip(staleCourse) == ConservativePractical then 2 else 1) else 2
  }

  /** The value `course_name` holds after the clinic loop: the course of
      the last row that named a clinic keyword. */
  function StaleCourse(rows: seq<Row>): string
  {
    var clinics := Filter(rows, IsClinicRow);
    if clinics == [] then "" else FieldOf(Cell(clinics[|clinics| - 1], CourseCol))
  }

  /** With another course on the last keyword row, a kept session of the
      practical sits at New Campus and gets one worker as written, where
      two are intended. */
  lemma StaleRuleUnderstaffs(rows: seq<Row>, i: int)
    requires 0 <= i < |KeptSessions(rows)|
    requires KeptSessions(rows)[i].entry.course == ConservativePractical
    requires StaleCourse(rows) != ConservativePractical
    ensures var e := KeptSessions(rows)[i].entry;
      && e.location == NewCampus
      && RequiredWorkersAsWritten(e.location, StaleCourse(rows)) == 1
      && RequiredWorkers(e.location, e.course) == 2
  {
    KeptSessionLocation(rows, i);
    PracticalAtNewCampus();
    StaleCourseStripped(rows);
  }

  /** With the practical on the last keyword row, every other New Campus
      session gets two workers as written, where one is intended. */
  lemma StaleRuleOverstaffs(rows: seq<Row>, i: int)
    requires 0 <= i < |KeptSessions(rows)|
    requires KeptSessions(rows)[i].entry.location == NewCampus
    requires KeptSessions(rows)[i].entry.course != ConservativePractical
    requires StaleCourse(rows) == ConservativePractical
    ensures var e := KeptSessions(rows)[i].entry;
      && RequiredWorkersAsWritten(e.location, StaleCourse(rows)) == 2
      && RequiredWorkers(e.location, e.course) == 1
  {
    StripPractical();
  }

  /** A kept session's campus is the one its course name selects. */
  lemma KeptSessionLocation(rows: seq<Row>, i: int)
    requires 0 <= i < |KeptSessions(rows)|
    ensures KeptSessions(rows)[i].entry.location == DetermineLocation(KeptSessions(rows)[i].entry.course)
  {
    var x := KeptSessions(rows)[i];
    var ms := Map(RowSession, Filter(rows, IsClinicRow));
    assert x in KeptSessions(rows);
    assert x in ms;
    var k :| 0 <= k < |ms| && ms[k] == x;
  }

  /** The practical's name holds the practical keyword. */
  lemma PracticalAtNewCampus()
    ensures DetermineLocation(ConservativePractical) == NewCampus
  {
    assert ConservativePractical[22..26] == PracticalWord;
    assert OccursAt(ConservativePractical, PracticalWord, 22);
    ContainsIff(ConservativePractical, PracticalWord);
  }

  /** `course_name` was stripped when it was read. */
  lemma StaleCourseStripped(rows: seq<Row>)
    ensures Strip(StaleCourse(rows)) == StaleCourse(rows)
  {
    var clinics := Filter(rows, IsClinicRow);
    if clinics != [] {
      var c := Cell(clinics[|clinics| - 1], CourseCol);
      if c.Some? {
        StripIdempotent(c.value);
      }
    }
  }

  lemma StripPractical()
    ensures Strip(ConservativePractical) == ConservativePractical
  {
    StripNoEdgeSpace(ConservativePractical);
  }

  // ---------------------------------------------------------------------
  // The visiting order
  // ---------------------------------------------------------------------

  /** A session with its start and end in minutes. */
  datatype Timed = Timed(session: Session, start: int, end: int)

  function StartOf(t: Timed): int
  {
    t.start
  }

  predicate Parses(s: Session)
  {
    TimeToMinutes(s.from).Some? && TimeToMinutes(s.to).Some?
  }

  /** `time_to_minutes` of every session's start and end; `None` when one
      of them does not parse, where the script stops with an error. */
  function TimeAll(ss: seq<Session>): (r: Option<seq<Timed>>)
    ensures r.Some? <==> forall i :: 0 <= i < |ss| ==> Parses(ss[i])
    ensures r.Some? ==> |r.value| == |ss| && forall i :: 0 <= i < |ss| ==>
      r.value[i] == Timed(ss[i], TimeToMinutes(ss[i].from).value, TimeToMinutes(ss[i].to).value)
  {
    MapAll(ss, TimedOf)
  }

  function TimedOf(s: Session): Option<Timed>
  {
    if Parses(s) then Some(Timed(s, TimeToMinutes(s.from).value, TimeToMinutes(s.to).value)) else None
  }

  /** One session as the loop meets it. */
  datatype Stop = Stop(day: string, location: Location, timed: Timed)

  function StopAt(d: string, l: Location): Timed -> Stop
  {
    t => Stop(d, l, t)
  }

  function ListAt<E>(s: DayLocations<E>, d: string, l: Location): seq<E>
  {
    if d in s.at && l in s.at[d] then s.at[d][l] else []
  }

  /** `sorted(sessions, key=lambda s: time_to_minutes(s["From"]))` at one
      campus of one day. */
  function VisitCampus(d: string, l: Location, ss: seq<Session>): (r: Option<seq<Stop>>)
    ensures r.Some? <==> forall i :: 0 <= i < |ss| ==> Parses(ss[i])
    ensures r.Some? ==> r.value == Map(StopAt(d, l), SortBy(TimeAll(ss).value, StartOf))
  {
    var t := TimeAll(ss);
    if t.None? then None else Some(Map(StopAt(d, l), SortBy(t.value, StartOf)))
  }

  /** A campus's sessions are visited in ascending start minute, ties in
      the order they were read, and each exactly once. */
  lemma VisitCampusOrder(d: string, l: Location, ss: seq<Session>)
    requires forall i :: 0 <= i < |ss| ==> Parses(ss[i])
    ensures var ts := TimeAll(ss).value;
            var sorted := SortBy(ts, StartOf);
            && VisitCampus(d, l, ss) == Some(Map(StopAt(d, l), sorted))
            && multiset(sorted) == multiset(ts)
            && (forall i, j :: 0 <= i < j < |sorted| ==> sorted[i].start <= sorted[j].start)
            && (forall k :: Filter(sorted, KeyIs(StartOf, k)) == Filter(ts, KeyIs(StartOf, k)))
  {
    var ts := TimeAll(ss).value;
    forall k ensures Filter(SortBy(ts, StartOf), KeyIs(StartOf, k)) == Filter(ts, KeyIs(StartOf, k)) {
      SortByStable(ts, StartOf, k);
    }
  }

  /** `for day, locations in ...: for location, sessions in locations.items()`:
      the days in order, and each day's campuses in the order the day was
      opened with. */
  function VisitDays(s: DayLocations<Session>, days: seq<string>): Option<seq<Stop>>
  {
    if days == [] then Some([])
    else
      var d := days[0];
      var a := VisitCampus(d, NewCampus, ListAt(s, d, NewCampus));
      var b := VisitCampus(d, OldCampus, ListAt(s, d, OldCampus));
      var c := VisitCampus(d, Celt, ListAt(s, d, Celt));
      var rest := VisitDays(s, days[1..]);
      if a.None? || b.None? || c.None? || rest.None? then None
      else Some(a.value + b.value + c.value + rest.value)
  }

  function Visit(s: DayLocations<Session>): Option<seq<Stop>>
  {
    VisitDays(s, s.days)
  }

  predicate AllParse(ss: seq<Session>)
  {
    forall i :: 0 <= i < |ss| ==> Parses(ss[i])
  }

  predicate DayParses(s: DayLocations<Session>, d: string)
  {
    AllParse(ListAt(s, d, NewCampus)) && AllParse(ListAt(s, d, OldCampus)) && AllParse(ListAt(s, d, Celt))
  }

  /** The run goes through exactly when every session time of every
      visited day parses. */
  lemma {:induction false} VisitSucceeds(s: DayLocations<Session>, days: seq<string>)
    ensures VisitDays(s, days).Some? <==> forall d :: d in days ==> DayParses(s, d)
  {
    if days != [] {
      VisitSucceeds(s, days[1..]);
      VisitDayCons(s, days);
      ConsMembers(days);
    }
  }

  /** The visit over `days` goes through exactly when the first day's
      campuses and the remaining days all do, and the first day's campuses
      go through exactly when their times parse. */
  lemma VisitDayCons(s: DayLocations<Session>, days: seq<string>)
    requires days != []
    ensures VisitDays(s, days).Some? <==> DayParses(s, days[0]) && VisitDays(s, days[1..]).Some?
  {
    var d := days[0];
    CampusParses(d, NewCampus, ListAt(s, d, NewCampus));
    CampusParses(d, OldCampus, ListAt(s, d, OldCampus));
    CampusParses(d, Celt, ListAt(s, d, Celt));
  }

  lemma CampusParses(d: string, l: Location, ss: seq<Session>)
    ensures VisitCampus(d, l, ss).Some? <==> AllParse(ss)
  {
  }

  /** The requests of the visited sessions. */
  function RequestOf(x: Stop): Request
  {
    Request(x.day, x.location, x.timed.start, x.timed.end, RequiredWorkers(x.location, x.timed.session.course))
  }

  // ---------------------------------------------------------------------
  // The run over the sessions
  // ---------------------------------------------------------------------

  /** The engine's two dictionaries. */
  datatype Books = Books(ledger: map<int, seq<Shift>>, dayLocation: map<int, map<string, Location>>)

  function After(workers: seq<int>, b: Books, q: Request): Books
  {
    var picked := Chosen(workers, b.ledger, b.dayLocation, q);
    Books(Book(b.ledger, picked, ShiftOf(q)), Settle(b.dayLocation, picked, q.day, q.location))
  }

  function StaffOf(workers: seq<int>, b: Books, q: Request): seq<Option<int>>
  {
    Padded(Chosen(workers, b.ledger, b.dayLocation, q), q.required)
  }

  /** Sessions processed one after the other, each step seeing the state
      the earlier ones left. */
  function Fold<S, Q, O>(step: (S, Q) -> (O, S), b: S, qs: seq<Q>): (r: (seq<O>, S))
    ensures |r.0| == |qs|
    decreases |qs|
  {
    if qs == [] then ([], b)
    else
      var first := step(b, qs[0]);
      var rest := Fold(step, first.1, qs[1..]);
      ([first.0] + rest.0, rest.1)
  }

  lemma {:induction false} FoldSnoc<S, Q, O>(step: (S, Q) -> (O, S), b: S, qs: seq<Q>, q: Q)
    ensures Fold(step, b, qs + [q]).0 == Fold(step, b, qs).0 + [step(Fold(step, b, qs).1, q).0]
    ensures Fold(step, b, qs + [q]).1 == step(Fold(step, b, qs).1, q).1
    decreases |qs|
  {
    if qs == [] {
      assert [q][1..] == [];
    } else {
      assert (qs + [q])[1..] == qs[1..] + [q];
      FoldSnoc(step, step(b, qs[0]).1, qs[1..], q);
    }
  }

  /** A fold splits at any point into the fold up to there and the rest. */
  lemma {:induction false} FoldAt<S, Q, O>(step: (S, Q) -> (O, S), b: S, qs: seq<Q>, i: int)
    requires 0 <= i < |qs|
    ensures var before := Fold(step, b, qs[..i]).1;
            && Fold(step, b, qs).0[i] == step(before, qs[i]).0
            && Fold(step, b, qs).1 == Fold(step, before, qs[i..]).1
    decreases |qs|
  {
    if i > 0 {
      FoldAt(step, step(b, qs[0]).1, qs[1..], i - 1);
      assert qs[1..][..i - 1] == qs[..i][1..];
      assert qs[1..][i - 1..] == qs[i..];
      assert qs[1..][i - 1] == qs[i];
    } else {
      assert qs[..0] == [] && qs[0..] == qs;
    }
  }

  /** Staffing one session, as one step of the run. */
  function Step(workers: seq<int>): (Books, Request) -> (seq<Option<int>>, Books)
  {
    (b, q) => (StaffOf(workers, b, q), After(workers, b, q))
  }

  function Run(workers: seq<int>, b: Books, qs: seq<Request>): (r: (seq<seq<Option<int>>>, Books))
    ensures |r.0| == |qs|
  {
    Fold(Step(workers), b, qs)
  }

  /** One more session extends a run by its staff and its books. */
  lemma RunSnoc(workers: seq<int>, b: Books, qs: seq<Request>, i: int)
    requires 0 <= i < |qs|
    ensures var before := Run(workers, b, qs[..i]);
            && Run(workers, b, qs[..i + 1]).0 == before.0 + [StaffOf(workers, before.1, qs[i])]
            && Run(workers, b, qs[..i + 1]).1 == After(workers, before.1, qs[i])
  {
    TakeSnoc(qs, i);
    FoldSnoc(Step(workers), b, qs[..i], qs[i]);
  }

  /** The books belong to the pool and nobody is double-booked. */
  ghost predicate Sound(workers: seq<int>, b: Books)
  {
    && (forall w :: w in b.ledger <==> w in workers)
    && (forall w :: w in b.dayLocation <==> w in workers)
    && AllApart(b.ledger)
  }

  /** The workers of one session: each place a pool member or `None`, no
      worker twice. */
  predicate DistinctWorkers(ws: seq<Option<int>>, workers: seq<int>)
  {
    && (forall j :: 0 <= j < |ws| && ws[j].Some? ==> ws[j].value in workers)
    && (forall j, k :: 0 <= j < k < |ws| && ws[j].Some? ==> ws[j] != ws[k])
  }

  lemma PaddedDistinct(picked: seq<int>, required: nat, workers: seq<int>)
    requires |picked| <= required && NoDup(picked) && forall w :: w in picked ==> w in workers
    ensures DistinctWorkers(Padded(picked, required), workers)
  {
    var ws := Padded(picked, required);
    PaddedShape(picked, required);
    forall j, k | 0 <= j < k < |ws| && ws[j].Some? ensures ws[j] != ws[k] {
      assert j < |picked| && ws[j] == Some(picked[j]);
      if k < |picked| {
        assert ws[k] == Some(picked[k]);
      }
    }
  }

  /** One session keeps the books sound and gives it the number of workers
      it needs, distinct and from the pool. */
  lemma AfterSound(workers: seq<int>, b: Books, q: Request)
    requires Increasing(workers) && Sound(workers, b)
    ensures Sound(workers, After(workers, b, q))
    ensures |StaffOf(workers, b, q)| == q.required && DistinctWorkers(StaffOf(workers, b, q), workers)
  {
    ChosenWorkers(workers, b.ledger, b.dayLocation, q);
    var picked := Chosen(workers, b.ledger, b.dayLocation, q);
    BookKeepsApart(b.ledger, picked, ShiftOf(q));
    PaddedShape(picked, q.required);
    PaddedDistinct(picked, q.required, workers);
  }

  /** Every session of a run gets the number of workers it needs, distinct
      and from the pool, and the books stay sound. */
  lemma {:induction false} RunSound(workers: seq<int>, b: Books, qs: seq<Request>)
    requires Increasing(workers) && Sound(workers, b)
    ensures var r := Run(workers, b, qs);
            && Sound(workers, r.1)
            && forall i :: 0 <= i < |qs| ==> |r.0[i]| == qs[i].required && DistinctWorkers(r.0[i], workers)
    decreases |qs|
  {
    if qs != [] {
      var b' := After(workers, b, qs[0]);
      AfterSound(workers, b, qs[0]);
      RunSound(workers, b', qs[1..]);
      RunCons(workers, b, qs);
      StaffedCons(workers, qs, StaffOf(workers, b, qs[0]), Run(workers, b', qs[1..]).0);
    }
  }

  /** A run is its first step followed by the run from the books that step leaves. */
  lemma RunCons(workers: seq<int>, b: Books, qs: seq<Request>)
    requires qs != []
    ensures var b' := After(workers, b, qs[0]);
            Run(workers, b, qs) == ([StaffOf(workers, b, qs[0])] + Run(workers, b', qs[1..]).0, Run(workers, b', qs[1..]).1)
  {
    assert Step(workers)(b, qs[0]) == (StaffOf(workers, b, qs[0]), After(workers, b, qs[0]));
  }

  lemma StaffedCons(workers: seq<int>, qs: seq<Request>, x: seq<Option<int>>, rest: seq<seq<Option<int>>>)
    requires qs != [] && |rest| == |qs| - 1
    requires |x| == qs[0].required && DistinctWorkers(x, workers)
    requires forall i :: 0 <= i < |qs[1..]| ==> |rest[i]| == qs[1..][i].required && DistinctWorkers(rest[i], workers)
    ensures forall i :: 0 <= i < |qs| ==> |([x] + rest)[i]| == qs[i].required && DistinctWorkers(([x] + rest)[i], workers)
  {
    var r := [x] + rest;
    forall i | 0 <= i < |qs| ensures |r[i]| == qs[i].required && DistinctWorkers(r[i], workers) {
      if i > 0 {
        assert r[i] == rest[i - 1];
        assert qs[i] == qs[1..][i - 1];
      }
    }
  }

  /** Ledgers only grow: every shift booked stays booked. */
  predicate Grows(before: map<int, seq<Shift>>, after: map<int, seq<Shift>>)
  {
    forall w :: w in before ==> w in after && before[w] <= after[w]
  }

  lemma {:induction false} RunGrows(workers: seq<int>, b: Books, qs: seq<Request>)
    ensures Grows(b.ledger, Run(workers, b, qs).1.ledger)
    decreases |qs|
  {
    if qs != [] {
      var b' := After(workers, b, qs[0]);
      assert Step(workers)(b, qs[0]).1 == b';
      RunGrows(workers, b', qs[1..]);
      assert Run(workers, b, qs).1 == Run(workers, b', qs[1..]).1;
      forall w | w in b.ledger ensures b.ledger[w] <= b'.ledger[w] {
      }
    }
  }

  lemma ConflictsGrow(a: seq<Shift>, c: seq<Shift>, s: Shift)
    requires a <= c && Conflicts(a, s)
    ensures Conflicts(c, s)
  {
    var i :| 0 <= i < |a| && a[i].day == s.day && IsOverlap(s.start, s.end, a[i].start, a[i].end);
    assert c[i] == a[i];
  }

  /** A session left with a `None` place found every other pool member
      busy with an overlapping shift that day. */
  lemma StepUnderstaffed(workers: seq<int>, b: Books, q: Request)
    requires Increasing(workers)
    requires None in StaffOf(workers, b, q)
    ensures forall w :: w in workers && Some(w) !in StaffOf(workers, b, q) ==> Busy(b.ledger, w, ShiftOf(q))
  {
    var picked := Chosen(workers, b.ledger, b.dayLocation, q);
    ChosenWorkers(workers, b.ledger, b.dayLocation, q);
    PaddedShape(picked, q.required);
  }

  /** Such a session's conflicts stay booked to the end of the run. */
  lemma RunUnderstaffed(workers: seq<int>, b: Books, qs: seq<Request>, i: int)
    requires Increasing(workers) && 0 <= i < |qs|
    requires None in Run(workers, b, qs).0[i]
    ensures forall w :: w in workers && Some(w) !in Run(workers, b, qs).0[i] ==>
      Busy(Run(workers, b, qs).1.ledger, w, ShiftOf(qs[i]))
  {
    var before := Run(workers, b, qs[..i]).1;
    FoldAt(Step(workers), b, qs, i);
    var staff := Run(workers, b, qs).0[i];
    assert staff == StaffOf(workers, before, qs[i]);
    StepUnderstaffed(workers, before, qs[i]);
    var after := Run(workers, b, qs).1;
    assert after == Run(workers, before, qs[i..]).1;
    RunGrows(workers, before, qs[i..]);
    forall w | w in workers && Some(w) !in staff
      ensures Busy(after.ledger, w, ShiftOf(qs[i]))
    {
      ConflictsGrow(before.ledger[w], after.ledger[w], ShiftOf(qs[i]));
    }
  }

  // ---------------------------------------------------------------------
  // The assignment loop
  // ---------------------------------------------------------------------

  /** A staffed session as `assigned_schedule` keeps it. */
  datatype Staffed = Staffed(day: string, location: Location, timed: Timed, workers: seq<Option<int>>)

  /** Each visited session with the workers it got. */
  function Label(stops: seq<Stop>, staffs: seq<seq<Option<int>>>): (r: seq<Staffed>)
    requires |stops| == |staffs|
    ensures |r| == |stops|
    ensures forall i :: 0 <= i < |r| ==> r[i] == Staffed(stops[i].day, stops[i].location, stops[i].timed, staffs[i])
  {
    seq(|stops|, i requires 0 <= i < |stops| => Staffed(stops[i].day, stops[i].location, stops[i].timed, staffs[i]))
  }

  /** The assignment loop: visit the sessions day by day, campus by
      campus, in start order, and staff each. `None` when a session time
      does not parse, and then the books are left alone. */
  method AssignSchedule(e: Engine, schedule: DayLocations<Session>) returns (r: Option<seq<Staffed>>)
    requires e.Valid()
    modifies e
    ensures e.Valid()
    ensures r.None? <==> Visit(schedule).None?
    ensures r.None? ==> e.ledger == old(e.ledger) && e.dayLocation == old(e.dayLocation)
    ensures r.Some? ==>
      var stops := Visit(schedule).value;
      var run := Run(e.workers, Books(old(e.ledger), old(e.dayLocation)), Map(RequestOf, stops));
      && |r.value| == |stops|
      && (forall i :: 0 <= i < |stops| ==>
            r.value[i] == Staffed(stops[i].day, stops[i].location, stops[i].timed, run.0[i]))
      && Books(e.ledger, e.dayLocation) == run.1
  {
    var visit := Visit(schedule);
    if visit.None? {
      return None;
    }
    var stops := visit.value;
    ghost var qs := Map(RequestOf, stops);
    ghost var b0 := Books(e.ledger, e.dayLocation);
    ghost var workers0 := e.workers;
    var staffs: seq<seq<Option<int>>> := [];
    for i := 0 to |stops|
      invariant e.Valid() && e.workers == workers0
      invariant (staffs, Books(e.ledger, e.dayLocation)) == Run(workers0, b0, qs[..i])
    {
      ghost var books := Books(e.ledger, e.dayLocation);
      assert qs[i] == RequestOf(stops[i]);
      var staff := e.AssignSession(RequestOf(stops[i]));
      assert staff == StaffOf(workers0, books, qs[i]);
      assert Books(e.ledger, e.dayLocation) == After(workers0, books, qs[i]);
      RunSnoc(workers0, b0, qs, i);
      staffs := staffs + [staff];
    }
    assert qs[..|stops|] == qs;
    var out := Label(stops, staffs);
    r := Some(out);
  }
}
