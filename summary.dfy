/** The "Summary" sheet of ta_sched.py: for each worker, the minutes,
    clinics and labs of the sessions they were given. */
module Summary {
  import opened Seqs
  import opened Text
  import opened Times
  import opened Rows
  import opened Names
  import opened Campus
  import opened Assign
  import opened Staffing

  /** One line of the sheet. */
  datatype Totals = Totals(worker: int, minutes: int, clinics: nat, labs: nat)

  /** `w in s["Workers"]`. */
  function Staffs(w: int): Staffed -> bool
  {
    (x: Staffed) => Some(w) in x.workers
  }

  /** A session counts as a lab when its course names a lab or a practical. */
  predicate IsLab(x: Staffed)
  {
    Contains(x.timed.session.course, LabWord) || Contains(x.timed.session.course, PracticalWord)
  }

  function Labs(): Staffed -> bool
  {
    (x: Staffed) => IsLab(x)
  }

  function Clinics(): Staffed -> bool
  {
    (x: Staffed) => !IsLab(x)
  }

  function Length(x: Staffed): int
  {
    x.timed.end - x.timed.start
  }

  /** The minutes of a list of sessions, end minus start each. */
  function SumMinutes(xs: seq<Staffed>): int
  {
    if xs == [] then 0 else SumMinutes(xs[..|xs| - 1]) + Length(xs[|xs| - 1])
  }

  /** What the sheet shows for one worker. */
  function TotalsOf(xs: seq<Staffed>, w: int): Totals
  {
    var mine := Filter(xs, Staffs(w));
    Totals(w, SumMinutes(mine), |Filter(mine, Clinics())|, |Filter(mine, Labs())|)
  }

  /** Every session of the worker's is either a clinic or a lab, never both. */
  lemma {:induction false} ClinicsAndLabs(xs: seq<Staffed>, w: int)
    ensures var t := TotalsOf(xs, w);
            t.clinics + t.labs == |Filter(xs, Staffs(w))|
  {
    var mine := Filter(xs, Staffs(w));
    FilterComplement(mine, Clinics(), Labs());
    assert |multiset(Filter(mine, Clinics()))| + |multiset(Filter(mine, Labs()))| == |multiset(mine)|;
  }

  /** Sessions that do not end before they start add up to no negative time. */
  lemma {:induction false} MinutesNonNegative(xs: seq<Staffed>)
    requires forall i :: 0 <= i < |xs| ==> xs[i].timed.start <= xs[i].timed.end
    ensures SumMinutes(xs) >= 0
    decreases |xs|
  {
    if xs != [] {
      MinutesNonNegative(xs[..|xs| - 1]);
    }
  }

  lemma SumSnoc(xs: seq<Staffed>, x: Staffed)
    ensures SumMinutes(xs + [x]) == SumMinutes(xs) + Length(x)
  {
    assert (xs + [x])[..|xs|] == xs;
  }

  /** One more session adds to a worker's totals only when it is theirs,
      to the labs or to the clinics. */
  lemma TotalsSnoc(xs: seq<Staffed>, x: Staffed, w: int)
    ensures var t := TotalsOf(xs, w);
            var t' := TotalsOf(xs + [x], w);
            var mine := Some(w) in x.workers;
            && t'.minutes == t.minutes + (if mine then Length(x) else 0)
            && t'.labs == t.labs + (if mine && IsLab(x) then 1 else 0)
            && t'.clinics == t.clinics + (if mine && !IsLab(x) then 1 else 0)
  {
    FilterSnoc(xs, x, Staffs(w));
    var mine := Filter(xs, Staffs(w));
    assert Staffs(w)(x) == (Some(w) in x.workers);
    if Some(w) in x.workers {
      SumSnoc(mine, x);
      FilterSnoc(mine, x, Clinics());
      FilterSnoc(mine, x, Labs());
    } else {
      assert mine + [] == mine;
    }
  }

  lemma TotalsStep(xs: seq<Staffed>, i: int, w: int)
    requires 0 <= i < |xs|
    ensures var t := TotalsOf(xs[..i], w);
            var t' := TotalsOf(xs[..i + 1], w);
            var mine := Some(w) in xs[i].workers;
            && t'.minutes == t.minutes + (if mine then Length(xs[i]) else 0)
            && t'.labs == t.labs + (if mine && IsLab(xs[i]) then 1 else 0)
            && t'.clinics == t.clinics + (if mine && !IsLab(xs[i]) then 1 else 0)
  {
    TakeSnoc(xs, i);
    TotalsSnoc(xs[..i], xs[i], w);
  }

  /** The summary parses each of the worker's sessions again with
      `strptime(..., "%H:%M")`, stricter than `time_to_minutes`. */
  predicate Clocks(x: Staffed)
  {
    ParseClock(x.timed.session.from).Some? && ParseClock(x.timed.session.to).Some?
  }

  /** Some session of the worker's has a time the second parse rejects. */
  predicate Aborts(xs: seq<Staffed>, w: int)
  {
    exists i :: 0 <= i < |xs| && Some(w) in xs[i].workers && !Clocks(xs[i])
  }

  /** The totals of one worker, the session loop of the summary; `None`
      where the second parse raises, which stops the script before the
      workbook is saved. */
  method WorkerTotals(xs: seq<Staffed>, w: int) returns (t: Option<Totals>)
    ensures t.None? <==> Aborts(xs, w)
    ensures t.Some? ==> t.value == TotalsOf(xs, w)
  {
    var minutes := 0;
    var clinics := 0;
    var labs := 0;
    for i := 0 to |xs|
      invariant !Aborts(xs[..i], w)
      invariant minutes == TotalsOf(xs[..i], w).minutes
      invariant clinics == TotalsOf(xs[..i], w).clinics
      invariant labs == TotalsOf(xs[..i], w).labs
    {
      TotalsStep(xs, i, w);
      var theirs := Some(w) in xs[i].workers;
      if theirs && !Clocks(xs[i]) {
        return None;
      }
      AbortsStep(xs, i, w);
      if theirs {
        minutes := minutes + Length(xs[i]);
        if IsLab(xs[i]) {
          labs := labs + 1;
        } else {
          clinics := clinics + 1;
        }
      }
    }
    TakeAll(xs);
    t := Some(Totals(w, minutes, clinics, labs));
  }

  /** A prefix free of rejected times stays free when the next session is
      not the worker's or parses. */
  lemma AbortsStep(xs: seq<Staffed>, i: int, w: int)
    requires 0 <= i < |xs| && !Aborts(xs[..i], w)
    requires Some(w) in xs[i].workers ==> Clocks(xs[i])
    ensures !Aborts(xs[..i + 1], w)
  {
    var t := xs[..i + 1];
    forall k | 0 <= k < |t| ensures t[k] == if k < i then xs[..i][k] else xs[i] {
    }
  }

  /** The sheet: one line per worker, in pool order; `None` when the
      session loop of some worker raises. */
  method SummaryOf(workers: seq<int>, xs: seq<Staffed>) returns (lines: Option<seq<Totals>>)
    ensures lines.None? <==> exists k :: 0 <= k < |workers| && Aborts(xs, workers[k])
    ensures lines.Some? ==> |lines.value| == |workers|
    ensures lines.Some? ==> forall i :: 0 <= i < |workers| ==> lines.value[i] == TotalsOf(xs, workers[i])
  {
    var done: seq<Totals> := [];
    for i := 0 to |workers|
      invariant |done| == i
      invariant forall k :: 0 <= k < i ==> !Aborts(xs, workers[k]) && done[k] == TotalsOf(xs, workers[k])
    {
      var t := WorkerTotals(xs, workers[i]);
      if t.None? {
        return None;
      }
      done := done + [t.value];
    }
    lines := Some(done);
  }

  /** Where the second parse succeeds on a session timed by
      `time_to_minutes`, both give the same length. */
  lemma LengthAgrees(s: Session, ws: seq<Option<int>>, d: string, l: Location)
    requires TimedOf(s).Some?
    requires ParseClock(s.from).Some? && ParseClock(s.to).Some?
    ensures Length(Staffed(d, l, TimedOf(s).value, ws)) == ParseClock(s.to).value - ParseClock(s.from).value
  {
    TimeToMinutesAgrees(s.from);
    TimeToMinutesAgrees(s.to);
  }

  /** "8:60" is timed by `time_to_minutes`, as 9:00, but the summary's
      `strptime` rejects it: a session staffed with such a time stops
      the script at the summary. */
  lemma SecondParseStops()
    ensures TimeToMinutes("8:60") == Some(540)
    ensures ParseClock("8:60").None?
  {
    var h, m := [DigitChar(8)], [DigitChar(6), DigitChar(0)];
    assert "8:60" == h + [':'] + m;
    ShortNumeral(h);
    ShortNumeral(m);
    ClockTexts(h, m);
    assert !MinuteField(m);
  }

  // ---------------------------------------------------------------------
  // The sheet agrees with the books
  // ---------------------------------------------------------------------

  function Holds(w: int): seq<Option<int>> -> bool
  {
    (ws: seq<Option<int>>) => Some(w) in ws
  }

  function WorkersOf(x: Staffed): seq<Option<int>>
  {
    x.workers
  }

  lemma {:induction false} StaffedCount(xs: seq<Staffed>, w: int)
    ensures |Filter(xs, Staffs(w))| == |Filter(Map(WorkersOf, xs), Holds(w))|
  {
    if xs != [] {
      StaffedCount(xs[1..], w);
      assert Map(WorkersOf, xs) == [xs[0].workers] + Map(WorkersOf, xs[1..]);
      FilterCons(xs[0].workers, Map(WorkersOf, xs[1..]), Holds(w));
    }
  }

  /** A run books each worker one shift per session it gives them. */
  lemma {:induction false} RunBooksEachSession(workers: seq<int>, b: Books, qs: seq<Request>, w: int)
    requires Increasing(workers) && w in b.ledger
    ensures w in Run(workers, b, qs).1.ledger
    ensures |Run(workers, b, qs).1.ledger[w]| == |b.ledger[w]| + |Filter(Run(workers, b, qs).0, Holds(w))|
    decreases |qs|
  {
    if qs != [] {
      var b' := After(workers, b, qs[0]);
      var staff := StaffOf(workers, b, qs[0]);
      assert Step(workers)(b, qs[0]) == (staff, b');
      RunBooksEachSession(workers, b', qs[1..], w);
      var rest := Run(workers, b', qs[1..]);
      assert Run(workers, b, qs) == ([staff] + rest.0, rest.1);
      FilterCons(staff, rest.0, Holds(w));
      var picked := Chosen(workers, b.ledger, b.dayLocation, qs[0]);
      ChosenWorkers(workers, b.ledger, b.dayLocation, qs[0]);
      PaddedShape(picked, qs[0].required);
      assert Some(w) in staff <==> w in picked;
      assert |b'.ledger[w]| == |b.ledger[w]| + (if w in picked then 1 else 0);
    }
  }

  /** After a run from fresh books, a worker's clinics and labs together
      are the shifts the ledger holds for them. */
  lemma SheetMatchesLedger(n: nat, qs: seq<Request>, xs: seq<Staffed>, w: int)
    requires w in Pool(n)
    requires var run := Run(Pool(n), Books(map w | w in Pool(n) :: [], map w | w in Pool(n) :: map[]), qs);
             Map(WorkersOf, xs) == run.0
    ensures var run := Run(Pool(n), Books(map w | w in Pool(n) :: [], map w | w in Pool(n) :: map[]), qs);
            var t := TotalsOf(xs, w);
            w in run.1.ledger && t.clinics + t.labs == |run.1.ledger[w]|
  {
    var b := Books(map w | w in Pool(n) :: [], map w | w in Pool(n) :: map[]);
    PoolIncreasing(n);
    RunBooksEachSession(Pool(n), b, qs, w);
    StaffedCount(xs, w);
    ClinicsAndLabs(xs, w);
  }

  /** The staffed sessions of the assignment loop carry the run's workers. */
  lemma LabelWorkers(stops: seq<Stop>, staffs: seq<seq<Option<int>>>)
    requires |stops| == |staffs|
    ensures Map(WorkersOf, Label(stops, staffs)) == staffs
  {
  }
}
