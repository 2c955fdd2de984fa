/** The greedy worker assignment of ta_sched.py and shifts.py. Every
    worker keeps a ledger of `(day, start, end)` shifts and remembers, per
    day, the campus they were last placed at. Sessions are staffed one at a
    time: workers already at this campus today come first, then the others
    by fewest shifts, and a worker with an overlapping shift that day is
    passed over. */
module Assign {
  import opened Seqs
  import opened Text
  import opened Times
  import opened Names

  /** One ledger record `(day, start, end)`, in minutes. */
  datatype Shift = Shift(day: string, start: int, end: int)

  /** A session to staff: its day, campus, minutes and the number of
      workers it needs. */
  datatype Request = Request(day: string, location: Location, start: int, end: int, required: nat)

  function ShiftOf(q: Request): Shift
  {
    Shift(q.day, q.start, q.end)
  }

  /** `any(s_day == day and is_overlap(start, end, s_start, s_end) for ...)`:
      some shift of the same day overlaps the session. */
  predicate Conflicts(shifts: seq<Shift>, s: Shift)
  {
    exists i :: 0 <= i < |shifts| && shifts[i].day == s.day && IsOverlap(s.start, s.end, shifts[i].start, shifts[i].end)
  }

  /** No two shifts of one day overlap. */
  predicate NoDoubleBooking(shifts: seq<Shift>)
  {
    forall i, j :: 0 <= i < j < |shifts| && shifts[i].day == shifts[j].day ==>
      !IsOverlap(shifts[i].start, shifts[i].end, shifts[j].start, shifts[j].end)
  }

  /** Booking a shift that meets no same-day shift keeps the ledger free of
      double bookings. */
  lemma BookingKeepsApart(shifts: seq<Shift>, s: Shift)
    requires NoDoubleBooking(shifts) && !Conflicts(shifts, s)
    ensures NoDoubleBooking(shifts + [s])
  {
    var t := shifts + [s];
    forall i, j | 0 <= i < j < |t| && t[i].day == t[j].day
      ensures !IsOverlap(t[i].start, t[i].end, t[j].start, t[j].end)
    {
      if j == |shifts| {
        assert t[i] == shifts[i] && t[j] == s;
        OverlapSymmetric(s.start, s.end, shifts[i].start, shifts[i].end);
      }
    }
  }

  /** `workers = list(range(1, n + 1))`. */
  function Pool(n: nat): (ws: seq<int>)
    ensures |ws| == n && forall i :: 0 <= i < n ==> ws[i] == i + 1
  {
    seq(n, i => i + 1)
  }

  lemma PoolIncreasing(n: nat)
    ensures Increasing(Pool(n))
  {
  }

  // ---------------------------------------------------------------------
  // The candidate order
  // ---------------------------------------------------------------------

  /** The worker was placed at `loc` on `day`. */
  function AtLocationToday(dayLocation: map<int, map<string, Location>>, day: string, loc: Location): int -> bool
  {
    w => w in dayLocation && day in dayLocation[w] && dayLocation[w][day] == loc
  }

  function NotIn(ws: seq<int>): int -> bool
  {
    w => w !in ws
  }

  /** `len(worker_assignments[w])`. */
  function ShiftCount(ledger: map<int, seq<Shift>>): int -> int
  {
    w => if w in ledger then |ledger[w]| else 0
  }

  /** The workers staying at this campus today in pool order, then every
      other worker stably sorted by the number of shifts held. */
  function Candidates(workers: seq<int>, ledger: map<int, seq<Shift>>, dayLocation: map<int, map<string, Location>>,
                      day: string, loc: Location): seq<int>
  {
    var staying := Filter(workers, AtLocationToday(dayLocation, day, loc));
    staying + SortBy(Filter(workers, NotIn(staying)), ShiftCount(ledger))
  }

  /** The candidate list is the pool rearranged: the workers already at
      this campus today in ascending id, then the others by fewest shifts,
      ties by ascending id. */
  lemma CandidatesOrder(workers: seq<int>, ledger: map<int, seq<Shift>>, dayLocation: map<int, map<string, Location>>,
                        day: string, loc: Location)
    requires Increasing(workers)
    ensures var c := Candidates(workers, ledger, dayLocation, day, loc);
            var staying := Filter(workers, AtLocationToday(dayLocation, day, loc));
            var others := c[|staying|..];
            && multiset(c) == multiset(workers) && NoDup(c)
            && (forall w :: w in c <==> w in workers)
            && c[..|staying|] == staying && Increasing(staying)
            && (forall w :: w in staying <==> w in workers && AtLocationToday(dayLocation, day, loc)(w))
            && (forall w :: w in others <==> w in workers && !AtLocationToday(dayLocation, day, loc)(w))
            && SortedByKeyThenValue(others, ShiftCount(ledger))
  {
    var p := AtLocationToday(dayLocation, day, loc);
    var staying := Filter(workers, p);
    var rest := Filter(workers, NotIn(staying));
    var c := Candidates(workers, ledger, dayLocation, day, loc);
    assert c == staying + SortBy(rest, ShiftCount(ledger));
    assert c[..|staying|] == staying && c[|staying|..] == SortBy(rest, ShiftCount(ledger));
    FilterIncreasing(workers, p);
    FilterIncreasing(workers, NotIn(staying));
    FilterComplement(workers, p, NotIn(staying));
    SortByTiesAscending(rest, ShiftCount(ledger));
    IncreasingNoDup(staying);
    IncreasingNoDup(rest);
    SortByNoDup(rest, ShiftCount(ledger));
    var others := SortBy(rest, ShiftCount(ledger));
    forall w ensures w in others <==> w in rest {
      assert w in others <==> w in multiset(others);
      assert w in rest <==> w in multiset(rest);
    }
    NoDupAppend(staying, others);
    forall w ensures w in c <==> w in workers {
      assert w in c <==> w in multiset(c);
      assert w in workers <==> w in multiset(workers);
    }
  }

  /** The candidates are the pool members, each once. */
  lemma CandidatesArePool(workers: seq<int>, ledger: map<int, seq<Shift>>, dayLocation: map<int, map<string, Location>>,
                          day: string, loc: Location)
    requires Increasing(workers)
    ensures var c := Candidates(workers, ledger, dayLocation, day, loc);
            NoDup(c) && forall w :: w in c <==> w in workers
  {
    CandidatesOrder(workers, ledger, dayLocation, day, loc);
  }

  // ---------------------------------------------------------------------
  // The greedy walk
  // ---------------------------------------------------------------------

  /** The worker holds a shift that day overlapping `s`. */
  predicate Busy(ledger: map<int, seq<Shift>>, w: int, s: Shift)
  {
    w in ledger && Conflicts(ledger[w], s)
  }

  function Free(ledger: map<int, seq<Shift>>, s: Shift): int -> bool
  {
    w => !Busy(ledger, w, s)
  }

  /** Walk the candidates in order, taking each that is not busy, until
      `need` are taken. */
  function Pick(cands: seq<int>, ledger: map<int, seq<Shift>>, s: Shift, need: nat): (picked: seq<int>)
    ensures |picked| <= need
    ensures forall w :: w in picked ==> w in cands && !Busy(ledger, w, s)
  {
    if need == 0 || cands == [] then []
    else if Busy(ledger, cands[0], s) then Pick(cands[1..], ledger, s, need)
    else [cands[0]] + Pick(cands[1..], ledger, s, need - 1)
  }

  /** The walk takes exactly the first `need` free candidates, or all of
      them when there are fewer. */
  lemma {:induction false} PickFirstFree(cands: seq<int>, ledger: map<int, seq<Shift>>, s: Shift, need: nat)
    ensures var f := Filter(cands, Free(ledger, s));
            Pick(cands, ledger, s, need) == if |f| <= need then f else f[..need]
    decreases |cands|, 1
  {
    if cands != [] && need > 0 {
      if Busy(ledger, cands[0], s) {
        FirstFreeSkip(cands, ledger, s, need);
      } else {
        FirstFreeTake(cands, ledger, s, need);
      }
    }
  }

  lemma FirstFreeSkip(cands: seq<int>, ledger: map<int, seq<Shift>>, s: Shift, need: nat)
    requires cands != [] && need > 0 && Busy(ledger, cands[0], s)
    ensures var f := Filter(cands, Free(ledger, s));
            Pick(cands, ledger, s, need) == if |f| <= need then f else f[..need]
    decreases |cands|, 0
  {
    PickFirstFree(cands[1..], ledger, s, need);
    FilterUnfold(cands, Free(ledger, s));
    PickUnfold(cands, ledger, s, need);
    assert [] + Filter(cands[1..], Free(ledger, s)) == Filter(cands[1..], Free(ledger, s));
  }

  lemma FirstFreeTake(cands: seq<int>, ledger: map<int, seq<Shift>>, s: Shift, need: nat)
    requires cands != [] && need > 0 && !Busy(ledger, cands[0], s)
    ensures var f := Filter(cands, Free(ledger, s));
            Pick(cands, ledger, s, need) == if |f| <= need then f else f[..need]
    decreases |cands|, 0
  {
    PickFirstFree(cands[1..], ledger, s, need - 1);
    FilterUnfold(cands, Free(ledger, s));
    PickUnfold(cands, ledger, s, need);
    assert Free(ledger, s)(cands[0]);
    UpToCons(cands[0], Filter(cands[1..], Free(ledger, s)), need);
  }

  lemma PickUnfold(cands: seq<int>, ledger: map<int, seq<Shift>>, s: Shift, need: nat)
    requires cands != [] && need > 0
    ensures Pick(cands, ledger, s, need) ==
            if Busy(ledger, cands[0], s) then Pick(cands[1..], ledger, s, need)
            else [cands[0]] + Pick(cands[1..], ledger, s, need - 1)
  {
  }

  /** The workers taken are distinct when the candidates are. */
  lemma {:induction false} PickNoDup(cands: seq<int>, ledger: map<int, seq<Shift>>, s: Shift, need: nat)
    requires NoDup(cands)
    ensures NoDup(Pick(cands, ledger, s, need))
  {
    if need > 0 && cands != [] {
      assert NoDup(cands[1..]);
      assert cands[0] !in cands[1..];
      var n' := if Busy(ledger, cands[0], s) then need else need - 1;
      PickNoDup(cands[1..], ledger, s, n');
    }
  }

  /** Fewer than `need` taken only when every candidate left out is busy. */
  lemma PickShort(cands: seq<int>, ledger: map<int, seq<Shift>>, s: Shift, need: nat)
    requires |Pick(cands, ledger, s, need)| < need
    ensures forall w :: w in cands && w !in Pick(cands, ledger, s, need) ==> Busy(ledger, w, s)
  {
    PickFirstFree(cands, ledger, s, need);
  }

  /** The workers a session is given. */
  function Chosen(workers: seq<int>, ledger: map<int, seq<Shift>>, dayLocation: map<int, map<string, Location>>, q: Request): seq<int>
  {
    Pick(Candidates(workers, ledger, dayLocation, q.day, q.location), ledger, ShiftOf(q), q.required)
  }

  /** The workers given to one session are distinct pool members without an
      overlapping shift that day, and at most as many as it needs; when
      there are fewer, every other pool member is busy. */
  lemma ChosenWorkers(workers: seq<int>, ledger: map<int, seq<Shift>>, dayLocation: map<int, map<string, Location>>, q: Request)
    requires Increasing(workers)
    ensures var picked := Chosen(workers, ledger, dayLocation, q);
            && NoDup(picked) && |picked| <= q.required
            && (forall w :: w in picked ==> w in workers && !Busy(ledger, w, ShiftOf(q)))
            && (|picked| < q.required ==> forall w :: w in workers && w !in picked ==> Busy(ledger, w, ShiftOf(q)))
  {
    var c := Candidates(workers, ledger, dayLocation, q.day, q.location);
    CandidatesOrder(workers, ledger, dayLocation, q.day, q.location);
    PickNoDup(c, ledger, ShiftOf(q), q.required);
    if |Chosen(workers, ledger, dayLocation, q)| < q.required {
      PickShort(c, ledger, ShiftOf(q), q.required);
    }
  }

  // ---------------------------------------------------------------------
  // The state after a session
  // ---------------------------------------------------------------------

  /** Every picked worker's ledger gains the shift; no other ledger changes. */
  function Book(ledger: map<int, seq<Shift>>, picked: seq<int>, s: Shift): (r: map<int, seq<Shift>>)
    ensures r.Keys == ledger.Keys
  {
    map w | w in ledger :: if w in picked then ledger[w] + [s] else ledger[w]
  }

  /** Every picked worker is recorded at the campus for the day; nobody
      else's record changes. */
  function Settle(dayLocation: map<int, map<string, Location>>, picked: seq<int>, day: string, loc: Location): (r: map<int, map<string, Location>>)
    ensures r.Keys == dayLocation.Keys
  {
    map w | w in dayLocation :: if w in picked then dayLocation[w][day := loc] else dayLocation[w]
  }

  ghost predicate AllApart(ledger: map<int, seq<Shift>>)
  {
    forall w :: w in ledger ==> NoDoubleBooking(ledger[w])
  }

  /** Booking free workers keeps every ledger free of double bookings. */
  lemma BookKeepsApart(ledger: map<int, seq<Shift>>, picked: seq<int>, s: Shift)
    requires AllApart(ledger)
    requires forall w :: w in picked ==> !Busy(ledger, w, s)
    ensures AllApart(Book(ledger, picked, s))
  {
    forall w | w in ledger && w in picked ensures NoDoubleBooking(ledger[w] + [s]) {
      BookingKeepsApart(ledger[w], s);
    }
  }

  /** After a session every worker it was given stays at its campus that
      day, so they head the candidates of the next session there; the
      others keep their records. */
  lemma SettledStay(dayLocation: map<int, map<string, Location>>, picked: seq<int>, day: string, loc: Location, w: int)
    requires w in dayLocation
    ensures AtLocationToday(Settle(dayLocation, picked, day, loc), day, loc)(w)
         <==> w in picked || AtLocationToday(dayLocation, day, loc)(w)
  {
  }

  /** `assigned_workers` padded with `None` up to `required`. */
  function Padded(picked: seq<int>, required: nat): (ws: seq<Option<int>>)
    requires |picked| <= required
  {
    Map(SomeOf, picked) + Nones(required - |picked|)
  }

  function SomeOf(w: int): Option<int>
  {
    Some(w)
  }

  function Nones(n: nat): (r: seq<Option<int>>)
    ensures |r| == n && forall i :: 0 <= i < n ==> r[i] == None
  {
    seq(n, _ => None)
  }

  /** The padded list has the required length, the taken workers in order,
      and a `None` exactly when there were too few. */
  lemma PaddedShape(picked: seq<int>, required: nat)
    requires |picked| <= required
    ensures var ws := Padded(picked, required);
            && |ws| == required
            && (forall i :: 0 <= i < |picked| ==> ws[i] == Some(picked[i]))
            && (None in ws <==> |picked| < required)
            && (forall w :: Some(w) in ws <==> w in picked)
  {
    var ws := Padded(picked, required);
    if |picked| < required {
      assert ws[|picked|] == None;
    }
    forall w ensures Some(w) in ws <==> w in picked {
      if w in picked {
        var i :| 0 <= i < |picked| && picked[i] == w;
        assert ws[i] == Some(w);
      }
    }
  }

  // ---------------------------------------------------------------------
  // The engine
  // ---------------------------------------------------------------------

  /** The pool is ascending, every worker has a ledger and a campus record,
      and no ledger holds two overlapping shifts of a day. */
  ghost predicate ValidBooks(workers: seq<int>, ledger: map<int, seq<Shift>>, dayLocation: map<int, map<string, Location>>)
  {
    && Increasing(workers)
    && (forall w :: w in ledger <==> w in workers)
    && (forall w :: w in dayLocation <==> w in workers)
    && AllApart(ledger)
  }

  class Engine {
    /** The worker ids, ascending. */
    const workers: seq<int>
    /** `worker_assignments`. */
    var ledger: map<int, seq<Shift>>
    /** `worker_day_location`. */
    var dayLocation: map<int, map<string, Location>>

    ghost predicate Valid()
      reads this
    {
      ValidBooks(workers, ledger, dayLocation)
    }

    /** A pool of workers 1..n, every ledger empty. */
    constructor(n: nat)
      ensures workers == Pool(n)
      ensures ledger == map w | w in Pool(n) :: []
      ensures dayLocation == map w | w in Pool(n) :: map[]
      ensures Valid()
    {
      workers := Pool(n);
      ledger := map w | w in Pool(n) :: [];
      dayLocation := map w | w in Pool(n) :: map[];
      PoolIncreasing(n);
    }

    /** Staff one session: walk the candidates, skip the busy, book each
        taken worker and record them at the campus, then pad with `None`. */
    method AssignSession(q: Request) returns (staff: seq<Option<int>>)
      requires Valid()
      modifies this
      ensures Valid()
      ensures var picked := Chosen(workers, old(ledger), old(dayLocation), q);
              && staff == Padded(picked, q.required)
              && ledger == Book(old(ledger), picked, ShiftOf(q))
              && dayLocation == Settle(old(dayLocation), picked, q.day, q.location)
    {
      staff, ledger, dayLocation := StaffSession(workers, ledger, dayLocation, q);
    }
  }

  /** The session step on the books as values: order the candidates, then
      walk them. */
  method StaffSession(workers: seq<int>, ledger0: map<int, seq<Shift>>, dayLocation0: map<int, map<string, Location>>, q: Request)
    returns (staff: seq<Option<int>>, ledger: map<int, seq<Shift>>, dayLocation: map<int, map<string, Location>>)
    requires ValidBooks(workers, ledger0, dayLocation0)
    ensures ValidBooks(workers, ledger, dayLocation)
    ensures var picked := Chosen(workers, ledger0, dayLocation0, q);
            && staff == Padded(picked, q.required)
            && ledger == Book(ledger0, picked, ShiftOf(q))
            && dayLocation == Settle(dayLocation0, picked, q.day, q.location)
  {
    var candidates := Candidates(workers, ledger0, dayLocation0, q.day, q.location);
    CandidatesArePool(workers, ledger0, dayLocation0, q.day, q.location);
    ghost var picked;
    staff, ledger, dayLocation, picked := Walk(candidates, ledger0, dayLocation0, q);
    BookKeepsApart(ledger0, picked, ShiftOf(q));
    ValidAfter(workers, ledger0, dayLocation0, ledger, dayLocation);
  }

  /** Booking and recording keep the pool's keys. */
  lemma ValidAfter(workers: seq<int>, ledger: map<int, seq<Shift>>, dayLocation: map<int, map<string, Location>>,
                   ledger': map<int, seq<Shift>>, dayLocation': map<int, map<string, Location>>)
    requires (forall w :: w in ledger <==> w in workers) && (forall w :: w in dayLocation <==> w in workers)
    requires ledger'.Keys == ledger.Keys && dayLocation'.Keys == dayLocation.Keys
    ensures (forall w :: w in ledger' <==> w in workers) && (forall w :: w in dayLocation' <==> w in workers)
  {
    forall w ensures w in ledger' <==> w in ledger {
      assert w in ledger' <==> w in ledger'.Keys;
      assert w in ledger <==> w in ledger.Keys;
    }
    forall w ensures w in dayLocation' <==> w in dayLocation {
      assert w in dayLocation' <==> w in dayLocation'.Keys;
      assert w in dayLocation <==> w in dayLocation.Keys;
    }
  }

  /** The loop over the candidates and the padding loop of one session,
      on the ledger and the campus records. */
  method Walk(candidates: seq<int>, ledger0: map<int, seq<Shift>>, dayLocation0: map<int, map<string, Location>>, q: Request)
    returns (staff: seq<Option<int>>, ledger: map<int, seq<Shift>>, dayLocation: map<int, map<string, Location>>, ghost picked: seq<int>)
    requires NoDup(candidates)
    requires forall w :: w in candidates ==> w in ledger0 && w in dayLocation0
    ensures picked == Pick(candidates, ledger0, ShiftOf(q), q.required)
    ensures staff == Padded(picked, q.required)
    ensures ledger == Book(ledger0, picked, ShiftOf(q))
    ensures dayLocation == Settle(dayLocation0, picked, q.day, q.location)
  {
    ledger, dayLocation := ledger0, dayLocation0;
    var s := ShiftOf(q);
    picked := [];
    staff := [];
    var i := 0;
    assert candidates[0..] == candidates;
    BookNone(ledger0, s);
    SettleNone(dayLocation0, q.day, q.location);
    while i < |candidates|
      invariant Walked(candidates, ledger0, dayLocation0, q, i, staff, ledger, dayLocation, picked)
    {
      if |staff| >= q.required {
        break;
      }
      staff, ledger, dayLocation, picked := Consider(candidates, ledger0, dayLocation0, q, i, staff, ledger, dayLocation, picked);
      i := i + 1;
    }
    assert picked + [] == picked;
    staff := Pad(staff, picked, q.required);
  }

  /** The walk has looked at the first `i` candidates, taken `picked` of
      them, and booked and recorded exactly those. */
  ghost predicate Walked(candidates: seq<int>, ledger0: map<int, seq<Shift>>, dayLocation0: map<int, map<string, Location>>, q: Request,
                         i: int, staff: seq<Option<int>>, ledger: map<int, seq<Shift>>, dayLocation: map<int, map<string, Location>>, picked: seq<int>)
  {
    && NoDup(candidates)
    && (forall w :: w in candidates ==> w in ledger0 && w in dayLocation0)
    && WalkedTo(candidates, ledger0, ShiftOf(q), q.required, i, picked)
    && (forall x :: x in picked ==> x in candidates[..i])
    && staff == Map(SomeOf, picked)
    && ledger == Book(ledger0, picked, ShiftOf(q))
    && dayLocation == Settle(dayLocation0, picked, q.day, q.location)
  }

  /** One turn of the walk: candidate `i` is skipped when busy, otherwise
      taken, booked and recorded. */
  method Consider(candidates: seq<int>, ledger0: map<int, seq<Shift>>, dayLocation0: map<int, map<string, Location>>, q: Request,
                  i: int, staff: seq<Option<int>>, ledger: map<int, seq<Shift>>, dayLocation: map<int, map<string, Location>>, ghost picked: seq<int>)
    returns (staff': seq<Option<int>>, ledger': map<int, seq<Shift>>, dayLocation': map<int, map<string, Location>>, ghost picked': seq<int>)
    requires Walked(candidates, ledger0, dayLocation0, q, i, staff, ledger, dayLocation, picked)
    requires i < |candidates| && |staff| < q.required
    ensures Walked(candidates, ledger0, dayLocation0, q, i + 1, staff', ledger', dayLocation', picked')
  {
    var s := ShiftOf(q);
    var w := candidates[i];
    NotSeenBefore(candidates, i, picked);
    assert ledger[w] == ledger0[w];
    var conflict := Conflicts(ledger[w], s);
    assert conflict == Busy(ledger0, w, s);
    if conflict {
      PickSkip(candidates, i, ledger0, s, q.required, picked);
      SeenGrow(candidates, i, picked, picked);
      staff', ledger', dayLocation', picked' := staff, ledger, dayLocation, picked;
    } else {
      ledger', dayLocation' := Settle1(ledger0, dayLocation0, ledger, dayLocation, picked, w, q);
      MapSnoc(SomeOf, picked, w);
      staff' := staff + [Some(w)];
      SeenGrow(candidates, i, picked, picked + [w]);
      PickTake(candidates, i, ledger0, s, q.required, picked);
      picked' := picked + [w];
    }
  }

  /** Book one free worker for the session and record them at its campus. */
  method Settle1(ledger0: map<int, seq<Shift>>, dayLocation0: map<int, map<string, Location>>,
                 ledger: map<int, seq<Shift>>, dayLocation: map<int, map<string, Location>>,
                 ghost picked: seq<int>, w: int, q: Request)
    returns (ledger': map<int, seq<Shift>>, dayLocation': map<int, map<string, Location>>)
    requires w in ledger0 && w in dayLocation0 && w !in picked
    requires ledger == Book(ledger0, picked, ShiftOf(q))
    requires dayLocation == Settle(dayLocation0, picked, q.day, q.location)
    ensures ledger' == Book(ledger0, picked + [w], ShiftOf(q))
    ensures dayLocation' == Settle(dayLocation0, picked + [w], q.day, q.location)
  {
    BookSnoc(ledger0, picked, w, ShiftOf(q));
    SettleSnoc(dayLocation0, picked, w, q.day, q.location);
    ledger' := ledger[w := ledger[w] + [ShiftOf(q)]];
    dayLocation' := dayLocation[w := dayLocation[w][q.day := q.location]];
  }

  /** `while len(assigned_workers) < required_workers: append(None)`. */
  method Pad(taken: seq<Option<int>>, ghost picked: seq<int>, required: nat) returns (staff: seq<Option<int>>)
    requires taken == Map(SomeOf, picked) && |picked| <= required
    ensures staff == Padded(picked, required)
  {
    staff := taken;
    assert staff == Map(SomeOf, picked) + Nones(0);
    while |staff| < required
      invariant |picked| <= |staff| <= required
      invariant staff == Map(SomeOf, picked) + Nones(|staff| - |picked|)
    {
      NonesSnoc(|staff| - |picked|);
      staff := staff + [None];
    }
  }

  /** The first `i` candidates have been walked and gave `picked`: the
      walk takes `picked`, then whatever the rest of the candidates give. */
  predicate WalkedTo(cands: seq<int>, ledger: map<int, seq<Shift>>, s: Shift, need: nat, i: int, picked: seq<int>)
  {
    0 <= i <= |cands| && |picked| <= need
    && Pick(cands, ledger, s, need) == picked + Pick(cands[i..], ledger, s, need - |picked|)
  }

  /** A busy candidate is passed over. */
  lemma PickSkip(cands: seq<int>, i: int, ledger: map<int, seq<Shift>>, s: Shift, need: nat, picked: seq<int>)
    requires i < |cands| && |picked| < need && WalkedTo(cands, ledger, s, need, i, picked)
    requires Busy(ledger, cands[i], s)
    ensures WalkedTo(cands, ledger, s, need, i + 1, picked)
  {
    assert cands[i..][1..] == cands[i + 1..];
  }

  /** A free candidate is taken. */
  lemma PickTake(cands: seq<int>, i: int, ledger: map<int, seq<Shift>>, s: Shift, need: nat, picked: seq<int>)
    requires i < |cands| && |picked| < need && WalkedTo(cands, ledger, s, need, i, picked)
    requires !Busy(ledger, cands[i], s)
    ensures WalkedTo(cands, ledger, s, need, i + 1, picked + [cands[i]])
  {
    assert cands[i..][1..] == cands[i + 1..];
    var later := Pick(cands[i + 1..], ledger, s, need - |picked| - 1);
    Regroup(picked, [cands[i]] + later, [cands[i]], later);
  }

  /** Candidate `i` is not among those taken from the candidates before it. */
  lemma NotSeenBefore(cands: seq<int>, i: int, picked: seq<int>)
    requires NoDup(cands) && 0 <= i < |cands|
    requires forall x :: x in picked ==> x in cands[..i]
    ensures cands[i] !in picked
  {
    forall x | x in picked
      ensures x != cands[i]
    {
      var k :| 0 <= k < i && cands[..i][k] == x;
      assert cands[k] == x;
    }
  }

  lemma SeenGrow(cands: seq<int>, i: int, picked: seq<int>, picked': seq<int>)
    requires 0 <= i < |cands|
    requires forall x :: x in picked ==> x in cands[..i]
    requires picked' == picked || picked' == picked + [cands[i]]
    ensures forall x :: x in picked' ==> x in cands[..i + 1]
  {
    TakeSnoc(cands, i);
  }

  lemma BookNone(ledger: map<int, seq<Shift>>, s: Shift)
    ensures Book(ledger, [], s) == ledger
  {
  }

  lemma SettleNone(dayLocation: map<int, map<string, Location>>, day: string, loc: Location)
    ensures Settle(dayLocation, [], day, loc) == dayLocation
  {
  }

  lemma NonesSnoc(n: nat)
    ensures Nones(n) + [None] == Nones(n + 1)
  {
  }

  lemma BookSnoc(ledger: map<int, seq<Shift>>, picked: seq<int>, w: int, s: Shift)
    requires w in ledger && w !in picked
    ensures Book(ledger, picked + [w], s) == Book(ledger, picked, s)[w := ledger[w] + [s]]
  {
  }

  lemma SettleSnoc(dayLocation: map<int, map<string, Location>>, picked: seq<int>, w: int, day: string, loc: Location)
    requires w in dayLocation && w !in picked
    ensures Settle(dayLocation, picked + [w], day, loc) == Settle(dayLocation, picked, day, loc)[w := dayLocation[w][day := loc]]
  {
  }
}
