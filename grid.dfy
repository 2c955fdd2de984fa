/** The fixed time grid of the clinic sheets (sched.py, master.py,
    ta_sched.py): "HH:MM" labels every `step` minutes in columns B, C, ...,
    and a session drawn from the first label at or after its start to the
    last label before its end. The labels are compared as strings. */
module Grid {
  import opened Seqs
  import opened Times

  /** The minutes `create_time_grid(start, end, step)` labels. */
  function GridMinutes(start: int, end: int, step: int): (g: seq<int>)
    requires step > 0
    ensures forall i :: 0 <= i < |g| ==> start <= g[i] < end
    ensures Increasing(g)
    decreases end - start
  {
    if start >= end then [] else [start] + GridMinutes(start + step, end, step)
  }

  /** `create_time_grid`: label and step until the clock reaches `end`. */
  method CreateTimeGrid(start: int, end: int, step: int) returns (times: seq<string>)
    requires step > 0
    ensures times == Map(FormatClock, GridMinutes(start, end, step))
  {
    times := [];
    var t := start;
    ghost var done: seq<int> := [];
    while t < end
      invariant GridMinutes(start, end, step) == done + GridMinutes(t, end, step)
      invariant times == Map(FormatClock, done)
      decreases end - t
    {
      assert GridMinutes(t, end, step) == [t] + GridMinutes(t + step, end, step);
      assert done + ([t] + GridMinutes(t + step, end, step)) == (done + [t]) + GridMinutes(t + step, end, step);
      MapSnoc(FormatClock, done, t);
      times := times + [FormatClock(t)];
      done := done + [t];
      t := t + step;
    }
    assert done + [] == done;
  }

  /** Label i of the grid is the clock time start + i*step. */
  lemma {:induction false} GridMinutesNth(start: int, end: int, step: int, i: int)
    requires step > 0 && 0 <= i < |GridMinutes(start, end, step)|
    ensures GridMinutes(start, end, step)[i] == start + i * step
    decreases end - start
  {
    if i > 0 {
      GridMinutesNth(start + step, end, step, i - 1);
      assert (i - 1) * step + step == i * step;
    }
  }

  /** The grid has one label per step that starts before `end`: the last
      label is before `end` and one more step reaches it. */
  lemma {:induction false} GridMinutesLength(start: int, end: int, step: int)
    requires step > 0
    ensures var n := |GridMinutes(start, end, step)|;
            if start < end then start + (n - 1) * step < end <= start + n * step else n == 0
    decreases end - start
  {
    if start < end {
      var n' := |GridMinutes(start + step, end, step)|;
      GridMinutesLength(start + step, end, step);
      assert (n' + 1) * step == n' * step + step;
    }
  }

  /** The default grid 08:00-18:00 every 30 minutes, which is also the
      20-label grid ta_sched.py builds directly. */
  lemma DefaultGrid()
    ensures var g := GridMinutes(480, 1080, 30);
            |g| == 20 && forall i :: 0 <= i < 20 ==> g[i] == 480 + 30 * i
  {
    GridMinutesLength(480, 1080, 30);
    forall i | 0 <= i < 20 ensures GridMinutes(480, 1080, 30)[i] == 480 + 30 * i {
      GridMinutesNth(480, 1080, 30, i);
    }
  }

  predicate InDay(ms: seq<int>)
  {
    forall i :: 0 <= i < |ms| ==> 0 <= ms[i] < MinutesPerDay
  }

  /** Labels of a grid inside one day are distinct, so `{t: idx + 2}` maps
      label `idx` to column `idx + 2`. */
  lemma LabelsDistinct(ms: seq<int>, i: int, j: int)
    requires Increasing(ms) && InDay(ms) && 0 <= i < j < |ms|
    ensures FormatClock(ms[i]) != FormatClock(ms[j])
  {
    FormatClockOrder(ms[i], ms[j]);
    FormatClockOrder(ms[i], ms[i]);
  }

  function FirstAtOrAfter(grid: seq<string>, from: string): (i: nat)
    ensures i <= |grid|
    ensures i < |grid| ==> !LexLess(grid[i], from)
    ensures forall j :: 0 <= j < i ==> LexLess(grid[j], from)
  {
    if grid == [] then 0
    else if !LexLess(grid[0], from) then 0
    else 1 + FirstAtOrAfter(grid[1..], from)
  }

  function LastBefore(grid: seq<string>, to: string): (i: int)
    ensures -1 <= i < |grid|
    ensures i >= 0 ==> LexLess(grid[i], to)
    ensures forall j :: i < j < |grid| ==> !LexLess(grid[j], to)
  {
    if grid == [] then -1
    else if LexLess(grid[|grid| - 1], to) then |grid| - 1
    else LastBefore(grid[..|grid| - 1], to)
  }

  /** `min([col for t, col in time_to_col.items() if t >= From], default=2)`. */
  function StartCol(grid: seq<string>, from: string): (c: int)
    ensures forall j :: 0 <= j < |grid| && !LexLess(grid[j], from) ==> c <= j + 2
    ensures (forall j :: 0 <= j < |grid| ==> LexLess(grid[j], from)) ==> c == 2
    ensures (exists j :: 0 <= j < |grid| && !LexLess(grid[j], from)) ==>
      2 <= c < |grid| + 2 && !LexLess(grid[c - 2], from)
  {
    var i := FirstAtOrAfter(grid, from);
    if i < |grid| then i + 2 else 2
  }

  /** `max([col for t, col in time_to_col.items() if t < To], default=start_col)`. */
  function EndCol(grid: seq<string>, to: string, startCol: int): (c: int)
    ensures forall j :: 0 <= j < |grid| && LexLess(grid[j], to) ==> j + 2 <= c
    ensures (forall j :: 0 <= j < |grid| ==> !LexLess(grid[j], to)) ==> c == startCol
    ensures (exists j :: 0 <= j < |grid| && LexLess(grid[j], to)) ==>
      2 <= c < |grid| + 2 && LexLess(grid[c - 2], to)
  {
    var i := LastBefore(grid, to);
    if i >= 0 then i + 2 else startCol
  }

  /** The grid labels compare with a session's start and end as the
      minutes they stand for do. */
  predicate LabelsAgree(grid: seq<string>, ms: seq<int>, from: string, f: int, to: string, t: int)
  {
    && |grid| == |ms|
    && (forall j :: 0 <= j < |ms| ==> (LexLess(grid[j], from) <==> ms[j] < f))
    && (forall j :: 0 <= j < |ms| ==> (LexLess(grid[j], to) <==> ms[j] < t))
  }

  /** Formatted clock times within one day compare like their minutes. */
  lemma FormattedLabelsAgree(ms: seq<int>, f: int, t: int)
    requires InDay(ms) && 0 <= f < MinutesPerDay && 0 <= t < MinutesPerDay
    ensures LabelsAgree(Map(FormatClock, ms), ms, FormatClock(f), f, FormatClock(t), t)
  {
    forall j | 0 <= j < |ms|
      ensures LexLess(FormatClock(ms[j]), FormatClock(f)) <==> ms[j] < f
      ensures LexLess(FormatClock(ms[j]), FormatClock(t)) <==> ms[j] < t
    {
      FormatClockOrder(ms[j], f);
      FormatClockOrder(ms[j], t);
    }
  }

  /** The start column in minutes: the first grid time at or after the
      session's start, when there is one. */
  lemma StartColMinutes(grid: seq<string>, ms: seq<int>, from: string, f: int, to: string, t: int, k: int)
    requires LabelsAgree(grid, ms, from, f, to, t)
    requires 0 <= k < |ms| && f <= ms[k]
    ensures var sc := StartCol(grid, from);
            && 2 <= sc < |ms| + 2 && f <= ms[sc - 2]
            && forall j :: 0 <= j < |ms| && f <= ms[j] ==> sc <= j + 2
  {
    assert !LexLess(grid[k], from);
  }

  /** The end column in minutes: the last grid time before the session's
      end, when there is one. */
  lemma EndColMinutes(grid: seq<string>, ms: seq<int>, from: string, f: int, to: string, t: int, sc: int, k: int)
    requires LabelsAgree(grid, ms, from, f, to, t)
    requires 0 <= k < |ms| && ms[k] < t
    ensures var ec := EndCol(grid, to, sc);
            && 2 <= ec < |ms| + 2 && ms[ec - 2] < t
            && forall j :: 0 <= j < |ms| && ms[j] < t ==> j + 2 <= ec
  {
    assert LexLess(grid[k], to);
  }

  /** Both columns in minutes, given a grid time at or after the start
      and one before the end. */
  lemma ColsInMinutes(grid: seq<string>, ms: seq<int>, from: string, f: int, to: string, t: int, kf: int, kt: int)
    returns (sc: int, ec: int)
    requires LabelsAgree(grid, ms, from, f, to, t)
    requires 0 <= kf < |ms| && f <= ms[kf] && 0 <= kt < |ms| && ms[kt] < t
    ensures sc == StartCol(grid, from) && ec == EndCol(grid, to, sc)
    ensures 2 <= sc < |ms| + 2 && f <= ms[sc - 2] && forall j :: 0 <= j < |ms| && f <= ms[j] ==> sc <= j + 2
    ensures 2 <= ec < |ms| + 2 && ms[ec - 2] < t && forall j :: 0 <= j < |ms| && ms[j] < t ==> j + 2 <= ec
  {
    sc := StartCol(grid, from);
    StartColMinutes(grid, ms, from, f, to, t, kf);
    ec := EndCol(grid, to, sc);
    EndColMinutes(grid, ms, from, f, to, t, sc, kt);
  }

  /** On an increasing grid, the columns from the start column to the end
      column are exactly the grid times inside the session, whenever there
      is one. */
  lemma ColumnsSpanOrdered(grid: seq<string>, ms: seq<int>, from: string, f: int, to: string, t: int)
    requires Increasing(ms) && LabelsAgree(grid, ms, from, f, to, t)
    requires exists k :: 0 <= k < |ms| && f <= ms[k] < t
    ensures var sc := StartCol(grid, from);
            var ec := EndCol(grid, to, sc);
            forall i :: 0 <= i < |ms| ==> (sc <= i + 2 <= ec <==> f <= ms[i] < t)
  {
    var k :| 0 <= k < |ms| && f <= ms[k] < t;
    var sc, ec := ColsInMinutes(grid, ms, from, f, to, t, k, k);
    SpanBetween(ms, f, t, sc, ec);
  }

  lemma SpanBetween(ms: seq<int>, f: int, t: int, sc: int, ec: int)
    requires Increasing(ms)
    requires 2 <= sc < |ms| + 2 && f <= ms[sc - 2] && forall j :: 0 <= j < |ms| && f <= ms[j] ==> sc <= j + 2
    requires 2 <= ec < |ms| + 2 && ms[ec - 2] < t && forall j :: 0 <= j < |ms| && ms[j] < t ==> j + 2 <= ec
    ensures forall i :: 0 <= i < |ms| ==> (sc <= i + 2 <= ec <==> f <= ms[i] < t)
  {
    forall i | 0 <= i < |ms| ensures sc <= i + 2 <= ec <==> f <= ms[i] < t {
      assert sc - 2 < i ==> ms[sc - 2] < ms[i];
      assert i < ec - 2 ==> ms[i] < ms[ec - 2];
    }
  }

  lemma ColumnsSpan(ms: seq<int>, f: int, t: int)
    requires Increasing(ms) && InDay(ms) && 0 <= f < MinutesPerDay && 0 <= t < MinutesPerDay
    requires exists k :: 0 <= k < |ms| && f <= ms[k] < t
    ensures var grid := Map(FormatClock, ms);
            var sc := StartCol(grid, FormatClock(f));
            var ec := EndCol(grid, FormatClock(t), sc);
            forall i :: 0 <= i < |ms| ==> (sc <= i + 2 <= ec <==> f <= ms[i] < t)
  {
    FormattedLabelsAgree(ms, f, t);
    ColumnsSpanOrdered(Map(FormatClock, ms), ms, FormatClock(f), f, FormatClock(t), t);
  }

  /** A session that falls strictly between two grid times gets a start
      column after its end column. */
  lemma ColumnsCrossOrdered(grid: seq<string>, ms: seq<int>, from: string, f: int, to: string, t: int)
    requires Increasing(ms) && LabelsAgree(grid, ms, from, f, to, t)
    requires exists a :: 0 <= a < |ms| && ms[a] < f
    requires f <= t
    requires exists b :: 0 <= b < |ms| && ms[b] >= t
    requires forall k :: 0 <= k < |ms| ==> !(f <= ms[k] < t)
    ensures var sc := StartCol(grid, from); sc > EndCol(grid, to, sc)
  {
    var a :| 0 <= a < |ms| && ms[a] < f;
    var b :| 0 <= b < |ms| && ms[b] >= t;
    var sc, ec := ColsInMinutes(grid, ms, from, f, to, t, b, a);
    CrossBetween(ms, f, t, sc, ec);
  }

  lemma CrossBetween(ms: seq<int>, f: int, t: int, sc: int, ec: int)
    requires Increasing(ms) && f <= t
    requires forall k :: 0 <= k < |ms| ==> !(f <= ms[k] < t)
    requires 2 <= sc < |ms| + 2 && f <= ms[sc - 2]
    requires 2 <= ec < |ms| + 2 && ms[ec - 2] < t
    ensures sc > ec
  {
    assert ms[sc - 2] >= t && ms[ec - 2] < f;
  }

  /** For example 09:10-09:20 on the 30-minute grid. */
  lemma ColumnsCross(ms: seq<int>, f: int, t: int)
    requires Increasing(ms) && InDay(ms) && 0 <= f < MinutesPerDay && 0 <= t < MinutesPerDay
    requires exists a :: 0 <= a < |ms| && ms[a] < f
    requires f <= t
    requires exists b :: 0 <= b < |ms| && ms[b] >= t
    requires forall k :: 0 <= k < |ms| ==> !(f <= ms[k] < t)
    ensures var grid := Map(FormatClock, ms);
            var sc := StartCol(grid, FormatClock(f));
            sc > EndCol(grid, FormatClock(t), sc)
  {
    FormattedLabelsAgree(ms, f, t);
    ColumnsCrossOrdered(Map(FormatClock, ms), ms, FormatClock(f), f, FormatClock(t), t);
  }
}
