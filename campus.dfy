/** The per-day, per-campus session lists of ta_sched.py, shifts.py and
    analysis.py. */
module Campus {
  import opened Seqs
  import opened Text
  import opened Times
  import opened Rows
  import opened Names
  import opened Schedule

  // ---------------------------------------------------------------------
  // Sessions by day and campus
  // ---------------------------------------------------------------------

  /** `{day: {"New Campus": [...], "Old Campus": [...], "CELT": [...]}}`,
      the days in order of first appearance. */
  datatype DayLocations<E> = DayLocations(days: seq<string>, at: map<string, map<Location, seq<E>>>)

  function AtDayLocation<T>(day: T -> string, loc: T -> Location, d: string, l: Location): T -> bool
  {
    x => day(x) == d && loc(x) == l
  }

  /** `s` is what the append loop builds from `items`: every day seen has
      all three lists, and the list at (d, l) holds the values of the items
      of that day and campus, in input order. */
  ghost predicate IsDayLocationsOf<T(!new), E>(s: DayLocations<E>, items: seq<T>, day: T -> string, loc: T -> Location, val: T -> E)
  {
    && s.days == Dedup(Map(day, items))
    && (forall d :: d in s.at <==> d in s.days)
    && (forall d, l :: d in s.at ==> l in s.at[d] && s.at[d][l] == Map(val, Filter(items, AtDayLocation(day, loc, d, l))))
  }

  function EmptyLists<E>(): map<Location, seq<E>>
  {
    map[NewCampus := [], OldCampus := [], Celt := []]
  }

  /** Open the day with three empty lists if it is new, then append. */
  function AddAt<E>(s: DayLocations<E>, d: string, l: Location, v: E): DayLocations<E>
  {
    var lists := if d in s.at then s.at[d] else EmptyLists();
    var before := if l in lists then lists[l] else [];
    DayLocations(if d in s.at then s.days else s.days + [d], s.at[d := lists[l := before + [v]]])
  }

  lemma AddAtStep<T(!new), E>(s: DayLocations<E>, items: seq<T>, x: T, day: T -> string, loc: T -> Location, val: T -> E)
    requires IsDayLocationsOf(s, items, day, loc, val)
    ensures IsDayLocationsOf(AddAt(s, day(x), loc(x), val(x)), items + [x], day, loc, val)
  {
    AddAtDays(s, items, x, day, loc(x), val(x));
    AddAtLists(s, items, x, day, loc, val);
  }

  lemma AddAtDays<T(!new), E>(s: DayLocations<E>, items: seq<T>, x: T, day: T -> string, l: Location, v: E)
    requires s.days == Dedup(Map(day, items)) && (forall d :: d in s.at <==> d in s.days)
    ensures var s' := AddAt(s, day(x), l, v);
            && s'.days == Dedup(Map(day, items + [x]))
            && (forall d :: d in s'.at <==> d in s'.days)
  {
    MapSnoc(day, items, x);
    DedupSnoc(Map(day, items), day(x));
  }

  lemma AddAtLists<T(!new), E>(s: DayLocations<E>, items: seq<T>, x: T, day: T -> string, loc: T -> Location, val: T -> E)
    requires IsDayLocationsOf(s, items, day, loc, val)
    ensures var s' := AddAt(s, day(x), loc(x), val(x));
            forall d, l :: d in s'.at ==> l in s'.at[d] && s'.at[d][l] == Map(val, Filter(items + [x], AtDayLocation(day, loc, d, l)))
  {
    var s' := AddAt(s, day(x), loc(x), val(x));
    forall d, l | d in s'.at
      ensures l in s'.at[d] && s'.at[d][l] == Map(val, Filter(items + [x], AtDayLocation(day, loc, d, l)))
    {
      assert d in s.at <==> d in Map(day, items);
      AddAtOne(s, items, x, day, loc, val, d, l);
    }
  }

  /** The list at one day and campus after one more item. */
  lemma AddAtOne<T(!new), E>(s: DayLocations<E>, items: seq<T>, x: T, day: T -> string, loc: T -> Location, val: T -> E, d: string, l: Location)
    requires d in s.at ==> l in s.at[d] && s.at[d][l] == Map(val, Filter(items, AtDayLocation(day, loc, d, l)))
    requires d in s.at <==> d in Map(day, items)
    requires d in AddAt(s, day(x), loc(x), val(x)).at
    ensures var s' := AddAt(s, day(x), loc(x), val(x));
            l in s'.at[d] && s'.at[d][l] == Map(val, Filter(items + [x], AtDayLocation(day, loc, d, l)))
  {
    AtDayLocationSnoc(items, x, day, loc, val, d, l);
    if d == day(x) && d !in s.at {
      NewDayEmpty(items, day, loc, d, l);
    }
  }

  lemma AtDayLocationSnoc<T(!new), E>(items: seq<T>, x: T, day: T -> string, loc: T -> Location, val: T -> E, d: string, l: Location)
    ensures Map(val, Filter(items + [x], AtDayLocation(day, loc, d, l)))
         == Map(val, Filter(items, AtDayLocation(day, loc, d, l))) + (if day(x) == d && loc(x) == l then [val(x)] else [])
  {
    FilterSnoc(items, x, AtDayLocation(day, loc, d, l));
    MapAppend(val, Filter(items, AtDayLocation(day, loc, d, l)), if AtDayLocation(day, loc, d, l)(x) then [x] else []);
  }

  /** A day no item has holds nothing at any campus. */
  lemma NewDayEmpty<T(!new)>(items: seq<T>, day: T -> string, loc: T -> Location, d: string, l: Location)
    requires d !in Map(day, items)
    ensures Filter(items, AtDayLocation(day, loc, d, l)) == []
  {
    forall y | y in items ensures !AtDayLocation(day, loc, d, l)(y) {
      var i :| 0 <= i < |items| && items[i] == y;
      assert Map(day, items)[i] == day(y);
    }
    FilterNone(items, AtDayLocation(day, loc, d, l));
  }

  function OutsideNewCampus<T>(day: T -> string, loc: T -> Location, d: string): T -> bool
  {
    x => day(x) == d && loc(x) != NewCampus
  }

  /** Every item of a day sits in exactly one of that day's three lists. */
  lemma DayLocationsPartition<T(!new), E>(s: DayLocations<E>, items: seq<T>, day: T -> string, loc: T -> Location, val: T -> E, d: string)
    requires IsDayLocationsOf(s, items, day, loc, val) && d in s.at
    ensures multiset(s.at[d][NewCampus]) + multiset(s.at[d][OldCampus]) + multiset(s.at[d][Celt])
         == multiset(Map(val, Filter(items, KeyIs(day, d))))
  {
    FilterDisjointUnion(items, AtDayLocation(day, loc, d, OldCampus), AtDayLocation(day, loc, d, Celt), OutsideNewCampus(day, loc, d), val);
    FilterDisjointUnion(items, AtDayLocation(day, loc, d, NewCampus), OutsideNewCampus(day, loc, d), KeyIs(day, d), val);
  }

  // ---------------------------------------------------------------------
  // The clinic loop of ta_sched.py and shifts.py
  // ---------------------------------------------------------------------

  datatype Session = Session(course: string, from: string, to: string, room: string, location: Location, instructor: string)

  function RowSession(row: Row): Dated<Session>
  {
    var (from, to) := TimesOf(Cell(row, TimeCol));
    var course := FieldOf(Cell(row, CourseCol));
    Dated(DayOf(Cell(row, DayCol)),
          Session(course, from, to, FieldOf(Cell(row, RoomCol)), DetermineLocation(course), FieldOf(Cell(row, InstructorCol))))
  }

  /** `any([course_name, start_time, end_time, room, instructor])`. */
  predicate SessionHasField(x: Dated<Session>)
  {
    var e := x.entry;
    e.course != "" || e.from != "" || e.to != "" || e.room != "" || e.instructor != ""
  }

  function LocationOfDated(x: Dated<Session>): Location
  {
    x.entry.location
  }

  function KeptSessions(rows: seq<Row>): seq<Dated<Session>>
  {
    Filter(Map(RowSession, Filter(rows, IsClinicRow)), SessionHasField)
  }

  /** The clinic loop: keep the keyword rows with a non-blank field, and
      append each to the list of its day and campus. */
  method ClinicsSchedule(rows: seq<Row>) returns (s: DayLocations<Session>)
    ensures IsDayLocationsOf(s, KeptSessions(rows), DayOfDated, LocationOfDated, EntryOfDated)
  {
    s := DayLocations([], map[]);
    for i := 0 to |rows|
      invariant IsDayLocationsOf(s, KeptSessions(rows[..i]), DayOfDated, LocationOfDated, EntryOfDated)
    {
      TakeSnoc(rows, i);
      s := ClinicStep(s, rows[..i], rows[i]);
    }
    TakeAll(rows);
  }

  method ClinicStep(s: DayLocations<Session>, done: seq<Row>, row: Row) returns (s': DayLocations<Session>)
    requires IsDayLocationsOf(s, KeptSessions(done), DayOfDated, LocationOfDated, EntryOfDated)
    ensures IsDayLocationsOf(s', KeptSessions(done + [row]), DayOfDated, LocationOfDated, EntryOfDated)
  {
    var clinics := Filter(done, IsClinicRow);
    FilterSnoc(done, row, IsClinicRow);
    var rowText := RowText(row);
    if !HasKeyword(rowText) {
      assert Filter(done + [row], IsClinicRow) == clinics + [] == clinics;
      return s;
    }
    assert Filter(done + [row], IsClinicRow) == clinics + [row];
    MapSnoc(RowSession, clinics, row);
    var x := RowSession(row);
    FilterSnoc(Map(RowSession, clinics), x, SessionHasField);
    if !SessionHasField(x) {
      assert KeptSessions(done) + [] == KeptSessions(done);
      return s;
    }
    assert KeptSessions(done + [row]) == KeptSessions(done) + [x];
    AddAtStep(s, KeptSessions(done), x, DayOfDated, LocationOfDated, EntryOfDated);
    s' := AddAt(s, DayOfDated(x), LocationOfDated(x), EntryOfDated(x));
  }

  /** A session sits in the list of the campus its course name selects. */
  lemma SessionAtItsCampus(s: DayLocations<Session>, rows: seq<Row>, d: string, l: Location, e: Session)
    requires IsDayLocationsOf(s, KeptSessions(rows), DayOfDated, LocationOfDated, EntryOfDated)
    requires d in s.at && e in s.at[d][l]
    ensures l == e.location == DetermineLocation(e.course)
  {
    var items := KeptSessions(rows);
    var sel := Filter(items, AtDayLocation(DayOfDated, LocationOfDated, d, l));
    var j :| 0 <= j < |sel| && Map(EntryOfDated, sel)[j] == e;
    var x := sel[j];
    assert x in sel && x in items;
    var k :| 0 <= k < |Map(RowSession, Filter(rows, IsClinicRow))| && Map(RowSession, Filter(rows, IsClinicRow))[k] == x;
  }

  // ---------------------------------------------------------------------
  // The row loop of analysis.py
  // ---------------------------------------------------------------------

  /** One spreadsheet row with what the two regular expressions found in
      its text: the first day name and the first "H:MM - H:MM" pair. */
  datatype SheetRow = SheetRow(cells: Row, dayMatch: Option<string>, timeMatch: Option<(string, string)>)

  datatype ClinicEntry = ClinicEntry(clinic: string, from: string, to: string, instructor: string)

  predicate IsClinicSheetRow(r: SheetRow)
  {
    IsClinicRow(r.cells)
  }

  /** The first present cell that names a keyword. */
  function FirstKeywordCell(row: Row): (c: Option<string>)
    ensures c.None? <==> forall i :: 0 <= i < |row| && row[i].Some? ==> !HasKeyword(row[i].value)
    ensures c.Some? ==> exists i :: 0 <= i < |row| && row[i] == c && HasKeyword(c.value) &&
                          forall j :: 0 <= j < i && row[j].Some? ==> !HasKeyword(row[j].value)
  {
    if row == [] then None
    else if row[0].Some? && HasKeyword(row[0].value) then row[0]
    else
      var c := FirstKeywordCell(row[1..]);
      assert forall i :: 1 <= i < |row| ==> row[1..][i - 1] == row[i];
      c
  }

  function SessionNameOf(row: Row): string
  {
    var c := FirstKeywordCell(row);
    if c.Some? then CleanName(c.value) else ""
  }

  /** The session-name loop: the cleaned text of the first cell mentioning
      a keyword, or "" when none does. */
  method SessionName(row: Row) returns (name: string)
    ensures name == SessionNameOf(row)
  {
    name := "";
    var i := 0;
    while i < |row|
      invariant 0 <= i <= |row|
      invariant FirstKeywordCell(row) == FirstKeywordCell(row[i..])
    {
      assert row[i..][1..] == row[i + 1..];
      var cell := row[i];
      if cell.Some? && HasKeyword(cell.value) {
        name := CleanSessionName(cell.value);
        return;
      }
      i := i + 1;
    }
  }

  /** `row.dropna().iloc[-1]`: the last present cell. */
  function LastPresent(row: Row): string
  {
    var cs := Present(row);
    if cs == [] then "" else cs[|cs| - 1]
  }

  /** A keyword row always has a present cell, so the last one exists. */
  lemma ClinicRowHasCell(row: Row)
    requires IsClinicRow(row)
    ensures Present(row) != []
  {
    assert Present(row) == [] ==> RowText(row) == "";
    assert !Contains("", ClinicWord) && !Contains("", PracticalWord) && !Contains("", LabWord);
  }

  function SheetRecord(r: SheetRow): Dated<ClinicEntry>
  {
    var (from, to) := if r.timeMatch.Some? then r.timeMatch.value else ("", "");
    Dated(if r.dayMatch.Some? then r.dayMatch.value else Undetermined,
          ClinicEntry(SessionNameOf(r.cells), from, to, LastPresent(r.cells)))
  }

  function ClinicLocation(x: Dated<ClinicEntry>): Location
  {
    DetermineLocation(x.entry.clinic)
  }

  function SheetRecords(rows: seq<SheetRow>): seq<Dated<ClinicEntry>>
  {
    Map(SheetRecord, Filter(rows, IsClinicSheetRow))
  }

  /** The row loop of analysis.py. */
  method AnalysisSchedule(rows: seq<SheetRow>) returns (s: DayLocations<ClinicEntry>)
    ensures IsDayLocationsOf(s, SheetRecords(rows), DayOfDated, ClinicLocation, EntryOfDated)
  {
    s := DayLocations([], map[]);
    for i := 0 to |rows|
      invariant IsDayLocationsOf(s, SheetRecords(rows[..i]), DayOfDated, ClinicLocation, EntryOfDated)
    {
      TakeSnoc(rows, i);
      s := SheetStep(s, rows[..i], rows[i]);
    }
    TakeAll(rows);
  }

  method SheetStep(s: DayLocations<ClinicEntry>, done: seq<SheetRow>, r: SheetRow) returns (s': DayLocations<ClinicEntry>)
    requires IsDayLocationsOf(s, SheetRecords(done), DayOfDated, ClinicLocation, EntryOfDated)
    ensures IsDayLocationsOf(s', SheetRecords(done + [r]), DayOfDated, ClinicLocation, EntryOfDated)
  {
    var kept := Filter(done, IsClinicSheetRow);
    FilterSnoc(done, r, IsClinicSheetRow);
    var rowText := RowText(r.cells);
    if !HasKeyword(rowText) {
      assert Filter(done + [r], IsClinicSheetRow) == kept + [] == kept;
      return s;
    }
    assert Filter(done + [r], IsClinicSheetRow) == kept + [r];
    MapSnoc(SheetRecord, kept, r);
    var day := if r.dayMatch.Some? then r.dayMatch.value else Undetermined;
    var (startTime, endTime) := if r.timeMatch.Some? then r.timeMatch.value else ("", "");
    ClinicRowHasCell(r.cells);
    var instructor := LastPresent(r.cells);
    var sessionName := SessionName(r.cells);
    var location := DetermineLocation(sessionName);
    var entry := ClinicEntry(sessionName, startTime, endTime, instructor);
    assert Dated(day, entry) == SheetRecord(r);
    AddAtStep(s, SheetRecords(done), SheetRecord(r), DayOfDated, ClinicLocation, EntryOfDated);
    s' := AddAt(s, day, location, entry);
  }
}
