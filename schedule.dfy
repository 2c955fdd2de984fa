/** Turning table rows into schedules: the clinic/lecture split of
    master.py, the per-day lists of master.py, lectuers.py and conflict.py,
    and the per-day, per-campus lists of ta_sched.py, shifts.py and
    analysis.py. */
module Schedule {
  import opened Seqs
  import opened Text
  import opened Times
  import opened Rows
  import opened Names

  // ---------------------------------------------------------------------
  // Clinics and lectures
  // ---------------------------------------------------------------------

  /** A row whose joined text names a clinic keyword is a clinic row. */
  predicate IsClinicRow(row: Row)
  {
    HasKeyword(RowText(row))
  }

  predicate IsLectureRow(row: Row)
  {
    !IsClinicRow(row)
  }

  /** The split loop of master.py. */
  method SplitClinicsLectures(rows: seq<Row>) returns (clinics: seq<Row>, lectures: seq<Row>)
    ensures clinics == Filter(rows, IsClinicRow)
    ensures lectures == Filter(rows, IsLectureRow)
  {
    clinics, lectures := [], [];
    for i := 0 to |rows|
      invariant clinics == Filter(rows[..i], IsClinicRow)
      invariant lectures == Filter(rows[..i], IsLectureRow)
    {
      TakeSnoc(rows, i);
      FilterSnoc(rows[..i], rows[i], IsClinicRow);
      FilterSnoc(rows[..i], rows[i], IsLectureRow);
      var rowText := RowText(rows[i]);
      if HasKeyword(rowText) {
        clinics := clinics + [rows[i]];
      } else {
        lectures := lectures + [rows[i]];
      }
    }
    TakeAll(rows);
  }

  function Identity<T>(x: T): T
  {
    x
  }

  lemma MapIdentity<T(!new)>(s: seq<T>)
    ensures Map(Identity, s) == s
  {
  }

  function Always<T>(x: T): bool
  {
    true
  }

  /** Every row lands in exactly one of the two lists (each list keeps the
      input order, being a filter of it). */
  lemma SplitPartitions(rows: seq<Row>)
    ensures multiset(Filter(rows, IsClinicRow)) + multiset(Filter(rows, IsLectureRow)) == multiset(rows)
  {
    FilterDisjointUnion(rows, IsClinicRow, IsLectureRow, Always, Identity);
    FilterAll(rows, Always);
    assert forall s: seq<Row> :: Map(Identity, s) == s;
  }

  // ---------------------------------------------------------------------
  // Entries by day: master.py and lectuers.py
  // ---------------------------------------------------------------------

  datatype Entry = Entry(course: string, from: string, to: string, room: string, location: string, instructor: string)

  datatype Dated<E> = Dated(day: string, entry: E)

  function DayOfDated<E>(x: Dated<E>): string
  {
    x.day
  }

  function EntryOfDated<E>(x: Dated<E>): E
  {
    x.entry
  }

  /** The day and the six fields one row yields. */
  function RowEntry(row: Row): Dated<Entry>
  {
    var (from, to) := TimesOf(Cell(row, TimeCol));
    Dated(DayOf(Cell(row, DayCol)),
          Entry(FieldOf(Cell(row, CourseCol)), from, to, FieldOf(Cell(row, RoomCol)),
                FieldOf(Cell(row, CampusCol)), FieldOf(Cell(row, InstructorCol))))
  }

  /** `any([course_name, start_time, end_time, room, location, instructor])`. */
  predicate EntryHasField(x: Dated<Entry>)
  {
    var e := x.entry;
    e.course != "" || e.from != "" || e.to != "" || e.room != "" || e.location != "" || e.instructor != ""
  }

  /** The records the day loop appends, in row order. */
  function KeptEntries(rows: seq<Row>): seq<Dated<Entry>>
  {
    Filter(Map(RowEntry, rows), EntryHasField)
  }

  lemma KeptEntriesSnoc(rows: seq<Row>, row: Row)
    ensures KeptEntries(rows + [row]) == KeptEntries(rows) + (if EntryHasField(RowEntry(row)) then [RowEntry(row)] else [])
  {
    MapSnoc(RowEntry, rows, row);
    FilterSnoc(Map(RowEntry, rows), RowEntry(row), EntryHasField);
  }

  /** The day loop of master.py for the clinic rows and for the lecture
      rows: `schedule.setdefault(day, []).append(entry)` for every row with
      a non-blank field. */
  method ScheduleByDay(rows: seq<Row>) returns (g: Grouping<string, Entry>)
    ensures IsGroupingOf(g, KeptEntries(rows), DayOfDated, EntryOfDated)
  {
    g := Grouping([], map[]);
    for i := 0 to |rows|
      invariant IsGroupingOf(g, KeptEntries(rows[..i]), DayOfDated, EntryOfDated)
    {
      TakeSnoc(rows, i);
      g := DayStep(g, rows[..i], rows[i]);
    }
    TakeAll(rows);
  }

  /** One pass of the day loop: skip a blank row, else append its entry. */
  method DayStep(g: Grouping<string, Entry>, done: seq<Row>, row: Row) returns (g': Grouping<string, Entry>)
    requires IsGroupingOf(g, KeptEntries(done), DayOfDated, EntryOfDated)
    ensures IsGroupingOf(g', KeptEntries(done + [row]), DayOfDated, EntryOfDated)
  {
    KeptEntriesSnoc(done, row);
    var x := RowEntry(row);
    if !EntryHasField(x) {
      assert KeptEntries(done) + [] == KeptEntries(done);
      return g;
    }
    assert KeptEntries(done + [row]) == KeptEntries(done) + [x];
    AddToGroupStep(g, KeptEntries(done), x, DayOfDated, EntryOfDated);
    g' := AddToGroup(g, DayOfDated(x), EntryOfDated(x));
  }

  /** lectuers.py: the same day loop over a spreadsheet, which first skips
      every row whose text names a clinic keyword. */
  method OtherSchedule(rows: seq<Row>) returns (g: Grouping<string, Entry>)
    ensures IsGroupingOf(g, KeptEntries(Filter(rows, IsLectureRow)), DayOfDated, EntryOfDated)
  {
    g := Grouping([], map[]);
    for i := 0 to |rows|
      invariant IsGroupingOf(g, KeptEntries(Filter(rows[..i], IsLectureRow)), DayOfDated, EntryOfDated)
    {
      TakeSnoc(rows, i);
      FilterSnoc(rows[..i], rows[i], IsLectureRow);
      ghost var lectures := Filter(rows[..i], IsLectureRow);
      var rowText := RowText(rows[i]);
      if HasKeyword(rowText) {
        assert Filter(rows[..i + 1], IsLectureRow) == lectures + [] == lectures;
        continue;
      }
      assert Filter(rows[..i + 1], IsLectureRow) == lectures + [rows[i]];
      g := DayStep(g, Filter(rows[..i], IsLectureRow), rows[i]);
    }
    TakeAll(rows);
  }

  /** Where a scheduled entry comes from: a row the filter lets through,
      read at that day, with at least one non-blank field. So a row naming
      a clinic keyword never reaches lectuers.py's schedule, and a row with
      six blank fields reaches no schedule. */
  lemma ScheduledEntryFromRow(g: Grouping<string, Entry>, rows: seq<Row>, p: Row -> bool, d: string, e: Entry)
    requires IsGroupingOf(g, KeptEntries(Filter(rows, p)), DayOfDated, EntryOfDated)
    requires d in g.groups && e in g.groups[d]
    ensures exists r :: r in rows && p(r) && RowEntry(r) == Dated(d, e) && EntryHasField(Dated(d, e))
  {
    var items := KeptEntries(Filter(rows, p));
    var sel := Filter(items, KeyIs(DayOfDated, d));
    var j :| 0 <= j < |sel| && Map(EntryOfDated, sel)[j] == e;
    var x := sel[j];
    assert x in sel && x in items && x == Dated(d, e);
    var k :| 0 <= k < |Map(RowEntry, Filter(rows, p))| && Map(RowEntry, Filter(rows, p))[k] == x;
    var r := Filter(rows, p)[k];
    assert r in Filter(rows, p);
  }

  // ---------------------------------------------------------------------
  // Lectures by day: conflict.py
  // ---------------------------------------------------------------------

  datatype Lecture = Lecture(course: string, from: string, to: string, room: string, instructor: string)

  /** conflict.py tests the keywords against the course name only. */
  predicate IsClinicCourse(row: Row)
  {
    HasKeyword(FieldOf(Cell(row, CourseCol)))
  }

  predicate IsLectureCourse(row: Row)
  {
    !IsClinicCourse(row)
  }

  function RowLecture(row: Row): Dated<Lecture>
  {
    var (from, to) := TimesOf(Cell(row, TimeCol));
    Dated(DayOf(Cell(row, DayCol)),
          Lecture(FieldOf(Cell(row, CourseCol)), from, to, FieldOf(Cell(row, RoomCol)), FieldOf(Cell(row, InstructorCol))))
  }

  /** `any([course_name, start_time, end_time, room, instructor])`. */
  predicate LectureHasField(x: Dated<Lecture>)
  {
    var l := x.entry;
    l.course != "" || l.from != "" || l.to != "" || l.room != "" || l.instructor != ""
  }

  function KeptLectures(rows: seq<Row>): seq<Dated<Lecture>>
  {
    Filter(Map(RowLecture, Filter(rows, IsLectureCourse)), LectureHasField)
  }

  /** The lecture loop of conflict.py. */
  method LectureSchedule(rows: seq<Row>) returns (g: Grouping<string, Lecture>)
    ensures IsGroupingOf(g, KeptLectures(rows), DayOfDated, EntryOfDated)
  {
    g := Grouping([], map[]);
    for i := 0 to |rows|
      invariant IsGroupingOf(g, KeptLectures(rows[..i]), DayOfDated, EntryOfDated)
    {
      TakeSnoc(rows, i);
      g := LectureStep(g, rows[..i], rows[i]);
    }
    TakeAll(rows);
  }

  method LectureStep(g: Grouping<string, Lecture>, done: seq<Row>, row: Row) returns (g': Grouping<string, Lecture>)
    requires IsGroupingOf(g, KeptLectures(done), DayOfDated, EntryOfDated)
    ensures IsGroupingOf(g', KeptLectures(done + [row]), DayOfDated, EntryOfDated)
  {
    var lectures := Filter(done, IsLectureCourse);
    FilterSnoc(done, row, IsLectureCourse);
    var courseName := FieldOf(Cell(row, CourseCol));
    if HasKeyword(courseName) {
      assert Filter(done + [row], IsLectureCourse) == lectures + [] == lectures;
      return g;
    }
    assert Filter(done + [row], IsLectureCourse) == lectures + [row];
    MapSnoc(RowLecture, lectures, row);
    var x := RowLecture(row);
    FilterSnoc(Map(RowLecture, lectures), x, LectureHasField);
    if !LectureHasField(x) {
      assert KeptLectures(done) + [] == KeptLectures(done);
      return g;
    }
    assert KeptLectures(done + [row]) == KeptLectures(done) + [x];
    AddToGroupStep(g, KeptLectures(done), x, DayOfDated, EntryOfDated);
    g' := AddToGroup(g, DayOfDated(x), EntryOfDated(x));
  }

  /** No scheduled lecture is a clinic, a practical or a laboratory. */
  lemma NoClinicLectures(g: Grouping<string, Lecture>, rows: seq<Row>, d: string, l: Lecture)
    requires IsGroupingOf(g, KeptLectures(rows), DayOfDated, EntryOfDated)
    requires d in g.groups && l in g.groups[d]
    ensures !HasKeyword(l.course) && LectureHasField(Dated(d, l))
  {
    var items := KeptLectures(rows);
    var sel := Filter(items, KeyIs(DayOfDated, d));
    var j :| 0 <= j < |sel| && Map(EntryOfDated, sel)[j] == l;
    var x := sel[j];
    assert x in sel && x in items && x == Dated(d, l);
    var k :| 0 <= k < |Map(RowLecture, Filter(rows, IsLectureCourse))| && Map(RowLecture, Filter(rows, IsLectureCourse))[k] == x;
    var r := Filter(rows, IsLectureCourse)[k];
    assert r in Filter(rows, IsLectureCourse);
  }
}
