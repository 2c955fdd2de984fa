/** Reading the timetable table: the header test that picks the table, the
    rows kept from it, and the cells a row offers (master.py, test.py,
    shifts.py, ta_sched.py, conflict.py, lectuers.py, analysis.py). */
module Rows {
  import opened Seqs
  import opened Text
  import opened Times

  // ---------------------------------------------------------------------
  // Finding the timetable among the page's tables
  // ---------------------------------------------------------------------

  /** The ten column titles the timetable's first row carries (course
      code/section, course name, credit hours, days, time, room, campus,
      prerequisites, instructor, equivalent courses). */
  const KeyHeaders: seq<string> := [
    "\U{627}\U{644}\U{645}\U{633}\U{627}\U{642}/\U{634}", "\U{627}\U{633}\U{645} \U{627}\U{644}\U{645}\U{633}\U{627}\U{642}", "\U{633}.\U{645}", "\U{627}\U{644}\U{623}\U{64A}\U{627}\U{645}", "\U{627}\U{644}\U{633}\U{627}\U{639}\U{629}",
    "\U{627}\U{644}\U{642}\U{627}\U{639}\U{629}", "\U{627}\U{644}\U{62D}\U{631}\U{645}", "\U{627}\U{644}\U{645}\U{62A}\U{637}\U{644}\U{628}\U{627}\U{62A} \U{627}\U{644}\U{633}\U{627}\U{628}\U{642}\U{629}", "\U{627}\U{644}\U{645}\U{62F}\U{631}\U{633}", "\U{623}\U{631}\U{642}\U{627}\U{645} \U{645}\U{633}\U{627}\U{642}\U{627}\U{62A} \U{645}\U{643}\U{627}\U{641}\U{626}\U{629}"
  ]

  /** `any(kh in c for c in cols)`. */
  predicate AnyContains(cols: seq<string>, kh: string)
  {
    cols != [] && (Contains(cols[0], kh) || AnyContains(cols[1..], kh))
  }

  /** `all(any(kh in c for c in cols) for kh in khs)`. */
  predicate AllHeaders(khs: seq<string>, cols: seq<string>)
  {
    khs == [] || (AnyContains(cols, khs[0]) && AllHeaders(khs[1..], cols))
  }

  predicate IsTargetHeader(cols: seq<string>)
  {
    AllHeaders(KeyHeaders, cols)
  }

  lemma {:induction false} AnyContainsIff(cols: seq<string>, kh: string)
    ensures AnyContains(cols, kh) <==> exists j :: 0 <= j < |cols| && Contains(cols[j], kh)
  {
    if cols != [] {
      AnyContainsIff(cols[1..], kh);
      if exists j :: 0 <= j < |cols| && Contains(cols[j], kh) {
        var j :| 0 <= j < |cols| && Contains(cols[j], kh);
        if j > 0 {
          assert cols[1..][j - 1] == cols[j];
        }
      }
    }
  }

  lemma {:induction false} AllHeadersIff(khs: seq<string>, cols: seq<string>)
    ensures AllHeaders(khs, cols) <==> forall h :: 0 <= h < |khs| ==> AnyContains(cols, khs[h])
  {
    if khs != [] {
      AllHeadersIff(khs[1..], cols);
      if forall h :: 0 <= h < |khs| ==> AnyContains(cols, khs[h]) {
        forall h | 0 <= h < |khs[1..]| ensures AnyContains(cols, khs[1..][h]) {
          assert khs[1..][h] == khs[h + 1];
        }
      }
      if AllHeaders(khs, cols) {
        forall h | 0 <= h < |khs| ensures AnyContains(cols, khs[h]) {
          if h > 0 {
            assert khs[1..][h - 1] == khs[h];
          }
        }
      }
    }
  }

  /** The table is recognised exactly when every key header occurs inside
      some cell of its first row. */
  lemma HeaderMatchIff(cols: seq<string>)
    ensures IsTargetHeader(cols) <==>
      forall h :: 0 <= h < |KeyHeaders| ==> exists j :: 0 <= j < |cols| && Contains(cols[j], KeyHeaders[h])
  {
    AllHeadersIff(KeyHeaders, cols);
    forall h | 0 <= h < |KeyHeaders| ensures AnyContains(cols, KeyHeaders[h]) <==> exists j :: 0 <= j < |cols| && Contains(cols[j], KeyHeaders[h]) {
      AnyContainsIff(cols, KeyHeaders[h]);
    }
  }

  /** What the search sees of one table: the cell texts of its first
      `<tr>`, or `None` when it has none. */
  predicate Matches(firstRow: Option<seq<string>>)
  {
    firstRow.Some? && IsTargetHeader(Map(NormalizeText, firstRow.value))
  }

  /** The table search loop: the index of the first table whose first row
      carries all key headers, or `None` (where the script raises). */
  method FindTargetTable(firstRows: seq<Option<seq<string>>>) returns (found: Option<nat>)
    ensures found.Some? ==> found.value < |firstRows| && Matches(firstRows[found.value])
    ensures forall i :: 0 <= i < |firstRows| && (found.None? || i < found.value) ==> !Matches(firstRows[i])
  {
    found := None;
    var i := 0;
    while i < |firstRows|
      invariant 0 <= i <= |firstRows|
      invariant forall j :: 0 <= j < i ==> !Matches(firstRows[j])
    {
      var firstRow := firstRows[i];
      if firstRow.None? {
        i := i + 1;
        continue;
      }
      var cols := Map(NormalizeText, firstRow.value);
      if IsTargetHeader(cols) {
        found := Some(i);
        return;
      }
      i := i + 1;
    }
  }

  // ---------------------------------------------------------------------
  // Extracting the rows
  // ---------------------------------------------------------------------

  function NormalizeCells(cells: seq<string>): seq<string>
  {
    Map(NormalizeText, cells)
  }

  predicate NonEmpty(cells: seq<string>)
  {
    cells != []
  }

  function Tail<T>(s: seq<T>): seq<T>
  {
    if s == [] then [] else s[1..]
  }

  /** The extraction loop: skip the header row and every `<tr>` without a
      `<td>`, and normalise every cell of the others. */
  method ExtractRows(trs: seq<seq<string>>) returns (rows: seq<seq<string>>)
    ensures rows == Map(NormalizeCells, Filter(Tail(trs), NonEmpty))
  {
    rows := [];
    var body := Tail(trs);
    for i := 0 to |body|
      invariant rows == Map(NormalizeCells, Filter(body[..i], NonEmpty))
    {
      TakeSnoc(body, i);
      FilterSnoc(body[..i], body[i], NonEmpty);
      var cols := body[i];
      if |cols| == 0 {
        continue;
      }
      MapSnoc(NormalizeCells, Filter(body[..i], NonEmpty), cols);
      rows := rows + [NormalizeCells(cols)];
    }
    TakeAll(body);
  }

  /** Every extracted row has a cell, every cell is normalised text, and
      the header row is never among them. */
  lemma ExtractedRowsNormal(trs: seq<seq<string>>)
    ensures var rows := Map(NormalizeCells, Filter(Tail(trs), NonEmpty));
            && |rows| <= |Tail(trs)|
            && forall i :: 0 <= i < |rows| ==> rows[i] != [] && forall j :: 0 <= j < |rows[i]| ==> IsNormalText(rows[i][j])
  {
    var kept := Filter(Tail(trs), NonEmpty);
    forall i, j | 0 <= i < |kept| && 0 <= j < |kept[i]| ensures IsNormalText(NormalizeText(kept[i][j])) {
      NormalizeTextIsNormal(kept[i][j]);
    }
    forall i | 0 <= i < |kept| ensures kept[i] != [] {
      assert kept[i] in kept;
    }
  }

  // ---------------------------------------------------------------------
  // One row as pandas holds it
  // ---------------------------------------------------------------------

  /** A row: `None` for a missing (NaN) cell. */
  type Row = seq<Option<string>>

  /** The number of columns `pd.DataFrame(rows)` gets: the longest row's. */
  function Width(rows: seq<seq<string>>): (n: nat)
    ensures forall k :: 0 <= k < |rows| ==> |rows[k]| <= n
    ensures rows != [] ==> exists k :: 0 <= k < |rows| && |rows[k]| == n
    ensures rows == [] ==> n == 0
  {
    if rows == [] then 0
    else
      var w, last := Width(rows[..|rows| - 1]), |rows[|rows| - 1]|;
      if last > w then last else w
  }

  /** The twelve names master.py gives the frame's columns. */
  const FrameWidth := 12

  /** An extracted row in the twelve-column frame after the image and
      blank columns are dropped: cells past the row's end are missing. */
  function FrameRow(cells: seq<string>): (r: Row)
    ensures |r| == 10
  {
    seq(10, i requires 0 <= i < 10 => if i + 2 < |cells| then Some(cells[i + 2]) else None)
  }

  /** The frame master.py reads the sessions from. Renaming the columns of
      a wider frame raises; a narrower one keeps numbered columns, and the
      first lookup of a named column raises as soon as there is a row. */
  function Frame(rows: seq<seq<string>>): (r: Option<seq<Row>>)
    ensures r.None? <==> Width(rows) > FrameWidth || (rows != [] && Width(rows) < FrameWidth)
    ensures r.Some? ==> |r.value| == |rows|
    ensures r.Some? ==> forall k, c :: 0 <= k < |rows| && 0 <= c < 10 ==>
      Cell(r.value[k], c) == if c + 2 < |rows[k]| then Some(rows[k][c + 2]) else None
  {
    var n := Width(rows);
    if n > FrameWidth || (rows != [] && n < FrameWidth) then None
    else Some(Map(FrameRow, rows))
  }

  /** The named columns the session loops read are cells 3, 5, 6, 7, 8
      and 10 of the extracted row. */
  lemma FrameFields(rows: seq<seq<string>>, k: int)
    requires Frame(rows).Some? && 0 <= k < |rows|
    ensures var row, cells := Frame(rows).value[k], rows[k];
      && |row| == 10
      && Cell(row, CourseCol) == (if 3 < |cells| then Some(cells[3]) else None)
      && Cell(row, DayCol) == (if 5 < |cells| then Some(cells[5]) else None)
      && Cell(row, TimeCol) == (if 6 < |cells| then Some(cells[6]) else None)
      && Cell(row, RoomCol) == (if 7 < |cells| then Some(cells[7]) else None)
      && Cell(row, CampusCol) == (if 8 < |cells| then Some(cells[8]) else None)
      && Cell(row, InstructorCol) == (if 10 < |cells| then Some(cells[10]) else None)
  {
    assert Frame(rows).value[k] == FrameRow(rows[k]);
  }

  /** Column positions, by name in master.py, shifts.py, ta_sched.py and
      conflict.py and by number in lectuers.py. */
  const CourseCol := 1
  const DayCol := 3
  const TimeCol := 4
  const RoomCol := 5
  const CampusCol := 6
  const InstructorCol := 8

  function Cell(row: Row, i: nat): Option<string>
  {
    if i < |row| then row[i] else None
  }

  /** The cells that are present, in order. */
  function Present(row: Row): (cs: seq<string>)
    ensures |cs| <= |row|
    ensures forall c :: c in cs <==> Some(c) in row
  {
    if row == [] then [] else (if row[0].Some? then [row[0].value] else []) + Present(row[1..])
  }

  /** `" ".join([str(cell) for cell in row if pd.notna(cell)])`. */
  function RowText(row: Row): string
  {
    JoinWith(Present(row), " ")
  }

  /** "clinic", "practical" and "laboratory". */
  const ClinicWord := "\U{639}\U{64A}\U{627}\U{62F}\U{629}"
  const PracticalWord := "\U{639}\U{645}\U{644}\U{64A}"
  const LabWord := "\U{645}\U{62E}\U{62A}\U{628}\U{631}"

  /** Whether the text names one of the three clinic keywords. */
  predicate HasKeyword(text: string)
  {
    Contains(text, ClinicWord) || Contains(text, PracticalWord) || Contains(text, LabWord)
  }

  predicate SpaceFree(p: string)
  {
    p != [] && forall i :: 0 <= i < |p| ==> p[i] != ' '
  }

  lemma KeywordsSpaceFree()
    ensures SpaceFree(ClinicWord) && SpaceFree(PracticalWord) && SpaceFree(LabWord)
  {
  }

  /** A present cell of the row contains `p`. */
  predicate SomeCellContains(row: Row, p: string)
  {
    exists i :: 0 <= i < |row| && row[i].Some? && Contains(row[i].value, p)
  }

  lemma CellContains(row: Row, p: string)
    requires SpaceFree(p)
    ensures Contains(RowText(row), p) <==> SomeCellContains(row, p)
  {
    var cs := Present(row);
    ContainsInJoin(cs, p);
    if exists j :: 0 <= j < |cs| && Contains(cs[j], p) {
      var j :| 0 <= j < |cs| && Contains(cs[j], p);
      assert cs[j] in cs;
      var i :| 0 <= i < |row| && row[i] == Some(cs[j]);
    }
    if SomeCellContains(row, p) {
      var i :| 0 <= i < |row| && row[i].Some? && Contains(row[i].value, p);
      assert row[i].value in cs;
      var j :| 0 <= j < |cs| && cs[j] == row[i].value;
    }
  }

  /** Joining the cells before searching changes nothing: a row's text
      mentions a keyword exactly when one of its present cells does. */
  lemma RowKeyword(row: Row)
    ensures HasKeyword(RowText(row)) <==>
      SomeCellContains(row, ClinicWord) || SomeCellContains(row, PracticalWord) || SomeCellContains(row, LabWord)
  {
    KeywordsSpaceFree();
    CellContains(row, ClinicWord);
    CellContains(row, PracticalWord);
    CellContains(row, LabWord);
  }

  /** "undetermined", the day of a row without one. */
  const Undetermined := "\U{63A}\U{64A}\U{631} \U{645}\U{62D}\U{62F}\U{62F}"

  /** The day cell as it is, not stripped, or "undetermined" when missing. */
  function DayOf(c: Option<string>): (d: string)
    ensures c.None? ==> d == Undetermined
  {
    if c.Some? then c.value else Undetermined
  }

  /** `str(row[col]).strip() if pd.notna(row[col]) else ""`. */
  function FieldOf(c: Option<string>): (f: string)
    ensures c.None? ==> f == ""
    ensures c.Some? ==> f == Strip(c.value)
  {
    if c.Some? then Strip(c.value) else ""
  }

  /** `normalize_time(row[time] if pd.notna(row[time]) else "")`. */
  function TimesOf(c: Option<string>): (string, string)
  {
    NormalizeTime(if c.Some? then c.value else "")
  }
}
