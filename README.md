# Clinic and lecture scheduling, modelled in Dafny

The repository is a set of small scripts for a dental faculty's timetable.
They read the university's course table and split its rows into clinics
(rows mentioning a clinic, practical or lab keyword) and lectures. Each
script then does one of the following:

- staffs every clinic session with teaching assistants, using a greedy
  assignment (`ta_sched.py`, `shifts.py`);
- reports lectures whose times clash within one room (`conflict.py`);
- lays the sessions out on spreadsheet grids (`master.py`, `sched.py`,
  `lecture-sech.py`, `per-instructor.py`);
- sums each assistant's hours, clinics and labs (`ta_sched.py`).

This project models that core as Dafny functions, methods and a class, and
proves what the scripts rely on. The modules follow the scripts' steps:

| module | what it models |
|---|---|
| `Seqs` | Filters; order-keeping de-duplication; Python's stable `sorted` as an insertion sort; the `setdefault(k, []).append(x)` grouping loops, one- and two-level |
| `Text` | `normalize_text`, `strip`, substring search, `split()` into words |
| `Times` | `split("-")`, `normalize_time`, `strptime`/`strftime` on `"%H:%M"`, `time_to_minutes`, `is_overlap`, `parse_time`, `normalize_times` |
| `Rows` | Finding the course table by its headers; extracting and normalizing rows; the cells a row offers; the clinic keywords |
| `Names` | `clean_session_name` and `determine_location` |
| `Schedule` | The clinic/lecture split; the per-day entry lists of `master.py` and `lectuers.py`; the lecture lists of `conflict.py` |
| `Campus` | The per-day, per-campus clinic lists of `ta_sched.py`/`shifts.py` and of `analysis.py` |
| `Grid` | The fixed 30-minute time grid and the column a session starts and ends in |
| `Slots` | `generate_used_time_slots` and the slot columns a lecture spans |
| `Assign` | One session's candidate order, the greedy walk, the booking and the padding. `Assign.Engine` is a class holding `worker_assignments` and `worker_day_location`, which its method updates in place |
| `Staffing` | The required-worker rule, the visiting order over days and campuses, and the whole assignment loop as a fold over the sessions |
| `Summary` | The "Summary" sheet |
| `Conflicts` | The room-conflict scan of `conflict.py` |
| `Sheets` | The course, campus/room and instructor groupings that the sheet writers draw from |

What the model takes as given:

- **Times:** every time is a number of minutes since midnight. A missing
  cell or a string that does not parse is an `Option`.
- **The table:** the course table arrives as a sequence of cell rows.
- **The worker pool:** the size is a parameter (`input()` in `ta_sched.py`).
- **Time parsing in `Conflicts`:** its members take the parser as a
  parameter, `parse: string -> Option<int>`, and are meant to be used with
  `Times.ParseTime` (`strptime(t.strip(), "%H:%M")`). Nothing else is
  assumed about `parse`.
- **Spreadsheet output:** what the scripts write to the workbook is
  modelled as the values they compute (groupings, columns, placements).
  The workbook calls themselves are not modelled.

## Model

| member | source | states |
|---|---|---|
| Seqs.Filter | master.py:321 | The comprehension keeps exactly the elements that satisfy the test, and never more than there were |
| Seqs.Dedup | analysis.py:30-35 | No repeats; the same elements as the input; never longer |
| Seqs.DedupFirstOccurrenceOrder | analysis.py:30-35 | De-duplicated elements keep the order of their first occurrences |
| Seqs.SortBy | ta_sched.py:143 | `sorted(..., key=...)`: same length, ordered by the key, a permutation of the input |
| Seqs.SortByStable | ta_sched.py:158 | Elements with equal keys keep their input order (Python's sort is stable) |
| Seqs.SortByNoDup | ta_sched.py:158 | Sorting a list with no repeats yields none |
| Seqs.SortByTiesAscending | ta_sched.py:158 | Sorting an ascending id list by shift count leaves equal counts in ascending id order |
| Seqs.GroupInto | master.py:141 | The keys appear in first-appearance order, each once; each group holds the values of exactly that key's items, in input order |
| Seqs.GroupingPartitions | master.py:141 | The groups together hold every item exactly once |
| Seqs.GroupNested | master.py:387-391 | Two-level grouping: each campus holds exactly its entries, and each of them is grouped by room |
| Text.NormalizeTextIsNormal | master.py:42-48 | The result has no `\xa0` or `&nbsp;`, only single plain spaces, and no space at either end |
| Text.NormalizeTextIdempotent | test.py:31-37 | Normalizing text twice gives the same as once |
| Text.StripSpec | master.py:48 | `strip()` removes exactly the leading and the trailing whitespace and keeps the middle unchanged |
| Text.StripIdempotent | master.py:124 | Stripping a stripped field changes nothing |
| Text.ContainsIff | master.py:98 | `k in row_text` holds exactly when `k` occurs at some position |
| Text.ContainsInJoin | master.py:97-98 | A space-free keyword occurs in the space-joined row text exactly when it occurs in one of the cells |
| Text.WordsAreWords | analysis.py:29 | `split()`: every piece is a non-empty word without whitespace |
| Text.WordsOfJoin | analysis.py:37 | Splitting a space-join of words gives back those words |
| Text.ReplaceChar | analysis.py:26 | Each `\xa0` becomes a space and every other character is kept |
| Times.SplitOn | master.py:115 | `split("-")` yields at least one piece, none containing the separator |
| Times.SplitOnCount | master.py:115 | There is one more piece than there are separators |
| Times.JoinSplitOn | master.py:115 | Re-joining the pieces with the separator gives back the string |
| Times.NormalizeTimeOneDash | master.py:111-118 | With exactly one dash, the result is the stripped text on either side of it |
| Times.NormalizeTimeOtherDashes | master.py:114-118 | With no dash or several, unpacking fails and the result is `("", "")` |
| Times.NormalizeTimeHalves | conflict.py:56-63 | Both halves are dash-free and carry no edge whitespace |
| Times.ParseClock | master.py:367 | `strptime(s, "%H:%M")` succeeds only on a time within one day |
| Times.FieldBounds | master.py:367 | The hour and minute fields `%H` and `%M` accept are numerals of one or two decimal digits of any script, below 24 and below 60 |
| Times.ParseClockSingleDigits | master.py:367 | Single decimal digits of any script either side of the colon parse, to their digit values |
| Times.FormatClock | master.py:291 | `strftime("%H:%M")` is five characters with a colon in the middle |
| Times.ParseFormatClock | master.py:372 | Formatting a time of day and parsing it back gives the same minutes |
| Times.FormatParseClock | master.py:367 | A five-character ASCII time that parses is exactly the formatting of its value |
| Times.FormatClockOrder | master.py:333-334 | Zero-padded labels compare as strings exactly as their minutes compare as numbers |
| Times.TimeToMinutesAgrees | ta_sched.py:132-134 | `time_to_minutes` agrees with `strptime` on every time `strptime` accepts |
| Times.ParseIntNumeral | ta_sched.py:133 | `int()` reads a numeral of any decimal script to its value, also after a sign and inside whitespace |
| Times.NumeralUnderscore | ta_sched.py:133 | A single underscore between digits leaves the value `int()` reads unchanged |
| Times.NumeralJoin | ta_sched.py:133 | Two numerals joined by one underscore are again a numeral `int()` accepts |
| Times.ClockTexts | ta_sched.py:132-134 | Two numerals around a colon are read by `time_to_minutes` as hours·60 + minutes, while `strptime` reads them only as far as its field patterns allow |
| Times.TimeToMinutesOfClock | ta_sched.py:132-134 | `time_to_minutes` of a formatted time returns that time |
| Times.OverlapSymmetric | ta_sched.py:136-137 | `is_overlap` does not depend on the order of the two intervals |
| Times.OverlapSharesMinute | ta_sched.py:136-137 | Two non-empty intervals overlap exactly when some minute lies in both |
| Times.NormalizeTimesOrdered | sched.py:30-36 | The result parses, is in order, and is the input pair, swapped when it was reversed |
| Times.NormalizeTimesIdempotent | sched.py:30-36 | Normalizing a normalized pair changes nothing |
| Times.NormalizeTimesOfClocks | sched.py:30-36 | An ordered pair of formatted times is returned as it is |
| Rows.HeaderMatchIff | master.py:61-62 | A header row matches exactly when every key header is a substring of some column |
| Rows.FindTargetTable | master.py:56-64 | Returns the first table whose first row matches; no earlier table matches; `None` when none does |
| Rows.ExtractRows | master.py:70-76 | The first row is skipped, rows without cells are dropped, and every cell is normalized |
| Rows.ExtractedRowsNormal | test.py:74-80 | There are no more rows than the table had after its header; each is non-empty with only normalized cells |
| Rows.Width | master.py:79 | The frame has as many columns as the longest row has cells |
| Rows.FrameRow | master.py:79-86 | Ten columns remain once the image and blank columns are dropped |
| Rows.Frame | master.py:79-86 | Fails exactly when a row has more than twelve cells, or there are rows and none has twelve; otherwise one frame row per row, whose column c is the row's cell c+2, missing past its end |
| Rows.FrameFields | master.py:121-127 | The course, day, time, room, campus and instructor columns are cells 3, 5, 6, 7, 8 and 10 of the extracted row |
| Rows.Present | master.py:97 | The surviving cells are exactly the non-missing ones |
| Rows.RowKeyword | master.py:97-98 | A row counts as a clinic exactly when one of its cells contains a clinic, practical or lab keyword |
| Rows.DayOf | master.py:121 | A missing day becomes "undetermined" (غير محدد) |
| Rows.FieldOf | master.py:124 | A missing cell becomes `""`; a present one is stripped |
| Names.CleanSessionName | analysis.py:22-37 | Returns the specified cleaned name |
| Names.FirstOccurrences | analysis.py:30-35 | The loop over `seen` keeps the first occurrence of each word, in order |
| Names.CleanNameWords | analysis.py:22-37 | The cleaned name's words are the name's distinct words in first-occurrence order, without repeats |
| Names.CleanNameIdempotent | analysis.py:22-37 | Cleaning a cleaned name changes nothing |
| Names.DetermineLocation | ta_sched.py:93-99 | New Campus exactly when a practical/lab word occurs; otherwise Old Campus exactly when the name is listed; otherwise CELT |
| Names.OldCampusListHonoured | analysis.py:12-19 | Every listed Old Campus clinic is placed at the Old Campus |
| Names.NewCampusIsClinic | analysis.py:66-68 | A New Campus name always carries a clinic keyword |
| Schedule.SplitClinicsLectures | master.py:93-101 | The clinic rows are exactly the keyword rows in order, and the lecture rows are the others |
| Schedule.SplitPartitions | master.py:93-101 | Every row goes to exactly one of the two lists |
| Schedule.ScheduleByDay | master.py:120-141 | Rows with some field keep their entry, grouped by day in first-appearance order and in row order within a day |
| Schedule.OtherSchedule | lectuers.py:22-55 | Grouping by day of the non-keyword rows that have some field |
| Schedule.ScheduledEntryFromRow | master.py:129-141 | Every listed entry comes from a row of the right kind on that day, with some non-empty field |
| Schedule.LectureSchedule | conflict.py:65-88 | Grouping by day of the rows whose course name has no keyword and that have some field |
| Schedule.NoClinicLectures | conflict.py:69-71 | No lecture in the schedule has a keyword in its course name |
| Campus.ClinicsSchedule | ta_sched.py:101-123 | Each day holds three campus lists; each list holds exactly that day's sessions at that campus, in row order |
| Campus.DayLocationsPartition | ta_sched.py:121-123 | A day's three campus lists together hold every session of that day once |
| Campus.SessionAtItsCampus | ta_sched.py:117-123 | A session is listed under its own computed campus |
| Campus.FirstKeywordCell | analysis.py:61-64 | Returns the first cell with a keyword, or none when no cell has one |
| Campus.SessionName | analysis.py:60-64 | The session name is the cleaned first keyword cell, or `""` |
| Campus.ClinicRowHasCell | analysis.py:57 | A clinic row has a non-missing cell, so the last such cell (the instructor) exists |
| Campus.AnalysisSchedule | analysis.py:43-87 | Every clinic row is listed under its day and its campus, in row order |
| Grid.GridMinutes | master.py:285-293 | Grid times lie in [start, end) and strictly increase |
| Grid.GridMinutesNth | master.py:290-292 | The i-th label is start + i·step |
| Grid.GridMinutesLength | master.py:290-292 | The grid is exactly long enough to reach the end |
| Grid.CreateTimeGrid | sched.py:38-46 | The labels are the formatted grid times |
| Grid.DefaultGrid | ta_sched.py:193 | The 08:00 to 18:00 grid has 20 labels, every 30 minutes, which is the grid `ta_sched.py` builds directly |
| Grid.LabelsDistinct | master.py:296 | No two grid labels are equal, so `time_to_col` loses no column |
| Grid.StartCol | master.py:333 | The smallest column whose label is not before "From", or column 2 when there is none |
| Grid.EndCol | master.py:334 | The largest column whose label is before "To", or the start column when there is none |
| Grid.ColumnsSpan | master.py:333-334 | When some label falls inside the session, the columns from start to end are exactly the labels in [From, To) |
| Grid.ColumnsCross | sched.py:111-112 | A session between two labels gets an end column before its start column |
| Slots.SessionSlots | master.py:369-373 | Every slot is one interval wide and starts inside the session |
| Slots.SessionSlotsShape | master.py:369-373 | A slot is produced exactly when it is the k-th one from the start, for a k that starts before the end |
| Slots.FirstSlot | master.py:369-372 | A non-empty session yields the slot at its own start |
| Slots.SlotsCover | master.py:369-373 | Every minute of the session lies in one of its slots |
| Slots.SlotsExample | master.py:369-373 | 09:00 to 10:05 yields three slots, the last one ending at 10:30, after the session |
| Slots.UsedSlotsMember | master.py:365-373 | A slot is used exactly when it is a slot of some entry with both times |
| Slots.AddEntrySlots | master.py:366-373 | Adding one entry's slots to the set |
| Slots.SortSlotSet | master.py:374 | Sorted by (start, end), without repeats, and holding exactly the set's slots |
| Slots.SortedUnique | master.py:374 | Two strictly sorted lists with the same slots are equal |
| Slots.SpanOfClocks | master.py:366-368 | Printed times are read back as their minutes under each of the three readings |
| Slots.PaddedTimeStops | master.py:366-368 | A time with a leading space raises where the blank test strips but `strptime` gets the raw text, and where nothing strips; it is read where the times are stripped first |
| Slots.SpacesField | per-instructor.py:39-41 | A field of spaces skips the entry where the blank test strips, and raises in `add_entry`, which only tests for `""` |
| Slots.GenerateUsedTimeSlots | master.py:363-374 | Fails exactly when some entry's non-blank time does not parse; otherwise sorted, without repeats, and exactly the used slots of all entries |
| Slots.GenerateUsedTimeSlotsNested | per-instructor.py:16-29 | The same over a per-day map of entries whose times are stripped first: fails exactly when some entry of some day does not parse |
| Slots.MergeSlots | per-instructor.py:80 | The sorted, repeat-free union of the two slot lists |
| Slots.SlotColumns | master.py:403-411 | None when no slot overlaps; otherwise the first and last overlapping slot's columns, with every overlapping slot between them |
| Slots.Place | master.py:413-416 | No cell when nothing overlaps; a merge only when the two columns differ |
| Slots.DrawSession | master.py:403-416 | No cell when no slot overlaps; one cell when exactly one does; otherwise a merge from the first to the last overlapping slot, with every overlapping slot inside it |
| Slots.DrawEntry | master.py:399-416 | Fails exactly when a non-blank time does not parse; a skipped entry draws nothing; otherwise the drawn cells cover exactly the overlapped slots |
| Assign.Pool | ta_sched.py:128 | Workers 1..n in order |
| Assign.PoolIncreasing | ta_sched.py:128 | The pool is strictly ascending |
| Assign.CandidatesOrder | ta_sched.py:157-158 | Workers already at this campus today come first, ascending; then the rest, by fewest shifts, ties by id; a permutation of the pool |
| Assign.CandidatesArePool | ta_sched.py:157-158 | Every worker is a candidate exactly once |
| Assign.Pick | ta_sched.py:163-172 | At most `required` workers, all candidates, none busy at the time |
| Assign.PickFirstFree | ta_sched.py:163-172 | The picked workers are the first `required` free candidates, in candidate order |
| Assign.PickNoDup | ta_sched.py:163-172 | No worker is picked twice |
| Assign.PickShort | ta_sched.py:163-172 | When fewer are picked than needed, every unpicked candidate was busy |
| Assign.ChosenWorkers | ta_sched.py:155-172 | No repeats; at most `required` workers, each from the pool and free; when short, every other pool worker is busy |
| Assign.BookingKeepsApart | ta_sched.py:166-170 | Adding a shift that conflicts with none keeps the worker's shifts pairwise apart |
| Assign.Book | ta_sched.py:170 | Booking adds no worker to the ledger |
| Assign.BookKeepsApart | ta_sched.py:166-170 | After the walk, no worker holds two overlapping shifts on one day |
| Assign.Settle | ta_sched.py:171 | Recording the campus adds no worker |
| Assign.SettledStay | ta_sched.py:171 | After the walk, a worker is at this campus today exactly when picked now or already there |
| Assign.PaddedShape | ta_sched.py:174-175 | `required` entries: the picked workers in order, then `None`s; a `None` only when short; exactly the picked workers appear |
| Assign.Engine.constructor | ta_sched.py:128-130 | Workers 1..n with empty shift lists and empty day maps |
| Assign.Engine.AssignSession | ta_sched.py:155-176 | The staff list is the padded chosen workers; only the chosen have the shift booked and the campus recorded; the engine stays valid |
| Assign.Walk | ta_sched.py:163-172 | The candidate loop books and records exactly the picked workers |
| Assign.Consider | ta_sched.py:164-172 | One turn of the loop: a busy candidate is skipped; a free one is taken, booked for the session and recorded at its campus |
| Assign.StaffSession | ta_sched.py:155-176 | On the books as values: the padded chosen workers, only they booked and recorded, and the books stay sound |
| Assign.Pad | ta_sched.py:174-175 | The padding loop appends `None`s up to the required count |
| Staffing.RequiredWorkers | shifts.py:155-158 | One worker exactly for a New Campus session other than the conservative practical; two otherwise |
| Staffing.StaleRuleUnderstaffs | ta_sched.py:147-151 | In a table whose last keyword row names another course, a kept session of the conservative practical is at New Campus and gets one worker as written, where it needs two |
| Staffing.StaleRuleOverstaffs | ta_sched.py:147-151 | In a table whose last keyword row names the practical, every other kept New Campus session gets two workers as written, where it needs one |
| Staffing.KeptSessionLocation | ta_sched.py:117 | A kept session's campus is the one its course name selects |
| Staffing.PracticalAtNewCampus | ta_sched.py:93-95 | The conservative practical's name selects the New Campus |
| Staffing.StaleCourseStripped | ta_sched.py:111 | The course name left by the clinic loop is already stripped, so the second `strip()` changes nothing |
| Staffing.TimeAll | ta_sched.py:160-161 | All sessions' times parse exactly when the result exists, and then each carries its own start and end |
| Staffing.VisitCampus | ta_sched.py:143 | A campus's sessions, sorted by start, exist exactly when every time parses |
| Staffing.VisitCampusOrder | ta_sched.py:143 | The visited sessions are a permutation, ascending by start, with equal starts in list order |
| Staffing.VisitSucceeds | ta_sched.py:140-143 | The whole visit exists exactly when every day's sessions parse |
| Staffing.Fold | ta_sched.py:146-180 | One output per session |
| Staffing.FoldSnoc | ta_sched.py:146-180 | One more session extends the outputs by that session's output, computed from the books so far |
| Staffing.FoldAt | ta_sched.py:146-180 | Each session's output depends only on the books left by the sessions before it |
| Staffing.Run | ta_sched.py:139-180 | One staff list per visited session |
| Staffing.RunSnoc | ta_sched.py:146-180 | The run over one more session adds its staff list and its bookings |
| Staffing.PaddedDistinct | ta_sched.py:163-176 | A staff list names each pool worker at most once |
| Staffing.AfterSound | ta_sched.py:155-176 | One session keeps the books sound and yields `required` distinct pool workers or `None`s |
| Staffing.RunSound | ta_sched.py:139-180 | Over any session list, every staff list has the required length with distinct workers, and no worker is double-booked |
| Staffing.RunGrows | ta_sched.py:170 | Shift lists only ever grow |
| Staffing.ConflictsGrow | ta_sched.py:166-167 | A conflict with some shifts remains a conflict once more shifts are added |
| Staffing.StepUnderstaffed | ta_sched.py:174-176 | A `None` means every unpicked pool worker was busy at that time |
| Staffing.RunUnderstaffed | ta_sched.py:174-176 | In the whole run, a `None` in a session means every pool worker not on it holds an overlapping shift at the end |
| Staffing.Label | ta_sched.py:178-180 | Each session is copied with its own staff list |
| Staffing.AssignSchedule | ta_sched.py:139-180 | Fails exactly when some time does not parse, and then leaves the books alone; otherwise each session carries its staff list from the run, and the engine holds the run's books |
| Summary.ClinicsAndLabs | ta_sched.py:279-282 | Each of the worker's sessions counts once, as a clinic or as a lab |
| Summary.MinutesNonNegative | ta_sched.py:273-276 | Sessions that end no earlier than they start sum to non-negative minutes |
| Summary.TotalsSnoc | ta_sched.py:270-282 | One more session adds its length and one clinic or lab, only when it is the worker's |
| Summary.WorkerTotals | ta_sched.py:264-282 | Fails exactly when some session of the worker's has a time the second `strptime` rejects; otherwise the session loop computes the worker's totals |
| Summary.SummaryOf | ta_sched.py:263-287 | Fails exactly when some pool worker's session loop raises; otherwise one line per pool worker, in order, each with that worker's totals |
| Summary.LengthAgrees | ta_sched.py:272-275 | Where the second `strptime` accepts both times, its length equals the one from the `time_to_minutes` minutes the run stores |
| Summary.SecondParseStops | ta_sched.py:272 | "8:60" is read by `time_to_minutes` as 540 minutes but rejected by the summary's `strptime` |
| Summary.RunBooksEachSession | ta_sched.py:170-172 | A run books each worker one shift per session it lists them on |
| Summary.SheetMatchesLedger | ta_sched.py:263-287 | From fresh books, a worker's clinics plus labs equal the shifts the ledger holds for them |
| Summary.LabelWorkers | ta_sched.py:178-179 | The summary reads back exactly the staff lists of the run |
| Conflicts.Keys | conflict.py:103 | Each lecture is paired with its parsed start |
| Conflicts.SlotsBy | conflict.py:107-108 | Each lecture is paired with its parsed start and end |
| Conflicts.AdjacentReports | conflict.py:104-115 | A conflict is reported exactly for each neighbouring pair in which the second starts before the first ends |
| Conflicts.AdjacentCount | conflict.py:104 | No more reports than neighbouring pairs |
| Conflicts.OverlapReported | conflict.py:103-109 | In sorted order, a lecture overlapped by any later one is always reported with its next neighbour |
| Conflicts.ClashIsOverlap | conflict.py:109 | For sorted, non-empty lectures the test `start2 < end1` is exactly `is_overlap` |
| Conflicts.NeighboursOnly | conflict.py:104-109 | Only neighbours are compared: of three lectures, an overlapping non-adjacent pair goes unreported |
| Conflicts.ScanStops | conflict.py:107-108 | Once an end time fails to parse, the scan stays failed |
| Conflicts.ScanAdjacent | conflict.py:104-115 | The scan succeeds exactly when the ends parse, and then reports the neighbouring clashes |
| Conflicts.ScanRoom | conflict.py:104-115 | The pair loop computes the scan, and nothing when there are fewer than two lectures |
| Conflicts.RoomAdjacent | conflict.py:103-115 | A room's report is the neighbour scan of its lectures sorted by start |
| Conflicts.RoomReport | conflict.py:102-115 | Each report names the day, the room and two of its lectures, the second starting before the first ends |
| Conflicts.CollectParts | conflict.py:97-115 | The collected reports exist exactly when every part succeeds, and each report comes from some part |
| Conflicts.RoomConflicts | conflict.py:102-115 | The method computes a room's report |
| Conflicts.DayConflicts | conflict.py:98-115 | Rooms in first-appearance order, each with its own lectures |
| Conflicts.DetectConflicts | conflict.py:96-115 | The whole report, day by day |
| Conflicts.ReportShape | conflict.py:96-115 | Every report names a listed day, two lectures of that day in the named room, and an overlap |
| Sheets.CourseGroups | sched.py:91-99 | Sessions grouped by stripped course name |
| Sheets.CourseGroupsExact | sched.py:91-99 | A course group holds exactly the sessions with that stripped name; all groups together hold every session once |
| Sheets.LocationCourseGroups | master.py:320-325 | One campus's sessions, grouped by course |
| Sheets.LocationCourseGroupsExact | master.py:320-325 | A group holds exactly that campus's sessions of that course |
| Sheets.RoomGroups | lecture-sech.py:45-50 | Entries grouped by campus, then by room |
| Sheets.RoomGroupsExact | lecture-sech.py:45-50 | An entry is under exactly its own campus and room |
| Sheets.RoomGroupsPartition | lecture-sech.py:45-50 | A campus's rooms together hold that campus's entries once each |
| Sheets.InstructorGroups | per-instructor.py:83-85 | Tagged entries grouped by instructor |
| Sheets.InstructorGroupsExact | per-instructor.py:83-85 | Each instructor's group is their entries in input order; all groups together hold every entry once |

## Left out

- Fetching the page over HTTP: it is I/O. The model starts from the table's cells.
- BeautifulSoup parsing, `pd.read_html` and the DataFrame
  machinery: the parsed table is modelled as a sequence of rows of optional cells.
- The column positions of the table: they are read by header name, or by
  number in `lectuers.py`. The model stores them as fixed positions.
- `conflict.py`'s header match on `read_html` columns: it is modelled like the
  substring header match.
- Workbook output (openpyxl cells, merges, widths, fills, MD5-derived colours),
  JSON files, `print` warnings and `input()`: all are I/O. The worker count
  is a constructor parameter; `shifts.py`'s fixed pool of 26 is `Engine(26)`.
- Summary.WorkerTotals: the hours are kept as whole minutes. The model does
  not cover the floating-point `total_seconds() / 60` or `round(total_minutes / 60, 2)`.
- Summary.WorkerTotals: the session lengths come from the parsed start and
  end minutes the run stores, rather than from a second `strptime`. That
  second parse is modelled only as a test that can fail (`Summary.Clocks`).
  Where it succeeds, the lengths agree (`Summary.LengthAgrees`).
- An exception that aborts a script is a `None` result, with no partial
  output. This covers a clock time that does not parse in `time_to_minutes`,
  in `generate_used_time_slots` and in the drawing loops, and in the
  summary's second `strptime`. It also covers a table whose width does not
  fit the twelve column names.
- Slots.Span: it holds parsed times only. A blank field means the entry is
  skipped, and a non-blank one that does not parse stops the script. The
  texts are read by `Slots.SpanOf`, under the blank test and the `strptime`
  input each script uses.
- Times.FormatParseClock: stated for ASCII text only. `strptime` also accepts
  decimal digits of other scripts (Arabic-Indic, for one), and `strftime`
  prints those back in ASCII, so that round trip does not hold for them.
- Decimal digits: `int()` and `strptime`'s `\d` accept every character of
  Unicode category Nd. The model lists these as the 68 runs of ten of Unicode
  15.0 (`Times.ZeroAt`). Digits added to Unicode after 15.0 are not covered.
- test.py:79-86: there, a frame narrower than twelve columns is written out
  with numbered columns and does not raise. Only the master.py reading,
  `Rows.Frame`, is modelled.
- Time slots: the model computes on minutes and does not model the wrap at
  midnight in `strftime` for a slot that runs past 23:59.
- master.py:319: the `sorted(set(...))` order of campus labels is not modelled.
  Each campus's grouping is modelled for a given label.
- per-instructor.py:59-72: building `all_entries` from the two JSON files is not
  modelled. The instructor grouping starts from that list.
- per-instructor.py:76-79: the clinic-slot computation over a dictionary
  comprehension is modelled as the slots of the clinic entries.
- sched.py:94-99: the course grouping keeps whole entries instead of the
  four-field projection.
- `assigned_schedule`: modelled as the flat list of staffed sessions, in visiting
  order, rather than nested dictionaries. The nested loops are the visit.
- ta_sched.py:147-151: in the run, both assignment scripts use the corrected rule
  `Staffing.RequiredWorkers`. The as-written rule is under "Findings".
- analysis.py:49-54: the day and time regular expressions are not modelled.
  The found day and times are inputs of each sheet row.
- The members of `Conflicts` take the time parser as a parameter, to keep their
  proofs small. They are stated for any parser, including `Times.ParseTime`.

## Findings

| source | as written | input that shows it | evidently intended | confidence | as-written member | corrected member |
|---|---|---|---|---|---|---|
| ta_sched.py:148 | The New Campus test reads `course_name`, which still holds the course of the last row of the clinic loop, not the session's own course | Any table whose last clinic row's course is not "طب الأسنان التحفظي 1/ عملي": every New Campus session then gets one worker, including that practical, which needs two (`shifts.py` compares `session["Course"]`) | Compare the session's own course, as shifts.py:155 does | high, not executed | Staffing.StaleRuleUnderstaffs | Staffing.RequiredWorkers |
