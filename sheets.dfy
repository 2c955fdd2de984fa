/** The groupings the sheet writers draw from: sessions by course
    (sched.py, master.py), entries by campus and room (lecture-sech.py,
    master.py) and entries by instructor (per-instructor.py). Each is a
    `setdefault(key, []).append(entry)` loop over the entries in order. */
module Sheets {
  import opened Seqs
  import opened Text
  import opened Schedule

  /** An entry whose key is `k` is in group `k`, and nothing else is. */
  lemma GroupMembers<K(!new), T(!new)>(g: Grouping<K, T>, items: seq<T>, key: T -> K, k: K, x: T)
    requires IsGroupingOf(g, items, key, Identity) && k in g.groups
    ensures x in g.groups[k] <==> x in items && key(x) == k
  {
    MapIdentity(Filter(items, KeyIs(key, k)));
  }

  // ---------------------------------------------------------------------
  // By course
  // ---------------------------------------------------------------------

  function StrippedCourse(e: Entry): string
  {
    Strip(e.course)
  }

  function CourseOf(e: Entry): string
  {
    e.course
  }

  /** sched.py: one group per stripped course name, in order of first
      appearance, each keeping the sessions' order. */
  method CourseGroups(sessions: seq<Entry>) returns (g: Grouping<string, Entry>)
    ensures IsGroupingOf(g, sessions, StrippedCourse, Identity)
  {
    g := GroupInto(sessions, StrippedCourse, Identity);
  }

  /** The course groups hold every session once, each under its own
      stripped name; names that differ only in edge spaces share a group. */
  lemma CourseGroupsExact(g: Grouping<string, Entry>, sessions: seq<Entry>, k: string, x: Entry)
    requires IsGroupingOf(g, sessions, StrippedCourse, Identity)
    ensures k in g.groups ==> (x in g.groups[k] <==> x in sessions && Strip(x.course) == k)
    ensures multiset(Concat(g.keys, g.groups)) == multiset(sessions)
  {
    if k in g.groups {
      GroupMembers(g, sessions, StrippedCourse, k, x);
    }
    GroupingPartitions(g, sessions, StrippedCourse, Identity);
    MapIdentity(sessions);
  }

  function AtLocation(loc: string): Entry -> bool
  {
    (e: Entry) => e.location == loc
  }

  /** master.py: the clinics of one campus label, grouped by course as
      written (not stripped). */
  method LocationCourseGroups(entries: seq<Entry>, loc: string) returns (g: Grouping<string, Entry>)
    ensures IsGroupingOf(g, Filter(entries, AtLocation(loc)), CourseOf, Identity)
  {
    var here := Filter(entries, AtLocation(loc));
    g := GroupInto(here, CourseOf, Identity);
  }

  /** Each group of a campus holds exactly that campus's sessions of its
      course. */
  lemma LocationCourseGroupsExact(g: Grouping<string, Entry>, entries: seq<Entry>, loc: string, k: string, x: Entry)
    requires IsGroupingOf(g, Filter(entries, AtLocation(loc)), CourseOf, Identity) && k in g.groups
    ensures x in g.groups[k] <==> x in entries && x.location == loc && x.course == k
  {
    GroupMembers(g, Filter(entries, AtLocation(loc)), CourseOf, k, x);
  }

  // ---------------------------------------------------------------------
  // By campus, then room
  // ---------------------------------------------------------------------

  function LocationOf(e: Entry): string
  {
    e.location
  }

  function RoomOf(e: Entry): string
  {
    e.room
  }

  /** `grouped.setdefault(loc, {}).setdefault(room, []).append(e)`. */
  method RoomGroups(entries: seq<Entry>) returns (n: Nested<string, string, Entry>)
    ensures IsNestedGroupingOf(n, entries, LocationOf, RoomOf, Identity)
  {
    n := GroupNested(entries, LocationOf, RoomOf, Identity);
  }

  /** Every entry lands under its own campus and room, and only there. */
  lemma RoomGroupsExact(n: Nested<string, string, Entry>, entries: seq<Entry>, loc: string, room: string, x: Entry)
    requires IsNestedGroupingOf(n, entries, LocationOf, RoomOf, Identity)
    requires loc in n.inner && room in n.inner[loc].groups
    ensures x in n.inner[loc].groups[room] <==> x in entries && x.location == loc && x.room == room
  {
    var here := Filter(entries, KeyIs(LocationOf, loc));
    GroupMembers(n.inner[loc], here, RoomOf, room, x);
  }

  /** Each campus's rooms together hold that campus's entries, each once. */
  lemma RoomGroupsPartition(n: Nested<string, string, Entry>, entries: seq<Entry>, loc: string)
    requires IsNestedGroupingOf(n, entries, LocationOf, RoomOf, Identity) && loc in n.inner
    ensures forall room :: room in n.inner[loc].keys ==> room in n.inner[loc].groups
    ensures multiset(Concat(n.inner[loc].keys, n.inner[loc].groups)) == multiset(Filter(entries, KeyIs(LocationOf, loc)))
  {
    var here := Filter(entries, KeyIs(LocationOf, loc));
    GroupingPartitions(n.inner[loc], here, RoomOf, Identity);
    MapIdentity(here);
  }

  // ---------------------------------------------------------------------
  // By instructor
  // ---------------------------------------------------------------------

  datatype Kind = ClinicKind | LectureKind

  /** `(day, e, etype)` of `all_entries`. */
  datatype Tagged = Tagged(day: string, entry: Entry, kind: Kind)

  function InstructorOf(t: Tagged): string
  {
    t.entry.instructor
  }

  method InstructorGroups(all: seq<Tagged>) returns (g: Grouping<string, Tagged>)
    ensures IsGroupingOf(g, all, InstructorOf, Identity)
  {
    g := GroupInto(all, InstructorOf, Identity);
  }

  /** Every entry is listed once, under its own instructor, in input order. */
  lemma InstructorGroupsExact(g: Grouping<string, Tagged>, all: seq<Tagged>, who: string, x: Tagged)
    requires IsGroupingOf(g, all, InstructorOf, Identity)
    ensures who in g.groups ==> (x in g.groups[who] <==> x in all && x.entry.instructor == who)
    ensures who in g.groups ==> g.groups[who] == Filter(all, KeyIs(InstructorOf, who))
    ensures multiset(Concat(g.keys, g.groups)) == multiset(all)
  {
    if who in g.groups {
      GroupMembers(g, all, InstructorOf, who, x);
      MapIdentity(Filter(all, KeyIs(InstructorOf, who)));
    }
    GroupingPartitions(g, all, InstructorOf, Identity);
    MapIdentity(all);
  }
}
