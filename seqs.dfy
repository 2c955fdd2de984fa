/** Sequence helpers shared by every script of the timetable tools: list
    filtering, first-occurrence de-duplication, Python's stable `sorted`
    by a key, and the insertion-ordered dictionaries built with
    `setdefault(key, []).append(item)`. */
module Seqs {

  datatype Option<T> = None | Some(value: T)

  /** Python's `[x for x in s if p(x)]`. */
  function Filter<T(!new)>(s: seq<T>, p: T -> bool): (r: seq<T>)
    ensures |r| <= |s|
    ensures forall x {:trigger x in r} :: x in r <==> x in s && p(x)
  {
    if s == [] then [] else (if p(s[0]) then [s[0]] else []) + Filter(s[1..], p)
  }

  lemma {:induction false} FilterAppend<T(!new)>(a: seq<T>, b: seq<T>, p: T -> bool)
    ensures Filter(a + b, p) == Filter(a, p) + Filter(b, p)
  {
    if a == [] {
      assert a + b == b;
    } else {
      AppendParts(a, b);
      FilterAppend(a[1..], b, p);
      FilterUnfold(a + b, p);
      FilterUnfold(a, p);
      Regroup(if p(a[0]) then [a[0]] else [], Filter(a[1..] + b, p), Filter(a[1..], p), Filter(b, p));
    }
  }

  lemma FilterUnfold<T(!new)>(s: seq<T>, p: T -> bool)
    requires s != []
    ensures Filter(s, p) == (if p(s[0]) then [s[0]] else []) + Filter(s[1..], p)
  {
  }

  lemma AppendParts<T>(a: seq<T>, b: seq<T>)
    requires a != []
    ensures a + b != [] && (a + b)[0] == a[0] && (a + b)[1..] == a[1..] + b
  {
  }

  lemma ConsMembers<T>(s: seq<T>)
    requires s != []
    ensures forall x :: x in s <==> x == s[0] || x in s[1..]
  {
    assert s == [s[0]] + s[1..];
  }

  lemma TakeSnoc<T>(s: seq<T>, i: int)
    requires 0 <= i < |s|
    ensures s[..i + 1] == s[..i] + [s[i]]
  {
  }

  lemma TakeAll<T>(s: seq<T>)
    ensures s[..|s|] == s
  {
  }

  lemma Regroup<T>(head: seq<T>, a: seq<T>, b: seq<T>, tail: seq<T>)
    requires a == b + tail
    ensures head + a == (head + b) + tail
  {
  }

  /** Appending one item extends the filtered list by that item exactly when it passes. */
  lemma FilterSnoc<T(!new)>(s: seq<T>, x: T, p: T -> bool)
    ensures Filter(s + [x], p) == Filter(s, p) + (if p(x) then [x] else [])
  {
    FilterAppend(s, [x], p);
    assert Filter([x], p) == (if p(x) then [x] else []) + Filter([x][1..], p);
    assert [x][1..] == [];
  }

  /** `f` of every item, or `None` as soon as one item has none. */
  function MapAll<T, U>(s: seq<T>, f: T -> Option<U>): (r: Option<seq<U>>)
    ensures r.Some? <==> forall i :: 0 <= i < |s| ==> f(s[i]).Some?
    ensures r.Some? ==> |r.value| == |s| && forall i :: 0 <= i < |s| ==> r.value[i] == f(s[i]).value
  {
    if s == [] then Some([])
    else
      var rest := MapAll(s[1..], f);
      assert forall i :: 1 <= i < |s| ==> s[1..][i - 1] == s[i];
      if f(s[0]).None? || rest.None? then None else Some([f(s[0]).value] + rest.value)
  }

  /** One more item extends the results of a list that had them all. */
  lemma MapAllPush<T, U>(s: seq<T>, x: T, f: T -> Option<U>)
    requires MapAll(s, f).Some?
    ensures MapAll(s + [x], f) == if f(x).Some? then Some(MapAll(s, f).value + [f(x).value]) else None
  {
    var t := s + [x];
    assert forall i :: 0 <= i < |s| ==> t[i] == s[i];
    assert t[|s|] == x;
    if f(x).Some? {
      forall i | 0 <= i < |t| ensures f(t[i]).Some? {
        if i < |s| {
          assert t[i] == s[i];
        }
      }
      var r, v := MapAll(t, f).value, MapAll(s, f).value + [f(x).value];
      assert |r| == |v|;
      forall i | 0 <= i < |t| ensures r[i] == v[i] {
        if i < |s| {
          assert t[i] == s[i];
        }
      }
      assert r == v;
    }
  }

  /** The predicate "has key k", shared by the grouping and sorting lemmas. */
  function KeyIs<K(==,!new), V(!new)>(key: V -> K, k: K): V -> bool
  {
    x => key(x) == k
  }

  /** Python's `[f(x) for x in s]`. */
  function Map<T(!new), U>(f: T -> U, s: seq<T>): (r: seq<U>)
    ensures |r| == |s| && forall i :: 0 <= i < |s| ==> r[i] == f(s[i])
  {
    seq(|s|, i requires 0 <= i < |s| => f(s[i]))
  }

  lemma MapSnoc<T(!new), U>(f: T -> U, s: seq<T>, x: T)
    ensures Map(f, s + [x]) == Map(f, s) + [f(x)]
  {
  }

  lemma MapAppend<T(!new), U>(f: T -> U, a: seq<T>, b: seq<T>)
    ensures Map(f, a + b) == Map(f, a) + Map(f, b)
  {
  }

  predicate NoDup<T(==,!new)>(s: seq<T>)
  {
    forall i, j :: 0 <= i < j < |s| ==> s[i] != s[j]
  }

  /** Two repetition-free lists with no item in common join into one. */
  lemma NoDupAppend<T(!new)>(a: seq<T>, b: seq<T>)
    requires NoDup(a) && NoDup(b) && forall x :: x in a ==> x !in b
    ensures NoDup(a + b)
  {
    var c := a + b;
    forall i, j | 0 <= i < j < |c| ensures c[i] != c[j] {
      if i < |a| && j >= |a| {
        assert c[i] in a && c[j] == b[j - |a|];
      } else if i >= |a| {
        assert c[i] == b[i - |a|] && c[j] == b[j - |a|];
      }
    }
  }

  /** The first occurrences of the items of `s`, in the order they first
      appear: the effect of a loop that appends an item only when it is not
      yet in a `seen` set. */
  function Dedup<T(==,!new)>(s: seq<T>): (r: seq<T>)
    ensures NoDup(r)
    ensures forall x :: x in r <==> x in s
    ensures |r| <= |s|
  {
    if s == [] then []
    else
      var init, x := s[..|s| - 1], s[|s| - 1];
      assert forall y :: y in s <==> y in init || y == x by {
        assert s == init + [x];
      }
      if x in init then Dedup(init) else Dedup(init) + [x]
  }

  lemma DedupSnoc<T(!new)>(s: seq<T>, x: T)
    ensures Dedup(s + [x]) == if x in s then Dedup(s) else Dedup(s) + [x]
  {
    assert (s + [x])[..|s|] == s;
  }

  /** De-duplicating a list that has no repeated item changes nothing. */
  lemma {:induction false} DedupOfNoDup<T(!new)>(s: seq<T>)
    requires NoDup(s)
    ensures Dedup(s) == s
  {
    if s != [] {
      var init := s[..|s| - 1];
      assert s == init + [s[|s| - 1]];
      assert NoDup(init);
      DedupOfNoDup(init);
    }
  }

  /** Index of the first occurrence of `x` in `s`. */
  function FirstIndex<T(==,!new)>(s: seq<T>, x: T): (k: nat)
    requires x in s
    ensures k < |s| && s[k] == x && x !in s[..k]
  {
    if s[0] == x then 0 else 1 + FirstIndex(s[1..], x)
  }

  lemma {:induction false} FirstIndexSnoc<T(!new)>(s: seq<T>, y: T, x: T)
    requires x in s
    ensures FirstIndex(s + [y], x) == FirstIndex(s, x)
  {
    if s[0] != x {
      assert (s + [y])[1..] == s[1..] + [y];
      FirstIndexSnoc(s[1..], y, x);
    }
  }

  /** The items of `Dedup(s)` appear in the order of their first occurrence in `s`. */
  lemma {:induction false} DedupFirstOccurrenceOrder<T(!new)>(s: seq<T>, i: nat, j: nat)
    requires i < j < |Dedup(s)|
    ensures FirstIndex(s, Dedup(s)[i]) < FirstIndex(s, Dedup(s)[j])
  {
    var init, x := s[..|s| - 1], s[|s| - 1];
    assert s == init + [x];
    var d := Dedup(init);
    assert forall y :: y in init ==> FirstIndex(s, y) == FirstIndex(init, y) by {
      forall y | y in init ensures FirstIndex(s, y) == FirstIndex(init, y) {
        FirstIndexSnoc(init, x, y);
      }
    }
    if x in init || j < |d| {
      assert Dedup(s)[i] == d[i] && Dedup(s)[j] == d[j];
      DedupFirstOccurrenceOrder(init, i, j);
    } else {
      assert Dedup(s)[j] == x && x !in init;
      assert FirstIndex(s, x) == |init| by {
        assert x !in s[..|init|];
      }
      assert Dedup(s)[i] == d[i] && d[i] in init;
    }
  }

  // ---------------------------------------------------------------------
  // Stable sorting by an integer key (Python's `sorted(s, key=...)` and
  // `list.sort(key=...)`, both stable).
  // ---------------------------------------------------------------------

  predicate SortedBy<T(!new)>(s: seq<T>, key: T -> int)
  {
    forall i, j :: 0 <= i < j < |s| ==> key(s[i]) <= key(s[j])
  }

  /** Inserts `x` after every element whose key is not greater than its own. */
  function InsertBy<T(!new)>(x: T, t: seq<T>, key: T -> int): (r: seq<T>)
    ensures |r| == |t| + 1
    ensures multiset(r) == multiset(t) + multiset{x}
  {
    if t == [] then [x]
    else if key(x) < key(t[0]) then [x] + t
    else
      assert t == [t[0]] + t[1..];
      [t[0]] + InsertBy(x, t[1..], key)
  }

  lemma InsertByItems<T(!new)>(x: T, t: seq<T>, key: T -> int)
    ensures forall y :: y in InsertBy(x, t, key) <==> y in t || y == x
  {
    var r := InsertBy(x, t, key);
    forall y ensures y in r <==> y in t || y == x {
      assert y in r <==> y in multiset(r);
      assert y in t <==> y in multiset(t);
    }
  }

  lemma {:induction false} InsertBySorted<T(!new)>(x: T, t: seq<T>, key: T -> int)
    requires SortedBy(t, key)
    ensures SortedBy(InsertBy(x, t, key), key)
  {
    if t == [] {
    } else if key(x) < key(t[0]) {
      SortedHeadMin(t, key);
      SortedCons(x, t, key);
    } else {
      var rest := InsertBy(x, t[1..], key);
      SortedTail(t, key);
      InsertBySorted(x, t[1..], key);
      SortedHeadMin(t, key);
      InsertByItems(x, t[1..], key);
      TailItems(t);
      InsertByCons(x, t, key);
      SortedCons(t[0], rest, key);
    }
  }

  lemma SortedHeadMin<T(!new)>(t: seq<T>, key: T -> int)
    requires SortedBy(t, key) && t != []
    ensures forall y :: y in t ==> key(t[0]) <= key(y)
  {
  }

  lemma TailItems<T>(t: seq<T>)
    requires t != []
    ensures forall y :: y in t[1..] ==> y in t
  {
  }

  lemma SortedCons<T(!new)>(h: T, r: seq<T>, key: T -> int)
    requires SortedBy(r, key) && forall y :: y in r ==> key(h) <= key(y)
    ensures SortedBy([h] + r, key)
  {
    var s := [h] + r;
    forall i, j | 0 <= i < j < |s| ensures key(s[i]) <= key(s[j]) {
      assert s[j] == r[j - 1];
      if i > 0 {
        assert s[i] == r[i - 1];
      }
    }
  }

  lemma {:induction false} InsertByNoDup<T(!new)>(x: T, t: seq<T>, key: T -> int)
    requires NoDup(t) && x !in t
    ensures NoDup(InsertBy(x, t, key))
  {
    if t == [] {
    } else if key(x) < key(t[0]) {
      NoDupCons(x, t);
    } else {
      var rest := InsertBy(x, t[1..], key);
      NoDupTail(t);
      TailItems(t);
      InsertByNoDup(x, t[1..], key);
      InsertByItems(x, t[1..], key);
      InsertByCons(x, t, key);
      NoDupCons(t[0], rest);
    }
  }

  lemma NoDupTail<T(!new)>(t: seq<T>)
    requires NoDup(t) && t != []
    ensures NoDup(t[1..]) && t[0] !in t[1..]
  {
    forall m | 0 <= m < |t[1..]|
      ensures t[1..][m] != t[0]
    {
      assert t[1..][m] == t[m + 1];
    }
  }

  lemma NoDupCons<T(!new)>(h: T, r: seq<T>)
    requires NoDup(r) && h !in r
    ensures NoDup([h] + r)
  {
    var s := [h] + r;
    forall i, j | 0 <= i < j < |s| ensures s[i] != s[j] {
      assert s[j] == r[j - 1];
      if i > 0 {
        assert s[i] == r[i - 1];
      }
    }
  }

  /** Insertion sort, taking the input's items from first to last. */
  function SortBy<T(!new)>(s: seq<T>, key: T -> int): (r: seq<T>)
    ensures |r| == |s|
    ensures SortedBy(r, key)
    ensures multiset(r) == multiset(s)
  {
    if s == [] then []
    else
      assert s == s[..|s| - 1] + [s[|s| - 1]];
      var t := SortBy(s[..|s| - 1], key);
      InsertBySorted(s[|s| - 1], t, key);
      InsertBy(s[|s| - 1], t, key)
  }

  /** Sorting keeps a repetition-free list repetition-free. */
  lemma {:induction false} SortByNoDup<T(!new)>(s: seq<T>, key: T -> int)
    requires NoDup(s)
    ensures NoDup(SortBy(s, key))
  {
    if s != [] {
      var init, x := s[..|s| - 1], s[|s| - 1];
      assert s == init + [x];
      assert NoDup(init);
      SortByNoDup(init, key);
      assert x !in multiset(SortBy(init, key)) by {
        assert x !in init;
        assert x !in multiset(init);
      }
      InsertByNoDup(x, SortBy(init, key), key);
    }
  }

  lemma {:induction false} SortedAboveKey<T(!new)>(t: seq<T>, key: T -> int, k: int)
    requires SortedBy(t, key) && t != [] && key(t[0]) > k
    ensures Filter(t, KeyIs(key, k)) == []
  {
    if |t| > 1 {
      assert SortedBy(t[1..], key);
      assert key(t[1..][0]) >= key(t[0]);
      SortedAboveKey(t[1..], key, k);
    }
  }

  lemma FilterCons<T(!new)>(y: T, r: seq<T>, p: T -> bool)
    ensures Filter([y] + r, p) == (if p(y) then [y] else []) + Filter(r, p)
  {
    assert ([y] + r)[0] == y && ([y] + r)[1..] == r;
  }

  lemma {:induction false} InsertByStable<T(!new)>(x: T, t: seq<T>, key: T -> int, k: int)
    requires SortedBy(t, key)
    ensures Filter(InsertBy(x, t, key), KeyIs(key, k))
         == Filter(t, KeyIs(key, k)) + (if key(x) == k then [x] else [])
  {
    var p := KeyIs(key, k);
    if t == [] {
      assert InsertBy(x, t, key) == [x];
      FilterCons(x, [], p);
    } else if key(x) < key(t[0]) {
      FilterCons(x, t, p);
      if key(x) == k {
        SortedAboveKey(t, key, k);
      }
    } else {
      SortedTail(t, key);
      InsertByStable(x, t[1..], key, k);
      InsertByStableStep(x, t, key, k);
    }
  }

  lemma SortedTail<T(!new)>(t: seq<T>, key: T -> int)
    requires SortedBy(t, key) && t != []
    ensures SortedBy(t[1..], key)
  {
  }

  lemma InsertByStableStep<T(!new)>(x: T, t: seq<T>, key: T -> int, k: int)
    requires t != [] && key(x) >= key(t[0])
    requires Filter(InsertBy(x, t[1..], key), KeyIs(key, k))
          == Filter(t[1..], KeyIs(key, k)) + (if key(x) == k then [x] else [])
    ensures Filter(InsertBy(x, t, key), KeyIs(key, k))
         == Filter(t, KeyIs(key, k)) + (if key(x) == k then [x] else [])
  {
    var p := KeyIs(key, k);
    var rest := InsertBy(x, t[1..], key);
    InsertByCons(x, t, key);
    FilterCons(t[0], rest, p);
    HeadTail(t);
    FilterCons(t[0], t[1..], p);
    Regroup(if p(t[0]) then [t[0]] else [], Filter(rest, p), Filter(t[1..], p), if key(x) == k then [x] else []);
  }

  lemma InsertByCons<T(!new)>(x: T, t: seq<T>, key: T -> int)
    requires t != [] && key(x) >= key(t[0])
    ensures InsertBy(x, t, key) == [t[0]] + InsertBy(x, t[1..], key)
  {
  }

  /** At most `n` of `[x] + t` are `x`, then at most `n - 1` of `t`. */
  lemma UpToCons<T>(x: T, t: seq<T>, n: nat)
    requires n > 0
    ensures (if |[x] + t| <= n then [x] + t else ([x] + t)[..n]) == [x] + (if |t| <= n - 1 then t else t[..n - 1])
  {
    if |t| > n - 1 {
      assert ([x] + t)[..n] == [x] + t[..n - 1];
    }
  }

  lemma HeadTail<T>(t: seq<T>)
    requires t != []
    ensures [t[0]] + t[1..] == t
  {
  }

  /** Stability: items with equal keys keep their input order. */
  lemma {:induction false} SortByStable<T(!new)>(s: seq<T>, key: T -> int, k: int)
    ensures Filter(SortBy(s, key), KeyIs(key, k)) == Filter(s, KeyIs(key, k))
  {
    if s != [] {
      var init, x := s[..|s| - 1], s[|s| - 1];
      assert s == init + [x];
      SortByStable(init, key, k);
      InsertByStable(x, SortBy(init, key), key, k);
      FilterSnoc(init, x, KeyIs(key, k));
    }
  }

  /** Splitting a list by a predicate and its negation loses nothing. */
  lemma {:induction false} FilterComplement<T(!new)>(s: seq<T>, p: T -> bool, q: T -> bool)
    requires forall x :: x in s ==> q(x) == !p(x)
    ensures multiset(Filter(s, p)) + multiset(Filter(s, q)) == multiset(s)
  {
    if s != [] {
      var y := s[0];
      TailItems(s);
      FilterComplement(s[1..], p, q);
      assert y in s;
      FilterUnfold(s, p);
      FilterUnfold(s, q);
      HeadTail(s);
      MultisetStep([y], if p(y) then [y] else [], if q(y) then [y] else [], s[1..], Filter(s[1..], p), Filter(s[1..], q));
    }
  }

  /** Sorted by key, ties in ascending value. */
  predicate SortedByKeyThenValue(s: seq<int>, key: int -> int)
  {
    forall i, j :: 0 <= i < j < |s| ==>
      key(s[i]) < key(s[j]) || (key(s[i]) == key(s[j]) && s[i] < s[j])
  }

  predicate Increasing(s: seq<int>)
  {
    forall i, j :: 0 <= i < j < |s| ==> s[i] < s[j]
  }

  /** A filtered ascending list is ascending. */
  lemma {:induction false} FilterIncreasing(s: seq<int>, p: int -> bool)
    requires Increasing(s)
    ensures Increasing(Filter(s, p))
  {
    if s != [] {
      FilterIncreasing(s[1..], p);
      var t := Filter(s[1..], p);
      assert forall y :: y in t ==> y in s[1..];
      assert forall y :: y in s[1..] ==> s[0] < y;
      var r := (if p(s[0]) then [s[0]] else []) + t;
      forall i, j | 0 <= i < j < |r| ensures r[i] < r[j] {
        if p(s[0]) && i == 0 {
          assert r[j] == t[j - 1] && t[j - 1] in t;
        }
      }
    }
  }

  /** An ascending list has no repeated item. */
  lemma IncreasingNoDup(s: seq<int>)
    requires Increasing(s)
    ensures NoDup(s)
  {
  }

  predicate KeyThenValueBefore(key: int -> int, a: int, b: int)
  {
    key(a) < key(b) || (key(a) == key(b) && a < b)
  }

  lemma PrependKeyThenValue(a: int, r: seq<int>, key: int -> int)
    requires SortedByKeyThenValue(r, key)
    requires forall y :: y in r ==> KeyThenValueBefore(key, a, y)
    ensures SortedByKeyThenValue([a] + r, key)
  {
    var s := [a] + r;
    forall i, j | 0 <= i < j < |s| ensures KeyThenValueBefore(key, s[i], s[j]) {
      if i == 0 {
        assert s[j] == r[j - 1] && r[j - 1] in r;
      } else {
        assert s[i] == r[i - 1] && s[j] == r[j - 1];
      }
    }
  }

  lemma {:induction false} InsertByKeyThenValue(x: int, t: seq<int>, key: int -> int)
    requires SortedByKeyThenValue(t, key)
    requires forall y :: y in t ==> y < x
    ensures SortedByKeyThenValue(InsertBy(x, t, key), key)
  {
    if t == [] {
    } else if key(x) < key(t[0]) {
      KeyThenValueHead(t, key);
      PrependKeyThenValue(x, t, key);
    } else {
      var rest := InsertBy(x, t[1..], key);
      KeyThenValueHead(t, key);
      TailItems(t);
      InsertByKeyThenValue(x, t[1..], key);
      InsertByItems(x, t[1..], key);
      InsertByCons(x, t, key);
      PrependKeyThenValue(t[0], rest, key);
    }
  }

  /** The head of a list sorted by key then value comes before the rest. */
  lemma KeyThenValueHead(t: seq<int>, key: int -> int)
    requires SortedByKeyThenValue(t, key) && t != []
    ensures SortedByKeyThenValue(t[1..], key)
    ensures forall y :: y in t ==> key(t[0]) <= key(y)
    ensures forall y :: y in t[1..] ==> KeyThenValueBefore(key, t[0], y)
  {
    forall y | y in t ensures key(t[0]) <= key(y) {
      var m :| 0 <= m < |t| && t[m] == y;
    }
    forall y | y in t[1..] ensures KeyThenValueBefore(key, t[0], y) {
      var m :| 0 <= m < |t[1..]| && t[1..][m] == y;
      assert t[m + 1] == y;
    }
  }

  /** Sorting an ascending list of ids by a key orders ties by ascending id. */
  lemma {:induction false} SortByTiesAscending(s: seq<int>, key: int -> int)
    requires Increasing(s)
    ensures SortedByKeyThenValue(SortBy(s, key), key)
  {
    if s != [] {
      var init, x := s[..|s| - 1], s[|s| - 1];
      assert s == init + [x];
      SortByTiesAscending(init, key);
      forall y | y in SortBy(init, key) ensures y < x {
        assert y in multiset(SortBy(init, key));
      }
      InsertByKeyThenValue(x, SortBy(init, key), key);
    }
  }

  // ---------------------------------------------------------------------
  // Insertion-ordered grouping: `d.setdefault(key(x), []).append(x)`.
  // ---------------------------------------------------------------------

  /** A dictionary of lists that remembers the order its keys were inserted. */
  datatype Grouping<K, V> = Grouping(keys: seq<K>, groups: map<K, seq<V>>)

  /** `g` is what a `d.setdefault(key(x), []).append(val(x))` loop builds
      from `items`: the keys in order of first appearance, and under each
      key the values of the items that have it, in input order. */
  ghost predicate IsGroupingOf<K(!new), T(!new), V>(g: Grouping<K, V>, items: seq<T>, key: T -> K, val: T -> V)
  {
    && g.keys == Dedup(Map(key, items))
    && (forall k :: k in g.groups <==> k in g.keys)
    && (forall k :: k in g.groups ==> g.groups[k] == Map(val, Filter(items, KeyIs(key, k))))
  }

  /** One `d.setdefault(k, []).append(v)` step. */
  function AddToGroup<K(==), V>(g: Grouping<K, V>, k: K, v: V): Grouping<K, V>
  {
    if k in g.groups then Grouping(g.keys, g.groups[k := g.groups[k] + [v]])
    else Grouping(g.keys + [k], g.groups[k := [v]])
  }

  lemma AddToGroupStep<K(!new), T(!new), V>(g: Grouping<K, V>, items: seq<T>, x: T, key: T -> K, val: T -> V)
    requires IsGroupingOf(g, items, key, val)
    ensures IsGroupingOf(AddToGroup(g, key(x), val(x)), items + [x], key, val)
  {
    GroupKeysStep(g, items, x, key, val(x));
    GroupValuesStep(g, items, x, key, val);
  }

  lemma GroupKeysStep<K(!new), T(!new), V>(g: Grouping<K, V>, items: seq<T>, x: T, key: T -> K, v: V)
    requires g.keys == Dedup(Map(key, items)) && (forall k :: k in g.groups <==> k in g.keys)
    ensures var g' := AddToGroup(g, key(x), v);
            && g'.keys == Dedup(Map(key, items + [x]))
            && (forall k :: k in g'.groups <==> k in g'.keys)
  {
    MapSnoc(key, items, x);
    DedupSnoc(Map(key, items), key(x));
  }

  lemma GroupValuesStep<K(!new), T(!new), V>(g: Grouping<K, V>, items: seq<T>, x: T, key: T -> K, val: T -> V)
    requires IsGroupingOf(g, items, key, val)
    ensures var g' := AddToGroup(g, key(x), val(x));
            forall j :: j in g'.groups ==> g'.groups[j] == Map(val, Filter(items + [x], KeyIs(key, j)))
  {
    var k := key(x);
    var g' := AddToGroup(g, k, val(x));
    forall j | j in g'.groups ensures g'.groups[j] == Map(val, Filter(items + [x], KeyIs(key, j))) {
      GroupSnoc(items, x, key, val, j);
      if j == k && k !in g.groups {
        NotGroupedNone(g, items, key, val, k);
      }
    }
  }

  /** A key without a group has no items. */
  lemma NotGroupedNone<K(!new), T(!new), V>(g: Grouping<K, V>, items: seq<T>, key: T -> K, val: T -> V, k: K)
    requires IsGroupingOf(g, items, key, val) && k !in g.groups
    ensures Map(val, Filter(items, KeyIs(key, k))) == []
  {
    forall y | y in items ensures !KeyIs(key, k)(y) {
      var i :| 0 <= i < |items| && items[i] == y;
      assert Map(key, items)[i] == key(y);
    }
    FilterNone(items, KeyIs(key, k));
  }

  /** One more item adds its value to the list of its own key only. */
  lemma GroupSnoc<K(!new), T(!new), V>(items: seq<T>, x: T, key: T -> K, val: T -> V, j: K)
    ensures Map(val, Filter(items + [x], KeyIs(key, j)))
         == Map(val, Filter(items, KeyIs(key, j))) + (if key(x) == j then [val(x)] else [])
  {
    FilterSnoc(items, x, KeyIs(key, j));
    MapAppend(val, Filter(items, KeyIs(key, j)), if key(x) == j then [x] else []);
  }

  lemma {:induction false} FilterNone<T(!new)>(s: seq<T>, p: T -> bool)
    requires forall x :: x in s ==> !p(x)
    ensures Filter(s, p) == []
  {
    if s != [] {
      FilterNone(s[1..], p);
    }
  }

  lemma {:induction false} FilterAll<T(!new)>(s: seq<T>, p: T -> bool)
    requires forall x :: x in s ==> p(x)
    ensures Filter(s, p) == s
  {
    if s != [] {
      FilterAll(s[1..], p);
    }
  }

  /** The `setdefault` loop over `items`. */
  method GroupInto<K(==,!new), T(!new), V>(items: seq<T>, key: T -> K, val: T -> V) returns (g: Grouping<K, V>)
    ensures IsGroupingOf(g, items, key, val)
  {
    g := Grouping([], map[]);
    for i := 0 to |items|
      invariant IsGroupingOf(g, items[..i], key, val)
    {
      AddToGroupStep(g, items[..i], items[i], key, val);
      TakeSnoc(items, i);
      g := AddToGroup(g, key(items[i]), val(items[i]));
    }
    TakeAll(items);
  }

  /** The lists of a grouping concatenated in key order. */
  function Concat<K(!new), V>(keys: seq<K>, groups: map<K, seq<V>>): seq<V>
    requires forall k :: k in keys ==> k in groups
  {
    if keys == [] then [] else groups[keys[0]] + Concat(keys[1..], groups)
  }

  lemma {:induction false} FilterDisjointUnion<T(!new), V>(s: seq<T>, p: T -> bool, q: T -> bool, pq: T -> bool, f: T -> V)
    requires forall x :: pq(x) == (p(x) || q(x)) && !(p(x) && q(x))
    ensures multiset(Map(f, Filter(s, pq))) == multiset(Map(f, Filter(s, p))) + multiset(Map(f, Filter(s, q)))
  {
    if s != [] {
      FilterDisjointUnion(s[1..], p, q, pq, f);
      var y := s[0];
      assert pq(y) == (p(y) || q(y)) && !(p(y) && q(y));
      HeadSplit(y, p, q, pq, f);
      FilterUnfold(s, pq);
      FilterUnfold(s, p);
      FilterUnfold(s, q);
      MapAppend(f, if pq(y) then [y] else [], Filter(s[1..], pq));
      MapAppend(f, if p(y) then [y] else [], Filter(s[1..], p));
      MapAppend(f, if q(y) then [y] else [], Filter(s[1..], q));
      MultisetStep(Map(f, if pq(y) then [y] else []), Map(f, if p(y) then [y] else []), Map(f, if q(y) then [y] else []),
        Map(f, Filter(s[1..], pq)), Map(f, Filter(s[1..], p)), Map(f, Filter(s[1..], q)));
    }
  }

  lemma HeadSplit<T(!new), V>(y: T, p: T -> bool, q: T -> bool, pq: T -> bool, f: T -> V)
    requires pq(y) == (p(y) || q(y)) && !(p(y) && q(y))
    ensures multiset(Map(f, if pq(y) then [y] else [])) == multiset(Map(f, if p(y) then [y] else [])) + multiset(Map(f, if q(y) then [y] else []))
  {
  }

  lemma MultisetStep<V>(a: seq<V>, b: seq<V>, c: seq<V>, ra: seq<V>, rb: seq<V>, rc: seq<V>)
    requires multiset(a) == multiset(b) + multiset(c)
    requires multiset(ra) == multiset(rb) + multiset(rc)
    ensures multiset(a + ra) == multiset(b + rb) + multiset(c + rc)
  {
  }

  function InKeys<K(==,!new), T(!new)>(key: T -> K, ks: seq<K>): T -> bool
  {
    x => key(x) in ks
  }

  lemma {:induction false} ConcatFilters<K(!new), T(!new), V>(items: seq<T>, key: T -> K, val: T -> V, ks: seq<K>, groups: map<K, seq<V>>)
    requires NoDup(ks)
    requires forall k :: k in ks ==> k in groups && groups[k] == Map(val, Filter(items, KeyIs(key, k)))
    ensures multiset(Concat(ks, groups)) == multiset(Map(val, Filter(items, InKeys(key, ks))))
  {
    if ks == [] {
      FilterNone(items, InKeys(key, ks));
    } else {
      assert NoDup(ks[1..]);
      ConcatFilters(items, key, val, ks[1..], groups);
      assert ks[0] !in ks[1..];
      forall x ensures InKeys(key, ks)(x) == (KeyIs(key, ks[0])(x) || InKeys(key, ks[1..])(x))
                    && !(KeyIs(key, ks[0])(x) && InKeys(key, ks[1..])(x)) {
        assert ks == [ks[0]] + ks[1..];
      }
      FilterDisjointUnion(items, KeyIs(key, ks[0]), InKeys(key, ks[1..]), InKeys(key, ks), val);
    }
  }

  /** Every item lands in exactly one group: the groups, read in key order,
      are a rearrangement of the items' values. */
  lemma GroupingPartitions<K(!new), T(!new), V>(g: Grouping<K, V>, items: seq<T>, key: T -> K, val: T -> V)
    requires IsGroupingOf(g, items, key, val)
    ensures forall k :: k in g.keys ==> k in g.groups
    ensures multiset(Concat(g.keys, g.groups)) == multiset(Map(val, items))
  {
    ConcatFilters(items, key, val, g.keys, g.groups);
    forall x | x in items ensures InKeys(key, g.keys)(x) {
      var i :| 0 <= i < |items| && items[i] == x;
      assert Map(key, items)[i] == key(x);
    }
    FilterAll(items, InKeys(key, g.keys));
  }

  // ---------------------------------------------------------------------
  // Two-level grouping: d.setdefault(k1, {}).setdefault(k2, []).append(v)
  // ---------------------------------------------------------------------

  datatype Nested<K1, K2, V> = Nested(keys: seq<K1>, inner: map<K1, Grouping<K2, V>>)

  ghost predicate IsNestedGroupingOf<K1(!new), K2(!new), T(!new), V>(
    n: Nested<K1, K2, V>, items: seq<T>, key1: T -> K1, key2: T -> K2, val: T -> V)
  {
    && n.keys == Dedup(Map(key1, items))
    && (forall k :: k in n.inner <==> k in n.keys)
    && (forall k :: k in n.inner ==> IsGroupingOf(n.inner[k], Filter(items, KeyIs(key1, k)), key2, val))
  }

  function AddToNested<K1(==), K2(==), V>(n: Nested<K1, K2, V>, k1: K1, k2: K2, v: V): Nested<K1, K2, V>
  {
    if k1 in n.inner then Nested(n.keys, n.inner[k1 := AddToGroup(n.inner[k1], k2, v)])
    else Nested(n.keys + [k1], n.inner[k1 := AddToGroup(Grouping([], map[]), k2, v)])
  }

  lemma InnerUnchanged<K1(!new), K2(!new), T(!new), V>(
    g: Grouping<K2, V>, items: seq<T>, x: T, key1: T -> K1, j: K1, key2: T -> K2, val: T -> V)
    requires key1(x) != j && IsGroupingOf(g, Filter(items, KeyIs(key1, j)), key2, val)
    ensures IsGroupingOf(g, Filter(items + [x], KeyIs(key1, j)), key2, val)
  {
    FilterSnoc(items, x, KeyIs(key1, j));
    assert Filter(items + [x], KeyIs(key1, j)) == Filter(items, KeyIs(key1, j)) + [];
    assert Filter(items, KeyIs(key1, j)) + [] == Filter(items, KeyIs(key1, j));
  }

  lemma InnerAdded<K1(!new), K2(!new), T(!new), V>(
    g: Grouping<K2, V>, items: seq<T>, x: T, key1: T -> K1, key2: T -> K2, val: T -> V)
    requires IsGroupingOf(g, Filter(items, KeyIs(key1, key1(x))), key2, val)
    ensures IsGroupingOf(AddToGroup(g, key2(x), val(x)), Filter(items + [x], KeyIs(key1, key1(x))), key2, val)
  {
    FilterSnoc(items, x, KeyIs(key1, key1(x)));
    AddToGroupStep(g, Filter(items, KeyIs(key1, key1(x))), x, key2, val);
  }

  lemma InnerNew<K1(!new), K2(!new), T(!new), V>(items: seq<T>, x: T, key1: T -> K1, key2: T -> K2, val: T -> V)
    requires key1(x) !in Map(key1, items)
    ensures IsGroupingOf(AddToGroup(Grouping([], map[]), key2(x), val(x)), Filter(items + [x], KeyIs(key1, key1(x))), key2, val)
  {
    forall y | y in items ensures !KeyIs(key1, key1(x))(y) {
      var i :| 0 <= i < |items| && items[i] == y;
      assert Map(key1, items)[i] == key1(y);
    }
    FilterNone(items, KeyIs(key1, key1(x)));
    FilterSnoc(items, x, KeyIs(key1, key1(x)));
    AddToGroupStep(Grouping([], map[]), [], x, key2, val);
    assert [] + [x] == [x];
  }

  lemma AddToNestedStep<K1(!new), K2(!new), T(!new), V>(
    n: Nested<K1, K2, V>, items: seq<T>, x: T, key1: T -> K1, key2: T -> K2, val: T -> V)
    requires IsNestedGroupingOf(n, items, key1, key2, val)
    ensures IsNestedGroupingOf(AddToNested(n, key1(x), key2(x), val(x)), items + [x], key1, key2, val)
  {
    var k := key1(x);
    var n2 := AddToNested(n, k, key2(x), val(x));
    MapSnoc(key1, items, x);
    DedupSnoc(Map(key1, items), k);
    assert k in n.inner <==> k in Map(key1, items);
    forall j | j in n2.inner
      ensures IsGroupingOf(n2.inner[j], Filter(items + [x], KeyIs(key1, j)), key2, val)
    {
      if j != k {
        InnerUnchanged(n.inner[j], items, x, key1, j, key2, val);
      } else if k in n.inner {
        InnerAdded(n.inner[k], items, x, key1, key2, val);
      } else {
        InnerNew(items, x, key1, key2, val);
      }
    }
  }

  /** The two-level `setdefault` loop over `items`. */
  method GroupNested<K1(==,!new), K2(==,!new), T(!new), V>(items: seq<T>, key1: T -> K1, key2: T -> K2, val: T -> V)
    returns (n: Nested<K1, K2, V>)
    ensures IsNestedGroupingOf(n, items, key1, key2, val)
  {
    n := Nested([], map[]);
    for i := 0 to |items|
      invariant IsNestedGroupingOf(n, items[..i], key1, key2, val)
    {
      AddToNestedStep(n, items[..i], items[i], key1, key2, val);
      TakeSnoc(items, i);
      n := AddToNested(n, key1(items[i]), key2(items[i]), val(items[i]));
    }
    TakeAll(items);
  }
}
