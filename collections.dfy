/** Sequence utilities shared by the model: the stable sort Python's `sorted`
    and SQL `ORDER BY` perform, list-comprehension filtering, and the
    "group rows into a dict in first-seen order" loop that appears in several
    source files. */
module Collections {

  // ---------------------------------------------------------------------
  // Orderings
  // ---------------------------------------------------------------------

  /** `le` is a total preorder: every pair is comparable and it is transitive
      (ties are allowed, as with a sort key). */
  ghost predicate TotalPreorder<T(!new)>(le: (T, T) -> bool) {
    && (forall a, b :: le(a, b) || le(b, a))
    && (forall a, b, c :: le(a, b) && le(b, c) ==> le(a, c))
  }

  predicate SortedBy<T>(s: seq<T>, le: (T, T) -> bool) {
    forall i, j :: 0 <= i < j < |s| ==> le(s[i], s[j])
  }

  // ---------------------------------------------------------------------
  // Stable insertion sort
  // ---------------------------------------------------------------------

  /** Inserts `x` in front of the first element it is not greater than.
      Used on a sorted tail whose elements all came after `x` in the input,
      this keeps equal keys in input order (Python's sort is stable). */
  function Insert<T>(x: T, s: seq<T>, le: (T, T) -> bool): seq<T>
  {
    if s == [] then [x]
    else if le(x, s[0]) then [x] + s
    else [s[0]] + Insert(x, s[1..], le)
  }

  function SortBy<T>(s: seq<T>, le: (T, T) -> bool): seq<T>
  {
    if s == [] then [] else Insert(s[0], SortBy(s[1..], le), le)
  }

  lemma {:induction false} InsertPermutes<T>(x: T, s: seq<T>, le: (T, T) -> bool)
    ensures multiset(Insert(x, s, le)) == multiset(s) + multiset{x}
  {
    if s != [] && !le(x, s[0]) {
      InsertPermutes(x, s[1..], le);
      assert s == [s[0]] + s[1..];
    }
  }

  /** The sort is a permutation of its input. */
  lemma {:induction false} SortPermutes<T>(s: seq<T>, le: (T, T) -> bool)
    ensures multiset(SortBy(s, le)) == multiset(s)
    ensures |SortBy(s, le)| == |s|
  {
    if s != [] {
      var rest := SortBy(s[1..], le);
      SortPermutes(s[1..], le);
      InsertPermutes(s[0], rest, le);
      assert s == [s[0]] + s[1..];
      assert multiset(SortBy(s, le)) == multiset(rest) + multiset{s[0]};
    }
    assert |multiset(SortBy(s, le))| == |SortBy(s, le)|;
  }

  lemma {:induction false} InsertSorted<T(!new)>(x: T, s: seq<T>, le: (T, T) -> bool)
    requires TotalPreorder(le)
    requires SortedBy(s, le)
    ensures SortedBy(Insert(x, s, le), le)
  {
    if s != [] && !le(x, s[0]) {
      InsertSorted(x, s[1..], le);
      var r := Insert(x, s[1..], le);
      InsertPermutes(x, s[1..], le);
      forall k | 0 <= k < |r| ensures le(s[0], r[k]) {
        assert r[k] in multiset(r);
        assert r[k] in multiset(s[1..]) + multiset{x};
        if r[k] in multiset(s[1..]) {
          var m :| 0 <= m < |s[1..]| && s[1..][m] == r[k];
          assert s[m + 1] == r[k];
        }
      }
    }
  }

  /** Sorting keeps exactly the elements of the input. */
  lemma SortMembers<T>(s: seq<T>, le: (T, T) -> bool)
    ensures forall x :: x in SortBy(s, le) <==> x in s
  {
    SortPermutes(s, le);
    forall x ensures x in SortBy(s, le) <==> x in s {
      assert x in SortBy(s, le) <==> x in multiset(SortBy(s, le));
      assert x in s <==> x in multiset(s);
    }
  }

  /** The sort orders its output by `le`. */
  lemma {:induction false} SortSorted<T(!new)>(s: seq<T>, le: (T, T) -> bool)
    requires TotalPreorder(le)
    ensures SortedBy(SortBy(s, le), le)
  {
    if s != [] {
      SortSorted(s[1..], le);
      InsertSorted(s[0], SortBy(s[1..], le), le);
    }
  }

  /** Sorting an already sorted sequence changes nothing. */
  lemma {:induction false} SortOfSorted<T>(s: seq<T>, le: (T, T) -> bool)
    requires SortedBy(s, le)
    ensures SortBy(s, le) == s
  {
    if s != [] {
      assert SortedBy(s[1..], le);
      SortOfSorted(s[1..], le);
      assert s == [s[0]] + s[1..];
      if |s| > 1 {
        assert le(s[0], s[1]);
      }
    }
  }

  /** No two elements of `s` share a key. */
  predicate DistinctBy<T, K(==)>(s: seq<T>, key: T -> K) {
    forall i, j :: 0 <= i < j < |s| ==> key(s[i]) != key(s[j])
  }

  lemma {:induction false} InsertKeepsDistinct<T, K>(x: T, s: seq<T>, le: (T, T) -> bool, key: T -> K)
    requires DistinctBy(s, key)
    requires forall k :: 0 <= k < |s| ==> key(s[k]) != key(x)
    ensures DistinctBy(Insert(x, s, le), key)
  {
    if s != [] && !le(x, s[0]) {
      InsertKeepsDistinct(x, s[1..], le, key);
      var r := Insert(x, s[1..], le);
      InsertPermutes(x, s[1..], le);
      forall k | 0 <= k < |r| ensures key(r[k]) != key(s[0]) {
        assert r[k] in multiset(s[1..]) + multiset{x};
        if r[k] != x {
          var m :| 0 <= m < |s[1..]| && s[1..][m] == r[k];
          assert s[m + 1] == r[k];
        }
      }
    }
  }

  /** Sorting keeps keys pairwise distinct. */
  lemma {:induction false} SortKeepsDistinct<T, K>(s: seq<T>, le: (T, T) -> bool, key: T -> K)
    requires DistinctBy(s, key)
    ensures DistinctBy(SortBy(s, le), key)
  {
    if s != [] {
      SortKeepsDistinct(s[1..], le, key);
      var r := SortBy(s[1..], le);
      SortPermutes(s[1..], le);
      forall k | 0 <= k < |r| ensures key(r[k]) != key(s[0]) {
        assert r[k] in multiset(s[1..]);
        var m :| 0 <= m < |s[1..]| && s[1..][m] == r[k];
        assert s[m + 1] == r[k];
      }
      InsertKeepsDistinct(s[0], r, le, key);
    }
  }

  // ---------------------------------------------------------------------
  // Filtering (a list comprehension with a condition)
  // ---------------------------------------------------------------------

  function Filter<T>(s: seq<T>, keep: T -> bool): seq<T>
  {
    if s == [] then []
    else Filter(s[..|s| - 1], keep) + (if keep(s[|s| - 1]) then [s[|s| - 1]] else [])
  }

  /** A non-empty sequence has a member. */
  lemma FirstIsMember<T>(s: seq<T>)
    ensures s != [] ==> s[0] in s
  {
  }

  /** What survives the filter is exactly the kept elements of the input. */
  lemma {:induction false} FilterMembers<T>(s: seq<T>, keep: T -> bool)
    ensures forall x :: x in Filter(s, keep) <==> x in s && keep(x)
    ensures |Filter(s, keep)| <= |s|
  {
    if s != [] {
      FilterMembers(s[..|s| - 1], keep);
      assert s == s[..|s| - 1] + [s[|s| - 1]];
    }
  }

  lemma {:induction false} FilterAppend<T>(a: seq<T>, b: seq<T>, keep: T -> bool)
    ensures Filter(a + b, keep) == Filter(a, keep) + Filter(b, keep)
  {
    if b != [] {
      assert (a + b)[..|a + b| - 1] == a + b[..|b| - 1];
      FilterAppend(a, b[..|b| - 1], keep);
    } else {
      assert a + b == a;
    }
  }

  /** Number of elements of `s` that satisfy `p`. */
  function Count<T>(s: seq<T>, p: T -> bool): nat
  {
    if s == [] then 0
    else Count(s[..|s| - 1], p) + (if p(s[|s| - 1]) then 1 else 0)
  }

  lemma {:induction false} CountIsFilterLength<T>(s: seq<T>, p: T -> bool)
    ensures Count(s, p) == |Filter(s, p)|
  {
    if s != [] {
      CountIsFilterLength(s[..|s| - 1], p);
    }
  }

  // ---------------------------------------------------------------------
  // Text order
  // ---------------------------------------------------------------------

  /** SQLite's default (binary) text order: lexicographic by character. */
  predicate TextLe(a: string, b: string)
  {
    a == [] || (b != [] && (a[0] < b[0] || (a[0] == b[0] && TextLe(a[1..], b[1..]))))
  }

  lemma {:induction false} TextLeTotal(a: string, b: string)
    ensures TextLe(a, b) || TextLe(b, a)
  {
    if a != [] && b != [] && a[0] == b[0] {
      TextLeTotal(a[1..], b[1..]);
    }
  }

  lemma {:induction false} TextLeTransitive(a: string, b: string, c: string)
    requires TextLe(a, b) && TextLe(b, c)
    ensures TextLe(a, c)
  {
    if a != [] && b != [] && c != [] && a[0] == b[0] && b[0] == c[0] {
      TextLeTransitive(a[1..], b[1..], c[1..]);
    }
  }

  lemma {:induction false} TextLeAntisymmetric(a: string, b: string)
    requires TextLe(a, b) && TextLe(b, a)
    ensures a == b
  {
    if a != [] && b != [] {
      TextLeAntisymmetric(a[1..], b[1..]);
      assert a == [a[0]] + a[1..] && b == [b[0]] + b[1..];
    }
  }

  // ---------------------------------------------------------------------
  // Grouping pairs by key, keys in order of first appearance
  // ---------------------------------------------------------------------

  /** The keys of `items`, each once, in order of first appearance. */
  function FirstSeenKeys<K(==), V>(items: seq<(K, V)>): seq<K>
  {
    if items == [] then []
    else
      var ks := FirstSeenKeys(items[..|items| - 1]);
      var k := items[|items| - 1].0;
      if k in ks then ks else ks + [k]
  }

  /** The values paired with `k`, in input order. */
  function ValuesOf<K(==), V>(items: seq<(K, V)>, k: K): seq<V>
  {
    if items == [] then []
    else
      ValuesOf(items[..|items| - 1], k)
      + (if items[|items| - 1].0 == k then [items[|items| - 1].1] else [])
  }

  lemma {:induction false} FirstSeenKeysMembers<K, V>(items: seq<(K, V)>)
    ensures forall k :: k in FirstSeenKeys(items) <==> exists i :: 0 <= i < |items| && items[i].0 == k
  {
    if items != [] {
      var init := items[..|items| - 1];
      FirstSeenKeysMembers(init);
      forall k ensures k in FirstSeenKeys(items) <==> exists i :: 0 <= i < |items| && items[i].0 == k {
        if k in FirstSeenKeys(init) {
          var i :| 0 <= i < |init| && init[i].0 == k;
          assert items[i].0 == k;
        }
        if exists i :: 0 <= i < |items| && items[i].0 == k {
          var i :| 0 <= i < |items| && items[i].0 == k;
          if i < |init| {
            assert init[i].0 == k;
          }
        }
      }
    }
  }

  lemma {:induction false} FirstSeenKeysDistinct<K, V>(items: seq<(K, V)>)
    ensures forall i, j :: 0 <= i < j < |FirstSeenKeys(items)| ==> FirstSeenKeys(items)[i] != FirstSeenKeys(items)[j]
  {
    if items != [] {
      FirstSeenKeysDistinct(items[..|items| - 1]);
    }
  }

  /** A value is grouped under `k` exactly when some input pair carries `k`. */
  lemma {:induction false} ValuesOfEmpty<K, V>(items: seq<(K, V)>, k: K)
    ensures ValuesOf(items, k) == [] <==> forall i :: 0 <= i < |items| ==> items[i].0 != k
  {
    if items != [] {
      var init := items[..|items| - 1];
      ValuesOfEmpty(init, k);
      if ValuesOf(init, k) != [] {
        var i :| 0 <= i < |init| && init[i].0 == k;
        assert items[i].0 == k;
      }
    }
  }

  /** A value is listed under `k` exactly when the input pairs it with `k`. */
  lemma {:induction false} ValuesOfMember<K, V>(items: seq<(K, V)>, k: K, v: V)
    ensures v in ValuesOf(items, k) <==> (k, v) in items
  {
    if items != [] {
      var init := items[..|items| - 1];
      ValuesOfMember(init, k, v);
      assert items == init + [items[|items| - 1]];
    }
  }

  /** Every listed key comes from some input pair. */
  lemma {:induction false} FirstSeenKeyIndex<K, V>(items: seq<(K, V)>, k: K) returns (i: nat)
    requires k in FirstSeenKeys(items)
    ensures i < |items| && items[i].0 == k
  {
    var init := items[..|items| - 1];
    if k in FirstSeenKeys(init) {
      i := FirstSeenKeyIndex(init, k);
    } else {
      i := |items| - 1;
    }
  }

  /** Grouping keeps the input order inside a group: when the input's
      values are ordered by `le`, so is the list of every key. */
  lemma {:induction false} ValuesOfSorted<K, V>(items: seq<(K, V)>, k: K, le: (V, V) -> bool)
    requires forall i, j :: 0 <= i < j < |items| ==> le(items[i].1, items[j].1)
    ensures SortedBy(ValuesOf(items, k), le)
  {
    if items != [] {
      var init := items[..|items| - 1];
      var last := items[|items| - 1];
      ValuesOfSorted(init, k, le);
      var before := ValuesOf(init, k);
      if last.0 == k {
        var after := before + [last.1];
        forall a, b | 0 <= a < b < |after| ensures le(after[a], after[b]) {
          if b == |before| {
            ValuesOfMember(init, k, before[a]);
            var m :| 0 <= m < |init| && init[m] == (k, before[a]);
            assert items[m] == init[m];
          } else {
            assert after[a] == before[a] && after[b] == before[b];
          }
        }
      }
    }
  }

  /** Keys listed in first-seen order follow the input's key order. */
  lemma {:induction false} FirstSeenKeysSorted<K, V>(items: seq<(K, V)>, le: (K, K) -> bool)
    requires forall i, j :: 0 <= i < j < |items| ==> le(items[i].0, items[j].0)
    ensures SortedBy(FirstSeenKeys(items), le)
  {
    if items != [] {
      var init := items[..|items| - 1];
      var k := items[|items| - 1].0;
      FirstSeenKeysSorted(init, le);
      var before := FirstSeenKeys(init);
      if k !in before {
        var after := before + [k];
        forall a, b | 0 <= a < b < |after| ensures le(after[a], after[b]) {
          if b == |before| {
            var m := FirstSeenKeyIndex(init, before[a]);
            assert items[m] == init[m];
          } else {
            assert after[a] == before[a] && after[b] == before[b];
          }
        }
      }
    }
  }

  /** `groups` lists, in first-seen key order, the values of each key of
      `items`. */
  ghost predicate Grouped<K, V>(groups: seq<(K, seq<V>)>, items: seq<(K, V)>)
  {
    && |groups| == |FirstSeenKeys(items)|
    && (forall j :: 0 <= j < |groups| ==> groups[j].0 == FirstSeenKeys(items)[j])
    && (forall j :: 0 <= j < |groups| ==> groups[j].1 == ValuesOf(items, groups[j].0))
  }

  /** Groups `items` by key into a list of (key, values) in first-seen key
      order, as a loop that fills a dict and then lists its values does. */
  method GroupByKey<K(==), V>(items: seq<(K, V)>) returns (groups: seq<(K, seq<V>)>)
    ensures |groups| == |FirstSeenKeys(items)|
    ensures forall j :: 0 <= j < |groups| ==> groups[j].0 == FirstSeenKeys(items)[j]
    ensures forall j :: 0 <= j < |groups| ==> groups[j].1 == ValuesOf(items, groups[j].0)
  {
    groups := [];
    for i := 0 to |items|
      invariant Grouped(groups, items[..i])
    {
      assert items[..i + 1] == items[..i] + [items[i]];
      groups := AddToGroup(groups, items[..i], items[i].0, items[i].1);
    }
    assert items[..|items|] == items;
  }

  /** One pass of the grouping loop: `v` joins the group of `k`, or a new
      group for `k` is appended. */
  method AddToGroup<K(==), V>(groups: seq<(K, seq<V>)>, done: seq<(K, V)>, k: K, v: V)
    returns (groups': seq<(K, seq<V>)>)
    requires Grouped(groups, done)
    ensures Grouped(groups', done + [(k, v)])
  {
    var items := done + [(k, v)];
    assert items[..|done|] == done;
    assert forall key :: ValuesOf(items, key) == ValuesOf(done, key) + (if key == k then [v] else []);
    var j := 0;
    while j < |groups| && groups[j].0 != k
      invariant 0 <= j <= |groups|
      invariant forall m :: 0 <= m < j ==> groups[m].0 != k
    {
      j := j + 1;
    }
    if j < |groups| {
      FirstSeenKeysDistinct(done);
      assert k in FirstSeenKeys(done);
      groups' := groups[j := (k, groups[j].1 + [v])];
    } else {
      assert k !in FirstSeenKeys(done);
      ValuesOfEmpty(done, k);
      FirstSeenKeysMembers(done);
      groups' := groups + [(k, [v])];
    }
  }

  // ---------------------------------------------------------------------
  // Splitting on a separator (Python's `str.split(sep)`)
  // ---------------------------------------------------------------------

  function Occurrences<T(==)>(s: seq<T>, x: T): nat
  {
    if s == [] then 0 else (if s[0] == x then 1 else 0) + Occurrences(s[1..], x)
  }

  /** The pieces between occurrences of `sep`; there is always one more
      piece than there are separators, and no piece holds the separator. */
  function Split<T(==)>(s: seq<T>, sep: T): (pieces: seq<seq<T>>)
    ensures |pieces| == Occurrences(s, sep) + 1
    ensures forall i :: 0 <= i < |pieces| ==> sep !in pieces[i]
  {
    if s == [] then [[]]
    else
      var rest := Split(s[1..], sep);
      if s[0] == sep then [[]] + rest
      else [[s[0]] + rest[0]] + rest[1..]
  }

  /** Joining the pieces with the separator gives the input back. */
  function Join<T>(pieces: seq<seq<T>>, sep: T): seq<T>
  {
    if pieces == [] then [] else if |pieces| == 1 then pieces[0] else pieces[0] + [sep] + Join(pieces[1..], sep)
  }

  lemma {:induction false} SplitJoin<T>(s: seq<T>, sep: T)
    ensures Join(Split(s, sep), sep) == s
  {
    if s != [] {
      SplitJoin(s[1..], sep);
      var rest := Split(s[1..], sep);
      if s[0] == sep {
        assert s == [sep] + s[1..];
      } else {
        assert s == [s[0]] + s[1..];
      }
    }
  }
}
