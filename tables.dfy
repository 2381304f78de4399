/** The relational building blocks the reports are made of, over rows held in
    a sequence: a row filter (`WHERE`, or a pandas boolean mask), column sums
    (`SUM`), a stable sort on an integer rank (`ORDER BY`), a prefix
    (`LIMIT`), and grouping with per-group sum and count (`GROUP BY`). */
module Tables {

  /** `a` is what remains of `b` after deleting some of its elements. */
  ghost predicate IsSubsequence<T>(a: seq<T>, b: seq<T>)
    decreases |b|
  {
    if b == [] then a == []
    else
      || (a != [] && a[|a| - 1] == b[|b| - 1] && IsSubsequence(a[..|a| - 1], b[..|b| - 1]))
      || IsSubsequence(a, b[..|b| - 1])
  }

  /** The rows of `xs` that satisfy `p`, in their original order. */
  function Where<T>(xs: seq<T>, p: T -> bool): (r: seq<T>)
    ensures |r| <= |xs|
    ensures forall i :: 0 <= i < |r| ==> p(r[i])
  {
    if xs == [] then []
    else Where(xs[..|xs| - 1], p) + (if p(xs[|xs| - 1]) then [xs[|xs| - 1]] else [])
  }

  lemma {:induction false} WhereIsSubsequence<T>(xs: seq<T>, p: T -> bool)
    ensures IsSubsequence(Where(xs, p), xs)
  {
    if xs != [] {
      var init, last := xs[..|xs| - 1], xs[|xs| - 1];
      WhereIsSubsequence(init, p);
      var w := Where(xs, p);
      if p(last) {
        assert w == Where(init, p) + [last];
        assert w[..|w| - 1] == Where(init, p) && w[|w| - 1] == last;
      } else {
        assert w == Where(init, p);
      }
    }
  }

  /** A filter keeps every copy of each row satisfying `p` and nothing else. */
  lemma {:induction false} WhereMultiplicity<T>(xs: seq<T>, p: T -> bool, x: T)
    ensures multiset(Where(xs, p))[x] == if p(x) then multiset(xs)[x] else 0
  {
    if xs != [] {
      WhereMultiplicity(xs[..|xs| - 1], p, x);
      assert xs == xs[..|xs| - 1] + [xs[|xs| - 1]];
    }
  }

  lemma WhereMembership<T>(xs: seq<T>, p: T -> bool, x: T)
    ensures x in Where(xs, p) <==> x in xs && p(x)
  {
    WhereMultiplicity(xs, p, x);
  }

  /** Two predicates that agree on every row select the same rows. */
  lemma {:induction false} WhereSame<T>(xs: seq<T>, p: T -> bool, q: T -> bool)
    requires forall i :: 0 <= i < |xs| ==> p(xs[i]) == q(xs[i])
    ensures Where(xs, p) == Where(xs, q)
  {
    if xs != [] {
      WhereSame(xs[..|xs| - 1], p, q);
    }
  }

  /** The complement of a row filter. */
  function Not<T>(p: T -> bool): T -> bool {
    x => !p(x)
  }

  /** A filter that every row passes keeps the whole table. */
  lemma {:induction false} WhereAll<T>(xs: seq<T>, p: T -> bool)
    requires forall i :: 0 <= i < |xs| ==> p(xs[i])
    ensures Where(xs, p) == xs
  {
    if xs != [] {
      WhereAll(xs[..|xs| - 1], p);
      assert xs == xs[..|xs| - 1] + [xs[|xs| - 1]];
    }
  }

  /** The sum of `f` over the rows (`SUM(column)`, pandas `.sum()`). */
  function SumOf<T>(xs: seq<T>, f: T -> int): int
  {
    if xs == [] then 0 else SumOf(xs[..|xs| - 1], f) + f(xs[|xs| - 1])
  }

  lemma {:induction false} SumAppend<T>(a: seq<T>, b: seq<T>, f: T -> int)
    ensures SumOf(a + b, f) == SumOf(a, f) + SumOf(b, f)
    decreases |b|
  {
    if b == [] {
      assert a + b == a;
    } else {
      assert (a + b)[..|a + b| - 1] == a + b[..|b| - 1];
      assert (a + b)[|a + b| - 1] == b[|b| - 1];
      SumAppend(a, b[..|b| - 1], f);
    }
  }

  lemma SumCons<T>(x: T, s: seq<T>, f: T -> int)
    ensures SumOf([x] + s, f) == f(x) + SumOf(s, f)
  {
    SumAppend([x], s, f);
    assert [x][..0] == [];
  }

  /** A sum of non-negative terms is non-negative. */
  lemma {:induction false} SumNonNegative<T>(xs: seq<T>, f: T -> int)
    requires forall i :: 0 <= i < |xs| ==> f(xs[i]) >= 0
    ensures SumOf(xs, f) >= 0
  {
    if xs != [] {
      SumNonNegative(xs[..|xs| - 1], f);
    }
  }

  /** Summing two columns row by row adds their sums. */
  lemma {:induction false} SumAdd<T>(xs: seq<T>, f: T -> int, g: T -> int, h: T -> int)
    requires forall i :: 0 <= i < |xs| ==> f(xs[i]) + g(xs[i]) == h(xs[i])
    ensures SumOf(xs, f) + SumOf(xs, g) == SumOf(xs, h)
  {
    if xs != [] {
      SumAdd(xs[..|xs| - 1], f, g, h);
    }
  }

  /** The rows that satisfy `p` and the rows that do not split the sum. */
  lemma {:induction false} SumPartition<T>(xs: seq<T>, p: T -> bool, f: T -> int)
    ensures SumOf(Where(xs, p), f) + SumOf(Where(xs, Not(p)), f) == SumOf(xs, f)
  {
    if xs != [] {
      var init, last := xs[..|xs| - 1], xs[|xs| - 1];
      SumPartition(init, p, f);
      SumAppend(Where(init, p), if p(last) then [last] else [], f);
      SumAppend(Where(init, Not(p)), if !p(last) then [last] else [], f);
    }
  }

  /** A row filter and its complement split the rows between them. */
  lemma {:induction false} CountPartition<T>(xs: seq<T>, p: T -> bool)
    ensures |Where(xs, p)| + |Where(xs, Not(p))| == |xs|
  {
    if xs != [] {
      CountPartition(xs[..|xs| - 1], p);
    }
  }

  /** A sum of values all within `[low, high]` lies between `|xs| * low`
      and `|xs| * high`. */
  lemma {:induction false} SumBetween<T>(xs: seq<T>, f: T -> int, low: int, high: int)
    requires forall i :: 0 <= i < |xs| ==> low <= f(xs[i]) <= high
    ensures |xs| * low <= SumOf(xs, f) <= |xs| * high
  {
    if xs != [] {
      var init := xs[..|xs| - 1];
      SumBetween(init, f, low, high);
      assert |xs| * low == |init| * low + low;
      assert |xs| * high == |init| * high + high;
    }
  }

  /** `s` is in ascending order of `rank`. */
  ghost predicate SortedBy<T>(s: seq<T>, rank: T -> int) {
    forall i, j :: 0 <= i < j < |s| ==> rank(s[i]) <= rank(s[j])
  }

  /** Filtering keeps a sorted table sorted. */
  lemma {:induction false} WhereSorted<T>(xs: seq<T>, p: T -> bool, rank: T -> int)
    requires SortedBy(xs, rank)
    ensures SortedBy(Where(xs, p), rank)
  {
    if xs != [] {
      var init, last := xs[..|xs| - 1], xs[|xs| - 1];
      WhereSorted(init, p, rank);
      var w := Where(init, p);
      forall i | 0 <= i < |w|
        ensures rank(w[i]) <= rank(last)
      {
        WhereMembership(init, p, w[i]);
      }
    }
  }

  /** Puts `x` before the first element of `s` that does not rank below it. */
  function Insert<T>(x: T, s: seq<T>, rank: T -> int): (r: seq<T>)
    ensures |r| == |s| + 1
    ensures multiset(r) == multiset(s) + multiset{x}
  {
    if s == [] || rank(x) <= rank(s[0]) then [x] + s
    else
      assert s == [s[0]] + s[1..];
      [s[0]] + Insert(x, s[1..], rank)
  }

  lemma {:induction false} InsertSorted<T>(x: T, s: seq<T>, rank: T -> int)
    requires SortedBy(s, rank)
    ensures SortedBy(Insert(x, s, rank), rank)
  {
    if s != [] && rank(x) > rank(s[0]) {
      InsertSorted(x, s[1..], rank);
      var r := Insert(x, s, rank);
      forall i | 0 < i < |r|
        ensures rank(s[0]) <= rank(r[i])
      {
        assert r[i] in multiset(s[1..]) + multiset{x};
        if r[i] != x {
          var k :| 0 <= k < |s[1..]| && s[1..][k] == r[i];
          assert s[k + 1] == r[i];
        }
      }
    }
  }

  /** `ORDER BY rank`: a stable insertion sort, ascending. Rows of equal rank
      keep their input order, which is one of the orders SQL allows. */
  function SortBy<T>(xs: seq<T>, rank: T -> int): (r: seq<T>)
    ensures |r| == |xs|
    ensures multiset(r) == multiset(xs)
  {
    if xs == [] then []
    else
      assert xs == [xs[0]] + xs[1..];
      Insert(xs[0], SortBy(xs[1..], rank), rank)
  }

  lemma {:induction false} SortBySorted<T>(xs: seq<T>, rank: T -> int)
    ensures SortedBy(SortBy(xs, rank), rank)
  {
    if xs != [] {
      SortBySorted(xs[1..], rank);
      InsertSorted(xs[0], SortBy(xs[1..], rank), rank);
    }
  }

  /** Sorting a table that is already in order changes nothing. */
  lemma {:induction false} SortByKeepsSorted<T>(xs: seq<T>, rank: T -> int)
    requires SortedBy(xs, rank)
    ensures SortBy(xs, rank) == xs
  {
    if xs != [] {
      SortByKeepsSorted(xs[1..], rank);
      assert xs == [xs[0]] + xs[1..];
    }
  }

  lemma {:induction false} SumInsert<T>(x: T, s: seq<T>, rank: T -> int, f: T -> int)
    ensures SumOf(Insert(x, s, rank), f) == f(x) + SumOf(s, f)
  {
    SumCons(x, s, f);
    if s != [] && rank(x) > rank(s[0]) {
      SumInsert(x, s[1..], rank, f);
      SumCons(s[0], Insert(x, s[1..], rank), f);
      SumCons(s[0], s[1..], f);
      assert s == [s[0]] + s[1..];
    }
  }

  /** Reordering rows does not change a column sum. */
  lemma {:induction false} SumSortBy<T>(xs: seq<T>, rank: T -> int, f: T -> int)
    ensures SumOf(SortBy(xs, rank), f) == SumOf(xs, f)
  {
    if xs != [] {
      var head, tail := xs[0], xs[1..];
      var sortedTail := SortBy(tail, rank);
      SumSortBy(tail, rank, f);
      SumInsert(head, sortedTail, rank, f);
      SumCons(head, tail, f);
      assert xs == [head] + tail;
      assert SortBy(xs, rank) == Insert(head, sortedTail, rank);
    }
  }

  /** `LIMIT n`: the first `n` rows, or all of them when there are fewer. */
  function Take<T>(s: seq<T>, n: nat): (r: seq<T>)
    ensures |r| == if n < |s| then n else |s|
    ensures r <= s
  {
    if n < |s| then s[..n] else s
  }

  /** One row of a grouped result: the key, the sum of the value column and
      the number of rows in the group. */
  datatype Group<K> = Group(key: K, total: int, count: nat)

  function Total<K>(g: Group<K>): int { g.total }
  function Size<K>(g: Group<K>): int { g.count }

  /** Adds one row with key `k` and value `v` to the groups found so far: to
      the group of `k` if there is one, else as a new group at the end. */
  function AddTo<K(==)>(gs: seq<Group<K>>, k: K, v: int): seq<Group<K>>
  {
    if gs == [] then [Group(k, v, 1)]
    else if gs[0].key == k then [Group(k, gs[0].total + v, gs[0].count + 1)] + gs[1..]
    else [gs[0]] + AddTo(gs[1..], k, v)
  }

  /** `GROUP BY key` with `SUM(value)` and `COUNT(*)`; groups appear in the
      order their keys first occur. */
  function GroupBy<T, K(==)>(xs: seq<T>, key: T -> K, value: T -> int): seq<Group<K>>
  {
    if xs == [] then []
    else AddTo(GroupBy(xs[..|xs| - 1], key, value), key(xs[|xs| - 1]), value(xs[|xs| - 1]))
  }

  function KeySet<K>(gs: seq<Group<K>>): set<K>
  {
    if gs == [] then {} else {gs[0].key} + KeySet(gs[1..])
  }

  /** No key names two groups. */
  predicate DistinctKeys<K(==)>(gs: seq<Group<K>>)
  {
    gs == [] || (gs[0].key !in KeySet(gs[1..]) && DistinctKeys(gs[1..]))
  }

  /** The row filter `key(x) == k` that selects one group's rows. */
  function KeyIs<T, K(==)>(key: T -> K, k: K): T -> bool {
    x => key(x) == k
  }

  /** The total of the group with key `k`, or 0 if there is none. */
  function TotalOf<K(==)>(gs: seq<Group<K>>, k: K): int
  {
    if gs == [] then 0 else if gs[0].key == k then gs[0].total else TotalOf(gs[1..], k)
  }

  /** The size of the group with key `k`, or 0 if there is none. */
  function CountOf<K(==)>(gs: seq<Group<K>>, k: K): nat
  {
    if gs == [] then 0 else if gs[0].key == k then gs[0].count else CountOf(gs[1..], k)
  }

  lemma {:induction false} AddToGroups<K>(gs: seq<Group<K>>, k: K, v: int, k': K)
    ensures KeySet(AddTo(gs, k, v)) == KeySet(gs) + {k}
    ensures DistinctKeys(gs) ==> DistinctKeys(AddTo(gs, k, v))
    ensures TotalOf(AddTo(gs, k, v), k') == TotalOf(gs, k') + (if k' == k then v else 0)
    ensures CountOf(AddTo(gs, k, v), k') == CountOf(gs, k') + (if k' == k then 1 else 0)
    ensures SumOf(AddTo(gs, k, v), Total) == SumOf(gs, Total) + v
    ensures SumOf(AddTo(gs, k, v), Size) == SumOf(gs, Size) + 1
  {
    if gs == [] {
      assert AddTo(gs, k, v)[..0] == [];
    } else {
      var rest := gs[1..];
      assert gs == [gs[0]] + rest;
      SumCons(gs[0], rest, Total);
      SumCons(gs[0], rest, Size);
      if gs[0].key == k {
        var g' := Group(k, gs[0].total + v, gs[0].count + 1);
        assert AddTo(gs, k, v)[1..] == rest;
        SumCons(g', rest, Total);
        SumCons(g', rest, Size);
      } else {
        AddToGroups(rest, k, v, k');
        assert AddTo(gs, k, v)[1..] == AddTo(rest, k, v);
        SumCons(gs[0], AddTo(rest, k, v), Total);
        SumCons(gs[0], AddTo(rest, k, v), Size);
      }
    }
  }

  lemma {:induction false} KeySetMembers<K>(gs: seq<Group<K>>, k: K)
    ensures k in KeySet(gs) <==> exists i :: 0 <= i < |gs| && gs[i].key == k
  {
    if gs != [] {
      KeySetMembers(gs[1..], k);
      if k in KeySet(gs[1..]) {
        var i :| 0 <= i < |gs[1..]| && gs[1..][i].key == k;
        assert gs[i + 1].key == k;
      }
    }
  }

  /** With distinct keys, the group at position `i` is the one `TotalOf` and
      `CountOf` find for its key. */
  lemma {:induction false} GroupAt<K>(gs: seq<Group<K>>, i: nat)
    requires DistinctKeys(gs) && i < |gs|
    ensures TotalOf(gs, gs[i].key) == gs[i].total && CountOf(gs, gs[i].key) == gs[i].count
  {
    if i > 0 {
      GroupAt(gs[1..], i - 1);
      KeySetMembers(gs[1..], gs[i].key);
      assert gs[1..][i - 1] == gs[i];
    }
  }

  /** `GROUP BY` makes one group per distinct key present in the rows. */
  lemma {:induction false} GroupByKeys<T, K>(xs: seq<T>, key: T -> K, value: T -> int)
    ensures DistinctKeys(GroupBy(xs, key, value))
    ensures KeySet(GroupBy(xs, key, value)) == set i | 0 <= i < |xs| :: key(xs[i])
  {
    if xs != [] {
      var init, last := xs[..|xs| - 1], xs[|xs| - 1];
      GroupByKeys(init, key, value);
      AddToGroups(GroupBy(init, key, value), key(last), value(last), key(last));
      var before := set i | 0 <= i < |init| :: key(init[i]);
      var after := set i | 0 <= i < |xs| :: key(xs[i]);
      forall k' | k' in after ensures k' in before + {key(last)} {
        var i :| 0 <= i < |xs| && key(xs[i]) == k';
        if i < |init| { assert init[i] == xs[i]; }
      }
      forall k' | k' in before + {key(last)} ensures k' in after {
        if k' in before {
          var i :| 0 <= i < |init| && key(init[i]) == k';
          assert xs[i] == init[i];
        } else {
          assert key(xs[|xs| - 1]) == k';
        }
      }
    }
  }

  /** Each group's total is the sum of the value over exactly the rows with
      its key, and its count is the number of those rows. */
  lemma {:induction false} GroupByTotals<T, K>(xs: seq<T>, key: T -> K, value: T -> int, k: K)
    ensures TotalOf(GroupBy(xs, key, value), k) == SumOf(Where(xs, KeyIs(key, k)), value)
    ensures CountOf(GroupBy(xs, key, value), k) == |Where(xs, KeyIs(key, k))|
  {
    if xs != [] {
      var init, last := xs[..|xs| - 1], xs[|xs| - 1];
      GroupByTotals(init, key, value, k);
      AddToGroups(GroupBy(init, key, value), key(last), value(last), k);
      SumAppend(Where(init, KeyIs(key, k)), if key(last) == k then [last] else [], value);
    }
  }

  /** Grouping partitions the rows: the group totals add up to the column's
      sum, and the group counts to the number of rows. */
  lemma {:induction false} GroupByPartition<T, K>(xs: seq<T>, key: T -> K, value: T -> int)
    ensures SumOf(GroupBy(xs, key, value), Total) == SumOf(xs, value)
    ensures SumOf(GroupBy(xs, key, value), Size) == |xs|
  {
    if xs != [] {
      var init, last := xs[..|xs| - 1], xs[|xs| - 1];
      GroupByPartition(init, key, value);
      AddToGroups(GroupBy(init, key, value), key(last), value(last), key(last));
    }
  }

  /** With distinct keys, no two positions hold the same key. */
  lemma {:induction false} DistinctKeysApart<K>(gs: seq<Group<K>>)
    requires DistinctKeys(gs)
    ensures forall i, j :: 0 <= i < j < |gs| ==> gs[i].key != gs[j].key
  {
    if gs != [] {
      var rest := gs[1..];
      DistinctKeysApart(rest);
      forall i, j | 0 <= i < j < |gs|
        ensures gs[i].key != gs[j].key
      {
        assert rest[j - 1] == gs[j];
        if i == 0 {
          KeySetMembers(rest, gs[j].key);
        } else {
          assert rest[i - 1] == gs[i];
        }
      }
    }
  }

  /** Inserting a group with a new key adds that key and leaves every other
      group's total and count as they were. */
  lemma {:induction false} InsertGroup<K>(g: Group<K>, gs: seq<Group<K>>, rank: Group<K> -> int, k: K)
    requires g.key !in KeySet(gs)
    ensures KeySet(Insert(g, gs, rank)) == KeySet(gs) + {g.key}
    ensures DistinctKeys(gs) ==> DistinctKeys(Insert(g, gs, rank))
    ensures TotalOf(Insert(g, gs, rank), k) == if k == g.key then g.total else TotalOf(gs, k)
    ensures CountOf(Insert(g, gs, rank), k) == if k == g.key then g.count else CountOf(gs, k)
  {
    var r := Insert(g, gs, rank);
    if gs == [] || rank(g) <= rank(gs[0]) {
      assert r[0] == g && r[1..] == gs;
    } else {
      InsertGroup(g, gs[1..], rank, k);
      assert r[0] == gs[0] && r[1..] == Insert(g, gs[1..], rank);
    }
  }

  /** Ordering groups with distinct keys keeps their keys, totals and counts. */
  lemma {:induction false} SortGroups<K>(gs: seq<Group<K>>, rank: Group<K> -> int, k: K)
    requires DistinctKeys(gs)
    ensures KeySet(SortBy(gs, rank)) == KeySet(gs)
    ensures DistinctKeys(SortBy(gs, rank))
    ensures TotalOf(SortBy(gs, rank), k) == TotalOf(gs, k)
    ensures CountOf(SortBy(gs, rank), k) == CountOf(gs, k)
  {
    if gs != [] {
      var rest := SortBy(gs[1..], rank);
      SortGroups(gs[1..], rank, k);
      InsertGroup(gs[0], rest, rank, k);
      assert SortBy(gs, rank) == Insert(gs[0], rest, rank);
    }
  }

  /** `GROUP BY key ... ORDER BY rank`: one group per key present in the rows,
      each holding the sum and the count of exactly the rows with its key,
      listed in rank order; the groups together account for every row. */
  lemma OrderedGroupBy<T, K>(xs: seq<T>, key: T -> K, value: T -> int, rank: Group<K> -> int, k: K)
    ensures var r := SortBy(GroupBy(xs, key, value), rank);
      && SortedBy(r, rank)
      && DistinctKeys(r)
      && KeySet(r) == (set i | 0 <= i < |xs| :: key(xs[i]))
      && TotalOf(r, k) == SumOf(Where(xs, KeyIs(key, k)), value)
      && CountOf(r, k) == |Where(xs, KeyIs(key, k))|
      && SumOf(r, Total) == SumOf(xs, value)
      && SumOf(r, Size) == |xs|
  {
    var gs := GroupBy(xs, key, value);
    GroupByKeys(xs, key, value);
    GroupByTotals(xs, key, value, k);
    GroupByPartition(xs, key, value);
    SortBySorted(gs, rank);
    SortGroups(gs, rank, k);
    SumSortBy(gs, rank, Total);
    SumSortBy(gs, rank, Size);
  }

  /** Groups with distinct keys sorted on a rank that tells their keys
      apart come out in strictly increasing rank. */
  lemma StrictlySorted<K>(r: seq<Group<K>>, rank: Group<K> -> int)
    requires SortedBy(r, rank) && DistinctKeys(r)
    requires forall i, j :: 0 <= i < |r| && 0 <= j < |r| && rank(r[i]) == rank(r[j]) ==> r[i].key == r[j].key
    ensures forall i, j :: 0 <= i < j < |r| ==> rank(r[i]) < rank(r[j])
  {
    DistinctKeysApart(r);
  }

  lemma {:induction false} AddToNonEmpty<K>(gs: seq<Group<K>>, k: K, v: int)
    requires forall i :: 0 <= i < |gs| ==> gs[i].count > 0
    ensures forall i :: 0 <= i < |AddTo(gs, k, v)| ==> AddTo(gs, k, v)[i].count > 0
  {
    if gs != [] && gs[0].key != k {
      AddToNonEmpty(gs[1..], k, v);
      assert AddTo(gs, k, v) == [gs[0]] + AddTo(gs[1..], k, v);
    }
  }

  /** Every group holds at least one row, and ordering the groups keeps
      that so and keeps the keys distinct. */
  lemma {:induction false} GroupByNonEmpty<T, K>(xs: seq<T>, key: T -> K, value: T -> int, rank: Group<K> -> int)
    ensures forall i :: 0 <= i < |GroupBy(xs, key, value)| ==> GroupBy(xs, key, value)[i].count > 0
    ensures forall i :: 0 <= i < |SortBy(GroupBy(xs, key, value), rank)| ==>
      SortBy(GroupBy(xs, key, value), rank)[i].count > 0
    ensures DistinctKeys(SortBy(GroupBy(xs, key, value), rank))
  {
    var gs := GroupBy(xs, key, value);
    GroupByKeys(xs, key, value);
    if gs != [] {
      SortGroups(gs, rank, gs[0].key);
    }
    if xs != [] {
      var init, last := xs[..|xs| - 1], xs[|xs| - 1];
      GroupByNonEmpty(init, key, value, rank);
      AddToNonEmpty(GroupBy(init, key, value), key(last), value(last));
    }
    var r := SortBy(gs, rank);
    forall i | 0 <= i < |r|
      ensures r[i].count > 0
    {
      assert r[i] in multiset(gs);
    }
  }

  /** The keys of the groups, in order. */
  function KeysOf<K>(gs: seq<Group<K>>): (ks: seq<K>)
    ensures |ks| == |gs|
    ensures forall i :: 0 <= i < |gs| ==> ks[i] == gs[i].key
  {
    if gs == [] then [] else [gs[0].key] + KeysOf(gs[1..])
  }

  /** `ORDER BY first, next`: ascending in `first`, and ascending in `next`
      among rows of equal `first`. */
  ghost predicate SortedByThen<T>(s: seq<T>, first: T -> int, next: T -> int) {
    forall i, j :: 0 <= i < j < |s| ==>
      first(s[i]) < first(s[j]) || (first(s[i]) == first(s[j]) && next(s[i]) <= next(s[j]))
  }

  lemma {:induction false} InsertSortedThen<T>(x: T, s: seq<T>, first: T -> int, next: T -> int)
    requires SortedByThen(s, first, next)
    requires forall i :: 0 <= i < |s| ==> next(x) <= next(s[i])
    ensures SortedByThen(Insert(x, s, first), first, next)
  {
    var r := Insert(x, s, first);
    if s == [] || first(x) <= first(s[0]) {
      assert r == [x] + s;
      forall j | 0 < j < |r|
        ensures first(r[0]) < first(r[j]) || (first(r[0]) == first(r[j]) && next(r[0]) <= next(r[j]))
      {
        assert r[j] == s[j - 1];
        if j > 1 {
          assert first(s[0]) <= first(s[j - 1]);
        }
      }
    } else {
      InsertSortedThen(x, s[1..], first, next);
      assert r == [s[0]] + Insert(x, s[1..], first);
      forall j | 0 < j < |r|
        ensures first(r[0]) < first(r[j]) || (first(r[0]) == first(r[j]) && next(r[0]) <= next(r[j]))
      {
        assert r[j] in multiset(s[1..]) + multiset{x};
        if r[j] != x {
          var k :| 0 <= k < |s[1..]| && s[1..][k] == r[j];
          assert s[k + 1] == r[j];
        }
      }
    }
  }

  /** Sorting by `first` rows already in `next` order gives the order
      `first, next`: the sort is stable. */
  lemma {:induction false} SortByThen<T>(xs: seq<T>, first: T -> int, next: T -> int)
    requires SortedBy(xs, next)
    ensures SortedByThen(SortBy(xs, first), first, next)
  {
    if xs != [] {
      var rest := SortBy(xs[1..], first);
      SortByThen(xs[1..], first, next);
      forall i | 0 <= i < |rest|
        ensures next(xs[0]) <= next(rest[i])
      {
        assert rest[i] in multiset(xs[1..]);
        var k :| 0 <= k < |xs[1..]| && xs[1..][k] == rest[i];
        assert xs[k + 1] == rest[i];
      }
      InsertSortedThen(xs[0], rest, first, next);
    }
  }

  lemma {:induction false} KeySetConcat<K>(a: seq<Group<K>>, b: seq<Group<K>>)
    ensures KeySet(a + b) == KeySet(a) + KeySet(b)
    ensures DistinctKeys(a + b) <==> DistinctKeys(a) && DistinctKeys(b) && KeySet(a) !! KeySet(b)
  {
    if a != [] {
      KeySetConcat(a[1..], b);
      assert (a + b)[1..] == a[1..] + b;
    } else {
      assert a + b == b;
    }
  }

  /** `HAVING p`: the groups that satisfy `p`, keeping their keys distinct;
      a key is kept exactly when its group satisfies `p`, and keeps its
      total and count. */
  lemma {:induction false} Having<K>(gs: seq<Group<K>>, p: Group<K> -> bool, k: K)
    requires DistinctKeys(gs)
    ensures DistinctKeys(Where(gs, p))
    ensures k in KeySet(Where(gs, p)) <==> k in KeySet(gs) && p(Group(k, TotalOf(gs, k), CountOf(gs, k)))
    ensures k in KeySet(Where(gs, p)) ==>
      TotalOf(Where(gs, p), k) == TotalOf(gs, k) && CountOf(Where(gs, p), k) == CountOf(gs, k)
  {
    HavingDistinct(gs, p);
    var kept := Where(gs, p);
    KeySetMembers(gs, k);
    KeySetMembers(kept, k);
    if k in KeySet(kept) {
      var i :| 0 <= i < |kept| && kept[i].key == k;
      WhereMembership(gs, p, kept[i]);
      var j :| 0 <= j < |gs| && gs[j] == kept[i];
      GroupAt(gs, j);
      GroupAt(kept, i);
    }
    if k in KeySet(gs) && p(Group(k, TotalOf(gs, k), CountOf(gs, k))) {
      var j :| 0 <= j < |gs| && gs[j].key == k;
      GroupAt(gs, j);
      assert gs[j] == Group(k, TotalOf(gs, k), CountOf(gs, k));
      WhereMembership(gs, p, gs[j]);
      var i :| 0 <= i < |kept| && kept[i] == gs[j];
    }
  }

  lemma {:induction false} HavingDistinct<K>(gs: seq<Group<K>>, p: Group<K> -> bool)
    requires DistinctKeys(gs)
    ensures KeySet(Where(gs, p)) <= KeySet(gs)
    ensures DistinctKeys(Where(gs, p))
  {
    if gs != [] {
      var init, last := gs[..|gs| - 1], gs[|gs| - 1];
      assert gs == init + [last];
      KeySetConcat(init, [last]);
      HavingDistinct(init, p);
      KeySetConcat(Where(init, p), if p(last) then [last] else []);
    }
  }

  /** A key with no group has no rows and no total. */
  lemma {:induction false} CountOfAbsent<K>(gs: seq<Group<K>>, k: K)
    requires k !in KeySet(gs)
    ensures CountOf(gs, k) == 0 && TotalOf(gs, k) == 0
  {
    if gs != [] {
      CountOfAbsent(gs[1..], k);
    }
  }
}
