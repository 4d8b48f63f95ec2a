/** Generic sequence operations the engine performs through Python idioms:
    first-occurrence dedup (`dict.fromkeys`, a `seen` set, `if key not in
    dedup`), stable descending sort (`sorted(..., key=..., reverse=True)`),
    filtering and prefixes (`xs[:n]`). */
module Seqs {

  predicate NoDup<T(==)>(xs: seq<T>) {
    forall i, j :: 0 <= i < j < |xs| ==> xs[i] != xs[j]
  }

  /** xs[:n] for a non-negative n. */
  function Take<T>(xs: seq<T>, n: nat): (r: seq<T>)
    ensures |r| == if n < |xs| then n else |xs|
    ensures r == xs[..|r|]
  {
    if n < |xs| then xs[..n] else xs
  }

  function Reverse<T>(xs: seq<T>): (r: seq<T>)
    ensures |r| == |xs|
    ensures forall i :: 0 <= i < |xs| ==> r[i] == xs[|xs| - 1 - i]
  {
    if xs == [] then [] else Reverse(xs[1..]) + [xs[0]]
  }

  // ---------------------------------------------------------------------
  // Dedup by key, first occurrence kept

  function Keys<T, K(==)>(xs: seq<T>, key: T -> K): set<K> {
    set i | 0 <= i < |xs| :: key(xs[i])
  }

  predicate KeysDistinct<T, K(==)>(xs: seq<T>, key: T -> K) {
    forall i, j :: 0 <= i < j < |xs| ==> key(xs[i]) != key(xs[j])
  }

  lemma KeysSnoc<T, K>(xs: seq<T>, x: T, key: T -> K)
    ensures Keys(xs + [x], key) == Keys(xs, key) + {key(x)}
  {
    var ys := xs + [x];
    forall k | k in Keys(ys, key) ensures k in Keys(xs, key) + {key(x)} {
      var i :| 0 <= i < |ys| && key(ys[i]) == k;
      if i < |xs| { assert ys[i] == xs[i]; }
    }
    forall k | k in Keys(xs, key) ensures k in Keys(ys, key) {
      var i :| 0 <= i < |xs| && key(xs[i]) == k;
      assert ys[i] == xs[i];
    }
    assert ys[|xs|] == x;
  }

  /** The index of the first element of `xs` whose key is `k`. */
  function FirstIndex<T, K(==)>(xs: seq<T>, key: T -> K, k: K): (r: nat)
    requires k in Keys(xs, key)
    ensures r < |xs| && key(xs[r]) == k
    ensures forall i :: 0 <= i < r ==> key(xs[i]) != k
  {
    if key(xs[0]) == k then 0
    else
      assert k in Keys(xs[1..], key) by {
        var i :| 0 <= i < |xs| && key(xs[i]) == k;
        assert xs[1..][i - 1] == xs[i];
      }
      1 + FirstIndex(xs[1..], key, k)
  }

  /** The elements of `xs` whose key has not been seen before, in order:
      what a loop with a `seen` set, or a dict filled only for new keys,
      keeps. */
  function DedupBy<T, K(==)>(xs: seq<T>, key: T -> K): (r: seq<T>)
    ensures |r| <= |xs|
    ensures KeysDistinct(r, key)
    ensures Keys(r, key) == Keys(xs, key)
    decreases |xs|
  {
    if xs == [] then []
    else
      var init := xs[..|xs| - 1];
      var x := xs[|xs| - 1];
      assert xs == init + [x];
      var d := DedupBy(init, key);
      KeysSnoc(init, x, key);
      KeysSnoc(d, x, key);
      if key(x) in Keys(d, key) then d
      else
        assert forall i :: 0 <= i < |d| ==> key(d[i]) in Keys(d, key);
        d + [x]
  }

  lemma DedupByStep<T, K>(xs: seq<T>, x: T, key: T -> K)
    ensures DedupBy(xs + [x], key)
            == if key(x) in Keys(xs, key) then DedupBy(xs, key) else DedupBy(xs, key) + [x]
  {
    assert (xs + [x])[..|xs|] == xs;
  }

  /** Every element DedupBy keeps is the first one of its key in `xs`, and the
      kept elements appear in the order their keys first occur. Together
      with the key-set and distinctness clauses of DedupBy this pins the
      result down completely. */
  lemma DedupByFirst<T, K>(xs: seq<T>, key: T -> K)
    ensures forall j :: 0 <= j < |DedupBy(xs, key)| ==>
              key(DedupBy(xs, key)[j]) in Keys(xs, key) &&
              DedupBy(xs, key)[j] == xs[FirstIndex(xs, key, key(DedupBy(xs, key)[j]))]
    ensures forall a, b :: 0 <= a < b < |DedupBy(xs, key)| ==>
              FirstIndex(xs, key, key(DedupBy(xs, key)[a]))
              < FirstIndex(xs, key, key(DedupBy(xs, key)[b]))
  {
    DedupByKeepsFirst(xs, key);
    DedupByInFirstOrder(xs, key);
  }

  /** A key of `xs` has the same first index once `x` is appended. */
  lemma FirstIndexSnoc<T, K>(xs: seq<T>, x: T, key: T -> K, k: K)
    requires k in Keys(xs, key)
    ensures k in Keys(xs + [x], key)
    ensures FirstIndex(xs + [x], key, k) == FirstIndex(xs, key, k)
  {
    KeysSnoc(xs, x, key);
    var ys := xs + [x];
    var p := FirstIndex(xs, key, k);
    assert ys[p] == xs[p];
    forall i | 0 <= i < p ensures key(ys[i]) != k {
      assert ys[i] == xs[i];
    }
  }

  /** A new key first occurs at the appended element. */
  lemma FirstIndexNew<T, K>(xs: seq<T>, x: T, key: T -> K)
    requires key(x) !in Keys(xs, key)
    ensures key(x) in Keys(xs + [x], key)
    ensures FirstIndex(xs + [x], key, key(x)) == |xs|
  {
    KeysSnoc(xs, x, key);
    var ys := xs + [x];
    forall i | 0 <= i < |xs| ensures key(ys[i]) != key(x) {
      assert ys[i] == xs[i];
      assert key(xs[i]) in Keys(xs, key);
    }
  }

  lemma KeyOfKept<T, K>(d: seq<T>, key: T -> K, j: nat)
    requires j < |d|
    ensures key(d[j]) in Keys(d, key)
  {
  }

  lemma {:induction false} DedupByKeepsFirst<T, K>(xs: seq<T>, key: T -> K)
    ensures forall j :: 0 <= j < |DedupBy(xs, key)| ==>
              key(DedupBy(xs, key)[j]) in Keys(xs, key) &&
              DedupBy(xs, key)[j] == xs[FirstIndex(xs, key, key(DedupBy(xs, key)[j]))]
    decreases |xs|
  {
    if xs != [] {
      var init := xs[..|xs| - 1];
      var x := xs[|xs| - 1];
      assert xs == init + [x];
      var d := DedupBy(init, key);
      var r := DedupBy(xs, key);
      DedupByKeepsFirst(init, key);
      DedupByStep(init, x, key);
      forall j | 0 <= j < |r|
        ensures key(r[j]) in Keys(xs, key) && r[j] == xs[FirstIndex(xs, key, key(r[j]))]
      {
        if j < |d| {
          assert r[j] == d[j];
          KeyOfKept(d, key, j);
          FirstIndexSnoc(init, x, key, key(d[j]));
          var p := FirstIndex(init, key, key(d[j]));
          assert xs[p] == init[p];
        } else {
          assert r[j] == x;
          FirstIndexNew(init, x, key);
        }
      }
    }
  }

  lemma {:induction false} DedupByInFirstOrder<T, K>(xs: seq<T>, key: T -> K)
    ensures forall a, b :: 0 <= a < b < |DedupBy(xs, key)| ==>
              FirstIndex(xs, key, key(DedupBy(xs, key)[a]))
              < FirstIndex(xs, key, key(DedupBy(xs, key)[b]))
    decreases |xs|
  {
    if xs != [] {
      var init := xs[..|xs| - 1];
      var x := xs[|xs| - 1];
      assert xs == init + [x];
      var d := DedupBy(init, key);
      var r := DedupBy(xs, key);
      DedupByInFirstOrder(init, key);
      DedupByStep(init, x, key);
      forall a, b | 0 <= a < b < |r|
        ensures FirstIndex(xs, key, key(r[a])) < FirstIndex(xs, key, key(r[b]))
      {
        assert r[a] == d[a];
        KeyOfKept(d, key, a);
        FirstIndexSnoc(init, x, key, key(d[a]));
        if b < |d| {
          assert r[b] == d[b];
          KeyOfKept(d, key, b);
          FirstIndexSnoc(init, x, key, key(d[b]));
        } else {
          assert r[b] == x;
          FirstIndexNew(init, x, key);
        }
      }
    }
  }

  /** Plain first-occurrence dedup (`list(dict.fromkeys(xs))`). */
  function Dedup<T(==)>(xs: seq<T>): (r: seq<T>)
    ensures NoDup(r)
    ensures forall j :: 0 <= j < |r| ==> r[j] in xs
    ensures forall i :: 0 <= i < |xs| ==> xs[i] in r
  {
    var r := DedupBy(xs, (x: T) => x);
    assert forall j :: 0 <= j < |r| ==> r[j] in Keys(r, (x: T) => x);
    assert forall i :: 0 <= i < |xs| ==> xs[i] in Keys(xs, (x: T) => x);
    r
  }

  lemma DedupStep<T>(xs: seq<T>, x: T)
    ensures Dedup(xs + [x]) == if x in xs then Dedup(xs) else Dedup(xs) + [x]
  {
    DedupByStep(xs, x, (y: T) => y);
    assert x in xs <==> x in Keys(xs, (y: T) => y);
  }

  /** Dedup keeps the first element first. */
  lemma {:induction false} DedupHead<T>(xs: seq<T>)
    requires xs != []
    ensures Dedup(xs) != [] && Dedup(xs)[0] == xs[0]
    decreases |xs|
  {
    var init := xs[..|xs| - 1];
    assert xs == init + [xs[|xs| - 1]];
    DedupStep(init, xs[|xs| - 1]);
    if init != [] {
      DedupHead(init);
    } else {
      assert Dedup(init) == [];
    }
  }

  lemma DedupOfNoDup<T>(xs: seq<T>)
    requires NoDup(xs)
    ensures Dedup(xs) == xs
    decreases |xs|
  {
    if xs != [] {
      var init := xs[..|xs| - 1];
      assert xs == init + [xs[|xs| - 1]];
      DedupOfNoDup(init);
      DedupStep(init, xs[|xs| - 1]);
    }
  }

  // ---------------------------------------------------------------------
  // Filtering

  function Filter<T>(xs: seq<T>, p: T -> bool): (r: seq<T>)
    ensures |r| <= |xs|
    ensures forall j :: 0 <= j < |r| ==> p(r[j])
  {
    if xs == [] then [] else (if p(xs[0]) then [xs[0]] else []) + Filter(xs[1..], p)
  }

  lemma FilterMembership<T>(xs: seq<T>, p: T -> bool, x: T)
    ensures x in Filter(xs, p) <==> x in xs && p(x)
  {
    if xs != [] {
      FilterMembership(xs[1..], p, x);
      assert x in xs <==> x == xs[0] || x in xs[1..];
    }
  }

  /** Filtering keeps a list free of repeats. */
  lemma {:induction false} FilterNoDup<T>(xs: seq<T>, p: T -> bool)
    requires NoDup(xs)
    ensures NoDup(Filter(xs, p))
  {
    if xs != [] {
      assert NoDup(xs[1..]) by {
        forall i, j | 0 <= i < j < |xs[1..]| ensures xs[1..][i] != xs[1..][j] {
          assert xs[1..][i] == xs[i + 1] && xs[1..][j] == xs[j + 1];
        }
      }
      FilterNoDup(xs[1..], p);
      FilterMembership(xs[1..], p, xs[0]);
      assert xs[0] !in xs[1..] by {
        forall k | 0 <= k < |xs[1..]| ensures xs[1..][k] != xs[0] { assert xs[1..][k] == xs[k + 1]; }
      }
      var rest := Filter(xs[1..], p);
      var r := Filter(xs, p);
      if p(xs[0]) {
        assert r == [xs[0]] + rest;
        forall i, j | 0 <= i < j < |r| ensures r[i] != r[j] {
          assert r[j] == rest[j - 1];
          if i > 0 { assert r[i] == rest[i - 1]; }
        }
      } else {
        assert r == rest;
      }
    }
  }

  lemma FilterConcat<T>(xs: seq<T>, ys: seq<T>, p: T -> bool)
    ensures Filter(xs + ys, p) == Filter(xs, p) + Filter(ys, p)
  {
    if xs != [] {
      var h := if p(xs[0]) then [xs[0]] else [];
      assert (xs + ys)[0] == xs[0];
      assert (xs + ys)[1..] == xs[1..] + ys;
      FilterConcat(xs[1..], ys, p);
      calc {
        Filter(xs + ys, p);
        h + Filter(xs[1..] + ys, p);
        h + (Filter(xs[1..], p) + Filter(ys, p));
        (h + Filter(xs[1..], p)) + Filter(ys, p);
      }
    } else {
      assert xs + ys == ys;
    }
  }

  /** A filter keeps as many elements as satisfy its predicate. */
  lemma {:induction false} FilterCount<T>(xs: seq<T>, p: T -> bool)
    ensures |Filter(xs, p)| == CountWhere(xs, p)
  {
    if xs != [] {
      FilterCount(xs[1..], p);
    }
  }

  /** What a filter drops is counted by the opposite predicate `q`. */
  lemma {:induction false} FilterDropped<T>(xs: seq<T>, p: T -> bool, q: T -> bool)
    requires forall i :: 0 <= i < |xs| ==> q(xs[i]) == !p(xs[i])
    ensures |xs| - |Filter(xs, p)| == CountWhere(xs, q)
  {
    if xs != [] {
      FilterDropped(xs[1..], p, q);
    }
  }

  /** Two predicates that agree on a list filter it alike. */
  lemma {:induction false} FilterSame<T>(xs: seq<T>, p: T -> bool, q: T -> bool)
    requires forall i :: 0 <= i < |xs| ==> p(xs[i]) == q(xs[i])
    ensures Filter(xs, p) == Filter(xs, q)
  {
    if xs != [] {
      FilterSame(xs[1..], p, q);
    }
  }

  /** A predicate every element meets keeps the whole list. */
  lemma {:induction false} FilterAll<T>(xs: seq<T>, p: T -> bool)
    requires forall i :: 0 <= i < |xs| ==> p(xs[i])
    ensures Filter(xs, p) == xs
  {
    if xs != [] {
      FilterAll(xs[1..], p);
    }
  }

  // ---------------------------------------------------------------------
  // Stable sort by an integer key, descending

  predicate SortedDesc<T>(xs: seq<T>, key: T -> int) {
    forall i, j :: 0 <= i < j < |xs| ==> key(xs[i]) >= key(xs[j])
  }

  /** The elements of `xs` whose key is `k`, in order. */
  function WithKey<T>(xs: seq<T>, key: T -> int, k: int): seq<T> {
    if xs == [] then [] else (if key(xs[0]) == k then [xs[0]] else []) + WithKey(xs[1..], key, k)
  }

  /** Puts `x` before the first element whose key is not larger. */
  function InsertDesc<T(==)>(x: T, s: seq<T>, key: T -> int): (r: seq<T>)
    ensures multiset(r) == multiset(s) + multiset{x}
    ensures |r| == |s| + 1
  {
    if s == [] || key(s[0]) <= key(x) then [x] + s
    else
      assert s == [s[0]] + s[1..];
      [s[0]] + InsertDesc(x, s[1..], key)
  }

  lemma {:induction false} InsertDescSorted<T>(x: T, s: seq<T>, key: T -> int)
    requires SortedDesc(s, key)
    ensures SortedDesc(InsertDesc(x, s, key), key)
  {
    if s != [] && key(s[0]) > key(x) {
      var t := InsertDesc(x, s[1..], key);
      var r := InsertDesc(x, s, key);
      assert r == [s[0]] + t;
      assert SortedDesc(s[1..], key) by {
        forall i, j | 0 <= i < j < |s[1..]| ensures key(s[1..][i]) >= key(s[1..][j]) {
          assert s[1..][i] == s[i + 1] && s[1..][j] == s[j + 1];
        }
      }
      InsertDescSorted(x, s[1..], key);
      assert forall i :: 0 <= i < |s[1..]| ==> key(s[1..][i]) <= key(s[0]) by {
        forall i | 0 <= i < |s[1..]| ensures key(s[1..][i]) <= key(s[0]) {
          assert s[1..][i] == s[i + 1];
        }
      }
      InsertDescBounded(x, s[1..], key, key(s[0]));
      forall i, j | 0 <= i < j < |r| ensures key(r[i]) >= key(r[j]) {
        assert r[j] == t[j - 1];
        if i > 0 {
          assert r[i] == t[i - 1];
        }
      }
    }
  }

  /** Inserting below a bound every key already respects keeps them all
      below it. */
  lemma {:induction false} InsertDescBounded<T>(x: T, s: seq<T>, key: T -> int, b: int)
    requires key(x) <= b
    requires forall i :: 0 <= i < |s| ==> key(s[i]) <= b
    ensures forall j :: 0 <= j < |InsertDesc(x, s, key)| ==> key(InsertDesc(x, s, key)[j]) <= b
  {
    var r := InsertDesc(x, s, key);
    if s == [] || key(s[0]) <= key(x) {
      assert r == [x] + s;
      forall j | 0 <= j < |r| ensures key(r[j]) <= b {
        if j > 0 { assert r[j] == s[j - 1]; }
      }
    } else {
      var t := InsertDesc(x, s[1..], key);
      assert r == [s[0]] + t;
      assert forall i :: 0 <= i < |s[1..]| ==> key(s[1..][i]) <= b by {
        forall i | 0 <= i < |s[1..]| ensures key(s[1..][i]) <= b {
          assert s[1..][i] == s[i + 1];
        }
      }
      InsertDescBounded(x, s[1..], key, b);
      forall j | 0 <= j < |r| ensures key(r[j]) <= b {
        if j > 0 { assert r[j] == t[j - 1]; }
      }
    }
  }

  lemma WithKeyCons<T>(y: T, rest: seq<T>, key: T -> int, k: int)
    ensures WithKey([y] + rest, key, k) == (if key(y) == k then [y] else []) + WithKey(rest, key, k)
  {
    assert ([y] + rest)[0] == y && ([y] + rest)[1..] == rest;
  }

  lemma {:induction false} InsertDescWithKey<T>(x: T, s: seq<T>, key: T -> int, k: int)
    ensures WithKey(InsertDesc(x, s, key), key, k)
            == (if key(x) == k then [x] else []) + WithKey(s, key, k)
  {
    var r := InsertDesc(x, s, key);
    if s == [] || key(s[0]) <= key(x) {
      assert r == [x] + s;
      WithKeyCons(x, s, key, k);
    } else {
      var t := InsertDesc(x, s[1..], key);
      assert r == [s[0]] + t;
      assert s == [s[0]] + s[1..];
      WithKeyCons(s[0], t, key, k);
      WithKeyCons(s[0], s[1..], key, k);
      InsertDescWithKey(x, s[1..], key, k);
      var hs := if key(s[0]) == k then [s[0]] else [];
      var hx := if key(x) == k then [x] else [];
      var w := WithKey(s[1..], key, k);
      if hs == [] {
        assert hs + w == w && hs + (hx + w) == hx + w;
      } else {
        assert hx == [];
        assert hx + w == w && hx + (hs + w) == hs + w;
      }
    }
  }

  /** sorted(xs, key=key, reverse=True), which Python keeps stable. */
  function SortDesc<T(==)>(xs: seq<T>, key: T -> int): (r: seq<T>)
    ensures multiset(r) == multiset(xs)
    ensures |r| == |xs|
  {
    if xs == [] then []
    else
      assert xs == [xs[0]] + xs[1..];
      InsertDesc(xs[0], SortDesc(xs[1..], key), key)
  }

  /** The sort orders by key, is a permutation, and is stable: for every key,
      the elements carrying it keep their input order. */
  lemma {:induction false} SortDescCorrect<T>(xs: seq<T>, key: T -> int)
    ensures SortedDesc(SortDesc(xs, key), key)
    ensures forall k :: WithKey(SortDesc(xs, key), key, k) == WithKey(xs, key, k)
  {
    if xs != [] {
      SortDescCorrect(xs[1..], key);
      InsertDescSorted(xs[0], SortDesc(xs[1..], key), key);
      forall k ensures WithKey(SortDesc(xs, key), key, k) == WithKey(xs, key, k) {
        InsertDescWithKey(xs[0], SortDesc(xs[1..], key), key, k);
      }
    }
  }

  lemma MultisetMembership<T>(xs: seq<T>, ys: seq<T>, x: T)
    requires multiset(xs) == multiset(ys)
    ensures x in xs <==> x in ys
  {
    assert x in xs <==> x in multiset(xs);
    assert x in ys <==> x in multiset(ys);
  }

  // ---------------------------------------------------------------------
  // Counting

  function CountWhere<T>(xs: seq<T>, p: T -> bool): (r: nat)
    ensures r <= |xs|
  {
    if xs == [] then 0 else (if p(xs[0]) then 1 else 0) + CountWhere(xs[1..], p)
  }

  /** Nothing is counted exactly when no element satisfies the predicate. */
  lemma {:induction false} CountWhereNone<T>(xs: seq<T>, p: T -> bool)
    ensures CountWhere(xs, p) == 0 <==> forall i :: 0 <= i < |xs| ==> !p(xs[i])
  {
    if xs != [] {
      CountWhereNone(xs[1..], p);
      assert forall i :: 1 <= i < |xs| ==> xs[1..][i - 1] == xs[i];
    }
  }

  lemma CountWhereSnoc<T>(xs: seq<T>, x: T, p: T -> bool)
    ensures CountWhere(xs + [x], p) == CountWhere(xs, p) + (if p(x) then 1 else 0)
  {
    if xs != [] {
      assert (xs + [x])[1..] == xs[1..] + [x];
      CountWhereSnoc(xs[1..], x, p);
    }
  }

  // ---------------------------------------------------------------------
  // Mapping and ranking

  /** [f(x) for x in xs if p(x)]. */
  function MapFilter<A, B>(xs: seq<A>, p: A -> bool, f: A -> B): (r: seq<B>)
    ensures |r| <= |xs|
  {
    if xs == [] then [] else (if p(xs[0]) then [f(xs[0])] else []) + MapFilter(xs[1..], p, f)
  }

  /** Every element of a map-filter satisfies what every image satisfies. */
  lemma {:induction false} MapFilterAll<A, B>(xs: seq<A>, p: A -> bool, f: A -> B, q: B -> bool)
    requires forall x :: q(f(x))
    ensures forall k :: 0 <= k < |MapFilter(xs, p, f)| ==> q(MapFilter(xs, p, f)[k])
  {
    if xs != [] {
      MapFilterAll(xs[1..], p, f, q);
    }
  }

  lemma {:induction false} MapFilterMembership<A, B>(xs: seq<A>, p: A -> bool, f: A -> B, y: B)
    ensures y in MapFilter(xs, p, f) <==> exists i :: 0 <= i < |xs| && p(xs[i]) && y == f(xs[i])
  {
    if xs != [] {
      MapFilterMembership(xs[1..], p, f, y);
      if exists i :: 0 <= i < |xs| && p(xs[i]) && y == f(xs[i]) {
        var i :| 0 <= i < |xs| && p(xs[i]) && y == f(xs[i]);
        if i > 0 { assert xs[1..][i - 1] == xs[i]; }
      }
      if exists i :: 0 <= i < |xs[1..]| && p(xs[1..][i]) && y == f(xs[1..][i]) {
        var i :| 0 <= i < |xs[1..]| && p(xs[1..][i]) && y == f(xs[1..][i]);
        assert xs[1..][i] == xs[i + 1];
      }
    }
  }

  /** [f(x) for x in xs]. */
  function Map<A, B>(xs: seq<A>, f: A -> B): (r: seq<B>)
    ensures |r| == |xs|
    ensures forall i :: 0 <= i < |xs| ==> r[i] == f(xs[i])
  {
    seq(|xs|, i requires 0 <= i < |xs| => f(xs[i]))
  }

  lemma MapSnoc<A, B>(xs: seq<A>, x: A, f: A -> B)
    ensures Map(xs + [x], f) == Map(xs, f) + [f(x)]
  {
  }

  lemma TakeSnoc<T>(xs: seq<T>, k: nat)
    requires k < |xs|
    ensures xs[..k + 1] == xs[..k] + [xs[k]]
  {
  }

  /** Concatenation is associative. */
  lemma ConcatAssoc<T>(a: seq<T>, b: seq<T>, c: seq<T>)
    ensures (a + b) + c == a + (b + c)
  {
  }

  /** The image of a member is a member of the image. */
  lemma MapMember<A, B>(xs: seq<A>, f: A -> B, x: A)
    requires x in xs
    ensures f(x) in Map(xs, f)
  {
    var i :| 0 <= i < |xs| && xs[i] == x;
    assert Map(xs, f)[i] == f(x);
  }

  /** Mapping one element more of a list's prefix. */
  lemma MapPrefix<A, B>(xs: seq<A>, k: nat, f: A -> B)
    requires k < |xs|
    ensures Map(xs[..k + 1], f) == Map(xs[..k], f) + [f(xs[k])]
  {
    assert xs[..k + 1] == xs[..k] + [xs[k]];
    MapSnoc(xs[..k], xs[k], f);
  }

  lemma MapWhole<A, B>(xs: seq<A>, f: A -> B)
    ensures Map(xs[..|xs|], f) == Map(xs, f)
  {
    assert xs[..|xs|] == xs;
  }

  /** In a list sorted by descending score, the first element of a key
      scores at least as high as every element of a key first seen later. */
  lemma DedupSortedOrder<T, K>(sorted: seq<T>, score: T -> int, key: T -> K)
    requires SortedDesc(sorted, score)
    ensures var kept := DedupBy(sorted, key);
      forall a, b, m :: 0 <= a < b < |kept| && 0 <= m < |sorted| && key(sorted[m]) == key(kept[b])
        ==> score(kept[a]) >= score(sorted[m])
  {
    var kept := DedupBy(sorted, key);
    DedupByFirst(sorted, key);
    forall a, b, m | 0 <= a < b < |kept| && 0 <= m < |sorted| && key(sorted[m]) == key(kept[b])
      ensures score(kept[a]) >= score(sorted[m])
    {
      var ia := FirstIndex(sorted, key, key(kept[a]));
      var ib := FirstIndex(sorted, key, key(kept[b]));
      assert ib <= m;
      assert kept[a] == sorted[ia];
    }
  }

  /** A permutation has the same elements and the same keys. */
  lemma PermutationKeys<T, K>(xs: seq<T>, ys: seq<T>, key: T -> K)
    requires multiset(xs) == multiset(ys)
    ensures forall e :: e in xs <==> e in ys
    ensures Keys(xs, key) == Keys(ys, key)
  {
    forall e ensures e in xs <==> e in ys { MultisetMembership(xs, ys, e); }
    KeysIncluded(xs, ys, key);
    KeysIncluded(ys, xs, key);
  }

  lemma KeysIncluded<T, K>(xs: seq<T>, ys: seq<T>, key: T -> K)
    requires forall e :: e in xs ==> e in ys
    ensures Keys(xs, key) <= Keys(ys, key)
  {
    forall k | k in Keys(xs, key) ensures k in Keys(ys, key) {
      var i :| 0 <= i < |xs| && key(xs[i]) == k;
      assert xs[i] in ys;
      var m :| 0 <= m < |ys| && ys[m] == xs[i];
      assert key(ys[m]) == k;
    }
  }

  /** Stable descending sort by score, then the first element of each key:
      each key of `xs` is kept once, by an element of `xs`, and a kept
      element scores at least as high as every element of `xs` carrying a
      key kept later. */
  lemma RankedDedup<T, K>(xs: seq<T>, score: T -> int, key: T -> K)
    ensures var kept := DedupBy(SortDesc(xs, score), key);
      && Keys(kept, key) == Keys(xs, key)
      && KeysDistinct(kept, key)
      && (forall j :: 0 <= j < |kept| ==> kept[j] in xs)
      && (forall a, b, j :: 0 <= a < b < |kept| && 0 <= j < |xs| && key(xs[j]) == key(kept[b])
            ==> score(kept[a]) >= score(xs[j]))
  {
    var sorted := SortDesc(xs, score);
    var kept := DedupBy(sorted, key);
    SortDescCorrect(xs, score);
    PermutationKeys(sorted, xs, key);
    DedupSortedOrder(sorted, score, key);
    DedupByFirst(sorted, key);
    forall j | 0 <= j < |kept| ensures kept[j] in xs {
      assert kept[j] == sorted[FirstIndex(sorted, key, key(kept[j]))];
    }
    forall a, b, j | 0 <= a < b < |kept| && 0 <= j < |xs| && key(xs[j]) == key(kept[b])
      ensures score(kept[a]) >= score(xs[j])
    {
      assert xs[j] in sorted;
      var m :| 0 <= m < |sorted| && sorted[m] == xs[j];
    }
  }

  /** The keys of a list, listed: the same as its key set, and free of
      duplicates when the keys are distinct. */
  lemma MapKeys<T, K>(xs: seq<T>, key: T -> K)
    ensures forall k :: k in Map(xs, key) <==> k in Keys(xs, key)
    ensures KeysDistinct(xs, key) ==> NoDup(Map(xs, key))
  {
    var m := Map(xs, key);
    forall k | k in Keys(xs, key) ensures k in m {
      var i :| 0 <= i < |xs| && key(xs[i]) == k;
      assert m[i] == k;
    }
  }

  /** What selecting, scoring, sorting stably by descending score and
      keeping the first element per key gives: every key of a selected
      element is kept exactly once, and a kept element scores at least as
      high as every selected element whose key is kept later. */
  ghost predicate RankedSelectionHolds<A, T, K(!new)>(xs: seq<A>, p: A -> bool, f: A -> T, score: T -> int, key: T -> K, kept: seq<T>) {
      && KeysDistinct(kept, key)
      && (forall k :: k in Keys(kept, key) <==> exists i :: 0 <= i < |xs| && p(xs[i]) && k == key(f(xs[i])))
      && (forall a, b, i :: 0 <= a < b < |kept| && 0 <= i < |xs| && p(xs[i]) && key(f(xs[i])) == key(kept[b])
            ==> score(kept[a]) >= score(f(xs[i])))
  }

  lemma RankedSelection<A, T, K(!new)>(xs: seq<A>, p: A -> bool, f: A -> T, score: T -> int, key: T -> K)
    ensures RankedSelectionHolds(xs, p, f, score, key, DedupBy(SortDesc(MapFilter(xs, p, f), score), key))
  {
    var sel := MapFilter(xs, p, f);
    var kept := DedupBy(SortDesc(sel, score), key);
    RankedDedup(sel, score, key);
    forall k ensures k in Keys(kept, key) <==> exists i :: 0 <= i < |xs| && p(xs[i]) && k == key(f(xs[i])) {
      if k in Keys(sel, key) {
        var m :| 0 <= m < |sel| && key(sel[m]) == k;
        MapFilterMembership(xs, p, f, sel[m]);
      }
      if exists i :: 0 <= i < |xs| && p(xs[i]) && k == key(f(xs[i])) {
        var i :| 0 <= i < |xs| && p(xs[i]) && k == key(f(xs[i]));
        MapFilterMembership(xs, p, f, f(xs[i]));
        var m :| 0 <= m < |sel| && sel[m] == f(xs[i]);
        assert key(sel[m]) == k;
      }
    }
    forall a, b, i | 0 <= a < b < |kept| && 0 <= i < |xs| && p(xs[i]) && key(f(xs[i])) == key(kept[b])
      ensures score(kept[a]) >= score(f(xs[i]))
    {
      MapFilterMembership(xs, p, f, f(xs[i]));
      var m :| 0 <= m < |sel| && sel[m] == f(xs[i]);
    }
  }
}
