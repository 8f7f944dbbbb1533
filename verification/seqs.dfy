/**
 * Sequence helpers standing in for the document store's queries: `findOne` returns
 * the first match in natural order, `find` keeps the matches in order, and
 * `sort` / `Array.prototype.sort` order by descending keys, keeping ties stable.
 */
module Seqs {
  import opened Wrappers

  /** Index of the first element satisfying `p`. */
  function FirstIndex<T>(xs: seq<T>, p: T -> bool): (r: Option<nat>)
    ensures r.Some? ==> r.value < |xs| && p(xs[r.value])
    ensures r.Some? ==> forall k :: 0 <= k < r.value ==> !p(xs[k])
    ensures r.None? ==> forall k :: 0 <= k < |xs| ==> !p(xs[k])
  {
    if |xs| == 0 then None
    else if p(xs[0]) then Some(0)
    else
      match FirstIndex(xs[1..], p)
      case None => None
      case Some(i) => Some(i + 1)
  }

  /** The elements satisfying `p`, in their original order. */
  function Filter<T(!new)>(xs: seq<T>, p: T -> bool): (r: seq<T>)
    ensures |r| <= |xs|
    ensures forall k :: 0 <= k < |r| ==> p(r[k])
    ensures forall x :: multiset(r)[x] == if p(x) then multiset(xs)[x] else 0
  {
    if |xs| == 0 then []
    else
      var rest := Filter(xs[1..], p);
      assert xs == [xs[0]] + xs[1..];
      if p(xs[0]) then [xs[0]] + rest else rest
  }

  /** `Array.prototype.map`: `f` applied to every element, in order. */
  function Map<T, U>(xs: seq<T>, f: T -> U): (r: seq<U>)
    ensures |r| == |xs|
    ensures forall k :: 0 <= k < |xs| ==> r[k] == f(xs[k])
  {
    seq(|xs|, k requires 0 <= k < |xs| => f(xs[k]))
  }

  /** Mapping distributes over concatenation. */
  lemma MapAppend<T, U>(a: seq<T>, b: seq<T>, f: T -> U)
    ensures Map(a + b, f) == Map(a, f) + Map(b, f)
  {
  }

  /** Filtering keeps the head when it passes, then filters the rest. */
  lemma FilterCons<T(!new)>(xs: seq<T>, p: T -> bool)
    requires |xs| > 0
    ensures Filter(xs, p) == if p(xs[0]) then [xs[0]] + Filter(xs[1..], p) else Filter(xs[1..], p)
  {
  }

  /** Mapping a filtered sequence: the head, when it passes, then the mapped rest. */
  lemma MapFilterCons<T(!new), U>(xs: seq<T>, p: T -> bool, f: T -> U)
    requires |xs| > 0
    ensures Map(Filter(xs, p), f) == if p(xs[0]) then [f(xs[0])] + Map(Filter(xs[1..], p), f) else Map(Filter(xs[1..], p), f)
  {
    var tail := Filter(xs[1..], p);
    FilterCons(xs, p);
    if p(xs[0]) {
      MapAppend([xs[0]], tail, f);
      assert Map([xs[0]], f) == [f(xs[0])];
    }
  }

  /** Mapping with one more element in the middle adds its image once. */
  lemma MapInsert<T, U>(p: seq<T>, x: T, q: seq<T>, f: T -> U)
    ensures multiset(Map(p + ([x] + q), f)) == multiset(Map(p + q, f)) + multiset{f(x)}
  {
    MapAppend(p, [x] + q, f);
    MapAppend([x], q, f);
    MapAppend(p, q, f);
    assert Map([x], f) == [f(x)];
  }

  /** A sequence around its element at `j`; dropping that element removes one occurrence. */
  lemma SplitAt<T>(b: seq<T>, j: nat)
    requires j < |b|
    ensures b == b[..j] + ([b[j]] + b[j + 1..])
    ensures multiset(b[..j] + b[j + 1..]) == multiset(b) - multiset{b[j]}
  {
    assert b == b[..j] + [b[j]] + b[j + 1..];
  }

  /** Mapping a reordering gives a reordering of the mapped sequence. */
  lemma {:induction false} MapPermute<T, U>(a: seq<T>, b: seq<T>, f: T -> U)
    requires multiset(a) == multiset(b)
    ensures multiset(Map(a, f)) == multiset(Map(b, f))
    decreases |a|
  {
    if |a| == 0 {
      assert |b| == |multiset(b)| == 0;
    } else {
      assert a[0] in multiset(b);
      var j :| 0 <= j < |b| && b[j] == a[0];
      SplitAt(a, 0);
      SplitAt(b, j);
      MapPermute(a[..0] + a[1..], b[..j] + b[j + 1..], f);
      MapInsert(a[..0], a[0], a[1..], f);
      MapInsert(b[..j], b[j], b[j + 1..], f);
    }
  }

  /** `a` may come before `b` when ordering by `k1` descending, then `k2` descending. */
  predicate NoLater<T>(a: T, b: T, k1: T -> int, k2: T -> int) {
    k1(a) > k1(b) || (k1(a) == k1(b) && k2(a) >= k2(b))
  }

  /** Ordered by `k1` descending, ties by `k2` descending. */
  predicate SortedDesc<T>(xs: seq<T>, k1: T -> int, k2: T -> int) {
    forall i, j :: 0 <= i < j < |xs| ==> NoLater(xs[i], xs[j], k1, k2)
  }

  /** Inserts `x` after every element it does not strictly precede. */
  function Insert<T>(x: T, xs: seq<T>, k1: T -> int, k2: T -> int): (r: seq<T>)
    ensures multiset(r) == multiset(xs) + multiset{x}
  {
    if |xs| == 0 then [x]
    else if !NoLater(xs[0], x, k1, k2) then [x] + xs
    else
      assert xs == [xs[0]] + xs[1..];
      [xs[0]] + Insert(x, xs[1..], k1, k2)
  }

  /** Inserting into a sorted sequence keeps it sorted. */
  lemma {:induction false} InsertSorted<T>(x: T, xs: seq<T>, k1: T -> int, k2: T -> int)
    requires SortedDesc(xs, k1, k2)
    ensures SortedDesc(Insert(x, xs, k1, k2), k1, k2)
  {
    if |xs| == 0 {
    } else if !NoLater(xs[0], x, k1, k2) {
      assert forall j :: 0 < j < |xs| ==> NoLater(xs[0], xs[j], k1, k2);
    } else {
      var tail := xs[1..];
      var rest := Insert(x, tail, k1, k2);
      InsertSorted(x, tail, k1, k2);
      forall j | 0 <= j < |rest| ensures NoLater(xs[0], rest[j], k1, k2) {
        assert rest[j] in multiset(rest);
        if rest[j] != x {
          assert rest[j] in multiset(tail);
          var i :| 0 <= i < |tail| && tail[i] == rest[j];
          assert xs[i + 1] == rest[j];
        }
      }
      assert Insert(x, xs, k1, k2) == [xs[0]] + rest;
    }
  }

  /** A stable insertion sort: descending by `k1`, ties descending by `k2`, equal keys in input order. */
  function SortDesc<T>(xs: seq<T>, k1: T -> int, k2: T -> int): (r: seq<T>)
    ensures multiset(r) == multiset(xs)
    ensures |r| == |xs|
    ensures SortedDesc(r, k1, k2)
  {
    if |xs| == 0 then []
    else
      var init := xs[..|xs| - 1];
      assert xs == init + [xs[|xs| - 1]];
      var sorted := SortDesc(init, k1, k2);
      InsertSorted(xs[|xs| - 1], sorted, k1, k2);
      var r := Insert(xs[|xs| - 1], sorted, k1, k2);
      assert |r| == |multiset(r)|;
      r
  }
  /** `[x]` when `x` has keys `a` and `b`, otherwise nothing. */
  function Pick<T>(x: T, k1: T -> int, k2: T -> int, a: int, b: int): seq<T> {
    if k1(x) == a && k2(x) == b then [x] else []
  }

  /** The elements whose keys are exactly `a` and `b`, in order: the ties a stable sort keeps in place. */
  function WithKeys<T>(xs: seq<T>, k1: T -> int, k2: T -> int, a: int, b: int): seq<T> {
    if |xs| == 0 then [] else Pick(xs[0], k1, k2, a, b) + WithKeys(xs[1..], k1, k2, a, b)
  }

  /** Selecting ties distributes over concatenation. */
  lemma {:induction false} WithKeysAppend<T>(xs: seq<T>, ys: seq<T>, k1: T -> int, k2: T -> int, a: int, b: int)
    ensures WithKeys(xs + ys, k1, k2, a, b) == WithKeys(xs, k1, k2, a, b) + WithKeys(ys, k1, k2, a, b)
  {
    if |xs| == 0 {
      assert xs + ys == ys;
    } else {
      assert (xs + ys)[1..] == xs[1..] + ys;
      WithKeysAppend(xs[1..], ys, k1, k2, a, b);
    }
  }

  /** Selecting from `[x] + xs`. */
  lemma WithKeysCons<T>(x: T, xs: seq<T>, k1: T -> int, k2: T -> int, a: int, b: int)
    ensures WithKeys([x] + xs, k1, k2, a, b) == Pick(x, k1, k2, a, b) + WithKeys(xs, k1, k2, a, b)
  {
    assert ([x] + xs)[1..] == xs;
  }

  /** Selecting from `xs + [x]`. */
  lemma WithKeysSnoc<T>(xs: seq<T>, x: T, k1: T -> int, k2: T -> int, a: int, b: int)
    ensures WithKeys(xs + [x], k1, k2, a, b) == WithKeys(xs, k1, k2, a, b) + Pick(x, k1, k2, a, b)
  {
    WithKeysAppend(xs, [x], k1, k2, a, b);
    WithKeysCons(x, [], k1, k2, a, b);
    assert [x] + [] == [x];
  }

  /** No element of `xs` has keys `a` and `b`. */
  lemma {:induction false} WithKeysNone<T>(xs: seq<T>, k1: T -> int, k2: T -> int, a: int, b: int)
    requires forall j :: 0 <= j < |xs| ==> !(k1(xs[j]) == a && k2(xs[j]) == b)
    ensures WithKeys(xs, k1, k2, a, b) == []
  {
    if |xs| > 0 {
      WithKeysNone(xs[1..], k1, k2, a, b);
    }
  }

  /** When `x` strictly precedes the head of a sorted sequence, no element there shares its keys. */
  lemma InsertFirstStable<T>(x: T, xs: seq<T>, k1: T -> int, k2: T -> int, a: int, b: int)
    requires SortedDesc(xs, k1, k2) && |xs| > 0 && !NoLater(xs[0], x, k1, k2)
    ensures WithKeys([x] + xs, k1, k2, a, b) == WithKeys(xs + [x], k1, k2, a, b)
  {
    WithKeysCons(x, xs, k1, k2, a, b);
    WithKeysSnoc(xs, x, k1, k2, a, b);
    if k1(x) == a && k2(x) == b {
      assert forall j :: 0 < j < |xs| ==> NoLater(xs[0], xs[j], k1, k2);
      WithKeysNone(xs, k1, k2, a, b);
    }
  }

  /** Inserting into a sorted sequence puts `x` after every element with its keys. */
  lemma {:induction false} InsertStable<T>(x: T, xs: seq<T>, k1: T -> int, k2: T -> int, a: int, b: int)
    requires SortedDesc(xs, k1, k2)
    ensures WithKeys(Insert(x, xs, k1, k2), k1, k2, a, b) == WithKeys(xs + [x], k1, k2, a, b)
  {
    if |xs| == 0 {
      assert xs + [x] == [x];
    } else if !NoLater(xs[0], x, k1, k2) {
      InsertFirstStable(x, xs, k1, k2, a, b);
    } else {
      var tail := xs[1..];
      var p := Pick(xs[0], k1, k2, a, b);
      assert SortedDesc(tail, k1, k2);
      InsertStable(x, tail, k1, k2, a, b);
      WithKeysCons(xs[0], Insert(x, tail, k1, k2), k1, k2, a, b);
      WithKeysSnoc(tail, x, k1, k2, a, b);
      WithKeysSnoc(xs, x, k1, k2, a, b);
      assert WithKeys(xs, k1, k2, a, b) == p + WithKeys(tail, k1, k2, a, b);
      assert p + (WithKeys(tail, k1, k2, a, b) + Pick(x, k1, k2, a, b))
          == (p + WithKeys(tail, k1, k2, a, b)) + Pick(x, k1, k2, a, b);
    }
  }

  /** The sort is stable: the elements sharing both keys come out in their input order. */
  lemma {:induction false} SortDescStable<T>(xs: seq<T>, k1: T -> int, k2: T -> int, a: int, b: int)
    ensures WithKeys(SortDesc(xs, k1, k2), k1, k2, a, b) == WithKeys(xs, k1, k2, a, b)
  {
    if |xs| > 0 {
      var init := xs[..|xs| - 1];
      var last := xs[|xs| - 1];
      assert xs == init + [last];
      SortDescStable(init, k1, k2, a, b);
      InsertStable(last, SortDesc(init, k1, k2), k1, k2, a, b);
      WithKeysSnoc(SortDesc(init, k1, k2), last, k1, k2, a, b);
      WithKeysSnoc(init, last, k1, k2, a, b);
    }
  }
}
