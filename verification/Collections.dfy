/** Sums over maps and sequences, extrema, and lookup tables built by collecting
    a list into a hash map. */
module Collections {

  datatype Option<+T> = None | Some(value: T)

  // ----- lookup tables -----

  /** The table a list is collected into; the last entry for a key wins. */
  function CollectBy<T, K(==)>(xs: seq<T>, key: T -> K): map<K, T> {
    if xs == [] then map[]
    else CollectBy(xs[..|xs| - 1], key)[key(xs[|xs| - 1]) := xs[|xs| - 1]]
  }

  /** No two entries carry the same key. */
  ghost predicate UniqueKeys<T, K>(xs: seq<T>, key: T -> K) {
    forall i, j :: 0 <= i < j < |xs| ==> key(xs[i]) != key(xs[j])
  }

  /** A key is present exactly when some entry carries it, and its value is such an entry. */
  lemma {:induction false} CollectByMember<T, K>(xs: seq<T>, key: T -> K)
    ensures forall x :: x in xs ==> key(x) in CollectBy(xs, key)
    ensures forall k :: k in CollectBy(xs, key) ==> CollectBy(xs, key)[k] in xs && key(CollectBy(xs, key)[k]) == k
  {
    if xs == [] {
    } else {
      var n := |xs| - 1;
      CollectByMember(xs[..n], key);
      assert xs == xs[..n] + [xs[n]];
    }
  }

  /** With unique keys the table sends every entry's key back to that entry. */
  lemma {:induction false} CollectByUnique<T, K>(xs: seq<T>, key: T -> K)
    requires UniqueKeys(xs, key)
    ensures forall x :: x in xs ==> key(x) in CollectBy(xs, key) && CollectBy(xs, key)[key(x)] == x
  {
    if xs == [] {
    } else {
      var n := |xs| - 1;
      CollectByUnique(xs[..n], key);
      assert xs == xs[..n] + [xs[n]];
    }
  }

  /** No later entry carries the same key. */
  ghost predicate IsLast<T, K>(xs: seq<T>, key: T -> K, i: nat) {
    i < |xs| && forall j :: i < j < |xs| ==> key(xs[j]) != key(xs[i])
  }

  /** The table sends a key to the last entry that carries it. */
  lemma {:induction false} CollectByLast<T, K>(xs: seq<T>, key: T -> K, i: nat)
    requires IsLast(xs, key, i)
    ensures key(xs[i]) in CollectBy(xs, key) && CollectBy(xs, key)[key(xs[i])] == xs[i]
  {
    var n := |xs| - 1;
    if i < n {
      assert IsLast(xs[..n], key, i) by {
        assert forall j :: i < j < n ==> xs[..n][j] == xs[j];
      }
      CollectByLast(xs[..n], key, i);
      assert key(xs[n]) != key(xs[i]);
    }
  }

  lemma {:induction false} LastOf<T, K>(xs: seq<T>, key: T -> K, k: K) returns (i: nat)
    requires k in CollectBy(xs, key)
    ensures IsLast(xs, key, i) && key(xs[i]) == k
  {
    var n := |xs| - 1;
    if key(xs[n]) == k {
      i := n;
    } else {
      i := LastOf(xs[..n], key, k);
      assert forall j :: i < j < n ==> xs[..n][j] == xs[j];
      assert forall j :: i < j < |xs| ==> key(xs[j]) != key(xs[i]);
    }
  }

  lemma CollectByStep<T, K>(xs: seq<T>, i: nat, key: T -> K)
    requires i < |xs|
    ensures CollectBy(xs[..i + 1], key) == CollectBy(xs[..i], key)[key(xs[i]) := xs[i]]
  {
    assert xs[..i + 1][..i] == xs[..i];
  }

  /** With unique keys the table does not depend on the order of the list. */
  lemma CollectByPermuted<T, K>(xs: seq<T>, ys: seq<T>, key: T -> K)
    requires UniqueKeys(xs, key) && multiset(xs) == multiset(ys)
    ensures CollectBy(xs, key) == CollectBy(ys, key)
  {
    var a, b := CollectBy(xs, key), CollectBy(ys, key);
    CollectByUnique(xs, key);
    CollectByMember(xs, key);
    CollectByMember(ys, key);
    forall x ensures x in xs <==> x in ys {
      assert x in xs <==> x in multiset(xs);
    }
    forall k ensures k in a <==> k in b {
      if k in a { assert a[k] in ys; }
      if k in b { assert b[k] in xs; }
    }
    forall k | k in b ensures a[k] == b[k] {
      assert b[k] in xs && key(b[k]) == k;
    }
  }

  /** The images of the entries that are kept, in list order. */
  function FilterMap<T, U>(xs: seq<T>, keep: T -> bool, f: T -> U): seq<U> {
    if xs == [] then []
    else
      var front := FilterMap(xs[..|xs| - 1], keep, f);
      if keep(xs[|xs| - 1]) then front + [f(xs[|xs| - 1])] else front
  }

  lemma {:induction false} FilterMapLength<T, U>(xs: seq<T>, keep: T -> bool, f: T -> U)
    ensures |FilterMap(xs, keep, f)| <= |xs|
  {
    if xs == [] {
    } else {
      FilterMapLength(xs[..|xs| - 1], keep, f);
    }
  }

  ghost function KeptIndices<T>(xs: seq<T>, keep: T -> bool): set<nat> {
    set i: nat | i < |xs| && keep(xs[i])
  }

  /** The output holds exactly the images of the kept entries, one for each of them. */
  lemma {:induction false} FilterMapMeaning<T, U>(xs: seq<T>, keep: T -> bool, f: T -> U)
    ensures forall y :: y in FilterMap(xs, keep, f) <==> exists i :: 0 <= i < |xs| && keep(xs[i]) && f(xs[i]) == y
    ensures |FilterMap(xs, keep, f)| == |KeptIndices(xs, keep)|
  {
    var kept := KeptIndices(xs, keep);
    if xs == [] {
      assert kept == {};
    } else {
      var n := |xs| - 1;
      var front := xs[..n];
      FilterMapMeaning(front, keep, f);
      assert forall i :: 0 <= i < n ==> front[i] == xs[i];
      var before := KeptIndices(front, keep);
      if keep(xs[n]) {
        assert kept == before + {n};
      } else {
        assert kept == before;
      }
    }
  }

  lemma {:induction false} FilterMapConcat<T, U>(xs: seq<T>, ys: seq<T>, keep: T -> bool, f: T -> U)
    ensures FilterMap(xs + ys, keep, f) == FilterMap(xs, keep, f) + FilterMap(ys, keep, f)
  {
    if ys == [] {
      assert xs + ys == xs;
    } else {
      var n := |ys| - 1;
      FilterMapConcat(xs, ys[..n], keep, f);
      assert (xs + ys)[..|xs| + n] == xs + ys[..n];
    }
  }

  lemma MultisetWithout<T>(a: seq<T>, x: T, b: seq<T>)
    ensures multiset(a + [x] + b) - multiset{x} == multiset(a + b)
  {}

  lemma SplitAround<T>(ys: seq<T>, x: T) returns (a: seq<T>, b: seq<T>)
    requires x in multiset(ys)
    ensures ys == a + [x] + b
  {
    var j :| 0 <= j < |ys| && ys[j] == x;
    a, b := ys[..j], ys[j + 1..];
  }

  /** Two permutations stay permutations of each other after the same element is taken out. */
  lemma TakeOut<T>(xs: seq<T>, x: T, ys: seq<T>) returns (a: seq<T>, b: seq<T>)
    requires multiset(xs + [x]) == multiset(ys)
    ensures ys == a + [x] + b && multiset(xs) == multiset(a + b)
  {
    a, b := SplitAround(ys, x);
    MultisetWithout(a, x, b);
  }

  lemma FilterMapOne<T, U>(a: seq<T>, x: T, b: seq<T>, keep: T -> bool, f: T -> U)
    ensures multiset(FilterMap(a + [x] + b, keep, f))
         == multiset(FilterMap(a + b, keep, f)) + if keep(x) then multiset{f(x)} else multiset{}
  {
    FilterMapConcat(a, b, keep, f);
    FilterMapConcat(a, [x], keep, f);
    FilterMapConcat(a + [x], b, keep, f);
    assert FilterMap([x], keep, f) == if keep(x) then [f(x)] else [] by { assert [x][..0] == []; }
  }

  /** Permuting the input permutes the output. */
  lemma {:induction false} FilterMapPermuted<T, U>(xs: seq<T>, ys: seq<T>, keep: T -> bool, f: T -> U)
    requires multiset(xs) == multiset(ys)
    ensures multiset(FilterMap(xs, keep, f)) == multiset(FilterMap(ys, keep, f))
  {
    if xs == [] {
      assert |multiset(ys)| == 0;
    } else {
      var n := |xs| - 1;
      assert xs == xs[..n] + [xs[n]];
      var a, b := TakeOut(xs[..n], xs[n], ys);
      FilterMapPermuted(xs[..n], a + b, keep, f);
      FilterMapOne(a, xs[n], b, keep, f);
    }
  }

  /** The image of every entry, in list order. */
  function MapSeq<T, U>(xs: seq<T>, f: T -> U): (r: seq<U>)
    ensures |r| == |xs|
  {
    seq(|xs|, i requires 0 <= i < |xs| => f(xs[i]))
  }

  lemma {:induction false} FilterMapKeepsAll<T, U>(xs: seq<T>, f: T -> U)
    ensures FilterMap(xs, (x: T) => true, f) == MapSeq(xs, f)
  {
    if xs == [] {
    } else {
      FilterMapKeepsAll(xs[..|xs| - 1], f);
    }
  }

  lemma MapPermuted<T, U>(xs: seq<T>, ys: seq<T>, f: T -> U)
    requires multiset(xs) == multiset(ys)
    ensures multiset(MapSeq(xs, f)) == multiset(MapSeq(ys, f))
  {
    FilterMapPermuted(xs, ys, (x: T) => true, f);
    FilterMapKeepsAll(xs, f);
    FilterMapKeepsAll(ys, f);
  }

  // ----- sums -----

  function Sum(xs: seq<nat>): nat {
    if xs == [] then 0 else Sum(xs[..|xs| - 1]) + xs[|xs| - 1]
  }

  lemma SumStep(xs: seq<nat>, i: nat)
    requires i < |xs|
    ensures Sum(xs[..i + 1]) == Sum(xs[..i]) + xs[i]
  {
    assert xs[..i + 1][..i] == xs[..i];
  }

  ghost function MapSum<K>(m: map<K, nat>): nat
    decreases m.Keys
  {
    if m.Keys == {} then 0
    else
      var k :| k in m.Keys;
      m[k] + MapSum(m - {k})
  }

  /** The order in which a hash map is walked does not change its sum. */
  lemma {:induction false} MapSumRemove<K>(m: map<K, nat>, k: K)
    requires k in m
    ensures MapSum(m) == m[k] + MapSum(m - {k})
    decreases m.Keys
  {
    var j :| j in m.Keys && MapSum(m) == m[j] + MapSum(m - {j});
    if j != k {
      MapSumRemove(m - {j}, k);
      MapSumRemove(m - {k}, j);
      assert m - {j} - {k} == m - {k} - {j};
    }
  }

  lemma MapSumInsert<K>(m: map<K, nat>, k: K, n: nat)
    ensures MapSum(m[k := n]) == MapSum(m) - (if k in m then m[k] else 0) + n
  {
    MapSumRemove(m[k := n], k);
    assert m[k := n] - {k} == m - {k};
    if k in m {
      MapSumRemove(m, k);
    } else {
      assert m - {k} == m;
    }
  }

  lemma {:induction false} MapSumBound<K>(m: map<K, nat>, bound: nat)
    requires forall k :: k in m ==> m[k] <= bound
    ensures MapSum(m) <= bound * |m|
    decreases m.Keys
  {
    if m.Keys == {} {
    } else {
      var k :| k in m.Keys;
      MapSumRemove(m, k);
      var rest := m - {k};
      MapSumBound(rest, bound);
      assert |rest| == |m| - 1 by { assert rest.Keys == m.Keys - {k}; }
      ProductStep(bound, |rest|);
    }
  }

  lemma ProductStep(a: nat, n: nat)
    ensures a * (n + 1) == a * n + a
  {}

  lemma {:induction false} MapSumMonotone<K>(a: map<K, nat>, b: map<K, nat>)
    requires a.Keys == b.Keys && forall k :: k in a ==> a[k] <= b[k]
    ensures MapSum(a) <= MapSum(b)
    ensures MapSum(a) == MapSum(b) ==> a == b
    decreases a.Keys
  {
    if a.Keys == {} {
      assert a == b;
    } else {
      var k :| k in a.Keys;
      MapSumRemove(a, k);
      MapSumRemove(b, k);
      MapSumMonotone(a - {k}, b - {k});
      if MapSum(a) == MapSum(b) {
        forall j | j in a ensures a[j] == b[j] {
          if j != k { assert (a - {k})[j] == (b - {k})[j]; }
        }
      }
    }
  }

  // ----- extrema -----

  /** The largest value of a map, 0 when the map is empty. */
  ghost predicate IsMapMax<K>(m: map<K, nat>, r: nat) {
    && (forall k :: k in m ==> m[k] <= r)
    && (r == 0 || exists k :: k in m && m[k] == r)
  }

  lemma MapMaxUnique<K>(m: map<K, nat>, r: nat, s: nat)
    requires IsMapMax(m, r) && IsMapMax(m, s)
    ensures r == s
  {
    assert r == 0 || exists k :: k in m && m[k] == r;
  }

  ghost function MapMax<K>(m: map<K, nat>): (r: nat)
    ensures IsMapMax(m, r)
    decreases m.Keys
  {
    if m.Keys == {} then 0
    else
      var k :| k in m.Keys;
      var rest := MapMax(m - {k});
      assert forall j :: j in m ==> j == k || (m - {k})[j] == m[j];
      if m[k] >= rest then m[k] else rest
  }

  /** The smallest value of a map, 0 when the map is empty. */
  ghost predicate IsMapMin<K>(m: map<K, nat>, r: nat) {
    if m.Keys == {} then r == 0
    else (forall k :: k in m ==> r <= m[k]) && exists k :: k in m && m[k] == r
  }

  ghost function MapMin<K>(m: map<K, nat>): (r: nat)
    ensures IsMapMin(m, r)
    decreases m.Keys
  {
    if m.Keys == {} then 0
    else
      var k :| k in m.Keys;
      var rest := MapMin(m - {k});
      assert forall j :: j in m ==> j == k || (m - {k})[j] == m[j];
      if m.Keys == {k} || m[k] <= rest then m[k] else
        assert (m - {k}).Keys != {};
        rest
  }

  lemma MapMinUnique<K>(m: map<K, nat>, r: nat, s: nat)
    requires IsMapMin(m, r) && IsMapMin(m, s)
    ensures r == s
  {
    if m.Keys != {} {
      assert exists k :: k in m && m[k] == r;
    }
  }

  // ----- counting integers -----

  /** The integers from `lo` up to but not including `hi`. */
  ghost function Interval(lo: int, hi: int): (r: set<int>)
    ensures forall q :: q in r <==> lo <= q < hi
  {
    var listed := seq(if lo <= hi then hi - lo else 0, i => lo + i);
    assert forall q :: q in listed <==> lo <= q < hi by {
      forall q | lo <= q < hi ensures q in listed {
        assert listed[q - lo] == q;
      }
    }
    set q | q in listed
  }

  lemma {:induction false} IntervalSize(lo: int, hi: int)
    requires lo <= hi
    ensures |Interval(lo, hi)| == hi - lo
    decreases hi - lo
  {
    if lo < hi {
      IntervalSize(lo, hi - 1);
      assert Interval(lo, hi) == Interval(lo, hi - 1) + {hi - 1};
    } else {
      assert Interval(lo, hi) == {};
    }
  }

  lemma DisjointSize<T>(a: set<T>, b: set<T>)
    requires a !! b
    ensures |a + b| == |a| + |b|
  {}

  lemma {:induction false} SubsetSize<T>(a: set<T>, b: set<T>)
    requires a <= b
    ensures |a| <= |b|
    ensures |a| == |b| ==> a == b
  {
    assert |b| == |a| + |b - a| by { assert b == a + (b - a); }
    if |a| == |b| {
      assert b - a == {};
    }
  }
}
