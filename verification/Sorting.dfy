/** Rust's slice sorts. `Sort` is stable, so it stands for both `sort_by` and any
    outcome of `sort_unstable` on elements that the order tells apart. */
module Sorting {
  import opened Machine

  ghost predicate TotalPreorder<T(!new)>(le: (T, T) -> bool) {
    && (forall x, y :: le(x, y) || le(y, x))
    && (forall x, y, z :: le(x, y) && le(y, z) ==> le(x, z))
  }

  ghost predicate SortedBy<T>(le: (T, T) -> bool, xs: seq<T>) {
    forall i, j :: 0 <= i < j < |xs| ==> le(xs[i], xs[j])
  }

  function Insert<T>(le: (T, T) -> bool, x: T, xs: seq<T>): seq<T> {
    if xs == [] || le(x, xs[0]) then [x] + xs
    else [xs[0]] + Insert(le, x, xs[1..])
  }

  function Sort<T>(le: (T, T) -> bool, xs: seq<T>): seq<T> {
    if xs == [] then [] else Insert(le, xs[0], Sort(le, xs[1..]))
  }

  lemma {:induction false} InsertPermutes<T>(le: (T, T) -> bool, x: T, xs: seq<T>)
    ensures multiset(Insert(le, x, xs)) == multiset(xs) + multiset{x}
  {
    if xs != [] && !le(x, xs[0]) {
      InsertPermutes(le, x, xs[1..]);
      assert xs == [xs[0]] + xs[1..];
    }
  }

  lemma {:induction false} SortPermutes<T>(le: (T, T) -> bool, xs: seq<T>)
    ensures multiset(Sort(le, xs)) == multiset(xs)
    ensures |Sort(le, xs)| == |xs|
    ensures forall x :: x in Sort(le, xs) <==> x in xs
  {
    if xs != [] {
      SortPermutes(le, xs[1..]);
      InsertPermutes(le, xs[0], Sort(le, xs[1..]));
      assert xs == [xs[0]] + xs[1..];
    }
    SameEntries(Sort(le, xs), xs);
  }

  lemma SameEntries<T>(a: seq<T>, b: seq<T>)
    requires multiset(a) == multiset(b)
    ensures |a| == |b|
    ensures forall x :: x in a <==> x in b
  {
    assert |multiset(a)| == |multiset(b)|;
    forall x ensures x in a <==> x in b {
      assert x in a <==> x in multiset(a);
    }
  }

  lemma {:induction false} InsertSorted<T(!new)>(le: (T, T) -> bool, x: T, xs: seq<T>)
    requires TotalPreorder(le) && SortedBy(le, xs)
    ensures SortedBy(le, Insert(le, x, xs))
  {
    if xs != [] && !le(x, xs[0]) {
      InsertSorted(le, x, xs[1..]);
      InsertPermutes(le, x, xs[1..]);
      var r := Insert(le, x, xs[1..]);
      forall y | y in r ensures le(xs[0], y) {
        assert y in multiset(r);
        if y != x {
          assert y in multiset(xs[1..]);
          var j :| 0 <= j < |xs[1..]| && xs[1..][j] == y;
          assert xs[j + 1] == y;
        }
      }
    }
  }

  lemma {:induction false} SortSorts<T(!new)>(le: (T, T) -> bool, xs: seq<T>)
    requires TotalPreorder(le)
    ensures SortedBy(le, Sort(le, xs))
  {
    if xs == [] {
    } else {
      SortSorts(le, xs[1..]);
      InsertSorted(le, xs[0], Sort(le, xs[1..]));
    }
  }

  /** The order tells distinct elements of `xs` apart. */
  ghost predicate Separates<T>(le: (T, T) -> bool, xs: seq<T>) {
    forall x, y :: x in xs && y in xs && le(x, y) && le(y, x) ==> x == y
  }

  lemma SortedHeads<T(!new)>(le: (T, T) -> bool, xs: seq<T>, ys: seq<T>)
    requires SortedBy(le, xs) && SortedBy(le, ys) && multiset(xs) == multiset(ys)
    requires Separates(le, xs) && xs != [] && ys != []
    ensures xs[0] == ys[0]
  {
    var x, y := xs[0], ys[0];
    assert y in multiset(xs) && x in multiset(ys);
    var i :| 0 <= i < |xs| && xs[i] == y;
    var j :| 0 <= j < |ys| && ys[j] == x;
    assert i == 0 || le(x, y);
    assert j == 0 || le(y, x);
  }

  lemma HeadAndTail<T>(xs: seq<T>)
    requires xs != []
    ensures xs == [xs[0]] + xs[1..]
    ensures multiset(xs[1..]) == multiset(xs) - multiset{xs[0]}
    ensures forall x :: x in xs[1..] ==> x in xs
  {
    assert xs == [xs[0]] + xs[1..];
  }

  /** Two sorted arrangements of the same elements are equal when the order separates
      distinct elements. */
  lemma {:induction false} SortedUnique<T(!new)>(le: (T, T) -> bool, xs: seq<T>, ys: seq<T>)
    requires SortedBy(le, xs) && SortedBy(le, ys) && multiset(xs) == multiset(ys)
    requires Separates(le, xs)
    ensures xs == ys
  {
    assert |multiset(xs)| == |xs| && |multiset(ys)| == |ys|;
    if xs == [] {
    } else {
      SortedHeads(le, xs, ys);
      HeadAndTail(xs);
      HeadAndTail(ys);
      SortedUnique(le, xs[1..], ys[1..]);
    }
  }

  /** Sorting forgets the input order. */
  lemma SortForgetsOrder<T(!new)>(le: (T, T) -> bool, xs: seq<T>, ys: seq<T>)
    requires TotalPreorder(le) && multiset(xs) == multiset(ys)
    requires Separates(le, xs)
    ensures Sort(le, xs) == Sort(le, ys)
  {
    SortSorts(le, xs);
    SortSorts(le, ys);
    SortPermutes(le, xs);
    SortPermutes(le, ys);
    SortedUnique(le, Sort(le, xs), Sort(le, ys));
  }

  // ----- sorted, duplicate-free position lists -----

  predicate StrictlySorted(v: seq<int>) {
    forall i, j :: 0 <= i < j < |v| ==> v[i] < v[j]
  }

  function Elems(v: seq<int>): set<int> {
    set x | x in v
  }

  const INT_LE: (int, int) -> bool := (x, y) => x <= y

  /** Drop every element equal to its predecessor. */
  function Dedup<T(==)>(v: seq<T>): seq<T> {
    if |v| < 2 then v
    else if v[0] == v[1] then Dedup(v[1..])
    else [v[0]] + Dedup(v[1..])
  }

  function SortDedup(v: seq<u8>): seq<u8> {
    SortDedupStaysU8(v);
    Dedup<int>(Sort<int>(INT_LE, v))
  }

  lemma {:induction false} DedupKeepsElements<T>(v: seq<T>)
    ensures forall x :: x in Dedup(v) <==> x in v
    ensures v != [] ==> Dedup(v) != [] && Dedup(v)[0] == v[0]
  {
    if |v| < 2 {
    } else {
      DedupKeepsElements(v[1..]);
      assert v == [v[0]] + v[1..];
    }
  }

  lemma SortDedupStaysU8(v: seq<u8>)
    ensures forall i :: 0 <= i < |Dedup<int>(Sort<int>(INT_LE, v))| ==> 0 <= Dedup<int>(Sort<int>(INT_LE, v))[i] < 256
  {
    SortPermutes<int>(INT_LE, v);
    DedupKeepsElements<int>(Sort<int>(INT_LE, v));
    var r := Dedup<int>(Sort<int>(INT_LE, v));
    forall i | 0 <= i < |r| ensures 0 <= r[i] < 256 {
      assert r[i] in r;
    }
  }

  lemma {:induction false} DedupStrict(v: seq<int>)
    requires SortedBy(INT_LE, v)
    ensures StrictlySorted(Dedup(v))
  {
    if |v| < 2 {
    } else {
      DedupStrict(v[1..]);
      DedupKeepsElements(v[1..]);
      if v[0] != v[1] {
        forall x | x in Dedup(v[1..]) ensures v[0] < x {
          assert x in v[1..];
          assert v[0] < v[1];
        }
      }
    }
  }

  lemma SortDedupCanonical(v: seq<u8>)
    ensures StrictlySorted(SortDedup(v)) && Elems(SortDedup(v)) == Elems(v)
  {
    SortSorts<int>(INT_LE, v);
    SortPermutes<int>(INT_LE, v);
    DedupStrict(Sort<int>(INT_LE, v));
    DedupKeepsElements<int>(Sort<int>(INT_LE, v));
  }

  /** A strictly sorted list has as many entries as distinct elements. */
  lemma {:induction false} StrictSize(v: seq<int>)
    requires StrictlySorted(v)
    ensures |Elems(v)| == |v|
  {
    if v == [] {
    } else {
      var n := |v| - 1;
      StrictSize(v[..n]);
      assert Elems(v) == Elems(v[..n]) + {v[n]};
    }
  }

  /** A set has one strictly sorted list. */
  lemma {:induction false} StrictUnique(v: seq<int>, w: seq<int>)
    requires StrictlySorted(v) && StrictlySorted(w) && Elems(v) == Elems(w)
    ensures v == w
  {
    StrictSize(v);
    StrictSize(w);
    if v == [] {
    } else {
      var n := |v| - 1;
      assert v[n] in Elems(w) && w[n] in Elems(v);
      assert v[n] == w[n];
      assert Elems(v[..n]) == Elems(v) - {v[n]};
      assert Elems(w[..n]) == Elems(w) - {w[n]};
      StrictUnique(v[..n], w[..n]);
    }
  }

  /** A strictly sorted list is no longer than the span it covers. */
  lemma {:induction false} StrictSpan(v: seq<int>)
    requires StrictlySorted(v) && v != []
    ensures |v| <= v[|v| - 1] - v[0] + 1
  {
    if |v| <= 1 {
    } else {
      StrictSpan(v[..|v| - 1]);
    }
  }
}
