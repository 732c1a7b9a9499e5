/** Gap-hours of one day and their incremental forms (score.rs). */
module Gaps {
  import opened Machine
  import opened Collections
  import opened Sorting

  // ----- the reference: which ordinals are missing -----

  ghost predicate HasBelow(s: set<int>, q: int) {
    exists a :: a in s && a < q
  }

  ghost predicate HasAbove(s: set<int>, q: int) {
    exists b :: b in s && q < b
  }

  /** The ordinals strictly between the first and last occupied one that are free. */
  ghost function Missing(s: set<int>): set<int> {
    set q | q in Interval(0, 256) && q !in s && HasBelow(s, q) && HasAbove(s, q)
  }

  /** A day has at most 254 gaps: neither 0 nor 255 lies between two positions. */
  lemma MissingBound(s: set<int>)
    requires forall q :: q in s ==> 0 <= q < 256
    ensures |Missing(s)| <= 254
  {
    SubsetSize(Missing(s), Interval(1, 255));
    IntervalSize(1, 255);
  }

  // ----- gap_count -----

  function GapCount(positions: seq<u8>): (gaps: u32)
    requires StrictlySorted(positions)
  {
    if |positions| < 2 then 0
    else
      StrictSpan(positions);
      var span: int := positions[|positions| - 1] as int - positions[0] as int;
      span + 1 - |positions|
  }

  lemma MissingAppendAt(t: set<int>, before: int, last: int, q: int)
    requires before in t && forall x :: x in t ==> 0 <= x <= before
    requires before < last < 256
    ensures q in Missing(t + {last}) <==> q in Missing(t) || before < q < last
    ensures q in Missing(t) ==> q < before
  {
    var s := t + {last};
    assert last in s && before in s;
    assert HasAbove(t, q) <==> q < before;
    assert HasAbove(s, q) <==> q < last;
    if q <= last {
      assert HasBelow(s, q) <==> HasBelow(t, q);
    }
    if before < q {
      assert HasBelow(t, q);
    }
  }

  lemma MissingSplits(t: set<int>, before: int, last: int)
    requires before in t && forall x :: x in t ==> 0 <= x <= before
    requires before < last < 256
    ensures Missing(t + {last}) == Missing(t) + Interval(before + 1, last)
    ensures Missing(t) !! Interval(before + 1, last)
  {
    forall q ensures q in Missing(t + {last}) <==> q in Missing(t) || before < q < last
      ensures q in Missing(t) ==> q < before
    {
      MissingAppendAt(t, before, last, q);
    }
  }

  /** Appending a new last ordinal adds exactly the ordinals it jumps over. */
  lemma MissingAfterAppend(t: set<int>, before: int, last: int)
    requires before in t && forall x :: x in t ==> 0 <= x <= before
    requires before < last < 256
    ensures |Missing(t + {last})| == |Missing(t)| + (last - before - 1)
  {
    IntervalSize(before + 1, last);
    MissingSplits(t, before, last);
    DisjointSize(Missing(t), Interval(before + 1, last));
  }

  lemma LastIsGreatest(v: seq<u8>)
    requires StrictlySorted(v) && v != []
    ensures v[|v| - 1] as int in Elems(v)
    ensures forall x :: x in Elems(v) ==> 0 <= x <= v[|v| - 1]
  {}

  lemma NothingBetween(positions: seq<u8>)
    requires |positions| < 2
    ensures Missing(Elems(positions)) == {}
  {}

  lemma {:induction false} GapCountCountsMissing(positions: seq<u8>)
    requires StrictlySorted(positions)
    ensures GapCount(positions) == |Missing(Elems(positions))|
  {
    if |positions| < 2 {
      NothingBetween(positions);
    } else {
      var n := |positions| - 1;
      var front := positions[..n];
      GapCountCountsMissing(front);
      assert Elems(positions) == Elems(front) + {positions[n] as int};
      LastIsGreatest(front);
      MissingAfterAppend(Elems(front), front[n - 1], positions[n]);
    }
  }

  // ----- gap_count_after_insert, gap_count_after_remove -----

  function GapCountAfterInsert(positions: Option<seq<u8>>, pos: u8): (gaps: u32)
    requires positions.Some? ==> StrictlySorted(positions.value)
  {
    if positions.None? || positions.value == [] then 0
    else
      var v := positions.value;
      var lenAfter := if pos in v then |v| else |v| + 1;
      if lenAfter < 2 then 0
      else
        var newMin, newMax := Min(v[0], pos), Max(v[|v| - 1], pos);
        InsertSpan(v, pos);
        newMax - newMin + 1 - lenAfter
  }

  function GapCountAfterRemove(positions: seq<u8>, pos: u8): (gaps: u32)
    requires StrictlySorted(positions)
  {
    if pos !in positions then GapCount(positions)
    else
      var n := |positions|;
      if n - 1 < 2 then 0
      else
        RemoveSpan(positions, pos);
        var newFirst := if positions[0] == pos then positions[1] else positions[0];
        var newLast := if positions[n - 1] == pos then positions[n - 2] else positions[n - 1];
        newLast as int - newFirst as int + 1 - (n - 1)
  }

  /** The span after an insertion holds every entry: the u32 subtraction is safe. */
  lemma InsertSpan(v: seq<u8>, pos: u8)
    requires StrictlySorted(v) && v != []
    ensures (if pos in v then |v| else |v| + 1) <= Max(v[|v| - 1], pos) - Min(v[0], pos) + 1
  {
    var w := SortDedup(v + [pos]);
    InsertIsCanonical(v, pos);
    InsertedList(v, pos, w);
    StrictSpan(w);
  }

  lemma RemoveSpan(v: seq<u8>, pos: u8)
    requires StrictlySorted(v) && pos in v && |v| >= 3
    ensures var n := |v|;
            var first, last := if v[0] == pos then v[1] else v[0], if v[n - 1] == pos then v[n - 2] else v[n - 1];
            n - 1 <= last as int - first as int + 1
  {
    var n := |v|;
    if v[0] == pos {
      StrictSpan(v[1..]);
    } else if v[n - 1] == pos {
      StrictSpan(v[..n - 1]);
    } else {
      StrictSpan(v);
    }
  }

  lemma EndsAreExtreme(w: seq<int>, x: int)
    requires StrictlySorted(w) && x in Elems(w)
    ensures w != [] && w[0] <= x <= w[|w| - 1]
  {}

  lemma InsertIsCanonical(v: seq<u8>, pos: u8)
    ensures StrictlySorted(SortDedup(v + [pos])) && Elems(SortDedup(v + [pos])) == Elems(v) + {pos as int}
  {
    SortDedupCanonical(v + [pos]);
    assert Elems(v + [pos]) == Elems(v) + {pos as int};
  }

  /** First entry, last entry and length of the list that holds `v`'s entries and `pos`. */
  lemma InsertedList(v: seq<u8>, pos: u8, w: seq<u8>)
    requires StrictlySorted(v) && v != []
    requires StrictlySorted(w) && Elems(w) == Elems(v) + {pos as int}
    ensures w != []
    ensures w[0] == Min(v[0], pos) && w[|w| - 1] == Max(v[|v| - 1], pos)
    ensures |w| == if pos in v then |v| else |v| + 1
  {
    EndsAreExtreme(w, pos);
    EndsAreExtreme(w, v[0]);
    EndsAreExtreme(w, v[|v| - 1]);
    assert w[0] in Elems(w) && w[|w| - 1] in Elems(w);
    if w[0] != pos { EndsAreExtreme(v, w[0]); }
    if w[|w| - 1] != pos { EndsAreExtreme(v, w[|w| - 1]); }
    StrictSize(v);
    StrictSize(w);
    assert pos in v <==> pos as int in Elems(v);
    if pos in v {
      assert Elems(w) == Elems(v);
    }
  }

  /** The insert form equals a recount of the list with `pos` inserted. */
  lemma GapAfterInsertExact(v: seq<u8>, pos: u8, w: seq<u8>)
    requires StrictlySorted(v) && StrictlySorted(w) && Elems(w) == Elems(v) + {pos as int}
    ensures GapCountAfterInsert(Some(v), pos) == GapCount(w)
    ensures v == [] ==> GapCountAfterInsert(None, pos) == GapCount(w)
  {
    if v == [] {
      StrictSize(w);
      assert Elems(w) == {pos as int};
    } else {
      InsertedList(v, pos, w);
    }
  }

  /** The remove form equals a recount of the list with `pos` removed. */
  lemma GapAfterRemoveExact(v: seq<u8>, pos: u8, w: seq<u8>)
    requires StrictlySorted(v) && StrictlySorted(w) && Elems(w) == Elems(v) - {pos as int}
    ensures GapCountAfterRemove(v, pos) == GapCount(w)
  {
    if pos !in v {
      assert Elems(w) == Elems(v);
      StrictUnique(v, w);
    } else {
      var i :| 0 <= i < |v| && v[i] == pos;
      CutOut(v, i);
      StrictUnique(v[..i] + v[i + 1..], w);
    }
  }

  lemma CutOut(v: seq<int>, i: nat)
    requires StrictlySorted(v) && i < |v|
    ensures StrictlySorted(v[..i] + v[i + 1..])
    ensures Elems(v[..i] + v[i + 1..]) == Elems(v) - {v[i]}
  {
    var u := v[..i] + v[i + 1..];
    forall x | x in v && x != v[i] ensures x in u {
      var j :| 0 <= j < |v| && v[j] == x;
      if j < i { assert u[j] == x; } else { assert u[j - 1] == x; }
    }
  }

  // ----- whole runs of day edits -----

  datatype DayEdit = Insert(pos: u8) | Remove(pos: u8)

  function EditList(v: seq<u8>, e: DayEdit): seq<u8> {
    match e
    case Insert(p) => SortDedup(v + [p])
    case Remove(p) => Without(v, p)
  }

  function Without(v: seq<u8>, p: u8): seq<u8> {
    if v == [] then []
    else if v[0] == p then Without(v[1..], p)
    else [v[0]] + Without(v[1..], p)
  }

  lemma PrependStrict(x: int, v: seq<int>)
    requires StrictlySorted(v) && forall y :: y in v ==> x < y
    ensures StrictlySorted([x] + v)
  {
    forall i | 0 <= i < |v| ensures x < v[i] {
      assert v[i] in v;
    }
  }

  lemma {:induction false} WithoutExact(v: seq<u8>, p: u8)
    requires StrictlySorted(v)
    ensures StrictlySorted(Without(v, p)) && Elems(Without(v, p)) == Elems(v) - {p as int}
  {
    if v == [] {
    } else {
      WithoutExact(v[1..], p);
      assert v == [v[0]] + v[1..];
      assert Elems(v) == {v[0] as int} + Elems(v[1..]);
      forall x: int | x in Without(v[1..], p) ensures v[0] < x {
        assert x in Elems(Without(v[1..], p));
        assert x in Elems(v[1..]);
      }
      if v[0] != p {
        assert Elems(Without(v, p)) == {v[0] as int} + Elems(Without(v[1..], p));
        PrependStrict(v[0], Without(v[1..], p));
      }
    }
  }

  /** The list after all edits. */
  function EditAll(v: seq<u8>, edits: seq<DayEdit>): seq<u8> {
    if edits == [] then v
    else EditList(EditAll(v, edits[..|edits| - 1]), edits[|edits| - 1])
  }

  /** The occupied positions after all edits, on plain sets. */
  ghost function EditedSet(s: set<int>, edits: seq<DayEdit>): set<int> {
    if edits == [] then s
    else
      var t := EditedSet(s, edits[..|edits| - 1]);
      match edits[|edits| - 1]
      case Insert(p) => t + {p as int}
      case Remove(p) => t - {p as int}
  }

  lemma {:induction false} EditAllTracksSet(v: seq<u8>, edits: seq<DayEdit>)
    requires StrictlySorted(v)
    ensures StrictlySorted(EditAll(v, edits))
    ensures Elems(EditAll(v, edits)) == EditedSet(Elems(v), edits)
  {
    if edits == [] {
    } else {
      var n := |edits| - 1;
      EditAllTracksSet(v, edits[..n]);
      var u := EditAll(v, edits[..n]);
      match edits[n]
      case Insert(p) =>
        InsertIsCanonical(u, p);
      case Remove(p) =>
        WithoutExact(u, p);
    }
  }

  /** What one edit adds to the running gap total, read off the incremental helper. */
  function EditDelta(v: seq<u8>, e: DayEdit): int
    requires StrictlySorted(v)
  {
    (match e
     case Insert(p) => GapCountAfterInsert(if v == [] then None else Some(v), p)
     case Remove(p) => GapCountAfterRemove(v, p)) - GapCount(v) as int
  }

  function AccumulatedDelta(v: seq<u8>, edits: seq<DayEdit>): int
    requires StrictlySorted(v)
  {
    if edits == [] then 0
    else
      var front := edits[..|edits| - 1];
      EditAllTracksSet(v, front);
      AccumulatedDelta(v, front) + EditDelta(EditAll(v, front), edits[|edits| - 1])
  }

  lemma EditDeltaExact(v: seq<u8>, e: DayEdit)
    requires StrictlySorted(v)
    ensures StrictlySorted(EditList(v, e))
    ensures GapCount(v) + EditDelta(v, e) == GapCount(EditList(v, e))
  {
    match e
    case Insert(p) =>
      InsertIsCanonical(v, p);
      GapAfterInsertExact(v, p, EditList(v, e));
    case Remove(p) =>
      WithoutExact(v, p);
      GapAfterRemoveExact(v, p, EditList(v, e));
  }

  /** Over any run of inserts and removes, the accumulated helper deltas land on the number
      of missing ordinals of the final occupied set. */
  lemma {:induction false} RunOfEditsKeepsGapTotal(v: seq<u8>, edits: seq<DayEdit>)
    requires StrictlySorted(v)
    ensures StrictlySorted(EditAll(v, edits))
    ensures GapCount(v) + AccumulatedDelta(v, edits) == |Missing(EditedSet(Elems(v), edits))|
  {
    RunOfEditsRecounts(v, edits);
    GapCountCountsMissing(EditAll(v, edits));
  }

  lemma {:induction false} RunOfEditsRecounts(v: seq<u8>, edits: seq<DayEdit>)
    requires StrictlySorted(v)
    ensures StrictlySorted(EditAll(v, edits)) && Elems(EditAll(v, edits)) == EditedSet(Elems(v), edits)
    ensures GapCount(v) + AccumulatedDelta(v, edits) == GapCount(EditAll(v, edits))
  {
    EditAllTracksSet(v, edits);
    if edits == [] {
    } else {
      var n := |edits| - 1;
      RunOfEditsRecounts(v, edits[..n]);
      EditDeltaExact(EditAll(v, edits[..n]), edits[n]);
    }
  }
}
