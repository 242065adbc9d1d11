/** Removing repeats while keeping the order of first occurrence. */
module Dedupes {
  function Dedupe<T(==)>(values: seq<T>): seq<T> {
    if values == [] then []
    else
      var front, last := Dedupe(values[..|values| - 1]), values[|values| - 1];
      if last in front then front else front + [last]
  }

  /** Keeps exactly the values, each once. */
  lemma {:induction false} DedupeContents<T>(values: seq<T>)
    ensures forall x :: x in Dedupe(values) <==> x in values
    ensures forall i, j :: 0 <= i < j < |Dedupe(values)| ==> Dedupe(values)[i] != Dedupe(values)[j]
  {
    if values != [] {
      DedupeContents(values[..|values| - 1]);
      assert values == values[..|values| - 1] + [values[|values| - 1]];
    }
  }

  /** In the order of first occurrence: of two values kept, the earlier one occurs before the later one does. */
  lemma {:induction false} DedupeOrder<T>(values: seq<T>, i: nat, j: nat)
    requires i < j < |Dedupe(values)|
    ensures exists k :: 0 <= k < |values| && values[k] == Dedupe(values)[i] && Dedupe(values)[j] !in values[..k + 1]
  {
    var front, last := values[..|values| - 1], values[|values| - 1];
    assert forall k :: 0 <= k < |front| ==> front[k] == values[k] && front[..k + 1] == values[..k + 1];
    if j < |Dedupe(front)| {
      DedupeOrder(front, i, j);
      var k :| 0 <= k < |front| && front[k] == Dedupe(front)[i] && Dedupe(front)[j] !in front[..k + 1];
      assert values[k] == Dedupe(values)[i];
    } else {
      var x := Dedupe(front)[i];
      assert x in Dedupe(front);
      DedupeHolds(front, x);
      var k :| 0 <= k < |front| && front[k] == x;
      assert values[k] == Dedupe(values)[i];
      DedupeHolds(front, last);
    }
  }

  method DedupeLoop<T(==)>(values: seq<T>) returns (deduped: seq<T>)
    ensures deduped == Dedupe(values)
  {
    deduped := [];
    var seen: set<T> := {};
    for i := 0 to |values|
      invariant deduped == Dedupe(values[..i])
      invariant forall x :: x in seen <==> x in deduped
    {
      assert values[..i + 1][..i] == values[..i];
      if values[i] !in seen {
        deduped := deduped + [values[i]];
        seen := seen + {values[i]};
      }
    }
    assert values[..|values|] == values;
  }

  /** A sequence without repeats is left alone. */
  lemma {:induction false} DedupeDistinct<T>(values: seq<T>)
    requires forall i, j :: 0 <= i < j < |values| ==> values[i] != values[j]
    ensures Dedupe(values) == values
  {
    if values != [] {
      DedupeDistinct(values[..|values| - 1]);
      assert values == values[..|values| - 1] + [values[|values| - 1]];
    }
  }

  lemma DedupeHolds<T>(values: seq<T>, x: T)
    ensures x in Dedupe(values) <==> x in values
  {
    DedupeContents(values);
  }

  lemma DedupeOneMore<T>(values: seq<T>, x: T)
    ensures Dedupe(values + [x]) == if x in values then Dedupe(values) else Dedupe(values) + [x]
  {
    DedupeHolds(values, x);
    assert (values + [x])[..|values|] == values;
  }

  lemma MergeOneMore<T>(a: seq<T>, front: seq<T>, last: T)
    requires Dedupe(a + front) == Dedupe(Dedupe(a) + Dedupe(front))
    ensures Dedupe(a + front + [last]) == Dedupe(Dedupe(a) + Dedupe(front + [last]))
  {
    hide Dedupe;
    DedupeOneMore(a + front, last);
    DedupeOneMore(front, last);
    if last !in front {
      var parts := Dedupe(a) + Dedupe(front);
      DedupeHolds(a, last);
      DedupeHolds(front, last);
      DedupeOneMore(parts, last);
      assert Dedupe(a) + (Dedupe(front) + [last]) == parts + [last];
    }
  }

  /** Parts can be deduplicated before they are put together. */
  lemma {:induction false} DedupeMerge<T>(a: seq<T>, b: seq<T>)
    ensures Dedupe(a + b) == Dedupe(Dedupe(a) + Dedupe(b))
  {
    if b == [] {
      assert a + b == a && Dedupe(a) + Dedupe(b) == Dedupe(a);
      DedupeContents(a);
      DedupeDistinct(Dedupe(a));
    } else {
      hide Dedupe;
      var front, last := b[..|b| - 1], b[|b| - 1];
      DedupeMerge(a, front);
      MergeOneMore(a, front, last);
      assert b == front + [last] && a + b == a + front + [last];
    }
  }
}
