/** The in-memory write buffer (crates/adb-storage/src/memtable.rs). */
module Memtables {
  import opened Values

  function Flatten<T>(batches: seq<seq<T>>): seq<T> {
    if batches == [] then [] else Flatten(batches[..|batches| - 1]) + batches[|batches| - 1]
  }

  lemma FlattenSnoc<T>(batches: seq<seq<T>>, batch: seq<T>)
    ensures Flatten(batches + [batch]) == Flatten(batches) + batch
  {
    assert (batches + [batch])[..|batches|] == batches;
  }

  lemma {:induction false} FlattenConcat<T>(a: seq<seq<T>>, b: seq<seq<T>>)
    ensures Flatten(a + b) == Flatten(a) + Flatten(b)
  {
    if b == [] {
      assert a + b == a;
    } else {
      var n := |b| - 1;
      assert (a + b)[..|a + b| - 1] == a + b[..n];
      FlattenConcat(a, b[..n]);
    }
  }

  lemma FlattenNext<T>(batches: seq<seq<T>>, b: nat)
    requires b < |batches|
    ensures Flatten(batches[..b + 1]) == Flatten(batches[..b]) + batches[b]
  {
    FlattenSnoc(batches[..b], batches[b]);
    assert batches[..b] + [batches[b]] == batches[..b + 1];
  }

  /** Rows of the first `b` batches, then the rest. */
  lemma FlattenSplit<T>(batches: seq<seq<T>>, b: nat)
    requires b <= |batches|
    ensures Flatten(batches) == Flatten(batches[..b]) + Flatten(batches[b..])
  {
    FlattenConcat(batches[..b], batches[b..]);
    assert batches == batches[..b] + batches[b..];
  }

  class Memtable {
    var batches: seq<seq<Row>>
    var rows: nat

    ghost predicate Valid()
      reads this
    {
      rows == |Flatten(batches)| && forall i :: 0 <= i < |batches| ==> batches[i] != []
    }

    /** The buffered rows in arrival order; ordinals index this sequence. */
    ghost function Contents(): seq<Row>
      reads this
    {
      Flatten(batches)
    }

    constructor ()
      ensures Valid() && Contents() == []
    {
      batches, rows := [], 0;
    }

    method Append(batch: seq<Row>)
      requires Valid()
      modifies this
      ensures Valid() && Contents() == old(Contents()) + batch
      ensures batches == if batch == [] then old(batches) else old(batches) + [batch]
    {
      if batch == [] {
        return;
      }
      FlattenSnoc(batches, batch);
      rows := rows + |batch|;
      batches := batches + [batch];
    }

    /** Batches paired with the ordinal each one starts at. */
    method BatchesWithOffsets() returns (out: seq<(nat, seq<Row>)>)
      ensures |out| == |batches|
      ensures forall i :: 0 <= i < |out| ==> out[i] == (|Flatten(batches[..i])|, batches[i])
    {
      out := [];
      var offset := 0;
      for i := 0 to |batches|
        invariant |out| == i && offset == |Flatten(batches[..i])|
        invariant forall j :: 0 <= j < i ==> out[j] == (|Flatten(batches[..j])|, batches[j])
      {
        out := out + [(offset, batches[i])];
        FlattenNext(batches, i);
        offset := offset + |batches[i]|;
      }
    }

    /** Resolves an ordinal to a batch and a row in it; nothing when it is past the end. */
    method Locate(ordinal: nat) returns (r: Option<(nat, nat)>)
      requires Valid()
      ensures r == None <==> ordinal >= rows
      ensures r.Some? ==>
                var (b, i) := r.value;
                b < |batches| && i < |batches[b]| && ordinal == |Flatten(batches[..b])| + i
                && batches[b][i] == Contents()[ordinal]
    {
      var start := 0;
      for idx := 0 to |batches|
        invariant start == |Flatten(batches[..idx])| <= ordinal
      {
        FlattenNext(batches, idx);
        FlattenSplit(batches, idx + 1);
        var end := start + |batches[idx]|;
        if ordinal < end {
          return Some((idx, ordinal - start));
        }
        start := end;
      }
      assert batches[..|batches|] == batches;
      r := None;
    }

    /** Everything buffered as one batch, or nothing when empty. */
    method Concat() returns (r: Option<seq<Row>>)
      requires Valid()
      ensures r == if Contents() == [] then None else Some(Contents())
    {
      if |batches| == 0 {
        return None;
      }
      FlattenNext(batches, 0);
      FlattenSplit(batches, 1);
      var all := batches[0];
      for i := 1 to |batches|
        invariant all == Flatten(batches[..i])
      {
        FlattenNext(batches, i);
        all := all + batches[i];
      }
      assert batches[..|batches|] == batches;
      r := Some(all);
    }

    method Clear()
      modifies this
      ensures Valid() && Contents() == []
    {
      batches, rows := [], 0;
    }
  }
}
