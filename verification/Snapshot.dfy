/** Read views of a partition: what a scan sees, and how many rows that is
    (crates/adb-storage/src/table.rs: PartitionSnapshot; crates/adb-exec/src/scan.rs: drop_suppressed). */
module Snapshots {
  import opened Values
  import opened PartitionState
  import opened Rewriting
  import opened Visibility
  import opened SegmentList
  import opened Pruning
  import Buffers = Memtables

  datatype SegmentView = SegmentView(rows: seq<Row>, suppressed: set<nat>, meta: SegmentMeta)

  datatype Snapshot = Snapshot(segments: seq<SegmentView>, memtable: seq<seq<Row>>, memtableSuppressed: set<nat>)

  /** The rows of a batch whose ordinals, counted from `offset`, are not suppressed. */
  function LiveRows(rows: seq<Row>, dead: set<nat>, offset: nat): seq<Row> {
    if rows == [] then []
    else
      var n := |rows| - 1;
      LiveRows(rows[..n], dead, offset) + (if offset + n in dead then [] else [rows[n]])
  }

  /** Live rows of the segments, oldest first. */
  function SegmentsLive(views: seq<SegmentView>): seq<Row> {
    if views == [] then []
    else
      var last := views[|views| - 1];
      SegmentsLive(views[..|views| - 1]) + LiveRows(last.rows, last.suppressed, 0)
  }

  /** Live rows of memtable batches, in arrival order. */
  function BatchesLive(batches: seq<seq<Row>>, dead: set<nat>): seq<Row> {
    if batches == [] then []
    else
      var n := |batches| - 1;
      BatchesLive(batches[..n], dead) + LiveRows(batches[n], dead, |Buffers.Flatten(batches[..n])|)
  }

  /** Everything a full scan of the view returns. */
  function VisibleRows(s: Snapshot): seq<Row> {
    SegmentsLive(s.segments) + BatchesLive(s.memtable, s.memtableSuppressed)
  }

  /** Removes suppressed rows; memtable ordinals run on across batches. */
  method DropSuppressed(batch: seq<Row>, suppressed: set<nat>, offset: nat) returns (live: seq<Row>)
    ensures live == LiveRows(batch, suppressed, offset)
  {
    if suppressed == {} {
      NothingDropped(batch, suppressed, offset);
      return batch;
    }
    live := [];
    for row := 0 to |batch|
      invariant live == LiveRows(batch[..row], suppressed, offset)
    {
      assert batch[..row + 1][..row] == batch[..row];
      if offset + row !in suppressed { live := live + [batch[row]]; }
    }
    assert batch[..|batch|] == batch;
  }

  lemma {:induction false} NothingDropped(rows: seq<Row>, dead: set<nat>, offset: nat)
    requires dead == {}
    ensures LiveRows(rows, dead, offset) == rows
  {
    if rows != [] {
      NothingDropped(rows[..|rows| - 1], dead, offset);
    }
  }

  lemma {:induction false} LiveConcat(a: seq<Row>, b: seq<Row>, dead: set<nat>, offset: nat)
    ensures LiveRows(a + b, dead, offset) == LiveRows(a, dead, offset) + LiveRows(b, dead, offset + |a|)
  {
    if b == [] {
      assert a + b == a;
    } else {
      var n := |b| - 1;
      assert (a + b)[..|a + b| - 1] == a + b[..n];
      LiveConcat(a, b[..n], dead, offset);
    }
  }

  /** Batch by batch or all at once, the same memtable rows are live. */
  lemma {:induction false} BatchesAreOne(batches: seq<seq<Row>>, dead: set<nat>)
    ensures BatchesLive(batches, dead) == LiveRows(Buffers.Flatten(batches), dead, 0)
  {
    if batches != [] {
      var n := |batches| - 1;
      BatchesAreOne(batches[..n], dead);
      LiveConcat(Buffers.Flatten(batches[..n]), batches[n], dead, 0);
    }
  }

  // ---------------------------------------------------------------- the view and the partition

  lemma {:induction false} LiveIsKept(rows: seq<Row>, dead: set<nat>)
    ensures var kept := Kept(|rows|, dead);
            && |LiveRows(rows, dead, 0)| == |kept|
            && forall i :: 0 <= i < |kept| ==> kept[i] < |rows| && LiveRows(rows, dead, 0)[i] == rows[kept[i]]
  {
    if rows != [] {
      LiveIsKept(rows[..|rows| - 1], dead);
    }
  }

  lemma SourceIsLive(st: Store, src: PartitionState.Source)
    requires src in st
    ensures SourceRows(st, src) == LiveRows(st[src].rows, st[src].dead, 0)
  {
    LiveIsKept(st[src].rows, st[src].dead);
    var kept := Kept(|st[src].rows|, st[src].dead);
    assert forall i :: 0 <= i < |kept| ==> LiveIn(st, src)[i] == Locator(src, kept[i]);
  }

  /** The views show the segments the entries describe. */
  ghost predicate Shows(views: seq<SegmentView>, segs: seq<SegmentEntry>, files: map<PartitionState.Source, seq<Row>>) {
    && |views| == |segs|
    && forall i :: 0 <= i < |segs| ==>
         var src := PartitionState.Segment(segs[i].id);
         src in files && views[i].rows == files[src] && views[i].suppressed == segs[i].suppressed
  }

  lemma {:induction false} SegmentsShown(views: seq<SegmentView>, segs: seq<SegmentEntry>,
                                         files: map<PartitionState.Source, seq<Row>>, st: Store)
    requires Shows(views, segs, files)
    requires forall i :: 0 <= i < |segs| ==>
               var src := PartitionState.Segment(segs[i].id);
               src in st && src in files && st[src] == Rows(files[src], segs[i].suppressed)
    ensures SegmentsLive(views) == RowsAt(st, Gather(st, Sources(segs)))
  {
    if segs != [] {
      var n := |segs| - 1;
      SegmentsShown(views[..n], segs[..n], files, st);
      assert Sources(segs)[..n] == Sources(segs[..n]);
      RowsConcat(st, Gather(st, Sources(segs[..n])), LiveIn(st, Sources(segs)[n]));
      SourceIsLive(st, Sources(segs)[n]);
      hide LiveRows, LiveIn, Gather;
    }
  }

  /** A scan of the view returns exactly the partition's visible rows, in order. */
  lemma SnapshotVisible(s: Snapshot, segs: seq<SegmentEntry>, files: map<PartitionState.Source, seq<Row>>, st: Store,
                        n: nat)
    requires Represents(segs, files, st) && Shows(s.segments, segs, files)
    requires forall i :: 0 <= i < |segs| ==> segs[i].id < n
    requires Memtable in st && st[Memtable] == Rows(Buffers.Flatten(s.memtable), s.memtableSuppressed)
    ensures VisibleRows(s) == Visible(st, n)
  {
    SegmentsShown(s.segments, segs, files, st);
    VectorOrder(segs, files, st, n);
    VisibleParts(st, n);
    SourceIsLive(st, Memtable);
    BatchesAreOne(s.memtable, s.memtableSuppressed);
  }

  // ---------------------------------------------------------------- counting from metadata

  function Less(a: nat, b: nat): nat { if b <= a then a - b else 0 }

  function SegmentsCount(views: seq<SegmentView>): nat {
    if views == [] then 0
    else
      var last := views[|views| - 1];
      SegmentsCount(views[..|views| - 1]) + Less(last.meta.rowCount, |last.suppressed|)
  }

  /** Row counts less bitmap sizes; no row is looked at. */
  function VisibleCount(s: Snapshot): nat {
    Less(|Buffers.Flatten(s.memtable)|, |s.memtableSuppressed|) + SegmentsCount(s.segments)
  }

  ghost predicate InRange(dead: set<nat>, n: nat) { forall o :: o in dead ==> o < n }

  /** Suppressed ordinals exist, and the metadata counts the rows that are there. */
  ghost predicate Accurate(s: Snapshot) {
    && InRange(s.memtableSuppressed, |Buffers.Flatten(s.memtable)|)
    && forall i :: 0 <= i < |s.segments| ==>
         s.segments[i].meta.rowCount == |s.segments[i].rows| && InRange(s.segments[i].suppressed, |s.segments[i].rows|)
  }

  lemma {:induction false} LiveCount(rows: seq<Row>, dead: set<nat>)
    requires InRange(dead, |rows|)
    ensures |LiveRows(rows, dead, 0)| + |dead| == |rows|
  {
    if rows == [] {
      assert dead == {};
    } else {
      var n := |rows| - 1;
      LiveCount(rows[..n], dead - {n});
      SameLive(rows[..n], dead, n);
      if n in dead {
        assert |dead - {n}| == |dead| - 1;
      } else {
        assert dead - {n} == dead;
      }
    }
  }

  /** Ordinals past the end do not matter. */
  lemma {:induction false} SameLive(rows: seq<Row>, dead: set<nat>, n: nat)
    requires n >= |rows|
    ensures LiveRows(rows, dead - {n}, 0) == LiveRows(rows, dead, 0)
  {
    if rows != [] {
      SameLive(rows[..|rows| - 1], dead, n);
    }
  }

  lemma {:induction false} SegmentsCounted(views: seq<SegmentView>)
    requires forall i :: 0 <= i < |views| ==>
               views[i].meta.rowCount == |views[i].rows| && InRange(views[i].suppressed, |views[i].rows|)
    ensures SegmentsCount(views) == |SegmentsLive(views)|
  {
    if views != [] {
      var n := |views| - 1;
      SegmentsCounted(views[..n]);
      LiveCount(views[n].rows, views[n].suppressed);
      hide LiveRows;
    }
  }

  /** The metadata count is the number of rows a scan returns. */
  lemma VisibleCounted(s: Snapshot)
    requires Accurate(s)
    ensures VisibleCount(s) == |VisibleRows(s)|
  {
    SegmentsCounted(s.segments);
    BatchesAreOne(s.memtable, s.memtableSuppressed);
    LiveCount(Buffers.Flatten(s.memtable), s.memtableSuppressed);
  }

  /** The segments' statistics were computed from their rows. */
  ghost predicate Described(fs: Filters, schema: seq<ColumnSchema>, s: Snapshot) {
    forall i :: 0 <= i < |s.segments| ==> s.segments[i].meta == MetaOf(fs, schema, s.segments[i].rows)
  }
}
