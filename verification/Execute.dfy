/** Execution over partition snapshots: pruned scans with early stop, partial aggregation, the metadata
    count, and the whole query against its meaning (crates/adb-exec/src/scan.rs, lib.rs).

    Budgets and deadlines, which fail a query, are not modelled; threads are taken in partition order. */
module Execution {
  import opened Values
  import opened Expressions
  import opened Renamings
  import opened Pruning
  import opened AggStates
  import opened Aggregation
  import opened Snapshots
  import opened Labels
  import opened Plans
  import opened Physical
  import opened Memtables

  lemma ScannedConcat(env: Env, p: PhysicalPlan, a: seq<Row>, b: seq<Row>)
    ensures Scanned(env, p, a + b) == Scanned(env, p, a) + Scanned(env, p, b)
  {
    assert RestrictAll(a + b, p.projection) == RestrictAll(a, p.projection) + RestrictAll(b, p.projection);
    if p.filter.Some? {
      FilterAppend(env.kernels, p.filter.value, RestrictAll(a, p.projection), RestrictAll(b, p.projection));
    }
    hide RestrictAll, Filter;
  }

  lemma {:induction false} LiveRestrict(rows: seq<Row>, dead: set<nat>, offset: nat, columns: seq<string>)
    ensures LiveRows(RestrictAll(rows, columns), dead, offset) == RestrictAll(LiveRows(rows, dead, offset), columns)
  {
    if rows != [] {
      var n := |rows| - 1;
      LiveRestrict(rows[..n], dead, offset, columns);
      assert RestrictAll(rows, columns)[..n] == RestrictAll(rows[..n], columns);
      RestrictSnoc(LiveRows(rows[..n], dead, offset), rows[n], columns);
      hide Restrict;
    }
  }

  // ---------------------------------------------------------------- pruning

  /** The plan's atoms are its filter's, and the columns its filter and its projection use are read. */
  ghost predicate Consistent(p: PhysicalPlan) {
    && p.pruning == (if p.filter.Some? then Atoms(p.filter.value) else [])
    && (p.filter.Some? ==> AllIn(Columns(p.filter.value), p.projection))
    && (p.aggregate == None && p.rename.Some? ==> SourcesWithin(p.rename.value, p.projection))
  }

  /** The segments that are read. */
  function Unskipped(fs: Filters, atoms: seq<PruneAtom>, views: seq<SegmentView>): seq<SegmentView> {
    if views == [] then []
    else
      var last := views[|views| - 1];
      Unskipped(fs, atoms, views[..|views| - 1]) + (if CanSkip(fs, last.meta, atoms) then [] else [last])
  }

  /** What a scan reads of a snapshot. */
  function ReadOf(fs: Filters, p: PhysicalPlan, s: Snapshot): Snapshot {
    s.(segments := Unskipped(fs, p.pruning, s.segments))
  }

  function AllRead(fs: Filters, p: PhysicalPlan, snapshots: seq<Snapshot>): (read: seq<Snapshot>)
    ensures |read| == |snapshots| && forall i :: 0 <= i < |read| ==> read[i] == ReadOf(fs, p, snapshots[i])
  {
    seq(|snapshots|, i requires 0 <= i < |snapshots| => ReadOf(fs, p, snapshots[i]))
  }

  lemma {:induction false} UnskippedConcat(fs: Filters, atoms: seq<PruneAtom>, a: seq<SegmentView>, b: seq<SegmentView>)
    ensures Unskipped(fs, atoms, a + b) == Unskipped(fs, atoms, a) + Unskipped(fs, atoms, b)
  {
    if b == [] {
      assert a + b == a;
    } else {
      var n := |b| - 1;
      assert (a + b)[..|a + b| - 1] == a + b[..n];
      UnskippedConcat(fs, atoms, a, b[..n]);
      hide CanSkip;
    }
  }

  /** The statistics describe the rows, and integers are 64 bits wide. */
  ghost predicate Prunable(fs: Filters, schema: seq<ColumnSchema>, p: PhysicalPlan, s: Snapshot) {
    && Described(fs, schema, s) && AtomsRanged(p.pruning)
    && forall i :: 0 <= i < |s.segments| ==> RowsRanged(s.segments[i].rows)
  }

  lemma {:induction false} NoneLive(ks: Kernels, e: Expr, rows: seq<Row>, dead: set<nat>)
    requires forall r :: 0 <= r < |rows| ==> !Selects(ks, e, rows[r])
    ensures Filter(ks, e, LiveRows(rows, dead, 0)) == []
  {
    if rows != [] {
      var n := |rows| - 1;
      NoneLive(ks, e, rows[..n], dead);
      FilterAppend(ks, e, LiveRows(rows[..n], dead, 0), if n in dead then [] else [rows[n]]);
      assert n !in dead ==> [rows[n]][..0] == [] && Filter(ks, e, [rows[n]]) == [];
      hide Selects;
    }
  }

  /** A segment that can be skipped would have emitted nothing. */
  lemma SkippedEmitsNothing(env: Env, fs: Filters, schema: seq<ColumnSchema>, p: PhysicalPlan, s: Snapshot, i: nat)
    requires Consistent(p) && Prunable(fs, schema, p, s) && JsonFree(schema, p.pruning)
    requires i < |s.segments| && CanSkip(fs, s.segments[i].meta, p.pruning)
    ensures Scanned(env, p, LiveRows(s.segments[i].rows, s.segments[i].suppressed, 0)) == []
  {
    var view := s.segments[i];
    var live := LiveRows(view.rows, view.suppressed, 0);
    if p.filter.Some? {
      PruningSound(fs, env.kernels, schema, view.rows, p.filter.value);
      NoneLive(env.kernels, p.filter.value, view.rows, view.suppressed);
      FilterRestrict(env.kernels, p.filter.value, p.projection, live);
    } else {
      assert view.rows == [];
    }
  }

  /** Unless a JSON column is compared, what is read emits what there is. */
  lemma {:induction false} ReadEmitsAll(env: Env, fs: Filters, schema: seq<ColumnSchema>, p: PhysicalPlan, s: Snapshot,
                                        i: nat)
    requires Consistent(p) && Prunable(fs, schema, p, s) && JsonFree(schema, p.pruning) && i <= |s.segments|
    ensures Scanned(env, p, SegmentsLive(Unskipped(fs, p.pruning, s.segments[..i]))) ==
            Scanned(env, p, SegmentsLive(s.segments[..i]))
  {
    hide *;
    if i == 0 {
      NothingSkipped(fs, p.pruning);
      assert s.segments[..0] == [];
    } else {
      UnskippedNext(fs, p.pruning, s.segments, i - 1);
      ReadEmitsAll(env, fs, schema, p, s, i - 1);
      SegmentNext(env, p, s.segments, i - 1);
      if CanSkip(fs, s.segments[i - 1].meta, p.pruning) {
        SkippedEmitsNothing(env, fs, schema, p, s, i - 1);
      } else {
        ScannedSnoc(env, p, Unskipped(fs, p.pruning, s.segments[..i - 1]), s.segments[i - 1]);
      }
    }
  }

  lemma UnskippedNext(fs: Filters, atoms: seq<PruneAtom>, views: seq<SegmentView>, i: nat)
    requires i < |views|
    ensures Unskipped(fs, atoms, views[..i + 1]) ==
            if CanSkip(fs, views[i].meta, atoms) then Unskipped(fs, atoms, views[..i])
            else Unskipped(fs, atoms, views[..i]) + [views[i]]
  {
    assert views[..i + 1][..i] == views[..i];
    hide CanSkip;
  }

  lemma ScannedSnoc(env: Env, p: PhysicalPlan, views: seq<SegmentView>, view: SegmentView)
    ensures Scanned(env, p, SegmentsLive(views + [view])) ==
            Scanned(env, p, SegmentsLive(views)) + Scanned(env, p, LiveRows(view.rows, view.suppressed, 0))
  {
    assert (views + [view])[..|views|] == views;
    hide Scanned, LiveRows;
    ScannedConcat(env, p, SegmentsLive(views), LiveRows(view.rows, view.suppressed, 0));
  }

  lemma ReadScanned(env: Env, fs: Filters, schema: seq<ColumnSchema>, p: PhysicalPlan, s: Snapshot)
    requires Consistent(p) && Prunable(fs, schema, p, s) && JsonFree(schema, p.pruning)
    ensures Scanned(env, p, VisibleRows(ReadOf(fs, p, s))) == Scanned(env, p, VisibleRows(s))
  {
    assert s.segments[..|s.segments|] == s.segments;
    ReadEmitsAll(env, fs, schema, p, s, |s.segments|);
    var read, buffered := ReadOf(fs, p, s), BatchesLive(s.memtable, s.memtableSuppressed);
    hide Scanned, SegmentsLive, BatchesLive, Consistent, Prunable, JsonFree;
    ScannedConcat(env, p, SegmentsLive(read.segments), buffered);
    ScannedConcat(env, p, SegmentsLive(s.segments), buffered);
  }

  /** Unless a JSON column is compared, skipping segments changes nothing. */
  lemma {:induction false} PruningInvisible(env: Env, fs: Filters, schema: seq<ColumnSchema>, p: PhysicalPlan,
                                            snapshots: seq<Snapshot>)
    requires Consistent(p) && AllPrunable(fs, schema, p, snapshots) && JsonFree(schema, p.pruning)
    ensures Scanned(env, p, AllVisible(AllRead(fs, p, snapshots))) == Scanned(env, p, AllVisible(snapshots))
  {
    var read := AllRead(fs, p, snapshots);
    if snapshots == [] {
      assert read == [];
    } else {
      var n := |snapshots| - 1;
      assert read[..n] == AllRead(fs, p, snapshots[..n]);
      assert Prunable(fs, schema, p, snapshots[n]) && AllPrunable(fs, schema, p, snapshots[..n]);
      hide Scanned, AllVisible, VisibleRows, Consistent, Prunable, JsonFree, ReadOf;
      PruningInvisible(env, fs, schema, p, snapshots[..n]);
      AllVisibleNext(env, p, snapshots);
      AllVisibleNext(env, p, read);
      ReadScanned(env, fs, schema, p, snapshots[n]);
    }
  }

  // ---------------------------------------------------------------- scanning one partition

  /** What has been emitted, of what there is to emit: all of it, or at least `cap` rows of it. */
  ghost predicate Emitted(batches: seq<seq<Row>>, full: seq<Row>, cap: Option<nat>) {
    && (forall i :: 0 <= i < |batches| ==> batches[i] != [])
    && Flatten(batches) <= full
    && (Flatten(batches) == full || (cap.Some? && |Flatten(batches)| >= cap.value))
  }

  /** Filters a batch and hands it on if anything is left; says whether to go on. */
  method Emit(env: Env, p: PhysicalPlan, batch: seq<Row>, batches: seq<seq<Row>>, cap: Option<nat>)
    returns (more: seq<seq<Row>>, go: bool)
    requires forall i :: 0 <= i < |batches| ==> batches[i] != []
    ensures forall i :: 0 <= i < |more| ==> more[i] != []
    ensures Flatten(more) == Flatten(batches) + Kept(env, p.filter, batch)
    ensures !go ==> cap.Some? && |Flatten(more)| >= cap.value
  {
    NothingAdded(Flatten(batches), Kept(env, p.filter, batch));
    if batch == [] {
      return batches, true;
    }
    var kept := Kept(env, p.filter, batch);
    if kept == [] {
      return batches, true;
    }
    FlattenSnoc(batches, kept);
    more := batches + [kept];
    go := cap == None || |Flatten(more)| < cap.value;
  }

  /** Stopping after part of the sources leaves a prefix. */
  lemma PartEmitted(env: Env, p: PhysicalPlan, batches: seq<seq<Row>>, part: seq<Row>, rest: seq<Row>, cap: Option<nat>)
    requires Flatten(batches) == Scanned(env, p, part) && (forall i :: 0 <= i < |batches| ==> batches[i] != [])
    requires cap.Some? && |Flatten(batches)| >= cap.value
    ensures Emitted(batches, Scanned(env, p, part + rest), cap)
  {
    ScannedConcat(env, p, part, rest);
  }

  lemma {:induction false} SegmentsSplit(a: seq<SegmentView>, b: seq<SegmentView>)
    ensures SegmentsLive(a + b) == SegmentsLive(a) + SegmentsLive(b)
  {
    if b == [] {
      assert a + b == a;
    } else {
      var n := |b| - 1;
      var last := LiveRows(b[n].rows, b[n].suppressed, 0);
      assert (a + b)[..|a + b| - 1] == a + b[..n];
      assert SegmentsLive(a + b) == SegmentsLive(a + b[..n]) + last && SegmentsLive(b) == SegmentsLive(b[..n]) + last;
      hide LiveRows, SegmentsLive;
      SegmentsSplit(a, b[..n]);
      Associate(SegmentsLive(a), SegmentsLive(b[..n]), last);
    }
  }

  lemma BatchesSplit(batches: seq<seq<Row>>, dead: set<nat>, i: nat)
    requires i <= |batches|
    ensures exists rest :: BatchesLive(batches, dead) == BatchesLive(batches[..i], dead) + rest
  {
    BatchesAreOne(batches, dead);
    BatchesAreOne(batches[..i], dead);
    FlattenSplit(batches, i);
    LiveConcat(Flatten(batches[..i]), Flatten(batches[i..]), dead, 0);
    hide LiveRows, BatchesLive;
    assert BatchesLive(batches, dead) ==
           BatchesLive(batches[..i], dead) + LiveRows(Flatten(batches[i..]), dead, |Flatten(batches[..i])|);
  }

  /** Feeds every visible, matching batch of a partition on: segments oldest first, skipping those the
      statistics rule out, then the memtable; stops once `cap` rows are there. */
  method ScanPartition(env: Env, fs: Filters, p: PhysicalPlan, s: Snapshot, cap: Option<nat>)
    returns (batches: seq<seq<Row>>)
    ensures Emitted(batches, Scanned(env, p, VisibleRows(ReadOf(fs, p, s))), cap)
  {
    var go := true;
    batches, go := ScanSegments(env, fs, p, s, cap);
    if !go {
      return;
    }
    batches := ScanMemtable(env, p, s, ReadOf(fs, p, s), batches, cap);
  }

  method ScanSegments(env: Env, fs: Filters, p: PhysicalPlan, s: Snapshot, cap: Option<nat>)
    returns (batches: seq<seq<Row>>, go: bool)
    ensures forall i :: 0 <= i < |batches| ==> batches[i] != []
    ensures go ==> Flatten(batches) == Scanned(env, p, SegmentsLive(Unskipped(fs, p.pruning, s.segments)))
    ensures !go ==> Emitted(batches, Scanned(env, p, VisibleRows(ReadOf(fs, p, s))), cap)
  {
    hide *;
    batches, go := [], true;
    ScannedNothing(env, p);
    NothingSkipped(fs, p.pruning);
    assert s.segments[..0] == [] && s.segments[..|s.segments|] == s.segments;
    for i := 0 to |s.segments|
      invariant forall j :: 0 <= j < |batches| ==> batches[j] != []
      invariant Flatten(batches) == Scanned(env, p, SegmentsLive(Unskipped(fs, p.pruning, s.segments[..i])))
    {
      var view := s.segments[i];
      UnskippedNext(fs, p.pruning, s.segments, i);
      if CanSkip(fs, view.meta, p.pruning) {
        continue;
      }
      ScannedSnoc(env, p, Unskipped(fs, p.pruning, s.segments[..i]), view);
      var live := DropSuppressed(RestrictAll(view.rows, p.projection), view.suppressed, 0);
      LiveScanned(env, p, view.rows, view.suppressed, 0);
      batches, go := Emit(env, p, live, batches, cap);
      if !go {
        SegmentsStop(env, fs, p, s, i + 1, batches, cap);
        return;
      }
    }
  }

  lemma NothingSkipped(fs: Filters, atoms: seq<PruneAtom>)
    ensures Unskipped(fs, atoms, []) == []
  {
  }

  lemma ScannedNothing(env: Env, p: PhysicalPlan)
    ensures Scanned(env, p, []) == [] && Flatten<Row>([]) == [] && SegmentsLive([]) == []
  {
  }

  lemma LiveScanned(env: Env, p: PhysicalPlan, rows: seq<Row>, dead: set<nat>, offset: nat)
    ensures Kept(env, p.filter, LiveRows(RestrictAll(rows, p.projection), dead, offset)) ==
            Scanned(env, p, LiveRows(rows, dead, offset))
  {
    LiveRestrict(rows, dead, offset, p.projection);
    hide RestrictAll, LiveRows, Filter;
  }

  lemma SegmentNext(env: Env, p: PhysicalPlan, views: seq<SegmentView>, i: nat)
    requires i < |views|
    ensures Scanned(env, p, SegmentsLive(views[..i + 1])) ==
            Scanned(env, p, SegmentsLive(views[..i])) + Scanned(env, p, LiveRows(views[i].rows, views[i].suppressed, 0))
  {
    assert views[..i + 1][..i] == views[..i];
    hide Scanned, LiveRows;
    ScannedConcat(env, p, SegmentsLive(views[..i]), LiveRows(views[i].rows, views[i].suppressed, 0));
  }

  lemma SegmentsVisible(fs: Filters, p: PhysicalPlan, s: Snapshot, i: nat)
    requires i <= |s.segments|
    ensures exists rest :: VisibleRows(ReadOf(fs, p, s)) ==
                           SegmentsLive(Unskipped(fs, p.pruning, s.segments[..i])) + rest
  {
    var a, b := Unskipped(fs, p.pruning, s.segments[..i]), Unskipped(fs, p.pruning, s.segments[i..]);
    assert s.segments[..i] + s.segments[i..] == s.segments;
    UnskippedConcat(fs, p.pruning, s.segments[..i], s.segments[i..]);
    SegmentsSplit(a, b);
    hide SegmentsLive, BatchesLive, Unskipped;
    Associate(SegmentsLive(a), SegmentsLive(b), BatchesLive(s.memtable, s.memtableSuppressed));
  }

  lemma SegmentsStop(env: Env, fs: Filters, p: PhysicalPlan, s: Snapshot, i: nat, batches: seq<seq<Row>>,
                     cap: Option<nat>)
    requires i <= |s.segments| && (forall j :: 0 <= j < |batches| ==> batches[j] != [])
    requires Flatten(batches) == Scanned(env, p, SegmentsLive(Unskipped(fs, p.pruning, s.segments[..i])))
    requires cap.Some? && |Flatten(batches)| >= cap.value
    ensures Emitted(batches, Scanned(env, p, VisibleRows(ReadOf(fs, p, s))), cap)
  {
    hide *;
    SegmentsVisible(fs, p, s, i);
    var part := SegmentsLive(Unskipped(fs, p.pruning, s.segments[..i]));
    var rest :| VisibleRows(ReadOf(fs, p, s)) == part + rest;
    PartEmitted(env, p, batches, part, rest, cap);
  }

  /** Feeds the memtable on, after the segments that were read. */
  method ScanMemtable(env: Env, p: PhysicalPlan, s: Snapshot, ghost read: Snapshot, before: seq<seq<Row>>,
                      cap: Option<nat>)
    returns (batches: seq<seq<Row>>)
    requires read.memtable == s.memtable && read.memtableSuppressed == s.memtableSuppressed
    requires (forall i :: 0 <= i < |before| ==> before[i] != [])
             && Flatten(before) == Scanned(env, p, SegmentsLive(read.segments))
    ensures Emitted(batches, Scanned(env, p, VisibleRows(read)), cap)
  {
    batches := before;
    var offset := 0;
    ghost var segments := SegmentsLive(read.segments);
    assert s.memtable[..0] == [] && segments + [] == segments && BatchesLive([], s.memtableSuppressed) == [];
    assert s.memtable[..|s.memtable|] == s.memtable;
    hide Flatten, Emitted, Scanned, LiveRows, SegmentsLive, VisibleRows, BatchesLive;
    for i := 0 to |s.memtable|
      invariant offset == |Flatten(s.memtable[..i])| && forall j :: 0 <= j < |batches| ==> batches[j] != []
      invariant Flatten(batches) == Scanned(env, p, segments + BatchesLive(s.memtable[..i], s.memtableSuppressed))
    {
      var live := DropSuppressed(RestrictAll(s.memtable[i], p.projection), s.memtableSuppressed, offset);
      LiveScanned(env, p, s.memtable[i], s.memtableSuppressed, offset);
      BatchNext(env, p, segments, s.memtable, s.memtableSuppressed, i);
      FlattenNext(s.memtable, i);
      var go;
      batches, go := Emit(env, p, live, batches, cap);
      if !go {
        MemtableStop(env, p, read, i + 1, batches, cap);
        return;
      }
      offset := offset + |s.memtable[i]|;
    }
    AllEmitted(env, p, read, batches, cap);
  }

  lemma BatchNext(env: Env, p: PhysicalPlan, segments: seq<Row>, batches: seq<seq<Row>>, dead: set<nat>, i: nat)
    requires i < |batches|
    ensures Scanned(env, p, segments + BatchesLive(batches[..i + 1], dead)) ==
            Scanned(env, p, segments + BatchesLive(batches[..i], dead))
            + Scanned(env, p, LiveRows(batches[i], dead, |Flatten(batches[..i])|))
  {
    assert batches[..i + 1][..i] == batches[..i];
    var before, live := BatchesLive(batches[..i], dead), LiveRows(batches[i], dead, |Flatten(batches[..i])|);
    assert BatchesLive(batches[..i + 1], dead) == before + live;
    hide Scanned, LiveRows, BatchesLive, Flatten;
    assert segments + (before + live) == segments + before + live;
    ScannedConcat(env, p, segments + before, live);
  }

  lemma MemtableStop(env: Env, p: PhysicalPlan, s: Snapshot, i: nat, batches: seq<seq<Row>>, cap: Option<nat>)
    requires i <= |s.memtable| && (forall j :: 0 <= j < |batches| ==> batches[j] != []) && cap.Some?
             && |Flatten(batches)| >= cap.value
    requires Flatten(batches) == Scanned(env, p, SegmentsLive(s.segments)
                                         + BatchesLive(s.memtable[..i], s.memtableSuppressed))
    ensures Emitted(batches, Scanned(env, p, VisibleRows(s)), cap)
  {
    BatchesSplit(s.memtable, s.memtableSuppressed, i);
    var segments, before := SegmentsLive(s.segments), BatchesLive(s.memtable[..i], s.memtableSuppressed);
    var rest :| BatchesLive(s.memtable, s.memtableSuppressed) == before + rest;
    hide SegmentsLive, BatchesLive, Scanned, Emitted, Flatten;
    assert segments + (before + rest) == segments + before + rest;
    PartEmitted(env, p, batches, segments + before, rest, cap);
  }

  lemma AllEmitted(env: Env, p: PhysicalPlan, s: Snapshot, batches: seq<seq<Row>>, cap: Option<nat>)
    requires forall j :: 0 <= j < |batches| ==> batches[j] != []
    requires Flatten(batches) == Scanned(env, p, SegmentsLive(s.segments)
                                         + BatchesLive(s.memtable, s.memtableSuppressed))
    ensures Emitted(batches, Scanned(env, p, VisibleRows(s)), cap)
  {
    hide Scanned, Flatten, SegmentsLive, BatchesLive;
  }

  // ---------------------------------------------------------------- scanning all partitions

  /** The rows of all partitions, in partition order. */
  function AllVisible(snapshots: seq<Snapshot>): seq<Row> {
    if snapshots == [] then []
    else AllVisible(snapshots[..|snapshots| - 1]) + VisibleRows(snapshots[|snapshots| - 1])
  }

  function VisibleParts(snapshots: seq<Snapshot>): (parts: seq<seq<Row>>)
    ensures |parts| == |snapshots| && forall i :: 0 <= i < |parts| ==> parts[i] == VisibleRows(snapshots[i])
  {
    seq(|snapshots|, i requires 0 <= i < |snapshots| => VisibleRows(snapshots[i]))
  }

  lemma {:induction false} AllVisibleFlat(snapshots: seq<Snapshot>)
    ensures AllVisible(snapshots) == Flatten(VisibleParts(snapshots))
  {
    if snapshots == [] {
      assert VisibleParts(snapshots) == [];
    } else {
      AllVisibleFlat(snapshots[..|snapshots| - 1]);
      assert VisibleParts(snapshots)[..|snapshots| - 1] == VisibleParts(snapshots[..|snapshots| - 1]);
      hide VisibleRows;
    }
  }

  ghost predicate AllPrunable(fs: Filters, schema: seq<ColumnSchema>, p: PhysicalPlan, snapshots: seq<Snapshot>) {
    forall i :: 0 <= i < |snapshots| ==> Prunable(fs, schema, p, snapshots[i])
  }

  /** Each partition emitted all its rows, or at least `cap` of them. */
  ghost predicate AllEmit(env: Env, p: PhysicalPlan, snapshots: seq<Snapshot>, parts: seq<seq<seq<Row>>>,
                          cap: Option<nat>) {
    |parts| == |snapshots| && forall i :: 0 <= i < |parts| ==>
        Emitted(parts[i], Scanned(env, p, VisibleRows(snapshots[i])), cap)
  }

  method ScanAll(env: Env, fs: Filters, p: PhysicalPlan, snapshots: seq<Snapshot>, cap: Option<nat>)
    returns (parts: seq<seq<seq<Row>>>)
    ensures AllEmit(env, p, AllRead(fs, p, snapshots), parts, cap)
  {
    parts := [];
    hide Emitted, Scanned, VisibleRows, ReadOf;
    for i := 0 to |snapshots|
      invariant |parts| == i
      invariant forall j :: 0 <= j < i ==>
                  Emitted(parts[j], Scanned(env, p, VisibleRows(ReadOf(fs, p, snapshots[j]))), cap)
    {
      var batches := ScanPartition(env, fs, p, snapshots[i], cap);
      parts := parts + [batches];
    }
  }

  lemma AllVisibleNext(env: Env, p: PhysicalPlan, snapshots: seq<Snapshot>)
    requires snapshots != []
    ensures var n := |snapshots| - 1;
            Scanned(env, p, AllVisible(snapshots)) ==
            Scanned(env, p, AllVisible(snapshots[..n])) + Scanned(env, p, VisibleRows(snapshots[n]))
  {
    var n := |snapshots| - 1;
    hide Scanned, VisibleRows;
    ScannedConcat(env, p, AllVisible(snapshots[..n]), VisibleRows(snapshots[n]));
  }

  /** Without early stop, the partitions' rows are the scan of them all. */
  lemma {:induction false} AllEmitAll(env: Env, p: PhysicalPlan, snapshots: seq<Snapshot>, parts: seq<seq<seq<Row>>>)
    requires AllEmit(env, p, snapshots, parts, None)
    ensures Flatten(PartRows(parts)) == Scanned(env, p, AllVisible(snapshots))
  {
    if snapshots == [] {
      ScannedNothing(env, p);
      assert PartRows(parts) == [];
    } else {
      var n := |snapshots| - 1;
      hide *;
      AllEmitLast(env, p, snapshots, parts);
      AllEmitAll(env, p, snapshots[..n], parts[..n]);
      AllVisibleNext(env, p, snapshots);
      PartRowsLast(parts);
    }
  }

  lemma AllEmitLast(env: Env, p: PhysicalPlan, snapshots: seq<Snapshot>, parts: seq<seq<seq<Row>>>)
    requires snapshots != [] && AllEmit(env, p, snapshots, parts, None)
    ensures |parts| == |snapshots| && AllEmit(env, p, snapshots[..|snapshots| - 1], parts[..|snapshots| - 1], None)
    ensures Flatten(parts[|snapshots| - 1]) == Scanned(env, p, VisibleRows(snapshots[|snapshots| - 1]))
  {
    hide Scanned, VisibleRows, Flatten;
  }

  lemma PartRowsLast(parts: seq<seq<seq<Row>>>)
    requires parts != []
    ensures var n := |parts| - 1;
            Flatten(PartRows(parts)) == Flatten(PartRows(parts[..n])) + Flatten(parts[n])
  {
    assert PartRows(parts)[..|parts| - 1] == PartRows(parts[..|parts| - 1]);
  }

  lemma FirstMore(a: seq<Row>, full: seq<Row>, x: seq<Row>, y: seq<Row>, n: nat)
    requires FirstRows(a, n) == FirstRows(full, n)
    requires x <= y && (x == y || |x| >= n)
    ensures FirstRows(a + x, n) == FirstRows(full + y, n)
  {
    if |a| >= n {
      assert |full| >= n;
      assert (a + x)[..n] == a[..n] && (full + y)[..n] == full[..n];
    } else {
      assert a == full;
      if x != y {
        assert (a + x)[..n] == (a + y)[..n];
      }
    }
  }

  /** Early stop is exact: the first `n` rows of what partitions emit before they stop are the first `n`
      rows of what they all hold. */
  lemma {:induction false} EarlyStopExact(env: Env, p: PhysicalPlan, snapshots: seq<Snapshot>,
                                          parts: seq<seq<seq<Row>>>, n: nat)
    requires AllEmit(env, p, snapshots, parts, Some(n))
    ensures FirstRows(Flatten(PartRows(parts)), n) == FirstRows(Scanned(env, p, AllVisible(snapshots)), n)
  {
    if snapshots == [] {
      ScannedNothing(env, p);
      assert PartRows(parts) == [];
    } else {
      var m := |snapshots| - 1;
      EarlyStopExact(env, p, snapshots[..m], parts[..m], n);
      AllVisibleNext(env, p, snapshots);
      assert PartRows(parts)[..m] == PartRows(parts[..m]);
      var full, part := Scanned(env, p, VisibleRows(snapshots[m])), Flatten(parts[m]);
      assert Flatten(PartRows(parts)) == Flatten(PartRows(parts[..m])) + part;
      assert part <= full && (part == full || |part| >= n);
      hide Scanned, AllVisible, VisibleRows, AllEmit, FirstRows, Flatten;
      FirstMore(Flatten(PartRows(parts[..m])), Scanned(env, p, AllVisible(snapshots[..m])), part, full, n);
    }
  }

  /** Scans every partition; without a sort, a limit lets each of them stop early. */
  method RunScan(env: Env, fs: Filters, p: PhysicalPlan, snapshots: seq<Snapshot>) returns (combined: seq<Row>)
    ensures var scanned := Scanned(env, p, AllVisible(AllRead(fs, p, snapshots)));
            if p.IsStreamingLimit()
            then FirstRows(combined, p.FetchRows().value) == FirstRows(scanned, p.FetchRows().value)
            else combined == scanned
  {
    var cap := if p.IsStreamingLimit() then p.FetchRows() else None;
    var parts := ScanAll(env, fs, p, snapshots, cap);
    if p.IsStreamingLimit() {
      EarlyStopExact(env, p, AllRead(fs, p, snapshots), parts, cap.value);
    } else {
      AllEmitAll(env, p, AllRead(fs, p, snapshots), parts);
    }
    combined := Flatten(PartRows(parts));
  }

  /** Without a sort, the coordinator looks at no more than the rows it fetches. */
  lemma CoordinateFetched(env: Env, p: PhysicalPlan, a: seq<Row>, b: seq<Row>, maxRows: nat)
    requires p.IsStreamingLimit() && FirstRows(a, p.FetchRows().value) == FirstRows(b, p.FetchRows().value)
    requires p.rename.Some? ==> SourcesWithin(p.rename.value, p.projection)
    ensures Coordinate(env, p, Some(a), maxRows) == Coordinate(env, p, Some(b), maxRows)
  {
    var n := p.FetchRows().value;
    ScanRenamed(p, a);
    ScanRenamed(p, b);
    RenamedFirst(p.rename, a, n);
    RenamedFirst(p.rename, b, n);
    assert SortBatch(env, p.sort, Renamed(p.rename, a), p.FetchRows()) == FirstRows(Renamed(p.rename, a), n);
    assert SortBatch(env, p.sort, Renamed(p.rename, b), p.FetchRows()) == FirstRows(Renamed(p.rename, b), n);
    hide FirstRows, SortBatch, RenameAll, RestrictAll, Window, ApplyRename;
  }

  function Renamed(m: Option<Renaming>, rows: seq<Row>): seq<Row> { if m.Some? then RenameAll(m.value, rows) else rows }

  /** A scan has every source the projection needs. */
  lemma ScanRenamed(p: PhysicalPlan, rows: seq<Row>)
    requires p.aggregate == None && (p.rename.Some? ==> SourcesWithin(p.rename.value, p.projection))
    ensures ApplyRename(p, rows) == Some(Renamed(p.rename, rows))
  {
    if p.rename.Some? {
      assert RenameAll(p.rename.value, []) == [];
    }
    hide RenameAll;
  }

  lemma RenamedFirst(m: Option<Renaming>, rows: seq<Row>, n: nat)
    ensures FirstRows(Renamed(m, rows), n) == Renamed(m, FirstRows(rows, n))
  {
    hide RenameRow;
  }

  // ---------------------------------------------------------------- the metadata count

  /** `count(*)` without filter or grouping is answered from metadata. */
  predicate MetadataAnswers(p: PhysicalPlan) {
    && p.aggregate.Some? && p.filter == None && p.aggregate.value.groupBy == [] && |p.aggregate.value.aggregates| == 1
    && p.aggregate.value.aggregates[0].func == CountOf && p.aggregate.value.aggregates[0].column == None
  }

  /** One row holding a count. */
  function CountRow(alias: string, n: nat): Row { map[alias := Int(n)] }

  method MetadataCount(p: PhysicalPlan, snapshots: seq<Snapshot>) returns (r: Option<seq<Row>>)
    requires forall i :: 0 <= i < |snapshots| ==> Accurate(snapshots[i])
    ensures r.Some? <==> MetadataAnswers(p)
    ensures r.Some? ==> r.value == [CountRow(p.aggregate.value.aggregates[0].alias, |AllVisible(snapshots)|)]
  {
    if !MetadataAnswers(p) {
      return None;
    }
    var total := 0;
    assert snapshots[..|snapshots|] == snapshots;
    hide Accurate, VisibleRows, VisibleCount, MetadataAnswers;
    for i := 0 to |snapshots|
      invariant total == |AllVisible(snapshots[..i])|
    {
      assert snapshots[..i + 1][..i] == snapshots[..i];
      VisibleCounted(snapshots[i]);
      total := total + VisibleCount(snapshots[i]);
    }
    r := Some([CountRow(p.aggregate.value.aggregates[0].alias, total)]);
  }

  lemma CountFolds(spec: AggregateSpec, types: Types, rows: seq<Row>)
    requires |spec.aggregates| == 1 && spec.aggregates[0].func == CountOf && spec.aggregates[0].column == None
    ensures FoldRows(spec, types, rows) == [Count(|rows|)]
  {
    StarsFold(Count(0), |rows|);
    assert InputsOf(spec.aggregates[0], rows) == Stars(|rows|);
  }

  /** Counting by scanning: one row with the number of rows. */
  lemma CountScanned(spec: AggregateSpec, types: Types, rows: seq<Row>)
    requires spec.groupBy == [] && |spec.aggregates| == 1
    requires spec.aggregates[0].func == CountOf && spec.aggregates[0].column == None
    ensures AggregateRows(spec, types, rows) == [CountRow(spec.aggregates[0].alias, |rows|)]
  {
    OnlyGroup(spec, types, rows);
    CountFolds(spec, types, rows);
    FoldRowsNext(spec, types, [], map[]);
    CountFolds(spec, types, []);
    assert Tuple([], [Count(|rows|)]) == [Int(|rows|)];
    if rows != [] {
      assert KeyTuples(GroupsOf(spec, types, rows), [[]]) == [[Int(|rows|)]];
    }
    assert Results(spec, types, rows) == [[Int(|rows|)]];
    hide GroupsOf, FoldRows, Results;
    CountNamed(spec, |rows|);
  }

  lemma CountNamed(spec: AggregateSpec, n: nat)
    requires spec.groupBy == [] && |spec.aggregates| == 1
    ensures NameAll(ResultNames(spec), [[Int(n)]]) == [CountRow(spec.aggregates[0].alias, n)]
  {
    var alias := spec.aggregates[0].alias;
    assert ResultNames(spec) == [alias];
    assert [alias][1..] == [] && [Int(n)][1..] == [];
    var empty: Row := map[];
    assert Assign(empty[alias := Int(n)], [], []) == map[alias := Int(n)];
    assert Assign(empty, [alias], [Int(n)]) == Assign(empty[alias := Int(n)], [], []);
  }

  lemma OneSorted(env: Env, keys: seq<SortExpr>, row: Row)
    requires GoodEnv(env)
    ensures (env.sorter)(keys, [row]) == [row]
  {
    var sorted := (env.sorter)(keys, [row]);
    assert |multiset(sorted)| == |sorted| && |multiset([row])| == 1;
    assert sorted[0] in multiset([row]);
  }

  lemma OneWindow(row: Row, skip: nat, n: nat)
    ensures Window([row], skip, n) == if skip == 0 && n > 0 then [row] else []
  {
  }

  /** The metadata count stops short of renaming, offset and limit; this is when it may. */
  predicate CountUnchanged(q: Query, p: PhysicalPlan, alias: string, maxRows: nat) {
    && TotalSkip(q) == 0 && (if q.Limited? then TrueLimit(q).value else maxRows) > 0
    && forall i :: 0 <= i < |p.output| ==> p.output[i].name == alias
  }

  /** The rows a plan means, up to the caller's row budget if it has no limit. */
  function Meaning(env: Env, q: Query, rows: seq<Row>, maxRows: nat): seq<Row> {
    if q.Limited? then Denote(env, q, rows) else Window(Denote(env, q, rows), 0, maxRows)
  }

  /** A row with the count under every output name. */
  function CountEverywhere(names: seq<string>, n: nat): Row { map c | c in names :: Int(n) }

  lemma CountRenamed(m: Renaming, alias: string, n: nat)
    requires forall i :: 0 <= i < |m| ==> m[i].0 == alias
    ensures RenameRow(m, CountRow(alias, n)) == CountEverywhere(OutputNames(m), n)
  {
    forall c | c in OutputNames(m)
      ensures Source(m, c) == Some(alias)
    {
      SourceFirst(m, c);
    }
  }

  /** A plan answered from metadata means one row with the count under every output name. */
  lemma CountMeant(env: Env, q: Query, d: Draft, spec: AggregateSpec, rows: seq<Row>)
    requires Fits(d, q) && GoodEnv(env) && d.filter == None && d.aggregate == Some(spec)
    requires spec.groupBy == [] && |spec.aggregates| == 1
    requires spec.aggregates[0].func == CountOf && spec.aggregates[0].column == None
    ensures Ordered(env, d, rows) == [CountEverywhere(Outputs(q), |rows|)]
  {
    var alias, n := spec.aggregates[0].alias, |rows|;
    CountScanned(spec, env.types, RestrictAll(rows, d.columns));
    assert Grouped(env, d, rows) == [CountRow(alias, n)] && Middle(d) == [alias];
    assert Outputs(q) == (if d.rename.Some? then OutputNames(d.rename.value) else [alias]);
    assert d.rename.Some? ==> SourcesWithin(d.rename.value, [alias]);
    hide Grouped, Fits, CountRow, AggregateRows, CountEverywhere, RenameAll;
    CountShaped(d.rename, alias, n);
    OneSorted(env, d.sort, CountEverywhere(Outputs(q), n));
  }

  lemma CountShaped(m: Option<Renaming>, alias: string, n: nat)
    requires m.Some? ==> SourcesWithin(m.value, [alias])
    ensures Renamed(m, [CountRow(alias, n)]) == [CountEverywhere(if m.Some? then OutputNames(m.value) else [alias], n)]
  {
    if m.Some? {
      CountRenamed(m.value, alias, n);
    } else {
      assert CountEverywhere([alias], n) == CountRow(alias, n);
    }
    hide RenameRow, CountEverywhere, CountRow;
  }

  lemma CountKept(names: seq<string>, alias: string, n: nat)
    requires names != []
    ensures CountEverywhere(names, n) == CountRow(alias, n) <==> forall i :: 0 <= i < |names| ==> names[i] == alias
  {
    var row := CountEverywhere(names, n);
    if forall i :: 0 <= i < |names| ==> names[i] == alias {
      assert names[0] in names;
      assert row == CountRow(alias, n);
    } else {
      var i :| 0 <= i < |names| && names[i] != alias;
      assert names[i] in row.Keys && CountRow(alias, n).Keys == {alias};
    }
  }

  /** The metadata count is what the plan means exactly when nothing is skipped or cut away and the output keeps
      the count's own name. */
  lemma MetadataCountExact(env: Env, v: Validated, p: PhysicalPlan, rows: seq<Row>, maxRows: nat)
    requires Checked(env.types, v) && BuildOf(v) == Some(p) && GoodEnv(env) && MetadataAnswers(p)
    ensures var alias := p.aggregate.value.aggregates[0].alias;
            [CountRow(alias, |rows|)] == Meaning(env, v.query, rows, maxRows) <==>
            CountUnchanged(v.query, p, alias, maxRows)
  {
    var q, d, alias := v.query, DraftOf(v.query).value, p.aggregate.value.aggregates[0].alias;
    CountFacts(env, v, p, rows);
    assert forall i :: 0 <= i < |p.output| ==> NamesOf(p.output)[i] == p.output[i].name;
    assert !q.Limited? ==> Below(q) == q && PipelineLimit(q) == None && TotalSkip(q) == 0;
    hide DraftOf, OutputOf, Resolved, Outputs, Below, BuildOf, Denote, Checked, MetadataAnswers;
    CountKept(NamesOf(p.output), alias, |rows|);
    var row := CountEverywhere(NamesOf(p.output), |rows|);
    OneWindow(row, TotalSkip(q), if q.Limited? then TrueLimit(q).value else maxRows);
    if q.Limited? {
      OneIsFew(row);
      LimitsMean(env, q, rows);
    }
  }

  lemma CountFacts(env: Env, v: Validated, p: PhysicalPlan, rows: seq<Row>)
    requires Checked(env.types, v) && BuildOf(v) == Some(p) && GoodEnv(env) && MetadataAnswers(p)
    ensures p.limit == PipelineLimit(v.query) && p.offset == TotalSkip(v.query) && NamesOf(p.output) != []
    ensures Denote(env, Below(v.query), rows) == [CountEverywhere(NamesOf(p.output), |rows|)]
  {
    var q, d := v.query, DraftOf(v.query).value;
    BelowDraft(env.types, q, d);
    var d0 := DraftOf(Below(q)).value;
    assert p.limit == d.limit && p.offset == d.offset && p.output == OutputOf(env.types, q);
    assert d0.filter == None && d0.aggregate == p.aggregate && Outputs(q) != [];
    OutputNamed(env.types, q);
    hide DraftOf, OutputOf, Resolved, Outputs, Fits, Ordered, Below, BuildOf, Denote, Checked;
    CoreMeans(env, Below(q), d0, rows);
    CountMeant(env, Below(q), d0, p.aggregate.value, rows);
  }

  lemma OneIsFew(row: Row)
    ensures |[row]| <= USIZE_MAX
  {
  }

  // ---------------------------------------------------------------- a whole query

  /** What execution needs of the data: accurate metadata and, for an aggregation, sums that may be computed in
      parts. */
  ghost predicate Runnable(env: Env, fs: Filters, p: PhysicalPlan, snapshots: seq<Snapshot>) {
    && (forall i :: 0 <= i < |snapshots| ==> Accurate(snapshots[i]))
    && (p.aggregate.Some? ==>
          Exact(p.aggregate.value, ProjectTypes(env.types, p.projection),
                Scanned(env, p, AllVisible(AllRead(fs, p, snapshots)))))
  }

  method Aggregated(env: Env, fs: Filters, p: PhysicalPlan, snapshots: seq<Snapshot>)
    returns (batch: Option<seq<Row>>)
    requires p.aggregate.Some? && Runnable(env, fs, p, snapshots)
    ensures batch == Batch(env, p, AllVisible(AllRead(fs, p, snapshots)))
  {
    var parts := ScanAll(env, fs, p, snapshots, None);
    AllEmitAll(env, p, AllRead(fs, p, snapshots), parts);
    hide Exact, Flatten, Results, ResultBatch, AllVisible, Scanned, AllRead;
    batch := RunAggregate(p.aggregate.value, ProjectTypes(env.types, p.projection), p.output, parts);
  }

  /** Runs a plan over the partitions' snapshots; nothing when it fails. */
  method Execute(env: Env, fs: Filters, p: PhysicalPlan, snapshots: seq<Snapshot>, maxRows: nat)
    returns (rows: Option<seq<Row>>)
    requires Consistent(p) && Runnable(env, fs, p, snapshots)
    ensures MetadataAnswers(p) ==>
              rows == Some([CountRow(p.aggregate.value.aggregates[0].alias, |AllVisible(snapshots)|)])
    ensures !MetadataAnswers(p) ==>
              rows == Coordinate(env, p, Batch(env, p, AllVisible(AllRead(fs, p, snapshots))), maxRows)
  {
    rows := MetadataCount(p, snapshots);
    if rows.Some? {
      return;
    }
    ghost var all := AllVisible(AllRead(fs, p, snapshots));
    if p.aggregate.Some? {
      var batch := Aggregated(env, fs, p, snapshots);
      return Coordinate(env, p, batch, maxRows);
    }
    assert Batch(env, p, all) == Some(Scanned(env, p, all));
    assert p.rename.Some? ==> SourcesWithin(p.rename.value, p.projection);
    var combined := RunScan(env, fs, p, snapshots);
    hide Scanned, Batch, AllVisible, Coordinate, AllRead;
    if p.IsStreamingLimit() {
      CoordinateFetched(env, p, combined, Scanned(env, p, all), maxRows);
    }
    rows := Coordinate(env, p, Some(combined), maxRows);
  }

  lemma BuiltConsistent(types: Types, v: Validated, p: PhysicalPlan)
    requires Checked(types, v) && BuildOf(v) == Some(p)
    ensures Consistent(p)
  {
    var q, d := v.query, DraftOf(v.query).value;
    DraftFits(q, d);
    BelowDraft(types, q, d);
    assert PlanOf(d, p.output) == Some(p) && d.columns != [];
    hide DraftOf, Resolved, OutputOf;
    BuiltFrom(Below(q), DraftOf(Below(q)).value, d, p);
  }

  lemma BuiltFrom(q: Query, d0: Draft, d: Draft, p: PhysicalPlan)
    requires Fits(d0, q) && d == d0.(limit := d.limit, offset := d.offset, stage := d.stage) && d.columns != []
    requires PlanOf(d, p.output) == Some(p)
    ensures Consistent(p)
  {
    assert Needed(d) == Needed(d0);
    var p0 := p.(limit := d0.limit, offset := d0.offset);
    assert PlanOf(d0, p0.output) == Some(p0);
    PlanLowers(q, d0, p0);
    hide Projection, Columns, SpecColumns, Needed, Fits;
  }

  /** Rejected when the plan does not fit the pipeline; failed when execution reports an error. */
  datatype Reply = Rejected | Failed | Answered(rows: seq<Row>)

  /** What a caller can check on a plan before running it: no JSON column is compared; a count from metadata keeps
      its row and its name; otherwise the limits amount to the tightest of them, and a projection above an
      aggregation is labelled right. */
  predicate Trustworthy(schema: seq<ColumnSchema>, types: Types, q: Query, p: PhysicalPlan, maxRows: nat) {
    if MetadataAnswers(p) then CountUnchanged(q, p, p.aggregate.value.aggregates[0].alias, maxRows)
    else JsonFree(schema, p.pruning) && LimitsAgree(q) && LabelsRight(types, p)
  }

  /** In particular, a plan over a table without JSON columns is trustworthy when it does not answer a count from
      metadata, no limit above another one skips rows, and nothing is projected above an aggregation. */
  lemma UsuallyTrustworthy(schema: seq<ColumnSchema>, types: Types, q: Query, p: PhysicalPlan, maxRows: nat)
    requires forall i :: 0 <= i < |schema| ==> !schema[i].dataType.TJson?
    requires !MetadataAnswers(p) && OuterOffsetsZero(q) && (p.aggregate == None || p.rename == None)
    ensures Trustworthy(schema, types, q, p, maxRows)
  {
    ZeroOffsetsAgree(q);
    forall i | 0 <= i < |p.pruning| && Find(schema, p.pruning[i].column).Some?
      ensures !Find(schema, p.pruning[i].column).value.dataType.TJson?
    {
      FoundWithin(schema, p.pruning[i].column);
    }
    hide LimitsAgree, Find, MetadataAnswers, OuterOffsetsZero;
  }

  lemma {:induction false} FoundWithin(schema: seq<ColumnSchema>, name: string)
    requires Find(schema, name).Some?
    ensures exists i :: 0 <= i < |schema| && schema[i] == Find(schema, name).value
  {
    if schema[|schema| - 1].name != name {
      FoundWithin(schema[..|schema| - 1], name);
      var i :| 0 <= i < |schema| - 1 && schema[..|schema| - 1][i] == Find(schema, name).value;
      assert schema[i] == Find(schema, name).value;
    }
  }

  lemma SameBatchRead(env: Env, fs: Filters, schema: seq<ColumnSchema>, p: PhysicalPlan, snapshots: seq<Snapshot>)
    requires Consistent(p) && AllPrunable(fs, schema, p, snapshots) && JsonFree(schema, p.pruning)
    ensures Batch(env, p, AllVisible(AllRead(fs, p, snapshots))) == Batch(env, p, AllVisible(snapshots))
  {
    PruningInvisible(env, fs, schema, p, snapshots);
    hide Scanned, AllVisible, AllRead, Results, ResultBatch;
  }

  /** Answers a validated query over the partitions' visible rows, partition after partition. The answer is what
      the plan means, if the plan is trustworthy, which does not depend on the data. */
  method Answer(env: Env, fs: Filters, ghost schema: seq<ColumnSchema>, v: Validated, snapshots: seq<Snapshot>,
                maxRows: nat)
    returns (r: Reply)
    requires Checked(env.types, v) && GoodEnv(env) && TableTyped(env.types, AllVisible(snapshots))
    requires |Denote(env, Below(v.query), AllVisible(snapshots))| <= USIZE_MAX
    requires BuildOf(v).Some? ==>
               Runnable(env, fs, BuildOf(v).value, snapshots) && AllPrunable(fs, schema, BuildOf(v).value, snapshots)
    ensures r == Rejected <==> BuildOf(v) == None
    ensures BuildOf(v).Some? && Trustworthy(schema, env.types, v.query, BuildOf(v).value, maxRows) ==>
              r == Answered(Meaning(env, v.query, AllVisible(snapshots), maxRows))
  {
    var built := Build(v);
    if built == None {
      return Rejected;
    }
    var p := built.value;
    BuiltConsistent(env.types, v, p);
    var rows := Execute(env, fs, p, snapshots, maxRows);
    ghost var all := AllVisible(snapshots);
    r := if rows.Some? then Answered(rows.value) else Failed;
    hide Runnable, Checked, Denote, Coordinate, Batch, BuildOf, AllVisible, MetadataAnswers, LabelsRight, TableTyped,
         LimitsAgree, JsonFree, AllPrunable, Consistent, AllRead;
    if Trustworthy(schema, env.types, v.query, p, maxRows) {
      if MetadataAnswers(p) {
        MetadataCountExact(env, v, p, all, maxRows);
      } else {
        SameBatchRead(env, fs, schema, p, snapshots);
        LoweringPreservesMeaning(env, v, p, all, maxRows);
      }
    }
  }
}
