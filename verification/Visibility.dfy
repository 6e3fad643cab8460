/** What a scan of one partition sees, and why flush and compaction do not change it
    (crates/adb-exec/src/scan.rs: scan_partition; crates/adb-storage/src/table.rs: flush_locked, compact_locked). */
module Visibility {
  import opened Values
  import opened PartitionState
  import opened Rewriting

  function SegmentsBelow(n: nat): (srcs: seq<Source>)
    ensures |srcs| == n && forall i :: 0 <= i < n ==> srcs[i] == Segment(i)
  {
    if n == 0 then [] else SegmentsBelow(n - 1) + [Segment(n - 1)]
  }

  /** Segments oldest first, then the memtable. */
  function ScanOrder(n: nat): seq<Source> { SegmentsBelow(n) + [Memtable] }

  /** The rows a full scan returns, in scan order; segment ids are below `n`. */
  function Visible(st: Store, n: nat): seq<Row> { RowsAt(st, Gather(st, ScanOrder(n))) }

  // ---------------------------------------------------------------- sequences of addresses

  lemma {:induction false} GatherConcat(st: Store, a: seq<Source>, b: seq<Source>)
    ensures Gather(st, a + b) == Gather(st, a) + Gather(st, b)
  {
    if b == [] {
      assert a + b == a;
    } else {
      var n := |b| - 1;
      assert (a + b)[..|a + b| - 1] == a + b[..n];
      GatherConcat(st, a, b[..n]);
    }
  }

  lemma RowsConcat(st: Store, a: seq<Locator>, b: seq<Locator>)
    ensures RowsAt(st, a + b) == RowsAt(st, a) + RowsAt(st, b)
  {
  }

  // ---------------------------------------------------------------- the parts of a scan

  /** Live rows of one source. */
  function SourceRows(st: Store, src: Source): seq<Row> { RowsAt(st, LiveIn(st, src)) }

  /** Live rows of the segments below `n`, in scan order. */
  function SegmentRows(st: Store, n: nat): seq<Row> { RowsAt(st, Gather(st, SegmentsBelow(n))) }

  lemma OneSource(st: Store, src: Source)
    ensures Gather(st, [src]) == LiveIn(st, src)
  {
    assert [src][..0] == [];
  }

  lemma VisibleParts(st: Store, n: nat)
    ensures Visible(st, n) == SegmentRows(st, n) + SourceRows(st, Memtable)
    ensures SegmentRows(st, n + 1) == SegmentRows(st, n) + SourceRows(st, Segment(n))
  {
    GatherConcat(st, SegmentsBelow(n), [Memtable]);
    OneSource(st, Memtable);
    RowsConcat(st, Gather(st, SegmentsBelow(n)), LiveIn(st, Memtable));
    RowsConcat(st, Gather(st, SegmentsBelow(n)), LiveIn(st, Segment(n)));
    assert SegmentsBelow(n + 1)[..n] == SegmentsBelow(n);
  }

  lemma {:induction false} SegmentRowsSame(st: Store, st': Store, n: nat)
    requires forall i :: 0 <= i < n ==> (Segment(i) in st <==> Segment(i) in st')
    requires forall i :: 0 <= i < n && Segment(i) in st ==> st[Segment(i)] == st'[Segment(i)]
    ensures SegmentRows(st, n) == SegmentRows(st', n)
  {
    if n > 0 {
      SegmentRowsSame(st, st', n - 1);
      VisibleParts(st, n - 1);
      VisibleParts(st', n - 1);
      SourceRowsSame(st, st', Segment(n - 1));
    }
  }

  lemma SourceRowsSame(st: Store, st': Store, src: Source)
    requires src in st <==> src in st'
    requires src in st ==> st[src] == st'[src]
    ensures SourceRows(st, src) == SourceRows(st', src)
  {
  }

  lemma {:induction false} AllKept(n: nat)
    ensures |Kept(n, {})| == n && forall i :: 0 <= i < n ==> Kept(n, {})[i] == i
  {
    if n > 0 {
      AllKept(n - 1);
    }
  }

  lemma NothingSuppressed(st: Store, src: Source)
    requires src in st && st[src].dead == {}
    ensures SourceRows(st, src) == st[src].rows
  {
    AllKept(|st[src].rows|);
  }

  lemma MergedRows(st: Store, srcs: seq<Source>, n: nat)
    requires IdsBelow(st, n)
    ensures var st' := Merge(st, srcs, n);
            SourceRows(st', Segment(n)) == RowsAt(st, Gather(st, srcs))
  {
    var st' := Merge(st, srcs, n);
    if Gather(st, srcs) != [] {
      NothingSuppressed(st', Segment(n));
    } else {
      assert LiveIn(st', Segment(n)) == [];
    }
  }

  lemma FlushParts(st: Store, n: nat)
    requires IdsBelow(st, n)
    ensures var st' := Merge(st, [Memtable], n);
            && SegmentRows(st', n) == SegmentRows(st, n)
            && SourceRows(st', Segment(n)) == SourceRows(st, Memtable)
            && SourceRows(st', Memtable) == []
  {
    var st' := Merge(st, [Memtable], n);
    SegmentRowsSame(st, st', n);
    MergedRows(st, [Memtable], n);
    OneSource(st, Memtable);
    NothingSuppressed(st', Memtable);
  }

  /** A flush leaves the sequence of visible rows as it was. */
  lemma FlushVisible(st: Store, n: nat)
    requires IdsBelow(st, n)
    ensures Visible(Merge(st, [Memtable], n), n + 1) == Visible(st, n)
  {
    hide *;
    var st' := Merge(st, [Memtable], n);
    FlushParts(st, n);
    VisibleParts(st, n);
    VisibleParts(st', n);
    VisibleParts(st', n + 1);
    assert Visible(st', n + 1) == SegmentRows(st', n) + SourceRows(st', Segment(n)) + [];
  }

  /** So does a flush that finds nothing live to write out. */
  lemma EmptyFlushVisible(st: Store, n: nat)
    requires IdsBelow(st, n) && Gather(st, [Memtable]) == []
    ensures Visible(Merge(st, [Memtable], n), n) == Visible(st, n)
  {
    FlushParts(st, n);
    OneSource(st, Memtable);
    VisibleParts(st, n);
    VisibleParts(Merge(st, [Memtable], n), n);
  }

  // ---------------------------------------------------------------- compaction keeps the bag of rows

  /** The segments with an id in `ids` and below `n`, oldest first. */
  function Ascending(ids: set<nat>, n: nat): (srcs: seq<Source>)
    ensures forall src :: src in srcs <==> src.Segment? && src.id in ids && src.id < n
    ensures Distinct(srcs)
  {
    if n == 0 then [] else Ascending(ids, n - 1) + (if n - 1 in ids then [Segment(n - 1)] else [])
  }

  ghost function BagOf(rows: seq<Row>): multiset<Row> { multiset(rows) }

  /** One more segment: it is either gathered or left behind. */
  lemma BagStep(all: seq<Row>, gathered: seq<Row>, left: seq<Row>, x: seq<Row>, taken: bool)
    requires BagOf(all) == BagOf(gathered) + BagOf(left)
    ensures BagOf(all + x) == BagOf(gathered + if taken then x else []) + BagOf(left + if taken then [] else x)
  {
    assert gathered + [] == gathered && left + [] == left;
  }

  lemma CompactBagStep(st: Store, left: Store, ids: set<nat>, m: nat)
    requires BagOf(SegmentRows(st, m)) == BagOf(RowsAt(st, Gather(st, Ascending(ids, m)))) + BagOf(SegmentRows(left, m))
    requires SourceRows(left, Segment(m)) == if m in ids then [] else SourceRows(st, Segment(m))
    ensures BagOf(SegmentRows(st, m + 1)) ==
            BagOf(RowsAt(st, Gather(st, Ascending(ids, m + 1)))) + BagOf(SegmentRows(left, m + 1))
  {
    hide *;
    VisibleParts(st, m);
    VisibleParts(left, m);
    GatherStep(st, ids, m + 1);
    BagStep(SegmentRows(st, m), RowsAt(st, Gather(st, Ascending(ids, m))), SegmentRows(left, m),
            SourceRows(st, Segment(m)), m in ids);
  }

  lemma CompactBagNone(st: Store, left: Store, ids: set<nat>)
    ensures BagOf(SegmentRows(st, 0)) == BagOf(RowsAt(st, Gather(st, Ascending(ids, 0)))) + BagOf(SegmentRows(left, 0))
  {
    assert SegmentRows(st, 0) == [] && SegmentRows(left, 0) == [] && RowsAt(st, Gather(st, Ascending(ids, 0))) == [];
  }

  /** `left` is what remains of `st` once the segments in `ids` are gathered. */
  lemma {:induction false} CompactBag(st: Store, left: Store, ids: set<nat>, m: nat)
    requires forall i :: 0 <= i < m ==>
               SourceRows(left, Segment(i)) == if i in ids then [] else SourceRows(st, Segment(i))
    ensures BagOf(SegmentRows(st, m)) == BagOf(RowsAt(st, Gather(st, Ascending(ids, m)))) + BagOf(SegmentRows(left, m))
  {
    hide *;
    if m == 0 {
      CompactBagNone(st, left, ids);
    } else {
      CompactBag(st, left, ids, m - 1);
      CompactBagStep(st, left, ids, m - 1);
    }
  }

  lemma GatherStep(st: Store, ids: set<nat>, m: nat)
    requires m > 0
    ensures RowsAt(st, Gather(st, Ascending(ids, m))) ==
            RowsAt(st, Gather(st, Ascending(ids, m - 1))) +
            (if m - 1 in ids then SourceRows(st, Segment(m - 1)) else [])
  {
    if m - 1 in ids {
      GatherConcat(st, Ascending(ids, m - 1), [Segment(m - 1)]);
      OneSource(st, Segment(m - 1));
      RowsConcat(st, Gather(st, Ascending(ids, m - 1)), LiveIn(st, Segment(m - 1)));
    } else {
      assert Ascending(ids, m) == Ascending(ids, m - 1);
    }
  }

  lemma VacatedSource(st: Store, srcs: seq<Source>, src: Source)
    requires src != Memtable
    ensures SourceRows(Vacate(st, srcs), src) ==
            if src in srcs then [] else SourceRows(st, src)
  {
    if src !in srcs {
      SourceRowsSame(st, Vacate(st, srcs), src);
    }
  }

  lemma MergeSplits(st: Store, srcs: seq<Source>, n: nat)
    requires IdsBelow(st, n) && Memtable !in srcs
    ensures Visible(Merge(st, srcs, n), n + 1) ==
            SegmentRows(Vacate(st, srcs), n) + RowsAt(st, Gather(st, srcs)) + SourceRows(st, Memtable)
  {
    var st' := Merge(st, srcs, n);
    VisibleParts(st', n);
    VisibleParts(st', n + 1);
    MergedRows(st, srcs, n);
    MergeKeeps(st, srcs, n);
    hide *;
    SegmentRowsSame(Vacate(st, srcs), st', n);
    SourceRowsSame(st, st', Memtable);
  }

  /** A merge leaves every source it does not take alone. */
  lemma MergeKeeps(st: Store, srcs: seq<Source>, n: nat)
    requires IdsBelow(st, n) && Memtable !in srcs
    ensures Memtable in Merge(st, srcs, n) && Merge(st, srcs, n)[Memtable] == st[Memtable]
    ensures forall i :: 0 <= i < n ==> (Segment(i) in Vacate(st, srcs) <==> Segment(i) in Merge(st, srcs, n))
    ensures forall i :: 0 <= i < n && Segment(i) in Vacate(st, srcs) ==>
              Vacate(st, srcs)[Segment(i)] == Merge(st, srcs, n)[Segment(i)]
  {
  }

  lemma BagConcat(a: seq<Row>, b: seq<Row>)
    ensures BagOf(a + b) == BagOf(a) + BagOf(b)
  {
  }

  /** Compaction leaves the bag of visible rows as it was. */
  lemma CompactVisible(st: Store, ids: set<nat>, n: nat)
    requires IdsBelow(st, n)
    ensures multiset(Visible(Merge(st, Ascending(ids, n), n), n + 1)) == multiset(Visible(st, n))
  {
    var srcs := Ascending(ids, n);
    forall i | 0 <= i < n
      ensures SourceRows(Vacate(st, srcs), Segment(i)) == if i in ids then [] else SourceRows(st, Segment(i))
    {
      VacatedSource(st, srcs, Segment(i));
    }
    VisibleBag(st, Vacate(st, srcs), Merge(st, srcs, n), ids, n) by {
      MergeSplits(st, srcs, n);
    }
  }

  lemma VisibleBag(st: Store, left: Store, st': Store, ids: set<nat>, n: nat)
    requires forall i :: 0 <= i < n ==>
               SourceRows(left, Segment(i)) == if i in ids then [] else SourceRows(st, Segment(i))
    requires Visible(st', n + 1) ==
             SegmentRows(left, n) + RowsAt(st, Gather(st, Ascending(ids, n))) + SourceRows(st, Memtable)
    ensures BagOf(Visible(st', n + 1)) == BagOf(Visible(st, n))
  {
    hide *;
    var taken := RowsAt(st, Gather(st, Ascending(ids, n)));
    CompactBag(st, left, ids, n);
    VisibleParts(st, n);
    BagConcat(SegmentRows(st, n), SourceRows(st, Memtable));
    BagConcat(SegmentRows(left, n), taken);
    BagConcat(SegmentRows(left, n) + taken, SourceRows(st, Memtable));
  }

  // ---------------------------------------------------------------- the scan and the map agree

  /** A scan of a keyed partition returns each key's row once, and nothing else. */
  lemma VisibleIsView(pk: seq<string>, st: Store, ix: Index, n: nat)
    requires Indexed(pk, st, ix) && IdsBelow(st, n)
    ensures |Visible(st, n)| == |View(st, ix)|
    ensures forall p :: 0 <= p < |Visible(st, n)| ==>
              var k := KeyAt(pk, Visible(st, n)[p]); k in View(st, ix) && View(st, ix)[k] == Visible(st, n)[p]
    ensures Distinct(KeysAt(pk, Visible(st, n)))
    ensures forall k :: k in View(st, ix) ==> k in KeysAt(pk, Visible(st, n))
  {
    var locs := Gather(st, ScanOrder(n));
    var keys := KeysAt(pk, Visible(st, n));
    GatherPoints(pk, st, ix, ScanOrder(n));
    GatherDistinct(st, ScanOrder(n));
    forall k | k in ix
      ensures k in keys
    {
      GatherMembers(st, ScanOrder(n), ix[k]);
      assert ix[k].source in ScanOrder(n) by {
        if ix[k].source.Segment? { assert ScanOrder(n)[ix[k].source.id] == ix[k].source; }
          else { assert ScanOrder(n)[n] == Memtable; }
      }
      var p :| 0 <= p < |locs| && locs[p] == ix[k];
      assert keys[p] == k;
    }
    DistinctCardinality(keys, ix.Keys);
    assert View(st, ix).Keys == ix.Keys;
  }

  lemma {:induction false} DistinctCardinality<T>(xs: seq<T>, members: set<T>)
    requires Distinct(xs)
    requires forall x :: x in members <==> x in xs
    ensures |xs| == |members|
  {
    if xs == [] {
      assert members == {};
    } else {
      var last := xs[|xs| - 1];
      assert xs == xs[..|xs| - 1] + [last];
      DistinctCardinality(xs[..|xs| - 1], members - {last});
    }
  }
}
