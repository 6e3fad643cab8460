/** Compaction of a partition, the segments selected by policy: why repeating it comes to rest without ever
    changing what the partition shows (crates/adb-storage/src/table.rs: segment_facts, compact). */
module Convergence {
  import opened Values
  import opened PartitionState
  import opened Rewriting
  import opened Visibility
  import opened Crash
  import opened SegmentList
  import opened Runs
  import opened Compaction

  // ---------------------------------------------------------------- the facts of a partition

  function SegmentIds(st: Store): set<nat> { set src | src in st && src.Segment? :: src.id }

  /** The segments, oldest first. */
  function SegmentsOf(s: State): (srcs: seq<Source>)
    ensures Distinct(srcs) && forall src :: src in srcs <==> src in s.store && src.Segment? && src.id < s.next
    ensures forall i :: 0 <= i < |srcs| ==> srcs[i] in s.store && srcs[i].Segment?
  {
    var srcs := Ascending(SegmentIds(s.store), s.next);
    assert forall i :: 0 <= i < |srcs| ==> srcs[i] in srcs;
    srcs
  }

  /** What the policy sees of a segment, given the size of a segment file. */
  function FactOf(st: Store, size: seq<Row> -> nat, src: Source): Facts
    requires src in st && src.Segment?
  {
    Facts(src.id, |st[src].rows|, size(st[src].rows), |st[src].dead|)
  }

  function FactsOf(s: State, size: seq<Row> -> nat): (facts: seq<Facts>)
    ensures |facts| == |SegmentsOf(s)|
  {
    var srcs := SegmentsOf(s);
    seq(|srcs|, i requires 0 <= i < |srcs| => FactOf(s.store, size, srcs[i]))
  }

  function Ids(facts: seq<Facts>): set<nat> { set f | f in facts :: f.id }

  /** The segments to merge. */
  function Selected(s: State, size: seq<Row> -> nat, p: Policy): set<nat> { Ids(Chosen(FactsOf(s, size), p)) }

  /** The segment a compaction writes, unless nothing is left. */
  function MergedFacts(s: State, size: seq<Row> -> nat, ids: set<nat>): seq<Facts> {
    var rows := CompactRows(s, ids);
    if rows == [] then [] else [Facts(s.next, |rows|, size(rows), 0)]
  }

  /** The facts as they are read off the segment vector. */
  lemma VectorFacts(segs: seq<SegmentEntry>, files: map<Source, seq<Row>>, s: State, size: seq<Row> -> nat)
    requires Represents(segs, files, s.store) && IdsBelow(s.store, s.next)
    ensures |FactsOf(s, size)| == |segs|
    ensures forall i :: 0 <= i < |segs| ==>
              Segment(segs[i].id) in files
              && FactsOf(s, size)[i] ==
                 Facts(segs[i].id, segs[i].rowCount, size(files[Segment(segs[i].id)]), |segs[i].suppressed|)
  {
    forall i | 0 <= i < |segs|
      ensures segs[i].id in SegmentIds(s.store) && segs[i].id < s.next
    {
      assert Segment(segs[i].id) in s.store;
    }
    AscendingEntries(segs, SegmentIds(s.store), s.next);
    assert SegmentsOf(s) == SegmentList.Sources(segs);
  }

  // ---------------------------------------------------------------- one compaction

  predicate HasFact(s: State, size: seq<Row> -> nat, f: Facts) {
    Segment(f.id) in s.store && FactOf(s.store, size, Segment(f.id)) == f
  }

  /** Each segment has one entry. */
  lemma FactCount(s: State, size: seq<Row> -> nat, f: Facts)
    requires IdsBelow(s.store, s.next)
    ensures multiset(FactsOf(s, size))[f] == if HasFact(s, size, f) then 1 else 0
  {
    var srcs, facts := SegmentsOf(s), FactsOf(s, size);
    assert Segment(f.id) in s.store ==> f.id in SegmentIds(s.store);
    CountOnce(facts, f);
    if HasFact(s, size, f) {
      var i :| 0 <= i < |srcs| && srcs[i] == Segment(f.id);
      assert facts[i] == f;
    }
  }

  lemma {:induction false} CountOnce(facts: seq<Facts>, f: Facts)
    requires forall i, j :: 0 <= i < j < |facts| ==> facts[i] != facts[j]
    ensures multiset(facts)[f] == if f in facts then 1 else 0
  {
    if facts != [] {
      var n := |facts| - 1;
      assert facts == facts[..n] + [facts[n]];
      CountOnce(facts[..n], f);
    }
  }

  /** Compacting the selected segments takes their facts away and adds those of the merged segment. */
  lemma CompactRewrites(s: State, size: seq<Row> -> nat, p: Policy)
    requires Valid(s)
    ensures var ids := Selected(s, size, p);
            Rewrites(FactsOf(s, size), FactsOf(CompactState(s, ids), size), Chosen(FactsOf(s, size), p),
                     MergedFacts(s, size, ids))
  {
    var ids := Selected(s, size, p);
    var fs, chosen, fs', merged := FactsOf(s, size), Chosen(FactsOf(s, size), p), FactsOf(CompactState(s, ids), size),
      MergedFacts(s, size, ids);
    hide *;
    forall f: Facts
      ensures multiset(fs')[f] + multiset(chosen)[f] == multiset(fs)[f] + multiset(merged)[f]
    {
      FactMoves(s, size, p, f);
    }
    SameCounts(fs', chosen, fs, merged);
    MergedFresh(s, size, ids, fs', chosen, fs);
  }

  lemma SameCounts(a: seq<Facts>, b: seq<Facts>, c: seq<Facts>, d: seq<Facts>)
    requires forall f: Facts :: multiset(a)[f] + multiset(b)[f] == multiset(c)[f] + multiset(d)[f]
    ensures multiset(a) + multiset(b) == multiset(c) + multiset(d)
  {
  }

  lemma MergedFresh(s: State, size: seq<Row> -> nat, ids: set<nat>, fs': seq<Facts>, chosen: seq<Facts>, fs: seq<Facts>)
    requires multiset(fs') + multiset(chosen) == multiset(fs) + multiset(MergedFacts(s, size, ids))
    ensures Rewrites(fs, fs', chosen, MergedFacts(s, size, ids))
  {
  }

  lemma FactMoves(s: State, size: seq<Row> -> nat, p: Policy, f: Facts)
    requires Valid(s)
    ensures var ids := Selected(s, size, p);
            multiset(FactsOf(CompactState(s, ids), size))[f] + multiset(Chosen(FactsOf(s, size), p))[f] ==
            multiset(FactsOf(s, size))[f] + multiset(MergedFacts(s, size, ids))[f]
  {
    var ids := Selected(s, size, p);
    CompactValid(s, ids);
    assert IdsBelow(s.store, s.next) && IdsBelow(CompactState(s, ids).store, CompactState(s, ids).next);
    hide *;
    FactCount(s, size, f);
    FactCount(CompactState(s, ids), size, f);
    ChosenCount(s, size, p, f);
    CompactFact(s, size, ids, f);
  }

  lemma ChosenCount(s: State, size: seq<Row> -> nat, p: Policy, f: Facts)
    requires Valid(s)
    ensures multiset(Chosen(FactsOf(s, size), p))[f] == if HasFact(s, size, f) && f.id in Selected(s, size, p) then 1
            else 0
  {
    var chosen := Chosen(FactsOf(s, size), p);
    ChosenWithin(FactsOf(s, size), p);
    FactCount(s, size, f);
    hide FactsOf, Chosen;
    if HasFact(s, size, f) && f.id in Selected(s, size, p) {
      var g :| g in chosen && g.id == f.id;
      FactCount(s, size, g);
      assert g in multiset(chosen);
      assert g == f;
    } else {
      assert f in multiset(chosen) ==> f in chosen && f in multiset(FactsOf(s, size));
    }
  }

  /** A compaction takes away the segments of `ids`, adds the merged one, and leaves the others alone. */
  lemma CompactStore(s: State, ids: set<nat>, id: nat)
    requires Valid(s)
    ensures var t, src := CompactState(s, ids), Segment(id);
            && (id == s.next ==> src !in s.store)
            && (src in t.store <==> (src in s.store && id !in ids) || (id == s.next && CompactRows(s, ids) != []))
            && (src in t.store && id != s.next ==> t.store[src] == s.store[src])
            && (src in t.store && id == s.next ==> t.store[src] == Rows(CompactRows(s, ids), {}))
  {
    var srcs := Inputs(s, ids);
    assert Segment(id) in srcs <==> Segment(id) in s.store && id in ids;
    if srcs == [] {
      assert CompactRows(s, ids) == [];
    }
    hide RowsAt, Gather, MergeIndex, Ascending;
  }

  lemma CompactFact(s: State, size: seq<Row> -> nat, ids: set<nat>, f: Facts)
    requires Valid(s)
    ensures (if HasFact(CompactState(s, ids), size, f) then 1 else 0)
            + (if HasFact(s, size, f) && f.id in ids then 1 else 0) ==
            (if HasFact(s, size, f) then 1 else 0) + multiset(MergedFacts(s, size, ids))[f]
  {
    CompactStore(s, ids, f.id);
    hide CompactState, CompactRows, Valid;
  }

  // ---------------------------------------------------------------- repeated compaction

  /** Compacting what the policy selects, again and again until it selects nothing. That happens whenever the
      ratio is positive, and the partition shows the same rows all along. */
  ghost function Settled(s: State, size: seq<Row> -> nat, p: Policy): (r: State)
    requires Valid(s) && p.suppressedRatio > 0.0
    ensures Valid(r) && Chosen(FactsOf(r, size), p) == [] && Observe(r) == Observe(s)
    decreases Weight(FactsOf(s, size), p)
  {
    if Chosen(FactsOf(s, size), p) == [] then s
    else
      CompactedLighter(s, size, p);
      Settled(CompactState(s, Selected(s, size, p)), size, p)
  }

  /** One compaction selected by policy shows the same rows and leaves less to compact. */
  lemma CompactedLighter(s: State, size: seq<Row> -> nat, p: Policy)
    requires Valid(s) && p.suppressedRatio > 0.0 && Chosen(FactsOf(s, size), p) != []
    ensures var t := CompactState(s, Selected(s, size, p));
            Valid(t) && Observe(t) == Observe(s) && Weight(FactsOf(t, size), p) < Weight(FactsOf(s, size), p)
  {
    var ids := Selected(s, size, p);
    hide *;
    CompactValid(s, ids);
    CompactInvisible(s, ids);
    CompactRewrites(s, size, p);
    CompactionLowersWeight(FactsOf(s, size), FactsOf(CompactState(s, ids), size), MergedFacts(s, size, ids), p);
  }
}
