/** Moving live rows into a new segment: what flush and compaction both do
    (crates/adb-storage/src/table.rs: flush_locked, compact_locked; keyindex.rs: relocate). */
module Rewriting {
  import opened Values
  import opened PartitionState

  /** The ordinals below `n` that are not suppressed, ascending. */
  function Kept(n: nat, dead: set<nat>): seq<nat> {
    if n == 0 then [] else Kept(n - 1, dead) + (if n - 1 in dead then [] else [n - 1])
  }

  /** The live addresses of one source, in ordinal order. */
  function LiveIn(st: Store, src: Source): seq<Locator> {
    if src in st then
      var kept := Kept(|st[src].rows|, st[src].dead);
      seq(|kept|, i requires 0 <= i < |kept| => Locator(src, kept[i]))
    else []
  }

  /** The live addresses of several sources, source after source. */
  function Gather(st: Store, srcs: seq<Source>): seq<Locator> {
    if srcs == [] then [] else Gather(st, srcs[..|srcs| - 1]) + LiveIn(st, srcs[|srcs| - 1])
  }

  function RowsAt(st: Store, locs: seq<Locator>): (rows: seq<Row>)
    ensures |rows| == |locs|
    ensures forall p :: 0 <= p < |locs| ==> rows[p] == RowAt(st, locs[p])
  {
    seq(|locs|, p requires 0 <= p < |locs| => RowAt(st, locs[p]))
  }

  /** Moves a key only if it still points at `from`. */
  function Relocate(ix: Index, k: RowKey, from: Locator, to: Locator): Index {
    if k in ix && ix[k] == from then ix[k := to] else ix
  }

  /** Relocates the first `n` keys, from the gathered addresses to the ordinals of segment `id`. */
  function RelocateTo(ix: Index, keys: seq<RowKey>, locs: seq<Locator>, id: nat, n: nat): Index
    requires n <= |locs| == |keys|
  {
    if n == 0 then ix
    else Relocate(RelocateTo(ix, keys, locs, id, n - 1), keys[n - 1], locs[n - 1], Locator(Segment(id), n - 1))
  }

  function KeysAt(pk: seq<string>, rows: seq<Row>): (keys: seq<RowKey>)
    ensures |keys| == |rows|
    ensures forall p :: 0 <= p < |rows| ==> keys[p] == KeyAt(pk, rows[p])
  {
    seq(|rows|, p requires 0 <= p < |rows| => KeyAt(pk, rows[p]))
  }

  /** Empties the given sources: a segment disappears, the memtable is cleared. */
  function Vacate(st: Store, srcs: seq<Source>): Store {
    map src | src in st && (src == Memtable || src !in srcs) :: if src in srcs then Rows([], {}) else st[src]
  }

  /** Merges the live rows of `srcs` into segment `id`; no segment is made when none is live. */
  function Merge(st: Store, srcs: seq<Source>, id: nat): Store {
    var locs := Gather(st, srcs);
    if locs == [] then Vacate(st, srcs) else Vacate(st, srcs)[Segment(id) := Rows(RowsAt(st, locs), {})]
  }

  function MergeIndex(pk: seq<string>, st: Store, ix: Index, srcs: seq<Source>, id: nat): Index {
    if pk == [] then ix
    else var locs := Gather(st, srcs); RelocateTo(ix, KeysAt(pk, RowsAt(st, locs)), locs, id, |locs|)
  }

  ghost predicate Distinct<T>(xs: seq<T>) {
    forall i, j :: 0 <= i < j < |xs| ==> xs[i] != xs[j]
  }

  // ---------------------------------------------------------------- gathered addresses

  lemma {:induction false} KeptMembers(n: nat, dead: set<nat>)
    ensures forall o: nat :: o in Kept(n, dead) <==> o < n && o !in dead
    ensures forall i, j :: 0 <= i < j < |Kept(n, dead)| ==> Kept(n, dead)[i] < Kept(n, dead)[j]
  {
    if n > 0 {
      KeptMembers(n - 1, dead);
      var prior := Kept(n - 1, dead);
      assert forall i :: 0 <= i < |prior| ==> prior[i] in prior;
    }
  }

  lemma LiveInMembers(st: Store, src: Source, l: Locator)
    ensures l in LiveIn(st, src) <==> Live(st, l) && l.source == src
    ensures Distinct(LiveIn(st, src))
  {
    if src in st {
      var kept := Kept(|st[src].rows|, st[src].dead);
      KeptMembers(|st[src].rows|, st[src].dead);
      assert forall i :: 0 <= i < |kept| ==> LiveIn(st, src)[i] == Locator(src, kept[i]) && kept[i] in kept;
      if Live(st, l) && l.source == src {
        var i :| 0 <= i < |kept| && kept[i] == l.ordinal;
        assert LiveIn(st, src)[i] == l;
      }
    }
  }

  lemma {:induction false} GatherMembers(st: Store, srcs: seq<Source>, l: Locator)
    ensures l in Gather(st, srcs) <==> Live(st, l) && l.source in srcs
  {
    if srcs != [] {
      GatherMembers(st, srcs[..|srcs| - 1], l);
      LiveInMembers(st, srcs[|srcs| - 1], l);
    }
  }

  lemma {:induction false} GatherDistinct(st: Store, srcs: seq<Source>)
    requires Distinct(srcs)
    ensures Distinct(Gather(st, srcs))
  {
    if srcs != [] {
      var init, last := srcs[..|srcs| - 1], srcs[|srcs| - 1];
      GatherDistinct(st, init);
      forall l: Locator
        ensures l in Gather(st, init) ==> l.source in init
        ensures l in LiveIn(st, last) ==> l.source == last
        ensures Distinct(LiveIn(st, last))
      {
        GatherMembers(st, init, l);
        LiveInMembers(st, last, l);
      }
      assert last !in init;
      ConcatDistinct(Gather(st, init), LiveIn(st, last));
    }
  }

  lemma ConcatDistinct<T>(a: seq<T>, b: seq<T>)
    requires Distinct(a) && Distinct(b)
    requires forall x :: x in a ==> x !in b
    ensures Distinct(a + b)
  {
    forall i, j | 0 <= i < j < |a + b|
      ensures (a + b)[i] != (a + b)[j]
    {
      assert i < |a| ==> (a + b)[i] in a;
      assert j >= |a| ==> (a + b)[j] in b;
    }
  }

  // ---------------------------------------------------------------- the merged store

  lemma MergeLive(st: Store, srcs: seq<Source>, id: nat, l: Locator)
    requires IdsBelow(st, id)
    ensures var locs := Gather(st, srcs);
            Live(Merge(st, srcs, id), l) <==>
            (Live(st, l) && l.source !in srcs) || (l.source == Segment(id) && l.ordinal < |locs|)
    ensures Live(st, l) && l.source !in srcs ==> RowAt(Merge(st, srcs, id), l) == RowAt(st, l)
    ensures l.source == Segment(id) && l.ordinal < |Gather(st, srcs)| ==>
              RowAt(Merge(st, srcs, id), l) == RowAt(st, Gather(st, srcs)[l.ordinal])
  {
  }

  lemma MergeRange(st: Store, srcs: seq<Source>, id: nat)
    requires DeadInRange(st) && IdsBelow(st, id)
    ensures DeadInRange(Merge(st, srcs, id)) && IdsBelow(Merge(st, srcs, id), id + 1)
    ensures Gather(st, srcs) == [] ==> IdsBelow(Merge(st, srcs, id), id)
    ensures NothingDead(st) ==> NothingDead(Merge(st, srcs, id))
  {
  }

  // ---------------------------------------------------------------- the relocated index

  ghost predicate PointsTo(ix: Index, keys: seq<RowKey>, locs: seq<Locator>) {
    |keys| == |locs| && forall p :: 0 <= p < |locs| ==> keys[p] in ix && ix[keys[p]] == locs[p]
  }

  /** A key that was gathered points at its new ordinal, any other key where it did. */
  lemma {:induction false} RelocateOne(ix: Index, keys: seq<RowKey>, locs: seq<Locator>, id: nat, n: nat, k: RowKey)
    requires PointsTo(ix, keys, locs) && Distinct(locs) && n <= |locs| && k in ix
    ensures k in RelocateTo(ix, keys, locs, id, n)
    ensures forall p :: 0 <= p < n && keys[p] == k ==> RelocateTo(ix, keys, locs, id, n)[k] == Locator(Segment(id), p)
    ensures (forall p :: 0 <= p < n ==> keys[p] != k) ==> RelocateTo(ix, keys, locs, id, n)[k] == ix[k]
  {
    if n > 0 {
      RelocateOne(ix, keys, locs, id, n - 1, k);
      RelocateOne(ix, keys, locs, id, n - 1, keys[n - 1]);
      assert forall p :: 0 <= p < n - 1 ==> ix[keys[p]] == locs[p] != ix[keys[n - 1]];
    }
  }

  lemma {:induction false} RelocateKeys(ix: Index, keys: seq<RowKey>, locs: seq<Locator>, id: nat, n: nat)
    requires n <= |locs| == |keys|
    ensures RelocateTo(ix, keys, locs, id, n).Keys == ix.Keys
  {
    if n > 0 {
      RelocateKeys(ix, keys, locs, id, n - 1);
    }
  }

  lemma GatherPoints(pk: seq<string>, st: Store, ix: Index, srcs: seq<Source>)
    requires Indexed(pk, st, ix)
    ensures PointsTo(ix, KeysAt(pk, RowsAt(st, Gather(st, srcs))), Gather(st, srcs))
  {
    var locs := Gather(st, srcs);
    forall p | 0 <= p < |locs|
      ensures Live(st, locs[p])
    {
      GatherMembers(st, srcs, locs[p]);
    }
  }

  /** What the index says after a merge. */
  lemma MergeIndexEffect(pk: seq<string>, st: Store, ix: Index, srcs: seq<Source>, id: nat)
    requires pk != [] && Indexed(pk, st, ix) && Distinct(srcs)
    ensures var locs := Gather(st, srcs);
            var ix' := MergeIndex(pk, st, ix, srcs, id);
            && ix'.Keys == ix.Keys
            && (forall k :: k in ix ==>
                  if ix[k].source in srcs
                  then ix'[k].source == Segment(id) && ix'[k].ordinal < |locs| && locs[ix'[k].ordinal] == ix[k]
                  else ix'[k] == ix[k])
  {
    var locs := Gather(st, srcs);
    var keys := KeysAt(pk, RowsAt(st, locs));
    var ix' := MergeIndex(pk, st, ix, srcs, id);
    GatherPoints(pk, st, ix, srcs);
    GatherDistinct(st, srcs);
    RelocateKeys(ix, keys, locs, id, |locs|);
    forall k | k in ix
      ensures if ix[k].source in srcs
              then ix'[k].source == Segment(id) && ix'[k].ordinal < |locs| && locs[ix'[k].ordinal] == ix[k]
              else ix'[k] == ix[k]
    {
      GatherMembers(st, srcs, ix[k]);
      RelocateOne(ix, keys, locs, id, |locs|, k);
      if ix[k] in locs {
        var p :| 0 <= p < |locs| && locs[p] == ix[k];
        assert keys[p] == KeyAt(pk, RowAt(st, ix[k])) == k;
      }
    }
  }

  /** Merging keeps the index a bijection between keys and live rows. */
  lemma MergeIndexed(pk: seq<string>, st: Store, ix: Index, srcs: seq<Source>, id: nat)
    requires pk != [] && Indexed(pk, st, ix) && IdsBelow(st, id) && Distinct(srcs)
    ensures Indexed(pk, Merge(st, srcs, id), MergeIndex(pk, st, ix, srcs, id))
  {
    var locs := Gather(st, srcs);
    var st' := Merge(st, srcs, id);
    var ix' := MergeIndex(pk, st, ix, srcs, id);
    MergeIndexEffect(pk, st, ix, srcs, id);
    forall k | k in ix'
      ensures Live(st', ix'[k]) && KeyAt(pk, RowAt(st', ix'[k])) == k
    {
      MergeLive(st, srcs, id, ix'[k]);
    }
    forall l | Live(st', l)
      ensures var k := KeyAt(pk, RowAt(st', l)); k in ix' && ix'[k] == l
    {
      MergedLocator(pk, st, ix, srcs, id, l);
    }
  }

  lemma MergedLocator(pk: seq<string>, st: Store, ix: Index, srcs: seq<Source>, id: nat, l: Locator)
    requires pk != [] && Indexed(pk, st, ix) && IdsBelow(st, id) && Distinct(srcs)
    requires Live(Merge(st, srcs, id), l)
    ensures var k := KeyAt(pk, RowAt(Merge(st, srcs, id), l));
            var ix' := MergeIndex(pk, st, ix, srcs, id); k in ix' && ix'[k] == l
  {
    MergeIndexEffect(pk, st, ix, srcs, id);
    MergeLive(st, srcs, id, l);
    var locs := Gather(st, srcs);
    if Live(st, l) && l.source !in srcs {
    } else {
      var from := locs[l.ordinal];
      GatherMembers(st, srcs, from);
      GatherDistinct(st, srcs);
    }
  }

  /** Merging changes no key's row. */
  lemma MergeView(pk: seq<string>, st: Store, ix: Index, srcs: seq<Source>, id: nat)
    requires pk != [] && Indexed(pk, st, ix) && IdsBelow(st, id) && Distinct(srcs)
    ensures View(Merge(st, srcs, id), MergeIndex(pk, st, ix, srcs, id)) == View(st, ix)
  {
    MergeIndexEffect(pk, st, ix, srcs, id);
    forall k | k in ix
      ensures RowAt(Merge(st, srcs, id), MergeIndex(pk, st, ix, srcs, id)[k]) == RowAt(st, ix[k])
    {
      MergeLive(st, srcs, id, MergeIndex(pk, st, ix, srcs, id)[k]);
    }
  }
}
