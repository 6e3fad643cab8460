/** The partition's segment vector and the loops that walk it, against the store it represents
    (crates/adb-storage/src/table.rs: suppress, apply_rows, apply_deletes, rebuild_key_index,
    flush_locked, commit_manifest, compact_locked). */
module SegmentList {
  import opened Values
  import opened PartitionState
  import opened Rewriting
  import opened Visibility
  import opened Replays
  import opened Recovery

  /** A segment's metadata and its suppression bitmap; its rows are in the segment file. */
  datatype SegmentEntry = SegmentEntry(id: nat, rowCount: nat, suppressed: set<nat>)

  ghost predicate HasEntry(segs: seq<SegmentEntry>, id: nat) {
    exists i :: 0 <= i < |segs| && segs[i].id == id
  }

  ghost predicate Ascends(segs: seq<SegmentEntry>) {
    forall i, j :: 0 <= i < j < |segs| ==> segs[i].id < segs[j].id
  }

  /** Distinct ids in ascending order; each entry's file holds its rows; nothing else is in the store. */
  ghost predicate Represents(segs: seq<SegmentEntry>, files: map<Source, seq<Row>>, st: Store) {
    && Ascends(segs)
    && (forall i :: 0 <= i < |segs| ==>
          var src := Segment(segs[i].id);
          src in st && src in files && st[src] == Rows(files[src], segs[i].suppressed)
            && segs[i].rowCount == |files[src]|)
    && (forall src: Source :: src in st && src != Memtable ==> HasEntry(segs, src.id))
  }

  /** The position of a segment, or the length when there is none. */
  method FindSegment(segs: seq<SegmentEntry>, id: nat) returns (i: nat)
    ensures i <= |segs|
    ensures i < |segs| ==> segs[i].id == id
    ensures i == |segs| ==> !HasEntry(segs, id)
  {
    i := 0;
    while i < |segs|
      invariant i <= |segs| && forall j :: 0 <= j < i ==> segs[j].id != id
    {
      if segs[i].id == id {
        return;
      }
      i := i + 1;
    }
  }

  lemma RepresentsSuppress(segs: seq<SegmentEntry>, files: map<Source, seq<Row>>, st: Store, i: nat, o: nat)
    requires Represents(segs, files, st) && i < |segs|
    ensures Represents(segs[i := segs[i].(suppressed := segs[i].suppressed + {o})], files,
                       Suppress(st, Locator(Segment(segs[i].id), o)))
  {
    var segs' := segs[i := segs[i].(suppressed := segs[i].suppressed + {o})];
    forall src: Source | src in st && src != Memtable
      ensures HasEntry(segs', src.id)
    {
      var j :| 0 <= j < |segs| && segs[j].id == src.id;
      assert segs'[j].id == src.id;
    }
  }

  lemma RepresentsMemtable(segs: seq<SegmentEntry>, files: map<Source, seq<Row>>, st: Store, rows: Rows)
    requires Represents(segs, files, st)
    ensures Represents(segs, files, st[Memtable := rows])
  {
  }

  /** Suppresses one address in the memtable's bitmap or a segment's. */
  method SuppressAt(ghost st: Store, ghost files: map<Source, seq<Row>>, dead: set<nat>, segs: seq<SegmentEntry>,
                    l: Locator)
    returns (dead': set<nat>, segs': seq<SegmentEntry>)
    requires Memtable in st && st[Memtable].dead == dead && Represents(segs, files, st)
    ensures Suppress(st, l)[Memtable] == st[Memtable].(dead := dead')
    ensures Represents(segs', files, Suppress(st, l))
  {
    dead', segs' := dead, segs;
    match l.source {
      case Memtable =>
        dead' := dead + {l.ordinal};
        RepresentsMemtable(segs, files, st, st[Memtable].(dead := dead'));
      case Segment(id) =>
        var i := FindSegment(segs, id);
        if i < |segs| {
          segs' := segs[i := segs[i].(suppressed := segs[i].suppressed + {l.ordinal})];
          RepresentsSuppress(segs, files, st, i, l.ordinal);
        }
    }
  }

  lemma PutsSnoc(s: State, rows: seq<Row>, i: nat)
    requires Memtable in s.store && i < |rows|
    ensures Run(s, Puts(rows[..i + 1])) == Step(Run(s, Puts(rows[..i])), Put(rows[i]))
  {
    var ops := Puts(rows[..i + 1]);
    assert ops[..|ops| - 1] == Puts(rows[..i]);
  }

  lemma DelsSnoc(s: State, keys: seq<RowKey>, i: nat)
    requires Memtable in s.store && i < |keys|
    ensures Run(s, Dels(keys[..i + 1])) == Step(Run(s, Dels(keys[..i])), Del(keys[i]))
  {
    var ops := Dels(keys[..i + 1]);
    assert ops[..|ops| - 1] == Dels(keys[..i]);
  }

  /** The pieces a state's buffer, index and segments are kept in. */
  ghost predicate Holds(t: State, rows: seq<Row>, dead: set<nat>, index: Index, segs: seq<SegmentEntry>,
                        files: map<Source, seq<Row>>) {
    && Memtable in t.store && t.store[Memtable] == Rows(rows, dead)
    && t.index == index && Represents(segs, files, t.store)
  }

  lemma HoldsPut(s: State, t: State, row: Row, rows: seq<Row>, dead': set<nat>, segs': seq<SegmentEntry>,
                 files: map<Source, seq<Row>>)
    requires s.pk != [] && Memtable in s.store
    requires t == Step(s, Put(row)) && rows == s.store[Memtable].rows
    requires var st := Displace(s.store, s.index, KeyAt(s.pk, row));
             st[Memtable] == Rows(rows, dead') && Represents(segs', files, st)
    ensures Holds(t, rows + [row], dead', s.index[KeyAt(s.pk, row) := Locator(Memtable, |rows|)], segs', files)
  {
    var st := Displace(s.store, s.index, KeyAt(s.pk, row));
    RepresentsMemtable(segs', files, st, Rows(rows + [row], dead'));
  }

  method IndexRow(ghost s: State, ghost buffered: seq<Row>, ghost files: map<Source, seq<Row>>, pk: seq<string>,
                  row: Row, ordinal: nat, index: Index, dead: set<nat>, segs: seq<SegmentEntry>)
    returns (index': Index, dead': set<nat>, segs': seq<SegmentEntry>)
    requires pk == s.pk && pk != [] && ordinal == |buffered| && Holds(s, buffered, dead, index, segs, files)
    ensures Holds(Step(s, Put(row)), buffered + [row], dead', index', segs', files)
  {
    dead', segs' := dead, segs;
    var key := KeyAt(pk, row);
    if key in index {
      dead', segs' := SuppressAt(s.store, files, dead, segs, index[key]);
    }
    index' := index[key := Locator(Memtable, ordinal)];
    HoldsPut(s, Step(s, Put(row)), row, buffered, dead', segs', files);
  }

  /** Indexes a batch about to be buffered after `buffered`, suppressing what it supersedes. */
  method IndexRows(ghost s: State, ghost buffered: seq<Row>, ghost files: map<Source, seq<Row>>, pk: seq<string>,
                   rows: seq<Row>, start: nat, index: Index, dead: set<nat>, segs: seq<SegmentEntry>)
    returns (index': Index, dead': set<nat>, segs': seq<SegmentEntry>)
    requires pk == s.pk && pk != [] && start == |buffered| && Holds(s, buffered, dead, index, segs, files)
    ensures Holds(Run(s, Puts(rows)), buffered + rows, dead', index', segs', files)
  {
    index', dead', segs' := index, dead, segs;
    assert Puts(rows[..0]) == [] && buffered + rows[..0] == buffered && Run(s, Puts(rows[..0])) == s;
    assert rows[..|rows|] == rows;
    hide *;
    for row := 0 to |rows|
      invariant Holds(Run(s, Puts(rows[..row])), buffered + rows[..row], dead', index', segs', files)
    {
      index', dead', segs' := IndexRow(Run(s, Puts(rows[..row])), buffered + rows[..row], files, pk, rows[row],
                                       start + row, index', dead', segs');
      PutsSnoc(s, rows, row);
      AppendNext(buffered, rows, row);
    }
  }

  /** Forgets deleted keys, suppressing the rows they pointed at. */
  method DropKeys(ghost s: State, ghost buffered: seq<Row>, ghost files: map<Source, seq<Row>>, keys: seq<RowKey>,
                  index: Index, dead: set<nat>, segs: seq<SegmentEntry>)
    returns (index': Index, dead': set<nat>, segs': seq<SegmentEntry>)
    requires Holds(s, buffered, dead, index, segs, files)
    ensures Holds(Run(s, Dels(keys)), buffered, dead', index', segs', files)
  {
    index', dead', segs' := index, dead, segs;
    assert Dels(keys[..0]) == [];
    for i := 0 to |keys|
      invariant Holds(Run(s, Dels(keys[..i])), buffered, dead', index', segs', files)
    {
      ghost var t := Run(s, Dels(keys[..i]));
      if keys[i] in index' {
        dead', segs' := SuppressAt(t.store, files, dead', segs', index'[keys[i]]);
      }
      index' := index' - {keys[i]};
      DelsSnoc(s, keys, i);
    }
    assert keys[..|keys|] == keys;
  }

  // ---------------------------------------------------------------- flush and compaction loops

  /** Ordinals that survive, ascending. */
  method KeepOrdinals(n: nat, dead: set<nat>) returns (keep: seq<nat>)
    ensures keep == Kept(n, dead)
  {
    keep := [];
    for ordinal := 0 to n
      invariant keep == Kept(ordinal, dead)
    {
      if ordinal !in dead {
        keep := keep + [ordinal];
      }
    }
  }

  /** Takes rows by ordinal, preserving order. */
  method TakeRows(rows: seq<Row>, ordinals: seq<nat>) returns (taken: seq<Row>)
    requires forall i :: 0 <= i < |ordinals| ==> ordinals[i] < |rows|
    ensures |taken| == |ordinals| && forall i :: 0 <= i < |ordinals| ==> taken[i] == rows[ordinals[i]]
  {
    taken := [];
    for i := 0 to |ordinals|
      invariant |taken| == i && forall j :: 0 <= j < i ==> taken[j] == rows[ordinals[j]]
    {
      taken := taken + [rows[ordinals[i]]];
    }
  }

  /** The live rows of one source, with their addresses. */
  method Survivors(ghost st: Store, src: Source, rows: seq<Row>, dead: set<nat>)
    returns (locs: seq<Locator>, taken: seq<Row>)
    requires src in st && st[src] == Rows(rows, dead)
    ensures locs == LiveIn(st, src) && taken == RowsAt(st, locs)
  {
    var keep := KeepOrdinals(|rows|, dead);
    KeptMembers(|rows|, dead);
    assert forall i :: 0 <= i < |keep| ==> keep[i] in keep;
    taken := TakeRows(rows, keep);
    locs := seq(|keep|, i requires 0 <= i < |keep| => Locator(src, keep[i]));
  }

  /** Points every gathered row's key at its ordinal in the new segment, if it still points where
      the row was. */
  method RelocateRows(pk: seq<string>, rows: seq<Row>, locs: seq<Locator>, id: nat, index: Index)
    returns (index': Index)
    requires |rows| == |locs|
    ensures index' == RelocateTo(index, KeysAt(pk, rows), locs, id, |locs|)
  {
    index' := index;
    for p := 0 to |locs|
      invariant index' == RelocateTo(index, KeysAt(pk, rows), locs, id, p)
    {
      index' := Relocate(index', KeyAt(pk, rows[p]), locs[p], Locator(Segment(id), p));
    }
  }

  /** Collects the survivors of the given sources in order. */
  method MergeInputs(ghost st: Store, inputs: seq<SegmentEntry>, files: map<Source, seq<Row>>)
    returns (locs: seq<Locator>, rows: seq<Row>)
    requires forall i :: 0 <= i < |inputs| ==>
               var src := Segment(inputs[i].id);
               src in st && src in files && st[src] == Rows(files[src], inputs[i].suppressed)
    ensures locs == Gather(st, Sources(inputs)) && rows == RowsAt(st, locs)
  {
    locs, rows := [], [];
    for i := 0 to |inputs|
      invariant locs == Gather(st, Sources(inputs[..i])) && rows == RowsAt(st, locs)
    {
      var src := Segment(inputs[i].id);
      var more, taken := Survivors(st, src, files[src], inputs[i].suppressed);
      assert Sources(inputs[..i + 1])[..i] == Sources(inputs[..i]);
      RowsConcat(st, locs, more);
      locs, rows := locs + more, rows + taken;
    }
    assert inputs[..|inputs|] == inputs;
  }

  function Sources(segs: seq<SegmentEntry>): (srcs: seq<Source>)
    ensures |srcs| == |segs| && forall i :: 0 <= i < |segs| ==> srcs[i] == Segment(segs[i].id)
  {
    seq(|segs|, i requires 0 <= i < |segs| => Segment(segs[i].id))
  }

  /** The segments with an id in `ids` and the others, both in ascending order. */
  ghost predicate SplitBy(segs: seq<SegmentEntry>, ids: set<nat>, inputs: seq<SegmentEntry>,
                          others: seq<SegmentEntry>) {
    && Ascends(inputs) && Ascends(others)
    && (forall i :: 0 <= i < |inputs| ==> inputs[i] in segs && inputs[i].id in ids)
    && (forall i :: 0 <= i < |others| ==> others[i] in segs && others[i].id !in ids)
    && (forall i :: 0 <= i < |segs| ==> if segs[i].id in ids then segs[i] in inputs else segs[i] in others)
  }

  lemma AscendsSnoc(segs: seq<SegmentEntry>, some: seq<SegmentEntry>, i: nat)
    requires Ascends(segs) && i < |segs| && Ascends(some) && forall j :: 0 <= j < |some| ==> some[j] in segs[..i]
    ensures Ascends(some + [segs[i]])
  {
    assert forall e :: e in segs[..i] ==> e.id < segs[i].id;
  }

  lemma SplitNext(segs: seq<SegmentEntry>, ids: set<nat>, inputs: seq<SegmentEntry>, others: seq<SegmentEntry>, i: nat)
    requires Ascends(segs) && i < |segs| && SplitBy(segs[..i], ids, inputs, others)
    ensures if segs[i].id in ids then SplitBy(segs[..i + 1], ids, inputs + [segs[i]], others)
            else SplitBy(segs[..i + 1], ids, inputs, others + [segs[i]])
  {
    assert segs[..i + 1] == segs[..i] + [segs[i]];
    if segs[i].id in ids {
      AscendsSnoc(segs, inputs, i);
    } else {
      AscendsSnoc(segs, others, i);
    }
    hide Ascends;
  }

  /** Splits the segments into those to merge and those to keep, both in id order. */
  method Partitioned(segs: seq<SegmentEntry>, ids: set<nat>)
    returns (inputs: seq<SegmentEntry>, others: seq<SegmentEntry>)
    requires Ascends(segs)
    ensures SplitBy(segs, ids, inputs, others)
  {
    inputs, others := [], [];
    assert SplitBy(segs[..0], ids, inputs, others);
    hide *;
    for i := 0 to |segs|
      invariant SplitBy(segs[..i], ids, inputs, others)
    {
      SplitNext(segs, ids, inputs, others, i);
      if segs[i].id in ids { inputs := inputs + [segs[i]]; } else { others := others + [segs[i]]; }
    }
    assert segs[..|segs|] == segs;
  }

  /** Builds the manifest the partition commits. */
  method BuildManifest(applied: nat, next: nat, segs: seq<SegmentEntry>) returns (m: Manifest)
    ensures m.applied == applied && m.next == next
    ensures forall src :: src in m.segments <==> src.Segment? && HasEntry(segs, src.id)
    ensures Ascends(segs) ==> forall i :: 0 <= i < |segs| ==>
              SuppressedBitmap(m, Segment(segs[i].id)) == segs[i].suppressed
    ensures forall src :: src in m.suppressed ==> src in m.segments && m.suppressed[src] != {}
  {
    var segments: set<Source> := {};
    var suppressed: map<Source, set<nat>> := map[];
    for i := 0 to |segs|
      invariant forall src :: src in segments <==> src.Segment? && HasEntry(segs[..i], src.id)
      invariant forall src :: src in suppressed ==> src in segments && suppressed[src] != {}
      invariant Ascends(segs) ==> forall j :: 0 <= j < i ==>
                  SuppressedBitmap(Manifest(applied, next, segments, suppressed), Segment(segs[j].id))
                    == segs[j].suppressed
    {
      var src := Segment(segs[i].id);
      segments := segments + {src};
      suppressed := if segs[i].suppressed == {} then suppressed - {src} else suppressed[src := segs[i].suppressed];
      assert segs[..i + 1] == segs[..i] + [segs[i]];
    }
    m := Manifest(applied, next, segments, suppressed);
    assert segs[..|segs|] == segs;
  }

  // ---------------------------------------------------------------- vector order and scan order

  /** The entries are in ascending order and have exactly the ids of `ids` below `n`. */
  ghost predicate Enumerates(segs: seq<SegmentEntry>, ids: set<nat>, n: nat) {
    && Ascends(segs)
    && (forall i :: 0 <= i < |segs| ==> segs[i].id in ids && segs[i].id < n)
    && (forall id :: id in ids && id < n ==> HasEntry(segs, id))
  }

  lemma EntriesBelow(segs: seq<SegmentEntry>, ids: set<nat>, n: nat)
    requires n > 0 && Enumerates(segs, ids, n)
    ensures n - 1 !in ids ==> Enumerates(segs, ids, n - 1)
    ensures n - 1 in ids ==>
              |segs| > 0 && segs[|segs| - 1].id == n - 1 && Enumerates(segs[..|segs| - 1], ids, n - 1)
  {
    if n - 1 in ids {
      var last := |segs| - 1;
      assert HasEntry(segs, n - 1);
      assert segs[last].id == n - 1;
      forall id | id in ids && id < n - 1
        ensures HasEntry(segs[..last], id)
      {
        var i :| 0 <= i < |segs| && segs[i].id == id;
        assert segs[..last][i].id == id;
      }
    }
  }

  /** Ascending entries are the ascending enumeration of their ids. */
  lemma {:induction false} AscendingEntries(segs: seq<SegmentEntry>, ids: set<nat>, n: nat)
    requires Enumerates(segs, ids, n)
    ensures Sources(segs) == Ascending(ids, n)
  {
    if n == 0 {
      assert segs == [];
    } else {
      hide *;
      AscendingStep(ids, n);
      EntriesBelow(segs, ids, n);
      if n - 1 in ids {
        AscendingEntries(segs[..|segs| - 1], ids, n - 1);
        SourcesSnoc(segs);
      } else {
        AscendingEntries(segs, ids, n - 1);
      }
    }
  }

  lemma SourcesSnoc(segs: seq<SegmentEntry>)
    requires segs != []
    ensures Sources(segs) == Sources(segs[..|segs| - 1]) + [Segment(segs[|segs| - 1].id)]
  {
  }

  lemma AscendingStep(ids: set<nat>, n: nat)
    requires n > 0
    ensures Ascending(ids, n) == Ascending(ids, n - 1) + if n - 1 in ids then [Segment(n - 1)] else []
  {
  }

  /** Absent segments contribute nothing to a scan. */
  lemma {:induction false} GatherPresent(st: Store, ids: set<nat>, n: nat)
    requires forall src: Source :: src in st && src != Memtable && src.id < n ==> src.id in ids
    ensures Gather(st, SegmentsBelow(n)) == Gather(st, Ascending(ids, n))
  {
    if n > 0 {
      GatherPresent(st, ids, n - 1);
      assert SegmentsBelow(n)[..n - 1] == SegmentsBelow(n - 1);
      if n - 1 in ids {
        assert Ascending(ids, n)[..|Ascending(ids, n)| - 1] == Ascending(ids, n - 1);
      } else {
        assert Segment(n - 1) !in st;
        assert Ascending(ids, n) == Ascending(ids, n - 1);
      }
    }
  }

  ghost function IdsOf(segs: seq<SegmentEntry>): set<nat> { set i | 0 <= i < |segs| :: segs[i].id }

  /** Walking the vector in order gathers what a scan of the store gathers. */
  lemma VectorOrder(segs: seq<SegmentEntry>, files: map<Source, seq<Row>>, st: Store, n: nat)
    requires Represents(segs, files, st) && forall i :: 0 <= i < |segs| ==> segs[i].id < n
    ensures Gather(st, Sources(segs)) == Gather(st, SegmentsBelow(n))
  {
    forall id | id in IdsOf(segs)
      ensures HasEntry(segs, id)
    {
    }
    AscendingEntries(segs, IdsOf(segs), n);
    GatherPresent(st, IdsOf(segs), n);
  }

  lemma {:induction false} RebuildPrefix(keys: seq<RowKey>, locs: seq<Locator>, k2: seq<RowKey>, l2: seq<Locator>,
                                         n: nat)
    requires |keys| == |locs| && |k2| == |l2| && n <= |locs|
    ensures RebuildTo(keys + k2, locs + l2, n) == RebuildTo(keys, locs, n)
  {
    if n > 0 {
      RebuildPrefix(keys, locs, k2, l2, n - 1);
    }
  }

  /** Rebuilds the key index from the segments' rows, skipping suppressed ones. */
  method RebuildKeyIndex(ghost st: Store, pk: seq<string>, segs: seq<SegmentEntry>, files: map<Source, seq<Row>>)
    returns (index: Index)
    requires forall i :: 0 <= i < |segs| ==>
               var src := Segment(segs[i].id);
               src in st && src in files && st[src] == Rows(files[src], segs[i].suppressed)
    ensures var locs := Gather(st, Sources(segs)); index == RebuildTo(KeysAt(pk, RowsAt(st, locs)), locs, |locs|)
  {
    index := map[];
    for i := 0 to |segs|
      invariant var locs := Gather(st, Sources(segs[..i]));
                index == RebuildTo(KeysAt(pk, RowsAt(st, locs)), locs, |locs|)
    {
      ghost var before := Gather(st, Sources(segs[..i]));
      var src := Segment(segs[i].id);
      assert Sources(segs[..i + 1])[..i] == Sources(segs[..i]);
      index := IndexSegment(st, pk, src, files[src], segs[i].suppressed, before, index);
    }
    assert segs[..|segs|] == segs;
  }

  method IndexSegment(ghost st: Store, pk: seq<string>, src: Source, rows: seq<Row>, dead: set<nat>,
                      ghost before: seq<Locator>, index: Index) returns (index': Index)
    requires src in st && st[src] == Rows(rows, dead)
    requires index == RebuildTo(KeysAt(pk, RowsAt(st, before)), before, |before|)
    ensures var locs := before + LiveIn(st, src); index' == RebuildTo(KeysAt(pk, RowsAt(st, locs)), locs, |locs|)
  {
    hide RebuildTo, LiveIn;
    var locs, taken := Survivors(st, src, rows, dead);
    index' := InsertKeys(KeysAt(pk, RowsAt(st, before)), before, KeysAt(pk, taken), locs, index);
    assert KeysAt(pk, RowsAt(st, before + locs)) == KeysAt(pk, RowsAt(st, before)) + KeysAt(pk, taken);
  }

  method InsertKeys(ghost keys: seq<RowKey>, ghost locs: seq<Locator>, k2: seq<RowKey>, l2: seq<Locator>, index: Index)
    returns (index': Index)
    requires |keys| == |locs| && |k2| == |l2| && index == RebuildTo(keys, locs, |locs|)
    ensures index' == RebuildTo(keys + k2, locs + l2, |locs + l2|)
  {
    RebuildPrefix(keys, locs, k2, l2, |locs|);
    index' := index;
    for j := 0 to |l2|
      invariant index' == RebuildTo(keys + k2, locs + l2, |locs| + j)
    {
      index' := index'[k2[j] := l2[j]];
    }
  }
}
