/** Durable state, reopening, and what a crash can leave behind
    (crates/adb-storage/src/table.rs: open, append_rows, delete_keys, flush_locked, commit_manifest,
    compact_locked; manifest.rs). */
module Recovery {
  import opened Values
  import opened PartitionState
  import opened Rewriting
  import opened Visibility
  import opened Wal
  import opened LogStore
  import opened Replays

  /** The checkpoint. `suppressed` holds only non-empty bitmaps. */
  datatype Manifest = Manifest(applied: nat, next: nat, segments: set<Source>, suppressed: map<Source, set<nat>>)

  /** Everything that survives a crash; segment files are keyed by their segment. */
  datatype Disk = Disk(wal: seq<byte>, manifest: Option<Manifest>, files: map<Source, seq<Row>>)

  datatype Sys = Sys(st: State, disk: Disk, nextLsn: nat)

  const EMPTY_MANIFEST := Manifest(0, 1, {}, map[])

  /** Every segment's id was given out before the manifest was written. */
  ghost predicate Numbered(m: Manifest) { forall src :: src in m.segments ==> src.Segment? && src.id < m.next }

  /** Before the first checkpoint there is no manifest. */
  function Manifested(m: Option<Manifest>): Manifest { if m.Some? then m.value else EMPTY_MANIFEST }

  function Loaded(d: Disk): Manifest { Manifested(d.manifest) }

  function SuppressedBitmap(m: Manifest, src: Source): set<nat> {
    if src in m.suppressed then m.suppressed[src] else {}
  }

  /** The manifest `commit_manifest` writes. */
  function Committed(s: State): Manifest {
    Manifest(s.applied, s.next, s.store.Keys - {Memtable},
             map src | src in s.store && src != Memtable && s.store[src].dead != {} :: s.store[src].dead)
  }

  // ---------------------------------------------------------------- reopening

  function LoadedStore(m: Manifest, files: map<Source, seq<Row>>): Store
    requires m.segments <= files.Keys
  {
    (map src | src in m.segments :: Rows(files[src], SuppressedBitmap(m, src)))[Memtable := Rows([], {})]
  }

  /** Indexes the first `n` of the given addresses; a later one wins. */
  function RebuildTo(keys: seq<RowKey>, locs: seq<Locator>, n: nat): Index
    requires n <= |locs| == |keys|
  {
    if n == 0 then map[] else RebuildTo(keys, locs, n - 1)[keys[n - 1] := locs[n - 1]]
  }

  /** Segments are visited in ascending id order, rows in ordinal order, suppressed rows skipped. */
  function RebuildIndex(pk: seq<string>, st: Store, next: nat): Index {
    if pk == [] then map[]
    else
      var locs := Gather(st, SegmentsBelow(next));
      RebuildTo(KeysAt(pk, RowsAt(st, locs)), locs, |locs|)
  }

  function Base(pk: seq<string>, m: Manifest, files: map<Source, seq<Row>>): (s: State)
    requires m.segments <= files.Keys
    ensures Memtable in s.store
  {
    var st := LoadedStore(m, files);
    State(pk, st, RebuildIndex(pk, st, m.next), m.applied, m.applied, m.next)
  }

  /** The log file, created when missing. */
  function WalFile(d: Disk): seq<byte> { if d.wal == [] then WAL_MAGIC else d.wal }

  /** The files the manifest refers to; the rest are orphans. */
  function Referenced(m: Manifest, files: map<Source, seq<Row>>): (kept: map<Source, seq<Row>>)
    requires m.segments <= files.Keys
    ensures kept.Keys == m.segments
  {
    map src | src in m.segments :: files[src]
  }

  /** Opens a partition: drops orphaned files and a torn log tail, loads the manifest, rebuilds the
      index and replays the log above the checkpoint. */
  function Open(c: Codec, pk: seq<string>, d: Disk): Option<Sys> {
    var m := Loaded(d);
    var wal := WalFile(d);
    match ScanLog(c, wal)
    case Corrupt => None
    case Scanned(es, end) =>
      if !(m.segments <= d.files.Keys) || end > |wal| then None
      else
        Some(Sys(Replay(Base(pk, m, d.files), Above(es, m.applied)),
                 Disk(wal[..end], d.manifest, Referenced(m, d.files)),
                 Max(NewestLsn(es) + 1, m.applied + 1)))
  }

  // ---------------------------------------------------------------- the system invariant

  /** The disk holds the checkpoint the state was built on. */
  ghost predicate Mirrors(s: State, d: Disk) {
    var m := Loaded(d);
    && m.applied == s.applied && m.next == s.next && m.segments == s.store.Keys - {Memtable}
    && forall src :: src in m.segments ==> src in d.files && d.files[src] == s.store[src].rows
  }

  /** The checkpoint is a valid state, and the state is exactly what reopening the disk would rebuild. */
  ghost predicate Rebuilt(s: State, d: Disk, es: seq<LogEntry>) {
    && Loaded(d).segments <= d.files.Keys
    && Valid(Base(s.pk, Loaded(d), d.files))
    && s == Replay(Base(s.pk, Loaded(d), d.files), Above(es, s.applied))
  }

  ghost predicate Inv(c: Codec, sys: Sys, es: seq<LogEntry>) {
    && WellFormed(c, sys.disk.wal, es, sys.nextLsn)
    && Valid(sys.st)
    && sys.st.last < sys.nextLsn
    && (forall i :: 0 <= i < |es| ==> es[i].lsn <= sys.st.last)
    && Mirrors(sys.st, sys.disk)
    && Rebuilt(sys.st, sys.disk, es)
  }

  // ---------------------------------------------------------------- the rebuilt index

  /** The part of an index that points at segments. */
  ghost function SegmentPart(ix: Index): Index { map k | k in ix && ix[k].source != Memtable :: ix[k] }

  lemma {:induction false} RebuildPoints(keys: seq<RowKey>, locs: seq<Locator>, ix: Index, n: nat)
    requires PointsTo(ix, keys, locs) && n <= |locs|
    ensures forall k :: k in RebuildTo(keys, locs, n) <==> k in keys[..n]
    ensures forall k :: k in RebuildTo(keys, locs, n) ==> k in ix && RebuildTo(keys, locs, n)[k] == ix[k]
  {
    if n > 0 {
      RebuildPoints(keys, locs, ix, n - 1);
      assert keys[..n] == keys[..n - 1] + [keys[n - 1]];
    }
  }

  /** Clearing the memtable from the store and the index keeps the index a bijection. */
  lemma SegmentPartIndexed(pk: seq<string>, st: Store, ix: Index)
    requires Indexed(pk, st, ix) && Memtable in st
    ensures Indexed(pk, st[Memtable := Rows([], {})], SegmentPart(ix))
  {
    var st' := st[Memtable := Rows([], {})];
    forall l: Locator
      ensures Live(st', l) <==> Live(st, l) && l.source != Memtable
      ensures l.source != Memtable ==> RowAt(st', l) == RowAt(st, l)
    {
    }
  }

  lemma KeyGathered(pk: seq<string>, st: Store, ix: Index, next: nat, k: RowKey)
    requires Indexed(pk, st, ix) && IdsBelow(st, next) && k in ix && ix[k].source != Memtable
    ensures k in KeysAt(pk, RowsAt(st, Gather(st, SegmentsBelow(next))))
  {
    var locs := Gather(st, SegmentsBelow(next));
    assert SegmentsBelow(next)[ix[k].source.id] == ix[k].source;
    GatherMembers(st, SegmentsBelow(next), ix[k]);
    var p :| 0 <= p < |locs| && locs[p] == ix[k];
    assert KeysAt(pk, RowsAt(st, locs))[p] == k;
  }

  lemma RebuildTotal(keys: seq<RowKey>, locs: seq<Locator>, ix: Index)
    requires PointsTo(ix, keys, locs) && forall k :: k in ix ==> k in keys
    ensures RebuildTo(keys, locs, |locs|) == ix
  {
    RebuildPoints(keys, locs, ix, |locs|);
    assert keys[..|locs|] == keys;
  }

  /** With an empty memtable, the rebuilt index is the one that fits the rows. */
  lemma RebuildIndexed(pk: seq<string>, st: Store, ix: Index, next: nat)
    requires pk != [] && Indexed(pk, st, ix) && IdsBelow(st, next) && st[Memtable] == Rows([], {})
    ensures RebuildIndex(pk, st, next) == ix
  {
    GatherPoints(pk, st, ix, SegmentsBelow(next));
    forall k | k in ix
      ensures k in KeysAt(pk, RowsAt(st, Gather(st, SegmentsBelow(next))))
    {
      assert Live(st, ix[k]);
      KeyGathered(pk, st, ix, next, k);
    }
    RebuildTotal(KeysAt(pk, RowsAt(st, Gather(st, SegmentsBelow(next)))), Gather(st, SegmentsBelow(next)), ix);
  }

  /** The state without its buffer, as the checkpoint records it. */
  ghost function Checkpoint(s: State): State
    requires Memtable in s.store
  {
    s.(store := s.store[Memtable := Rows([], {})], index := SegmentPart(s.index), last := s.applied)
  }

  lemma CheckpointValid(s: State)
    requires Valid(s)
    ensures Valid(Checkpoint(s))
  {
    if s.pk != [] {
      SegmentPartIndexed(s.pk, s.store, s.index);
    }
  }

  /** The disk's manifest was committed from `s`, and its segment files are there. */
  ghost predicate Records(s: State, d: Disk) {
    && d.manifest == Some(Committed(s))
    && forall src :: src in s.store && src != Memtable ==> src in d.files && d.files[src] == s.store[src].rows
  }

  /** Loading a committed manifest gives back the state without its buffer. */
  lemma BaseIsCheckpoint(s: State, d: Disk)
    requires Valid(s) && Records(s, d)
    ensures Loaded(d).segments <= d.files.Keys
    ensures Base(s.pk, Loaded(d), d.files) == Checkpoint(s)
  {
    assert LoadedStore(Loaded(d), d.files) == s.store[Memtable := Rows([], {})];
    CheckpointValid(s);
    if s.pk != [] {
      RebuildIndexed(s.pk, Checkpoint(s).store, Checkpoint(s).index, s.next);
    }
  }
}
