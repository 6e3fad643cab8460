/** One partition: log, memtable, segments, manifest and key index in one object
    (crates/adb-storage/src/table.rs: PartitionState, Partition). */
module Partitions {
  import opened Values
  import opened PartitionState
  import opened Rewriting
  import opened Visibility
  import opened Wal
  import opened LogStore
  import opened Replays
  import opened Recovery
  import opened Crash
  import opened SegmentList
  import opened Runs
  import opened Pruning
  import opened Snapshots
  import Buffers = Memtables
  import Compaction
  import opened Convergence

  /** Thresholds and the sizes, in bytes, of a buffered batch list and of a segment file. */
  datatype Config = Config(
    maxRows: nat,
    maxBytes: nat,
    bufferBytes: seq<seq<Row>> -> nat,
    fileBytes: seq<Row> -> nat,
    policy: Compaction.Policy,
    autoCompact: bool)

  /** The buffered batches once a mutation is applied. */
  function BatchesAfter(batches: seq<seq<Row>>, m: Mutation): seq<seq<Row>> {
    match m
    case Insert(rows) => if rows == [] then batches else batches + [rows]
    case Upsert(rows) => if rows == [] then batches else batches + [rows]
    case Delete(_) => batches
  }

  /** The buffer has reached one of its thresholds. */
  predicate IsFull(config: Config, batches: seq<seq<Row>>) {
    |Buffers.Flatten(batches)| >= config.maxRows || config.bufferBytes(batches) >= config.maxBytes
  }

  /** The compaction after a flush of something, if so configured and if the policy selects anything. */
  ghost function Follow(config: Config, s: State): seq<Command>
    requires Memtable in s.store
  {
    var ids := Selected(FlushState(s), config.fileBytes, config.policy);
    if config.autoCompact && Flushes(s) && ids != {} then [Compact(ids)] else []
  }

  // ---------------------------------------------------------------- the vector after a flush or a compaction

  lemma HasEntrySnoc(segs: seq<SegmentEntry>, e: SegmentEntry, id: nat)
    requires HasEntry(segs, id) || id == e.id
    ensures HasEntry(segs + [e], id)
  {
    if HasEntry(segs, id) {
      var i :| 0 <= i < |segs| && segs[i].id == id;
      assert (segs + [e])[i].id == id;
    } else {
      assert (segs + [e])[|segs|].id == id;
    }
  }

  /** `left` holds the entries of the segments outside `srcs`; adding the merged one represents the
      merged store. */
  lemma RepresentsMerge(left: seq<SegmentEntry>, files: map<Source, seq<Row>>, st: Store, srcs: seq<Source>, id: nat)
    requires IdsBelow(st, id) && Represents(left, files, Vacate(st, srcs))
    ensures var rows := RowsAt(st, Gather(st, srcs));
            if rows == [] then Represents(left, files, Merge(st, srcs, id))
            else Represents(left + [SegmentEntry(id, |rows|, {})], files[Segment(id) := rows], Merge(st, srcs, id))
  {
    var rows := RowsAt(st, Gather(st, srcs));
    if rows != [] {
      var merged := left + [SegmentEntry(id, |rows|, {})];
      var st' := Merge(st, srcs, id);
      forall i | 0 <= i < |left|
        ensures left[i].id < id
      {
        assert Segment(left[i].id) in Vacate(st, srcs);
      }
      forall src: Source | src in st' && src != Memtable
        ensures HasEntry(merged, src.id)
      {
        HasEntrySnoc(left, SegmentEntry(id, |rows|, {}), src.id);
      }
    }
  }

  lemma VacatedMemtable(segs: seq<SegmentEntry>, files: map<Source, seq<Row>>, st: Store)
    requires Represents(segs, files, st)
    ensures Represents(segs, files, Vacate(st, [Memtable]))
  {
  }

  lemma VacatedSegments(segs: seq<SegmentEntry>, inputs: seq<SegmentEntry>, others: seq<SegmentEntry>, ids: set<nat>,
                        files: map<Source, seq<Row>>, st: Store)
    requires Represents(segs, files, st) && Ascends(others)
    requires forall i :: 0 <= i < |inputs| ==> inputs[i] in segs && inputs[i].id in ids
    requires forall i :: 0 <= i < |others| ==> others[i] in segs && others[i].id !in ids
    requires forall i :: 0 <= i < |segs| ==> if segs[i].id in ids then segs[i] in inputs else segs[i] in others
    ensures Represents(others, files, Vacate(st, Sources(inputs)))
  {
    forall src: Source | src in st && src != Memtable && src !in Sources(inputs)
      ensures HasEntry(others, src.id)
    {
      var i :| 0 <= i < |segs| && segs[i].id == src.id;
      var j :| 0 <= j < |others| && others[j] == segs[i];
      assert others[j].id == src.id;
    }
  }

  /** The entries to merge, in vector order, are the inputs of the compaction. */
  lemma InputEntries(segs: seq<SegmentEntry>, inputs: seq<SegmentEntry>, ids: set<nat>, files: map<Source, seq<Row>>,
                     s: State)
    requires Represents(segs, files, s.store) && IdsBelow(s.store, s.next) && Ascends(inputs)
    requires forall i :: 0 <= i < |inputs| ==> inputs[i] in segs && inputs[i].id in ids
    requires forall i :: 0 <= i < |segs| ==> segs[i].id in ids ==> segs[i] in inputs
    ensures Sources(inputs) == Inputs(s, ids)
  {
    var present := set src | src in s.store && src.Segment? && src.id in ids :: src.id;
    forall i | 0 <= i < |inputs|
      ensures inputs[i].id in present && inputs[i].id < s.next
    {
      assert Segment(inputs[i].id) in s.store;
    }
    forall id | id in present && id < s.next
      ensures HasEntry(inputs, id)
    {
      assert Segment(id) in s.store;
      var i :| 0 <= i < |segs| && segs[i].id == id;
      var j :| 0 <= j < |inputs| && inputs[j] == segs[i];
      assert inputs[j].id == id;
    }
    AscendingEntries(inputs, present, s.next);
  }

  lemma ManifestCommitted(m: Manifest, s: State, segs: seq<SegmentEntry>, files: map<Source, seq<Row>>)
    requires m.applied == s.applied && m.next == s.next && Memtable in s.store && Represents(segs, files, s.store)
    requires forall src :: src in m.segments <==> src.Segment? && HasEntry(segs, src.id)
    requires forall i :: 0 <= i < |segs| ==> SuppressedBitmap(m, Segment(segs[i].id)) == segs[i].suppressed
    requires forall src :: src in m.suppressed ==> src in m.segments && m.suppressed[src] != {}
    ensures m == Committed(s)
  {
    forall src: Source
      ensures src in m.segments <==> src in s.store && src != Memtable
      ensures src in m.segments ==> SuppressedBitmap(m, src) == s.store[src].dead
    {
      if src.Segment? && HasEntry(segs, src.id) {
        var i :| 0 <= i < |segs| && segs[i].id == src.id;
        assert src == Segment(segs[i].id);
      }
    }
    assert m.segments == Committed(s).segments;
    assert m.suppressed == Committed(s).suppressed;
  }

  // ---------------------------------------------------------------- the partition object

  /** The fields hold the pieces of the state `t`. */
  ghost predicate Fields(t: State, pk: seq<string>, rows: seq<Row>, dead: set<nat>, index: Index,
                         segs: seq<SegmentEntry>,
                         files: map<Source, seq<Row>>, applied: nat, last: nat, next: nat) {
    && Holds(t, rows, dead, index, segs, files)
    && t.pk == pk && t.applied == applied && t.last == last && t.next == next
  }

  /** `inputs` are the segments of a compaction and `others` the rest. */
  ghost predicate CanMerge(s: State, files: map<Source, seq<Row>>, ids: set<nat>, inputs: seq<SegmentEntry>,
                           others: seq<SegmentEntry>) {
    && inputs != [] && Sources(inputs) == Inputs(s, ids)
    && Represents(others, files, Vacate(s.store, Sources(inputs)))
    && forall i :: 0 <= i < |inputs| ==>
         var src := Segment(inputs[i].id);
         src in s.store && src in files && s.store[src] == Rows(files[src], inputs[i].suppressed)
  }

  class Partition {
    const codec: Codec
    const pk: seq<string>
    const config: Config
    const log: FileLogStore
    const memtable: Buffers.Memtable
    var memtableSuppressed: set<nat>
    var segments: seq<SegmentEntry>
    var keyIndex: Index
    var appliedLsn: nat
    var lastLsn: nat
    var nextSegmentId: nat
    var manifest: Option<Manifest>
    var files: map<Source, seq<Row>>
    /** The state the fields hold. */
    ghost var st: State
    /** Every disk the partition has gone through, one per durable step. */
    ghost var trace: seq<Disk>

    ghost function DiskNow(): Disk
      reads this, log
    {
      Disk(log.file, manifest, files)
    }

    ghost function SysNow(): Sys
      reads this, log
    {
      Sys(st, DiskNow(), log.nextLsn)
    }

    ghost predicate Tied()
      reads this, memtable
    {
      && memtable.Valid()
      && Fields(st, pk, memtable.Contents(), memtableSuppressed, keyIndex, segments, files, appliedLsn, lastLsn,
                nextSegmentId)
    }

    /** The fields hold a consistent partition: reopening its disk would rebuild exactly its state. */
    ghost predicate Valid()
      reads this, log, memtable
    {
      && Tied() && log.Valid() && log.codec == codec
      && Inv(codec, SysNow(), log.entries)
    }

    /** Assembles a partition from what reopening found. */
    constructor (c: Codec, pk: seq<string>, config: Config, log: FileLogStore, buffer: Buffers.Memtable,
                 segs: seq<SegmentEntry>, index: Index, m: Option<Manifest>, files: map<Source, seq<Row>>,
                   ghost s: State)
      ensures codec == c && this.pk == pk && this.config == config && this.log == log && memtable == buffer
      ensures memtableSuppressed == {} && segments == segs && keyIndex == index && manifest == m && this.files == files
      ensures appliedLsn == lastLsn == Manifested(m).applied
      ensures nextSegmentId == Manifested(m).next
      ensures st == s && trace == []
    {
      var checkpoint := Manifested(m);
      codec, this.pk, this.config, this.log, memtable := c, pk, config, log, buffer;
      memtableSuppressed, segments, keyIndex, manifest, this.files := {}, segs, index, m, files;
      appliedLsn, lastLsn, nextSegmentId := checkpoint.applied, checkpoint.applied, checkpoint.next;
      st, trace := s, [];
    }

    /** Opens a partition from its disk; null when the disk cannot be opened. */
    static method Open(c: Codec, pk: seq<string>, config: Config, d: Disk) returns (p: Partition?)
      requires Numbered(Loaded(d))
      ensures p == null ==> Recovery.Open(c, pk, d) == None
      ensures p != null ==> OpensTo(c, pk, d, p.SysNow())
      ensures p != null ==> fresh(p) && fresh(p.log) && fresh(p.memtable) && p.Tied()
      ensures p != null ==> p.codec == c && p.pk == pk && p.config == config
      ensures p != null && Consistent(c, p.SysNow()) ==> p.Valid()
    {
      var m := Manifested(d.manifest);
      assert m == Loaded(d);
      hide *;
      OpenRefuses(c, pk, d);
      if !(m.segments <= d.files.Keys) {
        return null;
      }
      var log, recovered := OpenLog(c, d, m.applied);
      if log == null {
        return null;
      }
      var files := Referenced(m, d.files);
      OpenSpelt(c, pk, d, recovered, log.file);
      ghost var sys := Reopened(pk, d.manifest, files, recovered, log.file, log.nextLsn);
      assert OpensTo(c, pk, d, sys);
      p := Recover(c, pk, config, log, recovered, d.manifest, files);
      assert p.SysNow() == sys;
    }

    /** Opens the log and moves its LSNs past the checkpoint's. */
    static method OpenLog(c: Codec, d: Disk, applied: nat) returns (log: FileLogStore?, recovered: seq<LogEntry>)
      ensures log == null <==> ScanLog(c, WalFile(d)).Corrupt?
      ensures log != null ==>
                && fresh(log) && log.codec == c && |log.file| <= |WalFile(d)| && log.file == WalFile(d)[..|log.file|]
                && ScanLog(c, WalFile(d)) == Scanned(recovered, |log.file|)
                && log.lastLsn < log.nextLsn == Max(NewestLsn(recovered) + 1, applied + 1)
    {
      hide ScanLog, NewestLsn;
      var dropped;
      log, recovered, dropped := FileLogStore.Open(c, d.wal);
      if log != null {
        log.AdvanceTo(applied);
      }
    }

    /** Assembles the checkpoint and replays the log above it. */
    static method Recover(c: Codec, pk: seq<string>, config: Config, log: FileLogStore, recovered: seq<LogEntry>,
                          manifest: Option<Manifest>, files: map<Source, seq<Row>>) returns (p: Partition)
      requires Manifested(manifest).segments <= files.Keys && Numbered(Manifested(manifest))
      requires log.codec == c && log.lastLsn < log.nextLsn
      modifies log`entries
      ensures fresh(p) && fresh(p.memtable) && p.log == log && p.Tied()
      ensures p.codec == c && p.pk == pk && p.config == config
      ensures p.SysNow() == Reopened(pk, manifest, files, recovered, log.file, log.nextLsn)
      ensures Consistent(c, p.SysNow()) ==> p.Valid()
    {
      var m := Manifested(manifest);
      var segs := LoadSegments(m, files);
      hide Base, Replay, Fields, LoadedStore, Represents;
      p := Assemble(c, pk, config, log, m, manifest, segs, files);
      p.ReplayAbove(recovered, m.applied);
      if Consistent(c, p.SysNow()) {
        p.Adopt();
      }
    }

    /** Records that the opened log holds what scanning it returns. */
    ghost method Adopt()
      requires Tied() && log.codec == codec && log.lastLsn < log.nextLsn && Consistent(codec, SysNow())
      modifies log`entries
      ensures Valid() && Tied() && SysNow() == old(SysNow())
    {
      log.entries := ScanLog(codec, log.file).entries;
    }

    /** Applies the recovered records above the checkpoint, in order. */
    method ReplayAbove(recovered: seq<LogEntry>, applied: nat)
      requires Tied()
      modifies this`memtableSuppressed, this`segments, this`keyIndex, this`lastLsn, this`st, memtable
      ensures Tied() && st == Replay(old(st), Above(recovered, applied))
    {
      ghost var s := st;
      assert Memtable in s.store && Replay(s, Above(recovered[..0], applied)) == s;
      assert recovered[..|recovered|] == recovered;
      hide *;
      for i := 0 to |recovered|
        invariant Tied() && st == Replay(s, Above(recovered[..i], applied))
      {
        ReplayNext(s, recovered, i, applied);
        if recovered[i].lsn > applied {
          ApplyEntry(recovered[i]);
        }
      }
    }

    /** The partition a checkpoint describes, with an empty buffer. */
    static method Assemble(c: Codec, pk: seq<string>, config: Config, log: FileLogStore, m: Manifest,
                           manifest: Option<Manifest>, segs: seq<SegmentEntry>, files: map<Source, seq<Row>>)
      returns (p: Partition)
      requires m == Manifested(manifest) && m.segments <= files.Keys
      requires Represents(segs, files, LoadedStore(m, files)) && forall i :: 0 <= i < |segs| ==> segs[i].id < m.next
      ensures fresh(p) && fresh(p.memtable) && p.Tied() && p.st == Base(pk, m, files)
      ensures p.codec == c && p.pk == pk && p.config == config && p.log == log && p.manifest == manifest
              && p.files == files && p.trace == []
    {
      ghost var s := Base(pk, m, files);
      var index: Index := map[];
      if pk != [] {
        index := RebuildKeyIndex(s.store, pk, segs, files);
        VectorOrder(segs, files, s.store, m.next);
      }
      var buffer := new Buffers.Memtable();
      p := new Partition(c, pk, config, log, buffer, segs, index, manifest, files, s);
    }

    /** Logs a record and applies it; if the log refuses it, only its LSN is used up. */
    method Write(m: Mutation) returns (ok: bool)
      requires Tied() && log.Valid() && log.codec == codec
      requires |codec.encode(LogEntry(log.nextLsn, m))| < 0x1_0000_0000
      modifies this, log, memtable
      ensures Tied() && log.Valid() && ok == Small(codec, LogEntry(old(log.nextLsn), m))
      ensures var e := LogEntry(old(log.nextLsn), m);
              if ok
              then
                && SysNow() == Sys(Apply(old(st), e), old(DiskNow()).(wal := old(DiskNow()).wal + Frame(codec, e)),
                                   e.lsn + 1)
                && log.entries == old(log.entries) + [e] && trace == old(trace) + [SysNow().disk]
              else
                SysNow() == Sys(old(st), old(DiskNow()), e.lsn + 1) && log.entries == old(log.entries)
                  && trace == old(trace)
      ensures memtable.batches == if ok then BatchesAfter(old(memtable.batches), m) else old(memtable.batches)
    {
      hide *;
      DiskSpelt();
      SysSpelt();
      var lsn := log.Append(m);
      DiskSpelt();
      SysSpelt();
      if lsn == None {
        return false;
      }
      ApplyEntry(LogEntry(lsn.value, m));
      Untie();
      DiskSpelt();
      trace := trace + [DiskNow()];
      Tie();
      DiskSpelt();
      SysSpelt();
      ok := true;
    }

    method Commit(m: Mutation) returns (ok: bool)
      requires Tied() && log.Valid() && log.codec == codec && Memtable in SysNow().st.store
      requires |codec.encode(LogEntry(log.nextLsn, m))| < 0x1_0000_0000
      modifies this, log, memtable
      ensures Tied() && log.Valid() && ok == Small(codec, LogEntry(old(log.nextLsn), m))
      ensures SysNow() == Logging(codec, old(SysNow()), m)
      ensures log.entries == LoggingEntries(codec, old(SysNow()), old(log.entries), m)
      ensures trace == old(trace) + LoggingDisks(codec, old(SysNow()), m)
      ensures memtable.batches == if ok then BatchesAfter(old(memtable.batches), m) else old(memtable.batches)
    {
      hide *;
      SysSpelt();
      ghost var sys, es := SysNow(), log.entries;
      LoggingSpelt(codec, sys, es, LogEntry(log.nextLsn, m));
      AcceptsSmall(codec, LogEntry(log.nextLsn, m));
      ok := Write(m);
    }

    lemma SysSpelt()
      ensures SysNow() == Sys(st, DiskNow(), log.nextLsn)
    {
    }

    /** Applies a logged record, on the write path and on replay alike. */
    method ApplyEntry(e: LogEntry)
      requires Tied()
      modifies this`memtableSuppressed, this`segments, this`keyIndex, this`lastLsn, this`st, memtable
      ensures Tied() && st == Apply(old(st), e)
      ensures memtable.batches == BatchesAfter(old(memtable.batches), e.mutation)
    {
      match e.mutation
      case Insert(rows) => ApplyRows(rows, e.lsn);
      case Upsert(rows) => ApplyRows(rows, e.lsn);
      case Delete(keys) => ApplyDeletes(keys, e.lsn);
    }

    /** Indexes and buffers decoded rows. */
    method ApplyRows(rows: seq<Row>, lsn: nat)
      requires Tied()
      modifies this`memtableSuppressed, this`segments, this`keyIndex, this`lastLsn, this`st, memtable
      ensures Tied() && st == Run(old(st), Puts(rows)).(last := Max(old(st).last, lsn))
      ensures memtable.batches == if rows == [] then old(memtable.batches) else old(memtable.batches) + [rows]
    {
      hide *;
      TiedSpelt();
      var index, dead, segs := IndexBatch(st, memtable.Contents(), files, pk, rows, memtable.rows, keyIndex,
                                          memtableSuppressed, segments);
      ghost var t := Run(st, Puts(rows)).(last := Max(lastLsn, lsn));
      FieldsAfter(st, rows, memtable.Contents(), dead, index, segs, files, Max(lastLsn, lsn));
      st := t;
      keyIndex, memtableSuppressed, segments, lastLsn := index, dead, segs, Max(lastLsn, lsn);
      memtable.Append(rows);
      TiedAgain();
    }

    lemma TiedSpelt()
      requires Tied()
      ensures memtable.Valid() && memtable.rows == |memtable.Contents()| && pk == st.pk && Memtable in st.store
      ensures Holds(st, memtable.Contents(), memtableSuppressed, keyIndex, segments, files)
      ensures appliedLsn == st.applied && lastLsn == st.last && nextSegmentId == st.next
    {
    }

    lemma TiedAgain()
      requires memtable.Valid()
      requires Fields(st, pk, memtable.Contents(), memtableSuppressed, keyIndex, segments, files, appliedLsn, lastLsn,
                      nextSegmentId)
      ensures Tied()
    {
    }

    /** Drops deleted keys from the index, suppressing their rows. */
    method ApplyDeletes(keys: seq<RowKey>, lsn: nat)
      requires Tied()
      modifies this`memtableSuppressed, this`segments, this`keyIndex, this`lastLsn, this`st
      ensures Tied() && st == Run(old(st), Dels(keys)).(last := Max(old(st).last, lsn))
    {
      var index, dead, segs :=
        DropKeys(st, memtable.Contents(), files, keys, keyIndex, memtableSuppressed, segments);
      RunKeeps(st, Dels(keys));
      st := Run(st, Dels(keys)).(last := Max(lastLsn, lsn));
      keyIndex, memtableSuppressed, segments, lastLsn := index, dead, segs, Max(lastLsn, lsn);
    }

    lemma Spelt()
      requires Valid()
      ensures Tied() && log.Valid() && log.codec == codec && Inv(codec, SysNow(), log.entries)
      ensures SysNow().st == st && SysNow().disk == DiskNow() && SysNow().nextLsn == log.nextLsn
      ensures Memtable in st.store && st.next == nextSegmentId && st.pk == pk && PartitionState.Valid(st)
    {
    }

    lemma Intact()
      requires Tied() && log.Valid() && log.codec == codec && Inv(codec, SysNow(), log.entries)
      ensures Valid()
    {
    }

    /** Carries out a command that logs the mutation `m`. */
    method LogMutation(ghost cmd: Command, m: Mutation) returns (ok: bool)
      requires Valid() && Encodable(codec, SysNow(), cmd)
      requires !cmd.Flush? && !cmd.Compact? && Logged(st, cmd) == Some(m)
      modifies this, log, memtable
      ensures Valid() && SysNow() == Do(codec, old(SysNow()), cmd)
      ensures trace == old(trace) + Disks(codec, old(SysNow()), cmd)
      ensures ok == Small(codec, LogEntry(old(log.nextLsn), m))
      ensures memtable.batches == if ok then BatchesAfter(old(memtable.batches), m) else old(memtable.batches)
    {
      assert |codec.encode(LogEntry(log.nextLsn, m))| < 0x1_0000_0000;
      hide *;
      Spelt();
      DoInv(codec, SysNow(), log.entries, cmd);
      DoLogging(codec, SysNow(), log.entries, cmd, m);
      ok := Commit(m);
      Intact();
    }

    /** Logs rows and applies them. */
    method LogRows(rows: seq<Row>, upsert: bool) returns (ok: bool)
      requires Valid() && Encodable(codec, SysNow(), Append(rows, upsert))
      modifies this, log, memtable
      ensures Valid() && SysNow() == Do(codec, old(SysNow()), Append(rows, upsert))
      ensures trace == old(trace) + Disks(codec, old(SysNow()), Append(rows, upsert))
      ensures ok == Small(codec, LogEntry(old(log.nextLsn), if upsert then Upsert(rows) else Insert(rows)))
      ensures memtable.batches ==
              if ok && rows != [] then old(memtable.batches) + [rows] else old(memtable.batches)
    {
      var m := if upsert then Upsert(rows) else Insert(rows);
      assert Logged(st, Append(rows, upsert)) == Some(m);
      assert BatchesAfter(memtable.batches, m) ==
             if rows == [] then memtable.batches else memtable.batches + [rows];
      hide *;
      ok := LogMutation(Append(rows, upsert), m);
    }

    /** Tombstones the keys that exist here; returns how many, unless the log refuses the record. */
    method DropRows(keys: seq<RowKey>) returns (deleted: Option<nat>)
      requires Valid() && Encodable(codec, SysNow(), Erase(keys))
      modifies this, log, memtable
      ensures Valid() && SysNow() == Do(codec, old(SysNow()), Erase(keys))
      ensures trace == old(trace) + Disks(codec, old(SysNow()), Erase(keys))
      ensures var present := PresentKeys(old(st).index, keys);
              deleted == if present == [] || Small(codec, LogEntry(old(log.nextLsn), Delete(present)))
                         then Some(|present|) else None
    {
      hide Inv, Apply;
      var present := FilterPresent(keyIndex, keys);
      if present == [] {
        return Some(0);
      }
      assert Logged(st, Erase(keys)) == Some(Delete(present));
      hide Disks, Do, Logged, Small;
      var ok := LogMutation(Erase(keys), Delete(present));
      deleted := if ok then Some(|present|) else None;
    }

    /** What the compaction policy sees of the segments. */
    method SegmentFacts() returns (facts: seq<Compaction.Facts>)
      requires Tied() && PartitionState.Valid(st)
      ensures facts == FactsOf(st, config.fileBytes)
    {
      VectorFacts(segments, files, st, config.fileBytes);
      hide FactsOf, Fields;
      facts := [];
      for i := 0 to |segments|
        invariant facts == FactsOf(st, config.fileBytes)[..i]
      {
        var e := segments[i];
        facts := facts + [Compaction.Facts(e.id, e.rowCount, config.fileBytes(files[Segment(e.id)]), |e.suppressed|)];
      }
    }

    /** The segments the policy selects. */
    method SelectIds() returns (ids: set<nat>)
      requires Tied() && PartitionState.Valid(st)
      ensures ids == Selected(st, config.fileBytes, config.policy)
    {
      hide *;
      var facts := SegmentFacts();
      var chosen := Compaction.Select(facts, config.policy);
      SelectedSpelt(st, config.fileBytes, config.policy);
      ids := set f | f in chosen :: f.id;
    }

    /** Compacts the given segments. The table stays the same. */
    method CompactIds(ids: set<nat>) returns (compacted: bool)
      requires Valid()
      modifies this
      ensures Valid() && Observe(st) == Observe(old(st)) && st == CompactState(old(st), ids)
      ensures SysNow() == Do(codec, old(SysNow()), Compact(ids))
      ensures trace == old(trace) + Disks(codec, old(SysNow()), Compact(ids))
    {
      hide *;
      Spelt();
      ObserveCommand(codec, SysNow(), log.entries, Compact(ids));
      DoneCompacting(codec, SysNow(), ids);
      compacted := CompactSegments(ids);
      SysSpelt();
    }

    /** The partition carried out the commands `did`, starting from `s` with the history `history`. */
    ghost predicate Carried(s: Sys, history: seq<Disk>, did: seq<Command>)
      reads this, log
    {
      SysNow() == DoAll(codec, s, did) && trace == history + DisksAll(codec, s, did)
    }

    lemma CarriedNone(s: Sys, history: seq<Disk>)
      requires SysNow() == s && trace == history
      ensures Carried(s, history, [])
    {
      NoneDone(codec, s, []);
      assert history + [] == history;
    }

    lemma CarriedOne(s: Sys, history: seq<Disk>, cmd: Command)
      requires Memtable in s.st.store && SysNow() == Do(codec, s, cmd) && trace == history + Disks(codec, s, cmd)
      ensures Carried(s, history, [cmd])
    {
      hide Do, Disks;
      OneDone(codec, s, cmd);
    }

    lemma CarriedMore(s: Sys, history: seq<Disk>, did: seq<Command>, s': Sys, history': seq<Disk>, more: seq<Command>)
      requires s' == DoAll(codec, s, did) && history' == history + DisksAll(codec, s, did)
      requires Carried(s', history', more)
      ensures Carried(s, history, did + more)
    {
      hide DoAll, DisksAll;
      DoneMore(codec, s, did, more);
      Associate(history, DisksAll(codec, s, did), DisksAll(codec, s', more));
    }

    lemma CarriedSpelt(s: Sys, history: seq<Disk>, did: seq<Command>)
      requires Carried(s, history, did)
      ensures SysNow() == DoAll(codec, s, did) && trace == history + DisksAll(codec, s, did)
    {
    }

    /** Compacts what the policy selects. The table stays the same. */
    method CompactByPolicy() returns (compacted: bool, ghost did: seq<Command>)
      requires Valid()
      modifies this
      ensures Valid() && Observe(st) == Observe(old(st))
      ensures st == CompactState(old(st), Selected(old(st), config.fileBytes, config.policy))
      ensures var ids := Selected(old(st), config.fileBytes, config.policy);
              did == if ids == {} then [] else [Compact(ids)]
      ensures Upkeep(did) && Carried(old(SysNow()), old(trace), did)
    {
      hide *;
      Spelt();
      UpkeepSpelt();
      ghost var s, history := SysNow(), trace;
      var ids := SelectIds();
      if ids == {} {
        NothingSelected(st);
        CarriedNone(s, history);
        return false, [];
      }
      compacted := CompactIds(ids);
      CarriedOne(s, history, Compact(ids));
      did := [Compact(ids)];
    }

    /** Flushes, and compacts afterwards if so configured. Neither changes the table. A segment is created exactly
        when the buffer has a live row. */
    method FlushLocked() returns (created: bool, ghost did: seq<Command>)
      requires Valid()
      modifies this, log, memtable
      ensures Valid() && Observe(st) == Observe(old(st))
      ensures created == (FlushRows(old(st)) != [])
      ensures Memtable in old(st).store && did == [Flush] + Follow(config, old(st))
      ensures Upkeep(did) && Carried(old(SysNow()), old(trace), did)
    {
      hide *;
      Spelt();
      UpkeepSpelt();
      ghost var s, history := SysNow(), trace;
      ObserveCommand(codec, SysNow(), log.entries, Flush);
      FlushCreates(st);
      DoneFlushing(codec, SysNow());
      FollowSpelt(config, st);
      var next := nextSegmentId;
      var flushed := FlushMemtable();
      Spelt();
      CarriedOne(s, history, Flush);
      CarriedSpelt(s, history, [Flush]);
      created, did := nextSegmentId != next, [Flush];
      if flushed && config.autoCompact {
        ghost var s', history' := SysNow(), trace;
        ghost var more;
        var compacted;
        compacted, more := CompactByPolicy();
        CarriedMore(s, history, [Flush], s', history', more);
        UpkeepMore(Flush, more);
        did := [Flush] + more;
      }
    }

    /** Logs rows, applies them, and flushes when the buffer is full. The table gains exactly the rows
        if the log accepts the record, and nothing otherwise. One append and then only upkeep is carried out. */
    method AppendRows(rows: seq<Row>, upsert: bool) returns (ok: bool, created: bool, ghost did: seq<Command>)
      requires Valid() && Encodable(codec, SysNow(), Append(rows, upsert))
      modifies this, log, memtable
      ensures Valid() && (created ==> ok)
      ensures ok == Brief(codec, old(SysNow()), Append(rows, upsert))
      ensures Observe(st) == if ok then TableRun(pk, Observe(old(st)), Puts(rows)) else Observe(old(st))
      ensures did != [] && did[0] == Append(rows, upsert) && Upkeep(did[1..])
      ensures var batches := if rows == [] then old(memtable.batches) else old(memtable.batches) + [rows];
              if ok && IsFull(config, batches) then |did| > 1 && did[1] == Flush else did == [Append(rows, upsert)]
      ensures Carried(old(SysNow()), old(trace), did)
    {
      hide *;
      Spelt();
      UpkeepSpelt();
      ghost var s, history := SysNow(), trace;
      ObserveCommand(codec, SysNow(), log.entries, Append(rows, upsert));
      BriefSpelt(codec, SysNow(), Append(rows, upsert));
      created := false;
      ok := LogRows(rows, upsert);
      SysSpelt();
      CarriedOne(s, history, Append(rows, upsert));
      CarriedSpelt(s, history, [Append(rows, upsert)]);
      did := [Append(rows, upsert)];
      assert did[1..] == [];
      FullSpelt();
      if ok && (memtable.rows >= config.maxRows || config.bufferBytes(memtable.batches) >= config.maxBytes) {
        ghost var s', history' := SysNow(), trace;
        ghost var more;
        created, more := FlushLocked();
        CarriedMore(s, history, [Append(rows, upsert)], s', history', more);
        did := [Append(rows, upsert)] + more;
        assert did[1..] == more;
      }
    }

    lemma FullSpelt()
      requires Valid()
      ensures IsFull(config, memtable.batches) <==>
              memtable.rows >= config.maxRows || config.bufferBytes(memtable.batches) >= config.maxBytes
    {
    }

    /** Deletes keys, unless the log refuses the record. The table loses exactly the given keys it had, and the
        count says how many. */
    method DeleteKeys(keys: seq<RowKey>) returns (deleted: Option<nat>)
      requires Valid() && Encodable(codec, SysNow(), Erase(keys))
      modifies this, log, memtable
      ensures Valid()
      ensures deleted.Some? <==> Brief(codec, old(SysNow()), Erase(keys))
      ensures deleted.Some? ==> deleted.value == |PresentKeys(old(st).index, keys)|
      ensures Observe(st) ==
              if deleted.Some? then TableRun(pk, Observe(old(st)), Dels(PresentKeys(old(st).index, keys)))
              else Observe(old(st))
    {
      hide *;
      Spelt();
      ObserveCommand(codec, SysNow(), log.entries, Erase(keys));
      BriefSpelt(codec, SysNow(), Erase(keys));
      deleted := DropRows(keys);
      SysSpelt();
    }

    /** Whether a key has a row here. */
    predicate Contains(key: RowKey)
      reads this
    {
      key in keyIndex
    }

    lemma ContainsObserved(key: RowKey)
      requires Valid() && pk != []
      ensures Observe(st).Keyed? && (Contains(key) <==> key in Observe(st).rows)
    {
    }

    /** A read view: the segments with their statistics, which were computed from the same rows when
        the segment was written, and the memtable. A scan of it returns exactly the visible rows. */
    method TakeSnapshot(fs: Filters, schema: seq<ColumnSchema>) returns (s: Snapshot)
      requires Tied() && PartitionState.Valid(st)
      ensures VisibleRows(s) == Visible(st.store, st.next) && Accurate(s) && Described(fs, schema, s)
    {
      var views: seq<SegmentView> := [];
      for i := 0 to |segments|
        invariant |views| == i
        invariant forall j :: 0 <= j < i ==>
                    var rows := files[Segment(segments[j].id)];
                    views[j] == SegmentView(rows, segments[j].suppressed, MetaOf(fs, schema, rows))
      {
        var rows := files[Segment(segments[i].id)];
        views := views + [SegmentView(rows, segments[i].suppressed, MetaOf(fs, schema, rows))];
      }
      s := Snapshot(views, memtable.batches, memtableSuppressed);
      IdsAreBelow(segments, files, st.store, st.next);
      SnapshotIsAccurate(s, fs, schema, segments, files, st);
      hide VisibleRows, Visible, Represents, Accurate;
      SnapshotVisible(s, segments, files, st.store, st.next);
    }

    lemma IndexedRow(key: RowKey)
      requires Valid() && pk != []
      ensures Observe(st).Keyed? && (key in keyIndex <==> key in Observe(st).rows)
      ensures key in keyIndex ==>
                Live(st.store, keyIndex[key]) && RowAt(st.store, keyIndex[key]) == Observe(st).rows[key]
    {
    }

    /** Every row of one source, suppressed ones included. */
    method ReadSource(src: Source) returns (rows: seq<Row>)
      requires Tied() && src in st.store
      ensures rows == st.store[src].rows
    {
      if src == Memtable {
        var buffered := memtable.Concat();
        rows := if buffered.Some? then buffered.value else [];
      } else {
        rows := files[src];
      }
    }

    /** Merges the segments in `ids` into a new one: the segment file first, then the manifest, then
        the inputs' files are deleted. */
    method CompactSegments(ids: set<nat>) returns (compacted: bool)
      requires Valid()
      modifies this
      ensures Valid() && SysNow() == Do(codec, old(SysNow()), Compact(ids))
      ensures trace == old(trace) + Disks(codec, old(SysNow()), Compact(ids))
      ensures compacted == Compacts(old(st), ids)
    {
      DoCompact(codec, SysNow(), log.entries, ids);
      var inputs, others := SplitSegments(ids);
      compacted := inputs != [];
      if compacted {
        hide Inv, Do, Disks, EntriesAfter, Fields, CanMerge;
        CompactInputs(ids, inputs, others);
      }
    }

    /** Carries out a compaction that has something to merge. */
    method CompactInputs(ids: set<nat>, inputs: seq<SegmentEntry>, others: seq<SegmentEntry>)
      requires Valid() && CanMerge(st, files, ids, inputs, others)
      modifies this
      ensures Valid() && SysNow() == Do(codec, old(SysNow()), Compact(ids))
      ensures trace == old(trace) + Disks(codec, old(SysNow()), Compact(ids))
    {
      assert Sources(inputs) == Inputs(st, ids) && Compacts(st, ids);
      hide *;
      Spelt();
      DoCompact(codec, SysNow(), log.entries, ids);
      DoInv(codec, SysNow(), log.entries, Compact(ids));
      ReplaceSegments(ids, inputs, others);
      Intact();
    }

    /** The segments to merge and the segments to keep. */
    method SplitSegments(ids: set<nat>) returns (inputs: seq<SegmentEntry>, others: seq<SegmentEntry>)
      requires Tied() && PartitionState.Valid(st)
      ensures inputs == [] <==> !Compacts(st, ids)
      ensures inputs != [] ==> CanMerge(st, files, ids, inputs, others)
    {
      inputs, others := Partitioned(segments, ids);
      hide Inputs;
      InputEntries(segments, inputs, ids, files, st);
      VacatedSegments(segments, inputs, others, ids, files, st.store);
    }

    /** The durable steps of a compaction. */
    method ReplaceSegments(ids: set<nat>, inputs: seq<SegmentEntry>, others: seq<SegmentEntry>)
      requires Tied() && PartitionState.Valid(st) && CanMerge(st, files, ids, inputs, others)
      modifies this`segments, this`keyIndex, this`nextSegmentId, this`manifest, this`files, this`st, this`trace
      ensures Tied()
      ensures var t := CompactState(old(st), ids);
              var d1 := old(DiskNow()).(files := PutFile(old(DiskNow()).files, old(nextSegmentId),
                                                         CompactRows(old(st), ids)));
              var d2 := d1.(manifest := Some(Committed(t)));
              var srcs := Sources(inputs);
              && trace == old(trace) + ([d1, d2] + DeleteDisks(d2, srcs))
              && SysNow() == Sys(t, DeleteFiles(d2, srcs, |srcs|), log.nextLsn)
    {
      InputsLeave(st, ids);
      assert forall i :: 0 <= i < |inputs| ==> Segment(inputs[i].id) == Sources(inputs)[i];
      hide CanMerge, CompactState, CompactRows, PutFile, Committed, Fields, Inputs, Represents, PartitionState.Valid,
           DeleteDisks, DeleteFiles;
      PublishMerged(ids, inputs, others);
      ghost var published := trace[|old(trace)|..];
      DeleteInputs(inputs);
      Associate(old(trace), published, trace[|old(trace)| + 2..]);
    }

    /** Puts the merged segment's file and commits the manifest that refers to it. */
    method PublishMerged(ids: set<nat>, inputs: seq<SegmentEntry>, others: seq<SegmentEntry>)
      requires Tied() && PartitionState.Valid(st) && CanMerge(st, files, ids, inputs, others)
      modifies this`segments, this`keyIndex, this`nextSegmentId, this`manifest, this`files, this`st, this`trace
      ensures Tied() && st == CompactState(old(st), ids) && manifest == Some(Committed(st))
      ensures files == PutFile(old(files), old(nextSegmentId), CompactRows(old(st), ids))
      ensures trace == old(trace) + [Disk(log.file, old(manifest), files), DiskNow()]
    {
      hide CanMerge, CompactState, CompactRows, PutFile, Committed, Fields, Inputs, Represents, PartitionState.Valid;
      MergeSegments(ids, inputs, others);
      trace := trace + [DiskNow()];
      CommitManifest();
    }

    /** Writes the merged segment and puts it in place of its inputs. */
    method MergeSegments(ids: set<nat>, inputs: seq<SegmentEntry>, others: seq<SegmentEntry>)
      requires Tied() && PartitionState.Valid(st) && CanMerge(st, files, ids, inputs, others)
      modifies this`segments, this`keyIndex, this`nextSegmentId, this`files, this`st
      ensures Tied() && st == CompactState(old(st), ids)
      ensures files == PutFile(old(files), old(nextSegmentId), CompactRows(old(st), ids))
    {
      hide CanMerge, CompactState, CompactRows, PutFile, Fields, Inputs, Represents, PartitionState.Valid;
      var index, segs, written := CompactPieces(st, ids, pk, memtable.Contents(), memtableSuppressed, keyIndex,
                                                segments,
                                                inputs, others, files, appliedLsn, lastLsn, nextSegmentId);
      keyIndex, segments, files, nextSegmentId, st := index, segs, written, nextSegmentId + 1, CompactState(st, ids);
    }

    /** Deletes the files of merged segments, which the manifest no longer refers to. */
    method DeleteInputs(inputs: seq<SegmentEntry>)
      requires Tied() && forall i :: 0 <= i < |inputs| ==> Segment(inputs[i].id) !in st.store
      modifies this`files, this`trace
      ensures Tied() && DiskNow() == DeleteFiles(old(DiskNow()), Sources(inputs), |inputs|)
      ensures trace == old(trace) + DeleteDisks(old(DiskNow()), Sources(inputs))
    {
      ghost var d := DiskNow();
      for i := 0 to |inputs|
        invariant Tied() && DiskNow() == DeleteFiles(d, Sources(inputs), i)
        invariant trace == old(trace) + DeleteDisks(d, Sources(inputs))[..i]
      {
        DeleteNext(d, Sources(inputs), i);
        DeletedRepresents(segments, files, st.store, Segment(inputs[i].id));
        files := files - {Segment(inputs[i].id)};
        trace := trace + [DiskNow()];
      }
    }

    /** Writes the manifest of the current state. */
    method CommitManifest()
      requires Tied()
      modifies this`manifest, this`trace
      ensures Tied() && manifest == Some(Committed(st)) && trace == old(trace) + [DiskNow()]
    {
      var m := BuildManifest(appliedLsn, nextSegmentId, segments);
      ManifestCommitted(m, st, segments, files);
      manifest := Some(m);
      trace := trace + [DiskNow()];
    }

    /** Materializes the buffer into a segment and checkpoints: the segment file first, then the
        manifest, then the log. Does nothing when there is nothing new to checkpoint. */
    method FlushMemtable() returns (flushed: bool)
      requires Valid()
      modifies this, log, memtable
      ensures Valid() && SysNow() == Do(codec, old(SysNow()), Flush)
      ensures trace == old(trace) + Disks(codec, old(SysNow()), Flush)
      ensures flushed == Flushes(old(st))
    {
      flushed := memtable.rows != 0 || lastLsn != appliedLsn;
      assert flushed == Flushes(st);
      hide *;
      Spelt();
      DoFlush(codec, SysNow(), log.entries);
      DoInv(codec, SysNow(), log.entries, Flush);
      if flushed {
        CheckpointBuffer();
        SysSpelt();
        Intact();
      }
    }

    /** The three durable steps of a flush. */
    method CheckpointBuffer()
      requires Tied() && PartitionState.Valid(st) && log.Valid() && log.codec == codec
      modifies this, log, memtable
      ensures Tied() && log.Valid() && st == FlushState(old(st)) && log.nextLsn == old(log.nextLsn)
      ensures log.entries == Above(old(log.entries), old(lastLsn))
      ensures manifest == Some(Committed(st)) && files == PutFile(old(files), old(nextSegmentId), FlushRows(old(st)))
      ensures trace == old(trace) + [Disk(old(log.file), old(manifest), files), Disk(old(log.file), manifest, files),
                                     DiskNow()]
    {
      hide *;
      PublishBuffer();
      log.Truncate(appliedLsn);
      Untie();
      DiskSpelt();
      trace := trace + [DiskNow()];
      Tie();
      DiskSpelt();
    }

    /** Writes the buffer out and commits the manifest that refers to it. */
    method PublishBuffer()
      requires Tied() && PartitionState.Valid(st)
      modifies this, memtable
      ensures Tied() && st == FlushState(old(st)) && appliedLsn == old(lastLsn)
      ensures manifest == Some(Committed(st)) && files == PutFile(old(files), old(nextSegmentId), FlushRows(old(st)))
      ensures trace == old(trace) + [Disk(log.file, old(manifest), files), Disk(log.file, manifest, files)]
    {
      hide *;
      Untie();
      var buffered := memtable.Concat();
      WriteBuffer(buffered);
      DiskSpelt();
      trace := trace + [DiskNow()];
      CommitManifest();
      DiskSpelt();
    }

    lemma DiskSpelt()
      ensures DiskNow() == Disk(log.file, manifest, files)
    {
    }

    /** Writes the buffer out, if there is one, and moves the checkpoint up to it. */
    method WriteBuffer(buffered: Option<seq<Row>>)
      requires Tied() && PartitionState.Valid(st)
      requires buffered == if memtable.Contents() == [] then None else Some(memtable.Contents())
      modifies this`memtableSuppressed, this`segments, this`keyIndex, this`appliedLsn, this`nextSegmentId, this`files
      modifies this`st, memtable
      ensures Tied() && st == FlushState(old(st))
      ensures files == PutFile(old(files), old(nextSegmentId), FlushRows(old(st)))
      ensures appliedLsn == lastLsn
    {
      if buffered.Some? {
        WriteOut(buffered.value);
      } else {
        EmptyBuffer(st.store);
        appliedLsn := lastLsn;
        st := st.(applied := lastLsn);
      }
    }

    /** Writes the buffer's live rows to a segment, points their keys at it, and clears the buffer. */
    method WriteOut(buffered: seq<Row>)
      requires Tied() && PartitionState.Valid(st) && buffered == memtable.Contents() && buffered != []
      modifies this`memtableSuppressed, this`segments, this`keyIndex, this`appliedLsn, this`nextSegmentId, this`files
      modifies this`st, memtable
      ensures Tied() && st == FlushState(old(st))
      ensures files == PutFile(old(files), old(nextSegmentId), FlushRows(old(st)))
    {
      hide *;
      Untie();
      var index, segs, written, next := FlushPieces(st, pk, buffered, memtableSuppressed, keyIndex, segments, files,
                                                    appliedLsn, lastLsn, nextSegmentId);
      memtable.Clear();
      keyIndex, segments, files, nextSegmentId, memtableSuppressed, appliedLsn, st :=
        index, segs, written, next, {}, lastLsn, FlushState(st);
      Tie();
    }

    lemma Untie()
      requires Tied()
      ensures Memtable in st.store && memtable.Valid()
      ensures Fields(st, pk, memtable.Contents(), memtableSuppressed, keyIndex, segments, files, appliedLsn, lastLsn,
                     nextSegmentId)
    {
    }

    lemma Tie()
      requires memtable.Valid()
      requires Fields(st, pk, memtable.Contents(), memtableSuppressed, keyIndex, segments, files, appliedLsn, lastLsn,
                      nextSegmentId)
      ensures Tied()
    {
    }
  }

  /** The index, vector and files after a flush of a non-empty buffer. */
  method FlushPieces(ghost s: State, pk: seq<string>, buffered: seq<Row>, dead: set<nat>, index: Index,
                     segs: seq<SegmentEntry>, files: map<Source, seq<Row>>, ghost applied: nat, ghost last: nat,
                       next: nat)
    returns (index': Index, segs': seq<SegmentEntry>, files': map<Source, seq<Row>>, next': nat)
    requires PartitionState.Valid(s) && Fields(s, pk, buffered, dead, index, segs, files, applied, last, next)
    requires buffered != []
    ensures Fields(FlushState(s), pk, [], {}, index', segs', files', last, last, next')
    ensures files' == PutFile(files, next, FlushRows(s))
  {
    index', segs', files', next' := index, segs, files, next;
    var locs, rows := Survivors(s.store, Memtable, buffered, dead);
    OneSource(s.store, Memtable);
    FlushHolds(s, rows, buffered, dead, index, segs, files);
    if pk != [] {
      index' := RelocateRows(pk, rows, locs, next, index);
    }
    if rows != [] {
      files' := files[Segment(next) := rows];
      segs' := segs + [SegmentEntry(next, |rows|, {})];
      next' := next + 1;
    }
  }

  lemma FlushHolds(s: State, rows: seq<Row>, buffered: seq<Row>, dead: set<nat>, index: Index, segs: seq<SegmentEntry>,
                   files: map<Source, seq<Row>>)
    requires PartitionState.Valid(s) && Holds(s, buffered, dead, index, segs, files) && buffered != []
    requires rows == FlushRows(s)
    ensures Memtable in FlushState(s).store && FlushState(s).store[Memtable] == Rows([], {})
    ensures if rows == [] then Represents(segs, files, FlushState(s).store)
            else Represents(segs + [SegmentEntry(s.next, |rows|, {})], files[Segment(s.next) := rows],
                            FlushState(s).store)
  {
    VacatedMemtable(segs, files, s.store);
    RepresentsMerge(segs, files, s.store, [Memtable], s.next);
    FlushEmpties(s);
  }

  /** The index, vector and files after a compaction of `inputs`. */
  method CompactPieces(ghost s: State, ids: set<nat>, pk: seq<string>, ghost buffered: seq<Row>, ghost dead: set<nat>,
                       index: Index, ghost segs: seq<SegmentEntry>, inputs: seq<SegmentEntry>,
                         others: seq<SegmentEntry>,
                       files: map<Source, seq<Row>>, ghost applied: nat, ghost last: nat, next: nat)
    returns (index': Index, segs': seq<SegmentEntry>, files': map<Source, seq<Row>>)
    requires PartitionState.Valid(s) && Fields(s, pk, buffered, dead, index, segs, files, applied, last, next)
    requires CanMerge(s, files, ids, inputs, others)
    ensures Fields(CompactState(s, ids), pk, buffered, dead, index', segs', files', applied, last, next + 1)
    ensures files' == PutFile(files, next, CompactRows(s, ids))
  {
    index', segs', files' := index, others, files;
    var locs, rows := MergeInputs(s.store, inputs, files);
    RepresentsMerge(others, files, s.store, Sources(inputs), next);
    CompactBuffer(s, ids);
    if pk != [] {
      index' := RelocateRows(pk, rows, locs, next, index);
    }
    if rows != [] {
      files' := files[Segment(next) := rows];
      segs' := others + [SegmentEntry(next, |rows|, {})];
    }
  }

  lemma OpenRefuses(c: Codec, pk: seq<string>, d: Disk)
    ensures !(Loaded(d).segments <= d.files.Keys) || ScanLog(c, WalFile(d)).Corrupt? ==> Recovery.Open(c, pk, d) == None
  {
    hide ScanLog, WalFile, Loaded;
  }

  ghost predicate OpensTo(c: Codec, pk: seq<string>, d: Disk, sys: Sys) { Recovery.Open(c, pk, d) == Some(sys) }

  /** What reopening makes of a checkpoint, its files and the records of the log. */
  ghost function Reopened(pk: seq<string>, manifest: Option<Manifest>, files: map<Source, seq<Row>>, es: seq<LogEntry>,
                          file: seq<byte>, next: nat): Sys
    requires Manifested(manifest).segments <= files.Keys
  {
    var m := Manifested(manifest);
    Sys(Replay(Base(pk, m, files), Above(es, m.applied)), Disk(file, manifest, files), next)
  }

  lemma IdsAreBelow(segs: seq<SegmentEntry>, files: map<Source, seq<Row>>, st: Store, next: nat)
    requires Represents(segs, files, st) && IdsBelow(st, next)
    ensures forall i :: 0 <= i < |segs| ==> segs[i].id < next
  {
    forall i | 0 <= i < |segs|
      ensures segs[i].id < next
    {
      assert Segment(segs[i].id) in st;
    }
  }

  lemma SnapshotIsAccurate(s: Snapshot, fs: Filters, schema: seq<ColumnSchema>, segs: seq<SegmentEntry>,
                           files: map<Source, seq<Row>>, t: State)
    requires PartitionState.Valid(t) && Represents(segs, files, t.store) && Memtable in t.store
    requires t.store[Memtable] == Rows(Buffers.Flatten(s.memtable), s.memtableSuppressed)
    requires |s.segments| == |segs| && forall j :: 0 <= j < |segs| ==>
               var src := Segment(segs[j].id);
               src in files && s.segments[j] == SegmentView(files[src], segs[j].suppressed,
                                                            MetaOf(fs, schema, files[src]))
    ensures Accurate(s) && Described(fs, schema, s) && Shows(s.segments, segs, files)
  {
    hide ColumnsOf;
    forall i | 0 <= i < |segs|
      ensures s.segments[i].meta.rowCount == |s.segments[i].rows|
              && InRange(s.segments[i].suppressed, |s.segments[i].rows|)
      ensures s.segments[i].meta == MetaOf(fs, schema, s.segments[i].rows)
    {
      assert t.store[Segment(segs[i].id)] == Rows(files[Segment(segs[i].id)], segs[i].suppressed);
    }
  }

  lemma OpenBody(c: Codec, pk: seq<string>, d: Disk, es: seq<LogEntry>, end: nat)
    requires Loaded(d).segments <= d.files.Keys && end <= |WalFile(d)| && ScanLog(c, WalFile(d)) == Scanned(es, end)
    ensures var m := Loaded(d);
            Recovery.Open(c, pk, d) ==
            Some(Sys(Replay(Base(pk, m, d.files), Above(es, m.applied)),
                     Disk(WalFile(d)[..end], d.manifest, Referenced(m, d.files)),
                     Max(NewestLsn(es) + 1, m.applied + 1)))
  {
    hide Base, Replay, Above, ScanLog, Referenced, WalFile, NewestLsn, Max, Loaded;
  }

  /** Reopening, spelt out over the files that are kept. */
  lemma OpenSpelt(c: Codec, pk: seq<string>, d: Disk, es: seq<LogEntry>, file: seq<byte>)
    requires Manifested(d.manifest).segments <= d.files.Keys && |file| <= |WalFile(d)| && file == WalFile(d)[..|file|]
    requires ScanLog(c, WalFile(d)) == Scanned(es, |file|)
    ensures var m := Manifested(d.manifest);
            OpensTo(c, pk, d, Reopened(pk, d.manifest, Referenced(m, d.files), es, file,
                                       Max(NewestLsn(es) + 1, m.applied + 1)))
  {
    var m := Manifested(d.manifest);
    assert m == Loaded(d);
    hide Base, Replay, Above, ScanLog, Referenced, WalFile, NewestLsn, Max, SameFiles, Loaded, Manifested,
         Recovery.Open;
    RestrictedFiles(m, d.files);
    BaseDepends(pk, m, d.files, Referenced(m, d.files));
    OpenBody(c, pk, d, es, |file|);
  }

  lemma LoggingSpelt(c: Codec, sys: Sys, es: seq<LogEntry>, e: LogEntry)
    requires Memtable in sys.st.store && e.lsn == sys.nextLsn
    ensures var d := sys.disk.(wal := sys.disk.wal + Frame(c, e));
            if Accepts(c, e)
            then
              && Logging(c, sys, e.mutation) == Sys(Apply(sys.st, e), d, sys.nextLsn + 1)
              && LoggingEntries(c, sys, es, e.mutation) == es + [e] && LoggingDisks(c, sys, e.mutation) == [d]
            else
              && Logging(c, sys, e.mutation) == Sys(sys.st, sys.disk, sys.nextLsn + 1)
              && LoggingEntries(c, sys, es, e.mutation) == es && LoggingDisks(c, sys, e.mutation) == []
  {
  }

  /** A compaction, spelt out. */
  lemma DoCompact(c: Codec, sys: Sys, es: seq<LogEntry>, ids: set<nat>)
    requires Inv(c, sys, es)
    ensures Memtable in sys.st.store && PartitionState.Valid(sys.st)
    ensures EntriesAfter(c, sys, es, Compact(ids)) == es
    ensures if Compacts(sys.st, ids)
            then
              var srcs := Inputs(sys.st, ids);
              var t := CompactState(sys.st, ids);
              var d1 := sys.disk.(files := PutFile(sys.disk.files, sys.st.next, CompactRows(sys.st, ids)));
              var d2 := d1.(manifest := Some(Committed(t)));
              && Disks(c, sys, Compact(ids)) == [d1, d2] + DeleteDisks(d2, srcs)
              && Do(c, sys, Compact(ids)) == Sys(t, DeleteFiles(d2, srcs, |srcs|), sys.nextLsn)
            else
              Disks(c, sys, Compact(ids)) == [] && Do(c, sys, Compact(ids)) == sys
  {
  }

  /** What a command does to the table, in the terms of its caller. */
  lemma ObserveCommand(c: Codec, sys: Sys, es: seq<LogEntry>, cmd: Command)
    requires Inv(c, sys, es)
    ensures Memtable in sys.st.store
    ensures cmd.Flush? || cmd.Compact? ==> Observe(Do(c, sys, cmd).st) == Observe(sys.st)
    ensures cmd.Append? ==>
              Observe(Do(c, sys, cmd).st) ==
              if Accepts(c, LogEntry(sys.nextLsn, if cmd.upsert then Upsert(cmd.rows) else Insert(cmd.rows)))
              then TableRun(sys.st.pk, Observe(sys.st), Puts(cmd.rows)) else Observe(sys.st)
    ensures cmd.Erase? ==>
              var present := PresentKeys(sys.st.index, cmd.keys);
              Observe(Do(c, sys, cmd).st) ==
              if present == [] || Accepts(c, LogEntry(sys.nextLsn, Delete(present)))
              then TableRun(sys.st.pk, Observe(sys.st), Dels(present)) else Observe(sys.st)
  {
    assert PartitionState.Valid(sys.st) && Memtable in sys.st.store;
    hide *;
    ObserveDo(c, sys, cmd);
    EffectSpelt(c, sys, cmd);
    NothingRun(sys.st.pk, Observe(sys.st));
  }

  /** When the log accepts, by kind of command. */
  lemma BriefSpelt(c: Codec, sys: Sys, cmd: Command)
    requires Encodable(c, sys, cmd)
    ensures cmd.Append? ==>
              var e := LogEntry(sys.nextLsn, if cmd.upsert then Upsert(cmd.rows) else Insert(cmd.rows));
              Brief(c, sys, cmd) == Small(c, e) == Accepts(c, e)
    ensures cmd.Erase? ==>
              var present := PresentKeys(sys.st.index, cmd.keys);
              var e := LogEntry(sys.nextLsn, Delete(present));
              && Brief(c, sys, cmd) == (present == [] || Small(c, e))
              && (present != [] ==> Small(c, e) == Accepts(c, e))
  {
    hide PresentKeys;
  }

  lemma NothingRun(pk: seq<string>, t: Table)
    ensures TableRun(pk, t, []) == t && Dels([]) == []
  {
  }

  /** The changes a command makes, by kind of command. */
  lemma EffectSpelt(c: Codec, sys: Sys, cmd: Command)
    ensures cmd.Flush? || cmd.Compact? ==> Effect(c, sys, cmd) == []
    ensures cmd.Append? ==>
              Effect(c, sys, cmd) ==
              if Accepts(c, LogEntry(sys.nextLsn, if cmd.upsert then Upsert(cmd.rows) else Insert(cmd.rows)))
              then Puts(cmd.rows) else []
    ensures cmd.Erase? ==>
              var present := PresentKeys(sys.st.index, cmd.keys);
              Effect(c, sys, cmd) ==
              if present != [] && Accepts(c, LogEntry(sys.nextLsn, Delete(present))) then Dels(present) else []
  {
    hide Accepts, PresentKeys, Puts, Dels;
  }

  lemma {:induction false} SmallestId(rest: set<Source>) returns (z: Source)
    requires rest != {} && forall src :: src in rest ==> src.Segment?
    ensures z in rest && forall other :: other in rest ==> z.id <= other.id
  {
    var x :| x in rest;
    z := x;
    if rest != {x} {
      var y := SmallestId(rest - {x});
      z := if x.id <= y.id then x else y;
      assert forall other :: other in rest ==> other == x || other in rest - {x};
    }
  }

  method Smallest(rest: set<Source>) returns (src: Source)
    requires rest != {} && forall src :: src in rest ==> src.Segment?
    ensures src in rest && forall other :: other in rest - {src} ==> src.id < other.id
  {
    ghost var z := SmallestId(rest);
    assert z in rest && forall other :: other in rest ==> z.id <= other.id;
    src :| src in rest && forall other :: other in rest ==> src.id <= other.id;
  }

  /** The manifest's segments with their bitmaps, sorted by id. */
  method LoadSegments(m: Manifest, files: map<Source, seq<Row>>) returns (segs: seq<SegmentEntry>)
    requires m.segments <= files.Keys && Numbered(m)
    ensures Represents(segs, files, LoadedStore(m, files)) && forall i :: 0 <= i < |segs| ==> segs[i].id < m.next
  {
    segs := [];
    var rest := m.segments;
    ghost var st := LoadedStore(m, files);
    assert Represents([], files, st - rest) && st - {} == st;
    assert forall src :: src in rest ==> src in st && st[src] == Rows(files[src], SuppressedBitmap(m, src));
    assert Loading(segs, rest);
    hide *;
    while rest != {}
      invariant rest <= m.segments && Represents(segs, files, st - rest) && Loading(segs, rest)
      invariant forall i :: 0 <= i < |segs| ==> segs[i].id < m.next
      decreases |rest|
    {
      var src := Smallest(rest);
      var e := SegmentEntry(src.id, |files[src]|, SuppressedBitmap(m, src));
      LoadingNext(segs, rest, e);
      RepresentsNext(segs, files, st, rest, e);
      segs, rest := segs + [e], rest - {src};
    }
  }

  /** The loaded entries come before every segment still to load. */
  ghost predicate Loading(segs: seq<SegmentEntry>, rest: set<Source>) {
    forall i, src :: 0 <= i < |segs| && src in rest ==> src.Segment? && segs[i].id < src.id
  }

  lemma LoadingNext(segs: seq<SegmentEntry>, rest: set<Source>, e: SegmentEntry)
    requires Loading(segs, rest) && Segment(e.id) in rest
    requires forall other :: other in rest - {Segment(e.id)} ==> other.Segment? && e.id < other.id
    ensures Loading(segs + [e], rest - {Segment(e.id)})
    ensures forall i :: 0 <= i < |segs| ==> segs[i].id < e.id
  {
  }

  lemma RepresentsNext(segs: seq<SegmentEntry>, files: map<Source, seq<Row>>, st: Store, rest: set<Source>,
                       e: SegmentEntry)
    requires Represents(segs, files, st - rest) && Segment(e.id) in rest && Segment(e.id) in st
             && Segment(e.id) in files
    requires st[Segment(e.id)] == Rows(files[Segment(e.id)], e.suppressed) && e.rowCount == |files[Segment(e.id)]|
    requires forall i :: 0 <= i < |segs| ==> segs[i].id < e.id
    ensures Represents(segs + [e], files, st - (rest - {Segment(e.id)}))
  {
    forall src: Source | src in st - (rest - {Segment(e.id)}) && src != Memtable
      ensures HasEntry(segs + [e], src.id)
    {
      HasEntrySnoc(segs, e, src.id);
    }
  }

  /** A merged segment is no longer in the store. */
  lemma FlushCreates(s: State)
    requires Memtable in s.store
    ensures FlushState(s).next != s.next <==> FlushRows(s) != []
  {
    if s.store[Memtable].rows == [] {
      EmptyBuffer(s.store);
    }
  }

  lemma DoneFlushing(c: Codec, sys: Sys)
    requires Memtable in sys.st.store
    ensures Do(c, sys, Flush).st == FlushState(sys.st)
  {
  }

  lemma FollowSpelt(config: Config, s: State)
    requires Memtable in s.store
    ensures var ids := Selected(FlushState(s), config.fileBytes, config.policy);
            Follow(config, s) == if config.autoCompact && Flushes(s) && ids != {} then [Compact(ids)] else []
  {
    hide Selected, FlushState, Flushes;
  }

  lemma UpkeepSpelt()
    ensures Upkeep([]) && Upkeep([Flush]) && forall ids :: Upkeep([Compact(ids)])
  {
  }

  lemma UpkeepMore(cmd: Command, more: seq<Command>)
    requires Upkeep(more) && (cmd.Flush? || cmd.Compact?)
    ensures Upkeep([cmd] + more)
  {
  }

  lemma SelectedSpelt(s: State, size: seq<Row> -> nat, p: Compaction.Policy)
    ensures Selected(s, size, p) == set f | f in Compaction.Chosen(FactsOf(s, size), p) :: f.id
  {
  }

  lemma NothingSelected(s: State)
    ensures CompactState(s, {}) == s
  {
    InputsAmong(s, {});
  }

  lemma InputsAmong(s: State, ids: set<nat>)
    ensures Inputs(s, ids) != [] ==> ids != {}
  {
    if Inputs(s, ids) != [] {
      var src := Inputs(s, ids)[0];
      assert src in Inputs(s, ids) && src.id in ids;
    }
  }

  lemma DoneCompacting(c: Codec, sys: Sys, ids: set<nat>)
    requires Memtable in sys.st.store
    ensures Do(c, sys, Compact(ids)).st == CompactState(sys.st, ids)
  {
  }

  lemma InputsLeave(s: State, ids: set<nat>)
    requires PartitionState.Valid(s)
    ensures forall src :: src in Inputs(s, ids) ==> src !in CompactState(s, ids).store
  {
  }

  lemma DeleteNext(d: Disk, srcs: seq<Source>, i: nat)
    requires i < |srcs|
    ensures DeleteFiles(d, srcs, 0) == d
    ensures DeleteFiles(d, srcs, i + 1) == DeleteFiles(d, srcs, i).(files := DeleteFiles(d, srcs, i).files - {srcs[i]})
  {
    assert d.files - {} == d.files;
    assert (set j | 0 <= j < i + 1 :: srcs[j]) == (set j | 0 <= j < i :: srcs[j]) + {srcs[i]};
  }

  lemma DeletedRepresents(segs: seq<SegmentEntry>, files: map<Source, seq<Row>>, st: Store, src: Source)
    requires Represents(segs, files, st) && src !in st
    ensures Represents(segs, files - {src}, st)
  {
  }

  /** A flush, spelt out. */
  lemma DoFlush(c: Codec, sys: Sys, es: seq<LogEntry>)
    requires Inv(c, sys, es)
    ensures Memtable in sys.st.store && PartitionState.Valid(sys.st)
    ensures if Flushes(sys.st)
            then
              var t := FlushState(sys.st);
              var d1 := sys.disk.(files := PutFile(sys.disk.files, sys.st.next, FlushRows(sys.st)));
              var d2 := d1.(manifest := Some(Committed(t)));
              var d3 := d2.(wal := EncodeLog(c, []));
              && Disks(c, sys, Flush) == [d1, d2, d3] && Do(c, sys, Flush) == Sys(t, d3, sys.nextLsn)
              && EntriesAfter(c, sys, es, Flush) == [] && Above(es, sys.st.last) == []
            else
              Disks(c, sys, Flush) == [] && Do(c, sys, Flush) == sys && EntriesAfter(c, sys, es, Flush) == es
  {
    if Flushes(sys.st) {
      FlushInv(c, sys, es);
      NoneAbove(es, sys.st.last);
      FlushSpelt(c, sys, es);
    } else {
      assert FlushState(sys.st) == sys.st;
    }
    hide FlushState, FlushRows, PutFile, Committed, EncodeLog, TruncateWal, Inv;
  }

  lemma FlushSpelt(c: Codec, sys: Sys, es: seq<LogEntry>)
    requires Memtable in sys.st.store && Flushes(sys.st)
    requires |FlushDisks(c, sys)| == 3 && FlushDisks(c, sys)[2].wal == EncodeLog(c, [])
    ensures var t := FlushState(sys.st);
            var d1 := sys.disk.(files := PutFile(sys.disk.files, sys.st.next, FlushRows(sys.st)));
            var d2 := d1.(manifest := Some(Committed(t)));
            var d3 := d2.(wal := EncodeLog(c, []));
            Disks(c, sys, Flush) == [d1, d2, d3] && Do(c, sys, Flush) == Sys(t, d3, sys.nextLsn)
            && EntriesAfter(c, sys, es, Flush) == []
  {
    hide FlushState, FlushRows, PutFile, Committed, EncodeLog, TruncatePrefix;
  }

  method FilterPresent(index: Index, keys: seq<RowKey>) returns (present: seq<RowKey>)
    ensures present == PresentKeys(index, keys)
  {
    present := [];
    for i := 0 to |keys|
      invariant present == PresentKeys(index, keys[..i])
    {
      assert keys[..i + 1][..i] == keys[..i];
      if keys[i] in index { present := present + [keys[i]]; }
    }
    assert keys[..|keys|] == keys;
  }

  lemma FieldsAfter(s: State, rows: seq<Row>, buffered: seq<Row>, dead: set<nat>, index: Index,
                    segs: seq<SegmentEntry>, files: map<Source, seq<Row>>, last: nat)
    requires Memtable in s.store && Holds(Run(s, Puts(rows)), buffered + rows, dead, index, segs, files)
    ensures Fields(Run(s, Puts(rows)).(last := last), s.pk, buffered + rows, dead, index, segs, files, s.applied, last,
                   s.next)
  {
    RunKeeps(s, Puts(rows));
    hide Run, Puts;
  }

  lemma RunKeeps(s: State, ops: seq<Op>)
    requires Memtable in s.store
    ensures var t := Run(s, ops);
            t.pk == s.pk && t.applied == s.applied && t.last == s.last && t.next == s.next && Memtable in t.store
  {
  }

  /** Indexes a batch, if the table has a primary key. */
  method IndexBatch(ghost s: State, ghost buffered: seq<Row>, ghost files: map<Source, seq<Row>>, pk: seq<string>,
                    rows: seq<Row>, start: nat, index: Index, dead: set<nat>, segs: seq<SegmentEntry>)
    returns (index': Index, dead': set<nat>, segs': seq<SegmentEntry>)
    requires pk == s.pk && start == |buffered| && Holds(s, buffered, dead, index, segs, files)
    ensures Holds(Run(s, Puts(rows)), buffered + rows, dead', index', segs', files)
  {
    if pk != [] {
      index', dead', segs' := IndexRows(s, buffered, files, pk, rows, start, index, dead, segs);
    } else {
      index', dead', segs' := index, dead, segs;
      AppendRowsHold(s, buffered, dead, index, segs, files, rows);
    }
  }

  /** Without a primary key, rows are only buffered. */
  lemma {:induction false} AppendRowsHold(s: State, buffered: seq<Row>, dead: set<nat>, index: Index,
                                          segs: seq<SegmentEntry>,
                                          files: map<Source, seq<Row>>, rows: seq<Row>)
    requires s.pk == [] && Holds(s, buffered, dead, index, segs, files)
    ensures Holds(Run(s, Puts(rows)), buffered + rows, dead, index, segs, files)
    decreases |rows|
  {
    if rows == [] {
      assert buffered + rows == buffered;
    } else {
      var n := |rows| - 1;
      AppendRowsHold(s, buffered, dead, index, segs, files, rows[..n]);
      PutsSnoc(s, rows, n);
      assert rows[..n + 1] == rows;
      assert buffered + rows == buffered + rows[..n] + [rows[n]];
      RepresentsMemtable(segs, files, Run(s, Puts(rows[..n])).store, Rows(buffered + rows, dead));
    }
  }
}
