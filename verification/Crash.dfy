/** The commands of a partition as sequences of durable steps, and the state a crash between or
    within any two of them recovers to (crates/adb-storage/src/table.rs: append_rows, delete_keys,
    flush_locked, compact_locked). */
module Crash {
  import opened Values
  import opened PartitionState
  import opened Rewriting
  import opened Visibility
  import opened Wal
  import opened LogStore
  import opened Replays
  import opened Recovery

  datatype Command =
    | Append(rows: seq<Row>, upsert: bool)
    | Erase(keys: seq<RowKey>)
    | Flush
    | Compact(ids: set<nat>)

  // ---------------------------------------------------------------- what a command does to the state

  /** The keys of a delete that exist here, in request order. */
  function PresentKeys(ix: Index, keys: seq<RowKey>): seq<RowKey> {
    if keys == [] then []
    else PresentKeys(ix, keys[..|keys| - 1]) + (if keys[|keys| - 1] in ix then [keys[|keys| - 1]] else [])
  }

  /** The record a command logs, if any: a delete logs only the keys that exist. */
  function Logged(s: State, cmd: Command): Option<Mutation> {
    match cmd
    case Append(rows, upsert) => Some(if upsert then Upsert(rows) else Insert(rows))
    case Erase(keys) =>
      var present := PresentKeys(s.index, keys);
      if present == [] then None else Some(Delete(present))
    case Flush => None
    case Compact(_) => None
  }

  /** The rows a flush writes out. */
  function FlushRows(s: State): seq<Row> { RowsAt(s.store, Gather(s.store, [Memtable])) }

  function FlushState(s: State): State
    requires Memtable in s.store
  {
    if s.store[Memtable].rows == [] then s.(applied := s.last)
    else
      s.(store := Merge(s.store, [Memtable], s.next),
         index := MergeIndex(s.pk, s.store, s.index, [Memtable], s.next),
         applied := s.last,
         next := if FlushRows(s) == [] then s.next else s.next + 1)
  }

  /** The segments of `ids` that exist, oldest first. */
  function Inputs(s: State, ids: set<nat>): seq<Source> {
    Ascending(set src | src in s.store && src.Segment? && src.id in ids :: src.id, s.next)
  }

  function CompactRows(s: State, ids: set<nat>): seq<Row> { RowsAt(s.store, Gather(s.store, Inputs(s, ids))) }

  function CompactState(s: State, ids: set<nat>): State {
    if Inputs(s, ids) == [] then s
    else
      s.(store := Merge(s.store, Inputs(s, ids), s.next),
         index := MergeIndex(s.pk, s.store, s.index, Inputs(s, ids), s.next),
         next := s.next + 1)
  }

  // ---------------------------------------------------------------- durable steps, in the code's order

  function PutFile(files: map<Source, seq<Row>>, id: nat, rows: seq<Row>): map<Source, seq<Row>> {
    if rows == [] then files else files[Segment(id) := rows]
  }

  function PutSegment(d: Disk, id: nat, rows: seq<Row>): Disk { d.(files := PutFile(d.files, id, rows)) }

  function TruncateWal(c: Codec, d: Disk, n: nat): Disk {
    match TruncatePrefix(c, d.wal, n) case Some(w) => d.(wal := w) case None => d
  }

  /** The disks a flush goes through: segment file, manifest, log truncation. */
  function FlushDisks(c: Codec, sys: Sys): seq<Disk>
    requires Memtable in sys.st.store
  {
    var s := sys.st;
    if s.store[Memtable].rows == [] && s.last == s.applied then []
    else
      var d1 := PutSegment(sys.disk, s.next, FlushRows(s));
      var d2 := d1.(manifest := Some(Committed(FlushState(s))));
      [d1, d2, TruncateWal(c, d2, s.last)]
  }

  function DeleteFiles(d: Disk, srcs: seq<Source>, n: nat): Disk
    requires n <= |srcs|
  {
    d.(files := d.files - (set i | 0 <= i < n :: srcs[i]))
  }

  function DeleteDisks(d: Disk, srcs: seq<Source>): (ds: seq<Disk>)
    ensures |ds| == |srcs| && forall i :: 0 <= i < |srcs| ==> ds[i] == DeleteFiles(d, srcs, i + 1)
  {
    seq(|srcs|, i requires 0 <= i < |srcs| => DeleteFiles(d, srcs, i + 1))
  }

  /** The disks a compaction goes through: segment file, manifest, deletion of the inputs. */
  function CompactDisks(sys: Sys, ids: set<nat>): seq<Disk> {
    var s := sys.st;
    var srcs := Inputs(s, ids);
    if srcs == [] then []
    else
      var d1 := PutSegment(sys.disk, s.next, CompactRows(s, ids));
      var d2 := d1.(manifest := Some(Committed(CompactState(s, ids))));
      [d1, d2] + DeleteDisks(d2, srcs)
  }

  /** The disks a command goes through, after the one it starts from. */
  function Disks(c: Codec, sys: Sys, cmd: Command): seq<Disk>
    requires Memtable in sys.st.store
  {
    match cmd
    case Flush => FlushDisks(c, sys)
    case Compact(ids) => CompactDisks(sys, ids)
    case _ =>
      match Logged(sys.st, cmd)
      case Some(m) =>
        var e := LogEntry(sys.nextLsn, m);
        if Accepts(c, e) then [sys.disk.(wal := sys.disk.wal + Frame(c, e))] else []
      case None => []
  }

  function LastDisk(d: Disk, ds: seq<Disk>): Disk { if ds == [] then d else ds[|ds| - 1] }

  /** Runs a command to completion. */
  function Do(c: Codec, sys: Sys, cmd: Command): Sys
    requires Memtable in sys.st.store
  {
    var disk := LastDisk(sys.disk, Disks(c, sys, cmd));
    match cmd
    case Flush => Sys(FlushState(sys.st), disk, sys.nextLsn)
    case Compact(ids) => Sys(CompactState(sys.st, ids), disk, sys.nextLsn)
    case _ =>
      match Logged(sys.st, cmd)
      case Some(m) =>
        var e := LogEntry(sys.nextLsn, m);
        Sys(if Accepts(c, e) then Apply(sys.st, e) else sys.st, disk, sys.nextLsn + 1)
      case None => sys
  }

  /** A disk a crash during the step from `d` to `d'` can leave: a prefix of what is being appended
      to the log, or anything at all in a segment file being written. Manifest replacement, log
      truncation and file deletion are atomic. */
  ghost predicate Between(d: Disk, d': Disk, left: Disk) {
    || left == d || left == d'
    || (d.wal < d'.wal && d.wal <= left.wal && left.wal <= d'.wal && left == d.(wal := left.wal))
    || (exists src :: src in d'.files && (src in d.files ==> d.files[src] != d'.files[src])
                      && src in left.files && left == d.(files := d.files[src := left.files[src]]))
  }

  /** A disk a crash during the command can leave. */
  ghost predicate MayLeave(c: Codec, sys: Sys, cmd: Command, left: Disk)
    requires Memtable in sys.st.store
  {
    var ds := Disks(c, sys, cmd);
    left == sys.disk || exists i :: 0 <= i < |ds| && Between(if i == 0 then sys.disk else ds[i - 1], ds[i], left)
  }

  /** The record of the command's rows, or of the keys that exist, has at most 2^30 bytes. */
  predicate Brief(c: Codec, sys: Sys, cmd: Command) {
    match cmd
    case Append(rows, upsert) => Small(c, LogEntry(sys.nextLsn, if upsert then Upsert(rows) else Insert(rows)))
    case Erase(keys) =>
      var present := PresentKeys(sys.st.index, keys);
      present == [] || Small(c, LogEntry(sys.nextLsn, Delete(present)))
    case Flush => true
    case Compact(_) => true
  }

  /** The log record's length fits the frame's length field. */
  predicate Encodable(c: Codec, sys: Sys, cmd: Command) {
    match Logged(sys.st, cmd)
    case Some(m) => |c.encode(LogEntry(sys.nextLsn, m))| < 0x1_0000_0000
    case None => true
  }

  // ---------------------------------------------------------------- flush and compaction keep the invariant

  lemma FlushValid(s: State)
    requires Valid(s)
    ensures Valid(FlushState(s))
  {
    if s.store[Memtable].rows != [] {
      MergeRange(s.store, [Memtable], s.next);
      if s.pk != [] {
        MergeIndexed(s.pk, s.store, s.index, [Memtable], s.next);
      }
    }
  }

  lemma CompactValid(s: State, ids: set<nat>)
    requires Valid(s)
    ensures Valid(CompactState(s, ids))
  {
    if Inputs(s, ids) != [] {
      MergeRange(s.store, Inputs(s, ids), s.next);
      if s.pk != [] {
        MergeIndexed(s.pk, s.store, s.index, Inputs(s, ids), s.next);
      }
    }
  }

  // ---------------------------------------------------------------- early-published suppressions

  lemma StoreAgain(c: State, ops: seq<Op>)
    requires Memtable in c.store && (c.pk == [] ==> c.index == map[])
    requires Run(Checkpoint(c), ops).store[Memtable] == c.store[Memtable]
    requires c.pk != [] ==> forall i :: 0 <= i < |ops| ==> SegmentFree(c.index, OpKey(c.pk, ops[i]))
    ensures Run(Checkpoint(c), ops).store == c.store
  {
    var b := Checkpoint(c);
    forall i | c.pk != [] && 0 <= i < |ops|
      ensures SegmentFree(b.index, OpKey(c.pk, ops[i]))
    {
      assert SegmentFree(c.index, OpKey(c.pk, ops[i]));
    }
    SegmentsUntouched(b, ops);
    PutBack(c.store, Rows([], {}));
  }

  lemma PutBack(st: Store, empty: Rows)
    requires Memtable in st
    ensures st[Memtable := empty][Memtable := st[Memtable]] == st
  {
  }

  /** Replaying onto a checkpoint that already shows the records' suppressions gives the state the
      checkpoint was taken from, if the replay rebuilds its buffer and touches no indexed segment row. */
  lemma ReplayAgain(c: State, ops: seq<Op>)
    requires Valid(c)
    requires Run(Checkpoint(c), ops).store[Memtable] == c.store[Memtable]
    requires c.pk != [] ==> forall i :: 0 <= i < |ops| ==> SegmentFree(c.index, OpKey(c.pk, ops[i]))
    ensures Run(Checkpoint(c), ops).(last := c.last) == c
  {
    CheckpointValid(c);
    RunValid(Checkpoint(c), ops);
    StoreAgain(c, ops);
    StateUnique(Run(Checkpoint(c), ops).(last := c.last), c);
  }

  /** A replay onto an empty buffer builds the same buffer whatever the segments are. */
  lemma ReplayBuffer(b: State, b': State, ops: seq<Op>)
    requires Valid(b) && Valid(b') && b.pk == b'.pk
    requires b.store[Memtable] == b'.store[Memtable] == Rows([], {})
    ensures Run(b, ops).store[Memtable] == Run(b', ops).store[Memtable]
  {
    SameBufferRun(b, b', ops);
  }

  /** Compacting a state replayed from a checkpoint, committing the result, and replaying the same
      records again gives the compacted state. */
  lemma EarlySuppression(b: State, ops: seq<Op>, last: nat, ids: set<nat>)
    requires Valid(b) && b.store[Memtable] == Rows([], {}) && b.applied <= last
    ensures var c := CompactState(Run(b, ops).(last := last), ids);
            Valid(c) && Run(Checkpoint(c), ops).(last := last) == c
  {
    var s := Run(b, ops).(last := last);
    var c := CompactState(s, ids);
    RunValid(b, ops);
    CompactValid(s, ids);
    CheckpointValid(c);
    CompactBuffer(s, ids);
    ReplayBuffer(b, Checkpoint(c), ops);
    if b.pk != [] {
      forall i | 0 <= i < |ops|
        ensures SegmentFree(c.index, OpKey(b.pk, ops[i]))
      {
        TouchedIsSegmentFree(b, ops, i);
        CompactSegmentFree(s, ids, OpKey(b.pk, ops[i]));
      }
    }
    ReplayAgain(c, ops);
  }

  /** Compaction leaves the memtable alone. */
  lemma CompactBuffer(s: State, ids: set<nat>)
    requires Memtable in s.store
    ensures Memtable in CompactState(s, ids).store
    ensures CompactState(s, ids).store[Memtable] == s.store[Memtable]
  {
  }

  /** A key without a segment row has none after compaction. */
  lemma CompactSegmentFree(s: State, ids: set<nat>, k: RowKey)
    requires Valid(s) && s.pk != [] && SegmentFree(s.index, k)
    ensures SegmentFree(CompactState(s, ids).index, k)
  {
    if Inputs(s, ids) != [] {
      MergeIndexEffect(s.pk, s.store, s.index, Inputs(s, ids), s.next);
    }
  }

  // ---------------------------------------------------------------- reopening

  /** The files agree on everything a manifest refers to. */
  ghost predicate SameFiles(m: Manifest, f: map<Source, seq<Row>>, g: map<Source, seq<Row>>) {
    m.segments <= f.Keys && m.segments <= g.Keys && forall src :: src in m.segments ==> f[src] == g[src]
  }

  lemma BaseDepends(pk: seq<string>, m: Manifest, f: map<Source, seq<Row>>, g: map<Source, seq<Row>>)
    requires SameFiles(m, f, g)
    ensures Base(pk, m, f) == Base(pk, m, g)
  {
    assert LoadedStore(m, f) == LoadedStore(m, g);
  }

  lemma {:induction false} LastLsnAbove(es: seq<LogEntry>, a: nat)
    requires Increasing(es)
    ensures LastLsn(a, Above(es, a)) == if es == [] then a else Max(a, es[|es| - 1].lsn)
  {
    if es != [] {
      var n := |es| - 1;
      LastLsnAbove(es[..n], a);
      assert es[n].lsn > a ==> Above(es, a)[..|Above(es, a)| - 1] == Above(es[..n], a);
    }
  }

  lemma RestrictedFiles(m: Manifest, f: map<Source, seq<Row>>)
    requires m.segments <= f.Keys
    ensures SameFiles(m, f, Referenced(m, f))
  {
  }

  lemma LoggedBelow(c: Codec, file: seq<byte>, es: seq<LogEntry>, next: nat, n: nat)
    requires WellFormed(c, file, es, next)
    requires es != [] ==> es[|es| - 1].lsn < n
    ensures WellFormed(c, file, es, n)
  {
  }

  lemma LastLsnIs(s: State, d: Disk, es: seq<LogEntry>)
    requires Rebuilt(s, d, es) && Loaded(d).applied == s.applied && Increasing(es)
    ensures s.last == if es == [] then s.applied else Max(s.applied, es[|es| - 1].lsn)
  {
    LastLsnAbove(es, s.applied);
  }

  /** Orphaned files and a torn log tail do not change what a disk opens to: exactly the state whose
      checkpoint and log it holds. */
  lemma OpenSame(c: Codec, sys: Sys, es: seq<LogEntry>, d: Disk)
    requires Inv(c, sys, es)
    requires d.manifest == sys.disk.manifest && SameFiles(Loaded(sys.disk), sys.disk.files, d.files)
    requires sys.disk.wal <= d.wal && ScanLog(c, d.wal) == Scanned(es, |sys.disk.wal|)
    ensures var r := Open(c, sys.st.pk, d); r.Some? && r.value.st == sys.st && Inv(c, r.value, es)
  {
    hide Base, Replay, Valid, Committed, ScanLog;
    var m := Loaded(d);
    var s := sys.st;
    BaseDepends(s.pk, m, sys.disk.files, d.files);
    LastLsnIs(s, sys.disk, es);
    var r := Open(c, s.pk, d).value;
    assert r.disk.wal == sys.disk.wal;
    RestrictedFiles(m, d.files);
    BaseDepends(s.pk, m, d.files, r.disk.files);
    LoggedBelow(c, sys.disk.wal, es, sys.nextLsn, r.nextLsn);
    OpenMirrors(s, sys.disk, r.disk);
  }

  lemma OpenMirrors(s: State, d: Disk, d': Disk)
    requires Mirrors(s, d) && d'.manifest == d.manifest && SameFiles(Loaded(d), d.files, d'.files)
    ensures Mirrors(s, d')
  {
  }

  /** Reopening `d` rebuilds exactly `st`, with log entries `es`, and re-establishes the invariant. */
  ghost predicate RecoversTo(c: Codec, d: Disk, st: State, es: seq<LogEntry>) {
    var r := Open(c, st.pk, d); r.Some? && r.value.st == st && Inv(c, r.value, es)
  }

  lemma OpenInv(c: Codec, sys: Sys, es: seq<LogEntry>)
    requires Inv(c, sys, es)
    ensures RecoversTo(c, sys.disk, sys.st, es)
  {
    ScanEncoded(c, es);
    OpenSame(c, sys, es, sys.disk);
  }

  lemma OpenOtherFiles(c: Codec, sys: Sys, es: seq<LogEntry>, files: map<Source, seq<Row>>)
    requires Inv(c, sys, es) && SameFiles(Loaded(sys.disk), sys.disk.files, files)
    ensures RecoversTo(c, sys.disk.(files := files), sys.st, es)
  {
    ScanEncoded(c, es);
    OpenSame(c, sys, es, sys.disk.(files := files));
  }

  // ---------------------------------------------------------------- logged changes

  lemma AboveSnoc(es: seq<LogEntry>, e: LogEntry, n: nat)
    requires e.lsn > n
    ensures Above(es + [e], n) == Above(es, n) + [e]
  {
    assert (es + [e])[..|es|] == es;
  }

  lemma WellFormedSnoc(c: Codec, file: seq<byte>, es: seq<LogEntry>, e: LogEntry)
    requires WellFormed(c, file, es, e.lsn) && Fits(c, e)
    ensures WellFormed(c, file + Frame(c, e), es + [e], e.lsn + 1)
  {
    AppendEncoded(c, es, e);
  }

  lemma AppendRebuilt(s: State, d: Disk, es: seq<LogEntry>, e: LogEntry, wal: seq<byte>)
    requires Memtable in s.store && Rebuilt(s, d, es) && s.applied < e.lsn
    ensures Rebuilt(Apply(s, e), d.(wal := wal), es + [e])
  {
    AboveSnoc(es, e, s.applied);
    ReplaySnoc(Base(s.pk, Loaded(d), d.files), Above(es, s.applied), e);
  }

  lemma ApplyMirrors(s: State, d: Disk, e: LogEntry, wal: seq<byte>)
    requires Memtable in s.store && Mirrors(s, d)
    ensures Mirrors(Apply(s, e), d.(wal := wal))
  {
    RunSources(s, Ops(e.mutation));
  }

  lemma ApplyValid(s: State, e: LogEntry)
    requires Valid(s)
    ensures Valid(Apply(s, e)) && Apply(s, e).last == Max(s.last, e.lsn) && Apply(s, e).applied == s.applied
  {
    RunValid(s, Ops(e.mutation));
  }

  /** Logging a record and applying it keeps the invariant. */
  lemma AppendInv(c: Codec, sys: Sys, es: seq<LogEntry>, e: LogEntry)
    requires Inv(c, sys, es) && e.lsn == sys.nextLsn && Fits(c, e)
    ensures Inv(c, Sys(Apply(sys.st, e), sys.disk.(wal := sys.disk.wal + Frame(c, e)), sys.nextLsn + 1), es + [e])
  {
    var wal := sys.disk.wal + Frame(c, e);
    AppendRebuilt(sys.st, sys.disk, es, e, wal);
    ApplyMirrors(sys.st, sys.disk, e, wal);
    ApplyValid(sys.st, e);
    WellFormedSnoc(c, sys.disk.wal, es, e);
  }

  /** Logged changes never touch what a segment file holds. */
  lemma {:induction false} RunSources(s: State, ops: seq<Op>)
    requires Memtable in s.store
    ensures Run(s, ops).store.Keys == s.store.Keys
    ensures forall src :: src in s.store && src != Memtable ==> Run(s, ops).store[src].rows == s.store[src].rows
  {
    if ops != [] {
      RunSources(s, ops[..|ops| - 1]);
    }
  }

  // ---------------------------------------------------------------- checkpoints

  /** Committing the manifest of a state that replays from its own checkpoint keeps the invariant. */
  lemma CommitInv(c: Codec, sys: Sys, es: seq<LogEntry>, t: State, d: Disk)
    requires Inv(c, sys, es)
    requires Valid(t) && t.pk == sys.st.pk && t.last == sys.st.last && Records(t, d) && d.wal == sys.disk.wal
    requires t == Replay(Checkpoint(t), Above(es, t.applied))
    ensures Inv(c, Sys(t, d, sys.nextLsn), es)
  {
    BaseIsCheckpoint(t, d);
    CheckpointValid(t);
  }

  lemma {:induction false} NoneAbove(es: seq<LogEntry>, n: nat)
    requires forall i :: 0 <= i < |es| ==> es[i].lsn <= n
    ensures Above(es, n) == []
  {
    if es != [] {
      NoneAbove(es[..|es| - 1], n);
    }
  }

  lemma {:induction false} FlushCheckpoint(s: State, es: seq<LogEntry>)
    requires Valid(s) && forall i :: 0 <= i < |es| ==> es[i].lsn <= s.last
    ensures var t := FlushState(s);
            Valid(t) && t.last == t.applied == s.last && Above(es, t.applied) == [] && t == Replay(Checkpoint(t), [])
  {
    FlushValid(s);
    NoneAbove(es, s.last);
    var t := FlushState(s);
    FlushEmpties(s);
    assert t.store[Memtable := Rows([], {})] == t.store;
    if t.pk != [] {
      forall k | k in t.index
        ensures t.index[k].source != Memtable
      {
        assert Live(t.store, t.index[k]);
      }
      assert SegmentPart(t.index) == t.index;
    }
  }

  lemma FlushEmpties(s: State)
    requires Valid(s)
    ensures FlushState(s).store[Memtable] == Rows([], {})
  {
  }

  /** Once the merged segment is put, every segment of the merged store has its file. */
  lemma MergedFiles(s: State, d: Disk, srcs: seq<Source>)
    requires Valid(s) && Mirrors(s, d)
    ensures var rows := RowsAt(s.store, Gather(s.store, srcs));
            var files := PutSegment(d, s.next, rows).files;
            && (forall src :: src in Merge(s.store, srcs, s.next) && src != Memtable ==>
                  src in files && files[src] == Merge(s.store, srcs, s.next)[src].rows)
            && SameFiles(Loaded(d), d.files, files)
  {
    var rows := RowsAt(s.store, Gather(s.store, srcs));
    var files := PutSegment(d, s.next, rows).files;
    forall src | src in Loaded(d).segments
      ensures src in s.store && src != Segment(s.next)
    {
    }
    forall src | src in Merge(s.store, srcs, s.next) && src != Memtable
      ensures src in files && files[src] == Merge(s.store, srcs, s.next)[src].rows
    {
      if src == Segment(s.next) && rows != [] {
      } else {
        assert src in s.store.Keys - {Memtable};
      }
    }
  }

  predicate Flushes(s: State)
    requires Memtable in s.store
  {
    s.store[Memtable].rows != [] || s.last != s.applied
  }

  lemma FlushRecords(c: Codec, sys: Sys, es: seq<LogEntry>)
    requires Inv(c, sys, es) && Flushes(sys.st)
    ensures var ds := FlushDisks(c, sys); |ds| == 3 && Records(FlushState(sys.st), ds[1]) && ds[1].wal == sys.disk.wal
  {
    var s := sys.st;
    if s.store[Memtable].rows == [] {
      EmptyBuffer(s.store);
    } else {
      MergedFiles(s, sys.disk, [Memtable]);
    }
  }

  lemma EmptyBuffer(st: Store)
    requires Memtable in st && st[Memtable].rows == []
    ensures Gather(st, [Memtable]) == []
  {
    OneSource(st, Memtable);
  }

  /** From the moment its manifest is in place, a flush is complete, with or without the old log. */
  lemma FlushInv(c: Codec, sys: Sys, es: seq<LogEntry>)
    requires Inv(c, sys, es) && Flushes(sys.st)
    ensures var t := FlushState(sys.st); var ds := FlushDisks(c, sys);
            && |ds| == 3
            && Inv(c, Sys(t, ds[1], sys.nextLsn), es)
            && ds[2].wal == EncodeLog(c, []) && Inv(c, Sys(t, ds[2], sys.nextLsn), [])
  {
    var t := FlushState(sys.st);
    var ds := FlushDisks(c, sys);
    FlushRecords(c, sys, es);
    FlushCheckpoint(sys.st, es);
    CommitInv(c, sys, es, t, ds[1]);
    TruncatedInv(c, Sys(t, ds[1], sys.nextLsn), es);
  }

  lemma {:induction false} TruncatedInv(c: Codec, sys: Sys, es: seq<LogEntry>)
    requires Inv(c, sys, es) && Above(es, sys.st.applied) == [] && sys.st.last == sys.st.applied
    ensures var d := TruncateWal(c, sys.disk, sys.st.last);
            d == sys.disk.(wal := EncodeLog(c, [])) && Inv(c, sys.(disk := d), [])
  {
    TruncateWellFormed(c, sys.disk.wal, es, sys.nextLsn, sys.st.last);
  }

  predicate Compacts(s: State, ids: set<nat>) { Inputs(s, ids) != [] }

  lemma CompactRecords(c: Codec, sys: Sys, es: seq<LogEntry>, ids: set<nat>)
    requires Inv(c, sys, es) && Compacts(sys.st, ids)
    ensures var ds := CompactDisks(sys, ids);
            |ds| == 2 + |Inputs(sys.st, ids)| && Records(CompactState(sys.st, ids), ds[1]) && ds[1].wal == sys.disk.wal
  {
    MergedFiles(sys.st, sys.disk, Inputs(sys.st, ids));
  }

  /** A compaction's checkpoint, taken while the log is ahead of it, replays to the compacted state. */
  lemma CompactCheckpoint(s: State, d: Disk, es: seq<LogEntry>, ids: set<nat>)
    requires Valid(s) && Rebuilt(s, d, es) && Memtable in CompactState(s, ids).store
    requires Loaded(d).applied == s.applied
    ensures Valid(CompactState(s, ids))
    ensures CompactState(s, ids) == Replay(Checkpoint(CompactState(s, ids)), Above(es, s.applied))
  {
    var b := Base(s.pk, Loaded(d), d.files);
    EarlySuppression(b, AllOps(Above(es, s.applied)), s.last, ids);
  }

  /** From the moment its manifest is in place, a compaction is complete, and no file it still has
      to delete matters. */
  lemma CompactInv(c: Codec, sys: Sys, es: seq<LogEntry>, ids: set<nat>)
    requires Inv(c, sys, es) && Compacts(sys.st, ids)
    ensures Inv(c, Sys(CompactState(sys.st, ids), CompactDisks(sys, ids)[1], sys.nextLsn), es)
  {
    CompactRecords(c, sys, es, ids);
    CompactBuffer(sys.st, ids);
    CompactCheckpoint(sys.st, sys.disk, es, ids);
    CommitInv(c, sys, es, CompactState(sys.st, ids), CompactDisks(sys, ids)[1]);
  }

  lemma FilesInv(c: Codec, sys: Sys, es: seq<LogEntry>, files: map<Source, seq<Row>>)
    requires Inv(c, sys, es) && SameFiles(Loaded(sys.disk), sys.disk.files, files)
    ensures Inv(c, sys.(disk := sys.disk.(files := files)), es)
  {
    BaseDepends(sys.st.pk, Loaded(sys.disk), sys.disk.files, files);
  }

  /** Deleting files the manifest does not refer to keeps the invariant. */
  lemma DeletedInv(c: Codec, sys: Sys, es: seq<LogEntry>, srcs: seq<Source>, n: nat)
    requires Inv(c, sys, es) && n <= |srcs|
    requires forall src :: src in Loaded(sys.disk).segments ==> src !in srcs
    ensures Inv(c, sys.(disk := DeleteFiles(sys.disk, srcs, n)), es)
  {
    FilesInv(c, sys, es, DeleteFiles(sys.disk, srcs, n).files);
  }

  lemma CompactDiskAt(sys: Sys, ids: set<nat>, i: nat)
    requires Compacts(sys.st, ids) && 2 <= i < |CompactDisks(sys, ids)|
    ensures i - 1 <= |Inputs(sys.st, ids)|
    ensures CompactDisks(sys, ids)[i] == DeleteFiles(CompactDisks(sys, ids)[1], Inputs(sys.st, ids), i - 1)
    ensures forall src :: src in Loaded(CompactDisks(sys, ids)[1]).segments ==> src !in Inputs(sys.st, ids)
  {
  }

  // ---------------------------------------------------------------- the crash theorem

  /** The entries the log holds after a command. */
  ghost function EntriesAfter(c: Codec, sys: Sys, es: seq<LogEntry>, cmd: Command): seq<LogEntry>
    requires Memtable in sys.st.store
  {
    match Logged(sys.st, cmd)
    case Some(m) =>
      var e := LogEntry(sys.nextLsn, m);
      if Accepts(c, e) then es + [e] else es
    case None => if cmd.Flush? && Flushes(sys.st) then [] else es
  }

  /** The system, the log's entries and the disks gone through after logging a mutation. */
  function Logging(c: Codec, sys: Sys, m: Mutation): Sys
    requires Memtable in sys.st.store
  {
    var e := LogEntry(sys.nextLsn, m);
    if Accepts(c, e) then Sys(Apply(sys.st, e), sys.disk.(wal := sys.disk.wal + Frame(c, e)), sys.nextLsn + 1)
    else Sys(sys.st, sys.disk, sys.nextLsn + 1)
  }

  function LoggingEntries(c: Codec, sys: Sys, es: seq<LogEntry>, m: Mutation): seq<LogEntry> {
    var e := LogEntry(sys.nextLsn, m);
    if Accepts(c, e) then es + [e] else es
  }

  function LoggingDisks(c: Codec, sys: Sys, m: Mutation): seq<Disk> {
    var e := LogEntry(sys.nextLsn, m);
    if Accepts(c, e) then [sys.disk.(wal := sys.disk.wal + Frame(c, e))] else []
  }

  lemma DoLogging(c: Codec, sys: Sys, es: seq<LogEntry>, cmd: Command, m: Mutation)
    requires Memtable in sys.st.store && Logged(sys.st, cmd) == Some(m) && !cmd.Flush? && !cmd.Compact?
    ensures Do(c, sys, cmd) == Logging(c, sys, m) && Disks(c, sys, cmd) == LoggingDisks(c, sys, m)
    ensures EntriesAfter(c, sys, es, cmd) == LoggingEntries(c, sys, es, m)
  {
    hide Apply, Frame, Accepts, Logged;
  }

  /** A logging command, spelt out. */
  lemma DoLogged(c: Codec, sys: Sys, es: seq<LogEntry>, cmd: Command, m: Mutation)
    requires Memtable in sys.st.store && Logged(sys.st, cmd) == Some(m) && !cmd.Flush? && !cmd.Compact?
    ensures var e := LogEntry(sys.nextLsn, m);
            var d := sys.disk.(wal := sys.disk.wal + Frame(c, e));
            if Accepts(c, e)
            then
              && Do(c, sys, cmd) == Sys(Apply(sys.st, e), d, sys.nextLsn + 1) && Disks(c, sys, cmd) == [d]
              && EntriesAfter(c, sys, es, cmd) == es + [e]
            else
              && Do(c, sys, cmd) == Sys(sys.st, sys.disk, sys.nextLsn + 1) && Disks(c, sys, cmd) == []
              && EntriesAfter(c, sys, es, cmd) == es
  {
  }

  lemma NextLsnMore(c: Codec, sys: Sys, es: seq<LogEntry>, n: nat)
    requires Inv(c, sys, es) && sys.nextLsn <= n
    ensures Inv(c, sys.(nextLsn := n), es)
  {
  }

  lemma DoFlushInv(c: Codec, sys: Sys, es: seq<LogEntry>)
    requires Inv(c, sys, es)
    ensures Inv(c, Do(c, sys, Flush), EntriesAfter(c, sys, es, Flush))
  {
    if Flushes(sys.st) {
      FlushInv(c, sys, es);
    }
  }

  lemma DoCompactLast(c: Codec, sys: Sys, ids: set<nat>)
    requires Memtable in sys.st.store
    ensures if Compacts(sys.st, ids)
            then
              var ds := CompactDisks(sys, ids);
              |ds| >= 2 && Do(c, sys, Compact(ids)) == Sys(CompactState(sys.st, ids), ds[|ds| - 1], sys.nextLsn)
            else Do(c, sys, Compact(ids)) == sys
  {
    hide CompactRows, PutSegment, Committed, DeleteFiles, Inputs, Merge, MergeIndex;
  }

  lemma DoCompactInv(c: Codec, sys: Sys, es: seq<LogEntry>, ids: set<nat>)
    requires Inv(c, sys, es)
    ensures Inv(c, Do(c, sys, Compact(ids)), es)
  {
    DoCompactLast(c, sys, ids);
    hide *;
    if Compacts(sys.st, ids) {
      CompactDiskInv(c, sys, es, ids, |CompactDisks(sys, ids)| - 1);
    }
  }

  lemma DoLogInv(c: Codec, sys: Sys, es: seq<LogEntry>, e: LogEntry)
    requires Inv(c, sys, es) && e.lsn == sys.nextLsn && |c.encode(e)| < 0x1_0000_0000
    ensures if Accepts(c, e)
            then Inv(c, Sys(Apply(sys.st, e), sys.disk.(wal := sys.disk.wal + Frame(c, e)), sys.nextLsn + 1), es + [e])
            else Inv(c, Sys(sys.st, sys.disk, sys.nextLsn + 1), es)
  {
    if Accepts(c, e) {
      AppendInv(c, sys, es, e);
    } else {
      NextLsnMore(c, sys, es, sys.nextLsn + 1);
    }
  }

  /** A completed command keeps the system invariant: reopening would rebuild exactly its state. */
  lemma DoInv(c: Codec, sys: Sys, es: seq<LogEntry>, cmd: Command)
    requires Inv(c, sys, es) && Encodable(c, sys, cmd)
    ensures Inv(c, Do(c, sys, cmd), EntriesAfter(c, sys, es, cmd))
  {
    match cmd
    case Flush => DoFlushInv(c, sys, es);
    case Compact(ids) =>
      assert EntriesAfter(c, sys, es, cmd) == es;
      hide *;
      DoCompactInv(c, sys, es, ids);
    case _ => DoMutationInv(c, sys, es, cmd);
  }

  lemma DoMutationInv(c: Codec, sys: Sys, es: seq<LogEntry>, cmd: Command)
    requires Inv(c, sys, es) && Encodable(c, sys, cmd) && !cmd.Flush? && !cmd.Compact?
    ensures Inv(c, Do(c, sys, cmd), EntriesAfter(c, sys, es, cmd))
  {
    match Logged(sys.st, cmd)
    case Some(m) =>
      assert Memtable in sys.st.store;
      DoLogged(c, sys, es, cmd, m);
      hide *;
      DoLogInv(c, sys, es, LogEntry(sys.nextLsn, m));
    case None =>
  }

  /** Every later disk of a compaction, too, holds the compacted state. */
  lemma CompactDiskInv(c: Codec, sys: Sys, es: seq<LogEntry>, ids: set<nat>, i: nat)
    requires Inv(c, sys, es) && Compacts(sys.st, ids) && 1 <= i < |CompactDisks(sys, ids)|
    ensures Inv(c, Sys(CompactState(sys.st, ids), CompactDisks(sys, ids)[i], sys.nextLsn), es)
  {
    var compacted := Sys(CompactState(sys.st, ids), CompactDisks(sys, ids)[1], sys.nextLsn);
    CompactInv(c, sys, es, ids);
    if i > 1 {
      CompactDiskAt(sys, ids, i);
      DeletedInv(c, compacted, es, Inputs(sys.st, ids), i - 1);
    }
  }

  /** What reopening gives after a crash: the state before the command or the state after it. */
  ghost predicate Recovers(c: Codec, sys: Sys, es: seq<LogEntry>, cmd: Command, left: Disk)
    requires Memtable in sys.st.store
  {
    || RecoversTo(c, left, sys.st, es)
    || RecoversTo(c, left, Do(c, sys, cmd).st, es)
    || RecoversTo(c, left, Do(c, sys, cmd).st, EntriesAfter(c, sys, es, cmd))
  }

  /** A crash while a segment file is put leaves the old checkpoint, and possibly an orphan. */
  lemma CrashPut(c: Codec, sys: Sys, es: seq<LogEntry>, rows: seq<Row>, left: Disk)
    requires Inv(c, sys, es) && Between(sys.disk, PutSegment(sys.disk, sys.st.next, rows), left)
    ensures RecoversTo(c, left, sys.st, es)
  {
    assert left == sys.disk.(files := left.files);
    assert Segment(sys.st.next) !in Loaded(sys.disk).segments;
    OpenOtherFiles(c, sys, es, left.files);
  }

  lemma CrashAppend(c: Codec, sys: Sys, es: seq<LogEntry>, e: LogEntry, left: Disk)
    requires Inv(c, sys, es) && e.lsn == sys.nextLsn && Fits(c, e)
    requires Between(sys.disk, sys.disk.(wal := sys.disk.wal + Frame(c, e)), left)
    ensures || RecoversTo(c, left, sys.st, es)
            || RecoversTo(c, left, Apply(sys.st, e), es + [e])
  {
    var done := Sys(Apply(sys.st, e), sys.disk.(wal := sys.disk.wal + Frame(c, e)), sys.nextLsn + 1);
    assert left == sys.disk.(wal := left.wal);
    var cut := |left.wal| - |sys.disk.wal|;
    assert left.wal == sys.disk.wal + Frame(c, e)[..cut];
    if cut < |Frame(c, e)| {
      ScanInterrupted(c, es, e, cut);
      OpenSame(c, sys, es, left);
    } else {
      AppendInv(c, sys, es, e);
      OpenInv(c, done, es + [e]);
    }
  }

  lemma FlushRecovered(c: Codec, sys: Sys, es: seq<LogEntry>)
    requires Inv(c, sys, es) && Flushes(sys.st)
    ensures RecoversTo(c, FlushDisks(c, sys)[1], FlushState(sys.st), es)
    ensures RecoversTo(c, FlushDisks(c, sys)[2], FlushState(sys.st), [])
  {
    FlushInv(c, sys, es);
    OpenInv(c, Sys(FlushState(sys.st), FlushDisks(c, sys)[1], sys.nextLsn), es);
    OpenInv(c, Sys(FlushState(sys.st), FlushDisks(c, sys)[2], sys.nextLsn), []);
  }

  /** A step that appends nothing and writes no file is all or nothing. */
  lemma AtomicStep(d: Disk, d': Disk, left: Disk)
    requires Between(d, d', left)
    requires |d'.wal| <= |d.wal|
    requires forall src :: src in d'.files ==> src in d.files && d.files[src] == d'.files[src]
    ensures left == d || left == d'
  {
  }

  lemma FlushShrinks(c: Codec, sys: Sys, i: nat)
    requires Memtable in sys.st.store && Flushes(sys.st) && 1 <= i < 3
    requires |FlushDisks(c, sys)[2].wal| == HEADER_LEN <= |sys.disk.wal|
    ensures var d, d' := FlushDisks(c, sys)[i - 1], FlushDisks(c, sys)[i];
            |d'.wal| <= |d.wal| && d'.files == d.files
  {
  }

  /** Replacing the manifest and truncating the log are each all or nothing. */
  lemma AtomicFlushSteps(c: Codec, sys: Sys, es: seq<LogEntry>, i: nat, left: Disk)
    requires Inv(c, sys, es) && Flushes(sys.st) && 1 <= i < 3
    requires Between(FlushDisks(c, sys)[i - 1], FlushDisks(c, sys)[i], left)
    ensures left == FlushDisks(c, sys)[i - 1] || left == FlushDisks(c, sys)[i]
  {
    FlushInv(c, sys, es);
    FlushShrinks(c, sys, i);
    hide *;
    AtomicStep(FlushDisks(c, sys)[i - 1], FlushDisks(c, sys)[i], left);
  }

  lemma CrashFlush(c: Codec, sys: Sys, es: seq<LogEntry>, i: nat, left: Disk)
    requires Inv(c, sys, es) && Flushes(sys.st) && i < 3
    requires Between(if i == 0 then sys.disk else FlushDisks(c, sys)[i - 1], FlushDisks(c, sys)[i], left)
    ensures || RecoversTo(c, left, sys.st, es)
            || RecoversTo(c, left, FlushState(sys.st), es)
            || RecoversTo(c, left, FlushState(sys.st), [])
  {
    if i == 0 || left == FlushDisks(c, sys)[0] {
      CrashPut(c, sys, es, FlushRows(sys.st), left);
    } else {
      AtomicFlushSteps(c, sys, es, i, left);
      FlushRecovered(c, sys, es);
    }
  }

  lemma CompactRecovered(c: Codec, sys: Sys, es: seq<LogEntry>, ids: set<nat>, i: nat)
    requires Inv(c, sys, es) && Compacts(sys.st, ids) && 1 <= i < |CompactDisks(sys, ids)|
    ensures RecoversTo(c, CompactDisks(sys, ids)[i], CompactState(sys.st, ids), es)
  {
    CompactDiskInv(c, sys, es, ids, i);
    OpenInv(c, Sys(CompactState(sys.st, ids), CompactDisks(sys, ids)[i], sys.nextLsn), es);
  }

  lemma CompactShrinks(sys: Sys, ids: set<nat>, i: nat)
    requires Compacts(sys.st, ids) && 1 <= i < |CompactDisks(sys, ids)|
    ensures var d, d' := CompactDisks(sys, ids)[i - 1], CompactDisks(sys, ids)[i];
            d'.wal == d.wal && forall src :: src in d'.files ==> src in d.files && d.files[src] == d'.files[src]
  {
    if i >= 2 {
      CompactDiskAt(sys, ids, i);
      if i >= 3 {
        CompactDiskAt(sys, ids, i - 1);
      }
    }
  }

  /** Past the segment file, each step of a compaction is all or nothing. */
  lemma AtomicCompactSteps(sys: Sys, ids: set<nat>, i: nat, left: Disk)
    requires Compacts(sys.st, ids) && 1 <= i < |CompactDisks(sys, ids)|
    requires Between(CompactDisks(sys, ids)[i - 1], CompactDisks(sys, ids)[i], left)
    ensures left == CompactDisks(sys, ids)[i - 1] || left == CompactDisks(sys, ids)[i]
  {
    CompactShrinks(sys, ids, i);
    AtomicStep(CompactDisks(sys, ids)[i - 1], CompactDisks(sys, ids)[i], left);
  }

  lemma CrashCompact(c: Codec, sys: Sys, es: seq<LogEntry>, ids: set<nat>, i: nat, left: Disk)
    requires Inv(c, sys, es) && Compacts(sys.st, ids) && i < |CompactDisks(sys, ids)|
    requires Between(if i == 0 then sys.disk else CompactDisks(sys, ids)[i - 1], CompactDisks(sys, ids)[i], left)
    ensures || RecoversTo(c, left, sys.st, es)
            || RecoversTo(c, left, CompactState(sys.st, ids), es)
  {
    if i == 0 || left == CompactDisks(sys, ids)[0] {
      CrashPut(c, sys, es, CompactRows(sys.st, ids), left);
    } else {
      AtomicCompactSteps(sys, ids, i, left);
      CompactRecovered(c, sys, es, ids, if left == CompactDisks(sys, ids)[i] then i else i - 1);
    }
  }

  /** Crash recovery for one command: whatever a crash between or within its durable steps leaves,
      reopening rebuilds exactly the state before the command or exactly the state after it. */
  lemma CrashRecovers(c: Codec, sys: Sys, es: seq<LogEntry>, cmd: Command, left: Disk)
    requires Inv(c, sys, es) && Encodable(c, sys, cmd) && MayLeave(c, sys, cmd, left)
    ensures Recovers(c, sys, es, cmd, left)
  {
    if left == sys.disk {
      OpenInv(c, sys, es);
    } else {
      var ds := Disks(c, sys, cmd);
      var i :| 0 <= i < |ds| && Between(if i == 0 then sys.disk else ds[i - 1], ds[i], left);
      CrashStep(c, sys, es, cmd, i, left);
    }
  }

  lemma LoggedFits(c: Codec, sys: Sys, es: seq<LogEntry>, e: LogEntry)
    requires Inv(c, sys, es) && |c.encode(e)| < 0x1_0000_0000
    ensures Memtable in sys.st.store && (Accepts(c, e) ==> Fits(c, e))
  {
    assert c.encode(e) != [];
  }

  lemma CrashStep(c: Codec, sys: Sys, es: seq<LogEntry>, cmd: Command, i: nat, left: Disk)
    requires Inv(c, sys, es) && Encodable(c, sys, cmd) && i < |Disks(c, sys, cmd)|
    requires Between(if i == 0 then sys.disk else Disks(c, sys, cmd)[i - 1], Disks(c, sys, cmd)[i], left)
    ensures Recovers(c, sys, es, cmd, left)
  {
    assert Recovers(c, sys, es, cmd, left) <==>
           || RecoversTo(c, left, sys.st, es) || RecoversTo(c, left, Do(c, sys, cmd).st, es)
           || RecoversTo(c, left, Do(c, sys, cmd).st, EntriesAfter(c, sys, es, cmd));
    match cmd
    case Flush =>
      assert Disks(c, sys, cmd) == FlushDisks(c, sys) && |FlushDisks(c, sys)| <= 3;
      assert Do(c, sys, cmd).st == FlushState(sys.st) && EntriesAfter(c, sys, es, cmd) == if Flushes(sys.st) then []
             else es;
      assert Flushes(sys.st);
      hide *;
      CrashFlush(c, sys, es, i, left);
    case Compact(ids) =>
      assert Disks(c, sys, cmd) == CompactDisks(sys, ids) && Do(c, sys, cmd).st == CompactState(sys.st, ids);
      assert Compacts(sys.st, ids);
      hide *;
      CrashCompact(c, sys, es, ids, i, left);
    case _ =>
      var m := Logged(sys.st, cmd).value;
      LoggedFits(c, sys, es, LogEntry(sys.nextLsn, m));
      DoLogged(c, sys, es, cmd, m);
      hide *;
      CrashAppend(c, sys, es, LogEntry(sys.nextLsn, m), left);
  }
}
