/** Opening a whole table: new, after a clean stop, and after a crash in the middle of a statement
    (crates/adb-storage/src/table.rs: TableStore::open). */
module Reopening {
  import opened Values
  import opened PartitionState
  import opened Rewriting
  import opened Wal
  import opened LogStore
  import opened Replays
  import opened Recovery
  import opened Crash
  import opened Runs
  import opened Partitions
  import opened Routing
  import opened Tables

  // ---------------------------------------------------------------- keys stay where they route

  /** The rows a command appends route to partition `i` of `n`. */
  ghost predicate Homes(h: Hash, n: nat, pk: seq<string>, cmd: Command, i: nat)
    requires n > 0
  {
    cmd.Append? && pk != [] ==> forall r :: 0 <= r < |cmd.rows| ==> Route(h, KeyAt(pk, cmd.rows[r]), n) == i
  }

  ghost predicate OpsHome(h: Hash, n: nat, pk: seq<string>, ops: seq<Op>, i: nat)
    requires n > 0
  {
    forall j :: 0 <= j < |ops| && ops[j].Put? ==> Route(h, OpKey(pk, ops[j]), n) == i
  }

  ghost predicate MapHome(h: Hash, n: nat, v: map<RowKey, Row>, i: nat)
    requires n > 0
  {
    forall k :: k in v ==> Route(h, k, n) == i
  }

  lemma {:induction false} RunStaysHome(h: Hash, n: nat, pk: seq<string>, v: map<RowKey, Row>, ops: seq<Op>, i: nat)
    requires n > 0 && MapHome(h, n, v, i) && OpsHome(h, n, pk, ops, i)
    ensures MapHome(h, n, RunView(pk, v, ops), i)
  {
    if ops != [] {
      RunStaysHome(h, n, pk, v, ops[..|ops| - 1], i);
      hide Route;
    }
  }

  lemma {:induction false} GroupHome(h: Hash, n: nat, pk: seq<string>, ops: seq<Op>, i: nat)
    requires n > 0
    ensures OpsHome(h, n, pk, OpGroup(h, n, pk, ops, i), i)
  {
    if ops != [] {
      GroupHome(h, n, pk, ops[..|ops| - 1], i);
      hide Route;
    }
  }

  /** What a write sends to a partition belongs there. */
  lemma SharesHome(h: Hash, pk: seq<string>, rows: seq<Row>, shares: seq<seq<Row>>, upsert: bool, i: nat)
    requires AreShares(h, |shares|, pk, rows, shares) && i < |shares|
    ensures Homes(h, |shares|, pk, Append(shares[i], upsert), i)
  {
    if pk != [] {
      SharesGrouped(h, pk, rows, shares);
      var puts := Puts(shares[i]);
      assert AllPuts(shares)[i] == puts == OpGroup(h, |shares|, pk, Puts(rows), i);
      GroupHome(h, |shares|, pk, Puts(rows), i);
      forall r | 0 <= r < |shares[i]|
        ensures Route(h, KeyAt(pk, shares[i][r]), |shares|) == i
      {
        assert puts[r] == Put(shares[i][r]);
      }
    }
  }

  lemma EffectHome(c: Codec, sys: Sys, cmd: Command, h: Hash, n: nat, i: nat)
    requires n > 0 && sys.st.pk != [] && Homes(h, n, sys.st.pk, cmd, i)
    ensures OpsHome(h, n, sys.st.pk, Effect(c, sys, cmd), i)
  {
    hide Route, Accepts, PresentKeys;
  }

  /** All the rows the commands append route there. */
  ghost predicate AllHome(h: Hash, n: nat, pk: seq<string>, cmds: seq<Command>, i: nat)
    requires n > 0
  {
    forall j :: 0 <= j < |cmds| ==> Homes(h, n, pk, cmds[j], i)
  }

  lemma {:induction false} AllEffectHome(c: Codec, sys: Sys, cmds: seq<Command>, h: Hash, n: nat, i: nat)
    requires n > 0 && sys.st.pk != [] && AllHome(h, n, sys.st.pk, cmds, i)
    ensures OpsHome(h, n, sys.st.pk, EffectAll(c, sys, cmds), i)
  {
    if cmds != [] {
      var m := |cmds| - 1;
      AllEffectHome(c, sys, cmds[..m], h, n, i);
      AllPk(c, sys, cmds[..m]);
      EffectHome(c, DoAll(c, sys, cmds[..m]), cmds[m], h, n, i);
      hide Route, Effect, DoAll, Homes, OpKey;
    }
  }

  lemma {:induction false} AllPk(c: Codec, sys: Sys, cmds: seq<Command>)
    ensures DoAll(c, sys, cmds).st.pk == sys.st.pk
  {
    if cmds != [] {
      AllPk(c, sys, cmds[..|cmds| - 1]);
      var before := DoAll(c, sys, cmds[..|cmds| - 1]);
      if Memtable in before.st.store {
        DoPk(c, before, cmds[|cmds| - 1]);
      }
      hide Do;
    }
  }

  // ---------------------------------------------------------------- a crash in the middle of a statement

  /** Each partition is asked for a row of commands by a statement, and a crash leaves these disks: a partition may
      not have begun, be in the middle of any of its commands, or have completed them all. */
  ghost predicate Interrupted(c: Codec, pk: seq<string>, h: Hash, syss: seq<Sys>, parts: seq<seq<Command>>,
                              lefts: seq<Disk>) {
    && |syss| == |parts| == |lefts| > 0
    && forall i :: 0 <= i < |syss| ==>
         && Consistent(c, syss[i]) && syss[i].st.pk == pk && AllHome(h, |syss|, pk, parts[i], i)
         && EncodableAll(c, syss[i], parts[i]) && CrashIn(c, syss[i], parts[i], lefts[i])
  }

  ghost function Shown(syss: seq<Sys>): (ts: seq<Table>)
    ensures |ts| == |syss| && forall i :: 0 <= i < |ts| ==> ts[i] == Observe(syss[i].st)
  {
    seq(|syss|, i requires 0 <= i < |syss| => Observe(syss[i].st))
  }

  /** What the partition shows after its first `m` commands. */
  ghost function After(c: Codec, sys: Sys, cmds: seq<Command>, m: nat): Table
    requires m <= |cmds|
  {
    TableRun(sys.st.pk, Observe(sys.st), EffectAll(c, sys, cmds[..m]))
  }

  /** The table is what the partition showed after some of its first commands. */
  ghost predicate Reached(c: Codec, sys: Sys, cmds: seq<Command>, t: Table) {
    exists m :: 0 <= m <= |cmds| && t == After(c, sys, cmds, m)
  }

  /** The partition reopens to what it showed after some of its first commands. */
  ghost predicate Partway(c: Codec, sys: Sys, cmds: seq<Command>, left: Disk) {
    var r := Open(c, sys.st.pk, left);
    && r.Some? && Consistent(c, r.value) && Recovery.Numbered(Loaded(left))
    && Reached(c, sys, cmds, Observe(r.value.st))
  }

  lemma OpenedManifest(c: Codec, pk: seq<string>, d: Disk)
    requires Open(c, pk, d).Some?
    ensures Loaded(Open(c, pk, d).value.disk) == Loaded(d)
  {
    hide ScanLog, Base, Replay, Above, NewestLsn, WalFile, Referenced;
  }

  lemma ConsistentNumbered(c: Codec, sys: Sys)
    requires Consistent(c, sys)
    ensures Recovery.Numbered(Loaded(sys.disk)) && Valid(sys.st)
  {
    assert Mirrors(sys.st, sys.disk) && IdsBelow(sys.st.store, sys.st.next);
    hide Rebuilt, WellFormed, ScanLog;
  }

  lemma PartitionCrash(c: Codec, sys: Sys, cmds: seq<Command>, left: Disk)
    requires Consistent(c, sys) && EncodableAll(c, sys, cmds) && CrashIn(c, sys, cmds, left)
    ensures Partway(c, sys, cmds, left)
  {
    hide Consistent, EncodableAll, CrashIn, Open, Observe, TableRun, EffectAll, Recovery.Numbered, Loaded;
    var m := RowCrash(c, sys, cmds, left);
    ConsistentNumbered(c, Open(c, sys.st.pk, left).value);
    OpenedManifest(c, sys.st.pk, left);
    assert Observe(Open(c, sys.st.pk, left).value.st) == After(c, sys, cmds, m);
  }

  lemma {:induction false} RunKind(pk: seq<string>, t: Table, ops: seq<Op>)
    ensures TableRun(pk, t, ops).Bag? <==> t.Bag?
  {
    if ops != [] {
      RunKind(pk, t, ops[..|ops| - 1]);
    }
  }

  /** The table has the kind the primary key says, and its keys route to partition `i`. */
  ghost predicate HomeTable(h: Hash, n: nat, pk: seq<string>, t: Table, i: nat)
    requires n > 0
  {
    if pk == [] then t.Bag? else t.Keyed? && MapHome(h, n, MapOf(t), i)
  }

  lemma AfterHome(c: Codec, sys: Sys, cmds: seq<Command>, m: nat, h: Hash, n: nat, i: nat)
    requires n > 0 && m <= |cmds| && AllHome(h, n, sys.st.pk, cmds, i)
    requires HomeTable(h, n, sys.st.pk, Observe(sys.st), i)
    ensures HomeTable(h, n, sys.st.pk, After(c, sys, cmds, m), i)
  {
    var pk, ops := sys.st.pk, EffectAll(c, sys, cmds[..m]);
    assert AllHome(h, n, pk, cmds[..m], i);
    hide EffectAll, AllHome, MapHome, Observe;
    if pk == [] {
      RunKind(pk, Observe(sys.st), ops);
    } else {
      var v := MapOf(Observe(sys.st));
      AllEffectHome(c, sys, cmds[..m], h, n, i);
      KeyedRun(pk, v, ops);
      RunStaysHome(h, n, pk, v, ops, i);
    }
  }

  lemma InterruptedAt(c: Codec, pk: seq<string>, h: Hash, syss: seq<Sys>, parts: seq<seq<Command>>, lefts: seq<Disk>,
                      i: nat)
    requires Interrupted(c, pk, h, syss, parts, lefts) && WellPlaced(h, pk, Shown(syss)) && i < |syss|
    ensures syss[i].st.pk == pk && Partway(c, syss[i], parts[i], lefts[i])
    ensures HomeTable(h, |syss|, pk, Observe(Open(c, pk, lefts[i]).value.st), i)
  {
    assert Consistent(c, syss[i]) && EncodableAll(c, syss[i], parts[i]) && CrashIn(c, syss[i], parts[i], lefts[i]);
    assert AllHome(h, |syss|, pk, parts[i], i);
    assert HomeTable(h, |syss|, pk, Shown(syss)[i], i);
    PartitionCrash(c, syss[i], parts[i], lefts[i]);
    hide Interrupted, Consistent, Open, Observe, AllHome, CrashIn, HomeTable, After;
    var m :| 0 <= m <= |parts[i]| && Observe(Open(c, pk, lefts[i]).value.st) == After(c, syss[i], parts[i], m);
    AfterHome(c, syss[i], parts[i], m, h, |syss|, i);
  }

  /** A crash in the middle of a statement over several partitions: the table reopens, sound and with every key
      in its partition, and each partition shows what it did after some of the first commands of its part. */
  lemma StatementCrash(c: Codec, pk: seq<string>, h: Hash, syss: seq<Sys>, parts: seq<seq<Command>>, lefts: seq<Disk>)
    requires Interrupted(c, pk, h, syss, parts, lefts) && WellPlaced(h, pk, Shown(syss))
    ensures Recoverable(c, pk, h, lefts) && AllNumbered(lefts)
    ensures forall i :: 0 <= i < |syss| ==>
              Reached(c, syss[i], parts[i], Recovered(c, pk, lefts)[i])
    ensures forall i :: 0 <= i < |syss| ==> WholeOrNone(c, syss[i], parts[i], Recovered(c, pk, lefts)[i])
  {
    assert |syss| == |parts| == |lefts| > 0;
    hide Interrupted, Partway, Observe, Consistent, Open, WellPlaced, HomeTable, AllNumbered, Shown, Reached,
         WholeOrNone;
    forall i | 0 <= i < |syss|
      ensures syss[i].st.pk == pk && Partway(c, syss[i], parts[i], lefts[i])
      ensures HomeTable(h, |syss|, pk, Observe(Open(c, pk, lefts[i]).value.st), i)
    {
      InterruptedAt(c, pk, h, syss, parts, lefts, i);
    }
    AllOpen(c, pk, syss, parts, lefts);
    HomePlaced(h, pk, Recovered(c, pk, lefts));
    forall i | 0 <= i < |syss|
      ensures WholeOrNone(c, syss[i], parts[i], Recovered(c, pk, lefts)[i])
    {
      ReachedWhole(c, syss[i], parts[i], Recovered(c, pk, lefts)[i]);
    }
  }

  /** If a partition's part is one command followed by flushes and compactions, it shows all of that command's changes
      or none. */
  ghost predicate WholeOrNone(c: Codec, sys: Sys, cmds: seq<Command>, t: Table) {
    cmds != [] && Upkeep(cmds[1..]) ==>
      t == Observe(sys.st) || t == TableRun(sys.st.pk, Observe(sys.st), Effect(c, sys, cmds[0]))
  }

  lemma ReachedWhole(c: Codec, sys: Sys, cmds: seq<Command>, t: Table)
    requires Reached(c, sys, cmds, t)
    ensures WholeOrNone(c, sys, cmds, t)
  {
    var m :| 0 <= m <= |cmds| && t == After(c, sys, cmds, m);
    if cmds != [] && Upkeep(cmds[1..]) {
      UpkeepEffect(c, sys, cmds, m);
      NoneDone(c, sys, cmds);
    }
    hide Observe, Effect, EffectAll;
  }

  lemma AllOpen(c: Codec, pk: seq<string>, syss: seq<Sys>, parts: seq<seq<Command>>, lefts: seq<Disk>)
    requires |syss| == |parts| == |lefts|
    requires forall i :: 0 <= i < |syss| ==> syss[i].st.pk == pk && Partway(c, syss[i], parts[i], lefts[i])
    ensures AllNumbered(lefts)
    ensures forall i :: 0 <= i < |lefts| ==> Open(c, pk, lefts[i]).Some? && Consistent(c, Open(c, pk, lefts[i]).value)
    ensures forall i :: 0 <= i < |syss| ==> Reached(c, syss[i], parts[i], Recovered(c, pk, lefts)[i])
  {
    forall i | 0 <= i < |lefts|
      ensures Partway(c, syss[i], parts[i], lefts[i]) && syss[i].st.pk == pk
    {
    }
    hide Observe, Consistent, Open, Reached, Recovery.Numbered, Loaded;
  }

  lemma HomePlaced(h: Hash, pk: seq<string>, ts: seq<Table>)
    requires ts != [] && forall i :: 0 <= i < |ts| ==> HomeTable(h, |ts|, pk, ts[i], i)
    ensures WellPlaced(h, pk, ts)
  {
  }

  // ---------------------------------------------------------------- a crash while reopening

  /** A disk that a crash during reopening can leave: some of the orphaned files are deleted, and the log is as it
      was, created, or has lost its torn tail. */
  ghost predicate ReopenLeaves(c: Codec, d: Disk, left: Disk) {
    var m, wal, r := Loaded(d), WalFile(d), ScanLog(c, WalFile(d));
    && left.manifest == d.manifest
    && (forall src :: src in left.files ==> src in d.files && left.files[src] == d.files[src])
    && m.segments <= left.files.Keys
    && (left.wal == d.wal || left.wal == wal || (r.Scanned? && r.end <= |wal| && left.wal == wal[..r.end]))
  }

  lemma LeftLog(c: Codec, d: Disk, left: Disk)
    requires ReopenLeaves(c, d, left) && ScanLog(c, WalFile(d)).Scanned?
    ensures ScanLog(c, WalFile(left)) == ScanLog(c, WalFile(d))
    ensures var end := ScanLog(c, WalFile(d)).end;
            end <= |WalFile(d)| && end <= |WalFile(left)| && WalFile(left)[..end] == WalFile(d)[..end]
  {
    var wal := WalFile(d);
    ScanAgain(c, wal);
    assert ScanLog(c, wal).end >= HEADER_LEN;
    hide ScanLog;
    var end := ScanLog(c, wal).end;
    assert wal[..end][..end] == wal[..end];
  }

  lemma LeftFiles(c: Codec, pk: seq<string>, d: Disk, left: Disk)
    requires ReopenLeaves(c, d, left)
    ensures Loaded(left) == Loaded(d) && Loaded(d).segments <= d.files.Keys && Loaded(d).segments <= left.files.Keys
    ensures Base(pk, Loaded(d), left.files) == Base(pk, Loaded(d), d.files)
    ensures Referenced(Loaded(d), left.files) == Referenced(Loaded(d), d.files)
  {
    BaseDepends(pk, Loaded(d), d.files, left.files);
    hide Base, ScanLog, WalFile;
  }

  /** A crash while reopening is harmless: reopening again gives the very same partition and disk. */
  lemma ReopenInterrupted(c: Codec, pk: seq<string>, d: Disk, left: Disk)
    requires Open(c, pk, d).Some? && ReopenLeaves(c, d, left)
    ensures Open(c, pk, left) == Open(c, pk, d)
  {
    hide *;
    OpenScans(c, pk, d);
    LeftLog(c, d, left);
    LeftFiles(c, pk, d, left);
    var es, end := ScanLog(c, WalFile(d)).entries, ScanLog(c, WalFile(d)).end;
    OpenBody(c, pk, d, es, end);
    OpenBody(c, pk, left, es, end);
    SameManifest(c, d, left);
  }

  lemma OpenScans(c: Codec, pk: seq<string>, d: Disk)
    requires Open(c, pk, d).Some?
    ensures ScanLog(c, WalFile(d)).Scanned?
  {
    hide ScanLog, WalFile, Base, Replay, Above, Referenced;
  }

  lemma SameManifest(c: Codec, d: Disk, left: Disk)
    requires ReopenLeaves(c, d, left)
    ensures left.manifest == d.manifest
  {
  }

  /** The one exception is a new log's header, which is written in place: if it is cut short, the partition can
      never be opened again. */
  lemma TornHeaderFatal(c: Codec, pk: seq<string>, d: Disk, cut: nat)
    requires d.wal == [] && cut <= HEADER_LEN && Loaded(d).segments <= d.files.Keys && GoodCodec(c)
    ensures Open(c, pk, d.(wal := WAL_MAGIC[..cut])).Some? <==> cut == 0 || cut == HEADER_LEN
  {
    var left := d.(wal := WAL_MAGIC[..cut]);
    if cut == 0 || cut == HEADER_LEN {
      assert WAL_MAGIC[..HEADER_LEN] == WAL_MAGIC && WalFile(left) == WAL_MAGIC == EncodeLog(c, []);
      ScanEncoded(c, []);
      hide *;
      OpenBody(c, pk, left, [], HEADER_LEN);
    } else {
      assert ScanLog(c, WalFile(left)) == Corrupt;
    }
  }

  // ---------------------------------------------------------------- a table's life

  /** A new table is one whose disks are all empty. */
  function EmptyDisks(n: nat): (disks: seq<Disk>)
    ensures |disks| == n && forall i :: 0 <= i < n ==> disks[i] == Disk([], None, map[])
  {
    seq(n, i requires 0 <= i < n => Disk([], None, map[]))
  }

  function EmptyTable(pk: seq<string>): Table { if pk == [] then Bag(multiset{}) else Keyed(map[]) }

  /** A table that has never been opened before opens, and is empty. */
  lemma NewTable(c: Codec, pk: seq<string>, h: Hash, n: nat)
    requires GoodCodec(c) && n > 0
    ensures AllNumbered(EmptyDisks(n)) && Recoverable(c, pk, h, EmptyDisks(n))
    ensures Together(pk, Recovered(c, pk, EmptyDisks(n))) == EmptyTable(pk)
  {
    FreshConsistent(c, pk);
    NothingNumbered();
    hide Consistent, Open, Observe, Together, WellPlaced, HomeTable, Recovery.Numbered, Loaded, FreshState;
    assert EmptyDisks(n) != [];
    var ts := Recovered(c, pk, EmptyDisks(n));
    forall i | 0 <= i < n
      ensures ts[i] == EmptyTable(pk) && HomeTable(h, n, pk, ts[i], i)
    {
      EmptyHome(h, n, pk, i);
    }
    hide *;
    HomePlaced(h, pk, ts);
    NothingTogether(pk, ts);
    FreshRecoverable(c, pk, h, n, ts);
  }

  lemma NothingNumbered()
    ensures Recovery.Numbered(Loaded(Disk([], None, map[])))
  {
  }

  lemma FreshRecoverable(c: Codec, pk: seq<string>, h: Hash, n: nat, ts: seq<Table>)
    requires n > 0 && WellPlaced(h, pk, ts) && Recovery.Numbered(Loaded(Disk([], None, map[])))
    requires var r := Open(c, pk, Disk([], None, map[])); r.Some? && Consistent(c, r.value)
    requires ts == Recovered(c, pk, EmptyDisks(n))
    ensures AllNumbered(EmptyDisks(n)) && Recoverable(c, pk, h, EmptyDisks(n))
  {
    hide Consistent, Open, Observe, WellPlaced, Recovery.Numbered, Loaded;
  }

  lemma EmptyHome(h: Hash, n: nat, pk: seq<string>, i: nat)
    requires n > 0
    ensures HomeTable(h, n, pk, EmptyTable(pk), i)
  {
  }

  lemma {:induction false} NothingTogether(pk: seq<string>, ts: seq<Table>)
    requires forall i :: 0 <= i < |ts| ==> ts[i] == EmptyTable(pk)
    ensures Together(pk, ts) == EmptyTable(pk)
  {
    if ts != [] {
      NothingTogether(pk, ts[..|ts| - 1]);
    }
  }

  /** A statement that crashes in an open table: opening the disks it leaves gives a valid table again, in which
      each partition shows what it did after some of the first commands of its part, and so all of a single append
      or delete or none of it. */
  lemma TableCrash(t: TableStore, parts: seq<seq<Command>>, lefts: seq<Disk>)
    requires t.Valid() && |parts| == |lefts| == |t.partitions|
    requires forall i :: 0 <= i < |parts| ==> MidStatement(t, i, parts[i], lefts[i])
    ensures Recoverable(t.codec, t.pk, t.hash, lefts) && AllNumbered(lefts)
    ensures forall i :: 0 <= i < |lefts| ==>
              var shown, sys := Recovered(t.codec, t.pk, lefts)[i], t.partitions[i].SysNow();
              Reached(t.codec, sys, parts[i], shown) && WholeOrNone(t.codec, sys, parts[i], shown)
  {
    var syss := t.Syss();
    assert t.Sound() && WellPlaced(t.hash, t.pk, t.Parts());
    hide MidStatement, Partition.Valid, Consistent, Reached, WholeOrNone, Observe, WellPlaced, AllHome, EncodableAll,
         CrashIn;
    t.Numbered();
    forall i | 0 <= i < |syss|
      ensures Consistent(t.codec, syss[i]) && syss[i].st == t.partitions[i].st && syss[i].st.pk == t.pk
      ensures AllHome(t.hash, |syss|, t.pk, parts[i], i)
      ensures EncodableAll(t.codec, syss[i], parts[i]) && CrashIn(t.codec, syss[i], parts[i], lefts[i])
    {
      t.Apart(i);
      ValidConsistent(t.partitions[i]);
      MidSpelt(t, i, parts[i], lefts[i]);
    }
    assert Shown(syss) == t.Parts();
    assert Interrupted(t.codec, t.pk, t.hash, syss, parts, lefts);
    StatementCrash(t.codec, t.pk, t.hash, syss, parts, lefts);
  }

  /** Partition `i` is somewhere in the commands `cmds`, all of whose rows belong there. */
  ghost predicate MidStatement(t: TableStore, i: nat, cmds: seq<Command>, left: Disk)
    requires i < |t.partitions|
    reads t.partitions[i], t.partitions[i].log
  {
    && AllHome(t.hash, |t.partitions|, t.pk, cmds, i)
    && EncodableAll(t.codec, t.partitions[i].SysNow(), cmds) && CrashIn(t.codec, t.partitions[i].SysNow(), cmds, left)
  }

  lemma MidSpelt(t: TableStore, i: nat, cmds: seq<Command>, left: Disk)
    requires i < |t.partitions| && MidStatement(t, i, cmds, left)
    ensures AllHome(t.hash, |t.partitions|, t.pk, cmds, i)
    ensures EncodableAll(t.codec, t.partitions[i].SysNow(), cmds)
    ensures CrashIn(t.codec, t.partitions[i].SysNow(), cmds, left)
  {
  }

  lemma ValidConsistent(p: Partition)
    requires p.Valid()
    ensures Consistent(p.codec, p.SysNow()) && p.SysNow().st == p.st && p.st.pk == p.pk
  {
    p.Spelt();
    hide Inv;
    InvConsistent(p.codec, p.SysNow(), p.log.entries);
  }
}
