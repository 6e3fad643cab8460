/** Tables over partitions: insert, upsert, delete (crates/adb-storage/src/table.rs: TableStore). */
module Tables {
  import opened Values
  import opened PartitionState
  import opened Wal
  import opened Replays
  import opened Recovery
  import opened Rewriting
  import opened Crash
  import opened Runs
  import opened Partitions
  import opened Routing
  import opened Sorting
  import opened Lookups
  import opened Pruning
  import opened Snapshots
  import Memtables
  import Execution

  /** Why a table refuses a request. `Refused` is an error of the log of partition `at`: the
      partitions before it have already taken their part. */
  datatype Refusal = NoPrimaryKey | WrongKeyLength | Repeats(row: nat) | Exists(key: RowKey) | Refused(at: nat)

  datatype Outcome<T> = Ok(value: T) | Err(error: Refusal)

  datatype Written = Written(rows: nat, flushed: nat)

  /** The partitions below `m` have run their part of the changes and the others nothing. */
  ghost predicate Progress(pk: seq<string>, ts: seq<Table>, ts': seq<Table>, runs: seq<seq<Op>>, m: nat) {
    && |runs| == |ts'| == |ts| > 0 && m <= |ts|
    && forall i :: 0 <= i < |ts| ==> ts'[i] == if i < m then TableRun(pk, ts[i], runs[i]) else ts[i]
  }

  /** The tables are of the kind the primary key says, and keys are where they route. */
  ghost predicate WellPlaced(h: Hash, pk: seq<string>, ts: seq<Table>) {
    if pk == [] then forall i :: 0 <= i < |ts| ==> ts[i].Bag?
    else (forall i :: 0 <= i < |ts| ==> ts[i].Keyed?) && Routed(h, |ts|, ts)
  }

  /** The runs are the partitions' groups of `ops`. */
  ghost predicate Grouped(h: Hash, pk: seq<string>, runs: seq<seq<Op>>, ops: seq<Op>) {
    forall i :: 0 <= i < |runs| ==> runs[i] == OpGroup(h, |runs|, pk, ops, i)
  }

  lemma ProgressRouted(h: Hash, pk: seq<string>, ts: seq<Table>, ts': seq<Table>, runs: seq<seq<Op>>, ops: seq<Op>,
                       m: nat)
    requires Progress(pk, ts, ts', runs, m) && pk != [] && WellPlaced(h, pk, ts) && Grouped(h, pk, runs, ops)
    ensures WellPlaced(h, pk, ts')
  {
    forall i | 0 <= i < |ts'|
      ensures ts'[i].Keyed? && forall k :: k in MapOf(ts'[i]) ==> Route(h, k, |ts|) == i
    {
      KeyedRun(pk, ts[i].rows, OpGroup(h, |ts|, pk, ops, i));
      GroupStaysRouted(h, |ts|, pk, MapOf(ts[i]), ops, i);
    }
  }

  /** When every partition has run its group, the table has run them all. */
  lemma GroupsDone(h: Hash, pk: seq<string>, ts: seq<Table>, ts': seq<Table>, runs: seq<seq<Op>>, ops: seq<Op>)
    requires Progress(pk, ts, ts', runs, |ts|) && pk != [] && WellPlaced(h, pk, ts) && Grouped(h, pk, runs, ops)
    ensures Together(pk, ts') == TableRun(pk, Together(pk, ts), ops)
  {
    hide Together, TableRun, OpGroup, Routed;
    GroupsRunTable(h, pk, ts, ts', ops);
  }

  function AllPuts(shares: seq<seq<Row>>): (runs: seq<seq<Op>>)
    ensures |runs| == |shares| && forall i :: 0 <= i < |runs| ==> runs[i] == Puts(shares[i])
  {
    seq(|shares|, i requires 0 <= i < |shares| => Puts(shares[i]))
  }

  function AllDels(groups: seq<seq<RowKey>>): (runs: seq<seq<Op>>)
    ensures |runs| == |groups| && forall i :: 0 <= i < |runs| ==> runs[i] == Dels(groups[i])
  {
    seq(|groups|, i requires 0 <= i < |groups| => Dels(groups[i]))
  }

  /** The rows each of `n` partitions takes: a slice without a primary key, its keys' rows with one. */
  ghost predicate AreShares(h: Hash, n: nat, pk: seq<string>, rows: seq<Row>, shares: seq<seq<Row>>) {
    && |shares| == n > 0
    && forall i :: 0 <= i < n ==>
         shares[i] == if pk == [] then Slice(rows, PerPartition(|rows|, n), i)
                      else Pick(rows, KeyGroup(h, n, KeysAt(pk, rows), i))
  }

  ghost function SharesFor(h: Hash, n: nat, pk: seq<string>, rows: seq<Row>): (shares: seq<seq<Row>>)
    requires n > 0
    ensures AreShares(h, n, pk, rows, shares)
  {
    seq(n, i requires 0 <= i < n =>
      if pk == [] then Slice(rows, PerPartition(|rows|, n), i) else Pick(rows, KeyGroup(h, n, KeysAt(pk, rows), i)))
  }

  lemma SharesGrouped(h: Hash, pk: seq<string>, rows: seq<Row>, shares: seq<seq<Row>>)
    requires AreShares(h, |shares|, pk, rows, shares) && pk != []
    ensures Grouped(h, pk, AllPuts(shares), Puts(rows))
  {
    forall i | 0 <= i < |shares|
      ensures Puts(shares[i]) == OpGroup(h, |shares|, pk, Puts(rows), i)
    {
      PutGroup(h, |shares|, pk, rows, KeysAt(pk, rows), i);
    }
  }

  lemma SlicesPlaced(pk: seq<string>, h: Hash, ts: seq<Table>, ts': seq<Table>, shares: seq<seq<Row>>, m: nat)
    requires pk == [] && Progress(pk, ts, ts', AllPuts(shares), m) && WellPlaced(h, pk, ts)
    ensures WellPlaced(h, pk, ts')
    ensures m == |ts| ==> RanSlices(ts, ts', shares)
  {
    forall i | 0 <= i < |ts|
      ensures ts'[i].Bag? && (i < m ==> ts'[i] == Bag(ts[i].bag + multiset(shares[i])))
    {
      BagRun(pk, ts[i].bag, shares[i]);
    }
  }

  /** A write that got as far as partition `m` left every row in its place. */
  lemma SharesPlaced(h: Hash, pk: seq<string>, ts: seq<Table>, ts': seq<Table>, rows: seq<Row>, shares: seq<seq<Row>>,
                     m: nat)
    requires Progress(pk, ts, ts', AllPuts(shares), m) && WellPlaced(h, pk, ts) && AreShares(h, |ts|, pk, rows, shares)
    ensures WellPlaced(h, pk, ts')
  {
    assert |shares| == |ts|;
    hide WellPlaced, Progress, AreShares;
    if pk == [] {
      SlicesPlaced(pk, h, ts, ts', shares, m);
    } else {
      SharesGrouped(h, pk, rows, shares);
      ProgressRouted(h, pk, ts, ts', AllPuts(shares), Puts(rows), m);
    }
  }

  /** When every partition has taken its share, the table has taken the batch. */
  lemma SharesDone(h: Hash, pk: seq<string>, ts: seq<Table>, ts': seq<Table>, rows: seq<Row>, shares: seq<seq<Row>>)
    requires Progress(pk, ts, ts', AllPuts(shares), |ts|) && WellPlaced(h, pk, ts)
             && AreShares(h, |ts|, pk, rows, shares)
    ensures Together(pk, ts') == TableRun(pk, Together(pk, ts), Puts(rows))
  {
    if pk == [] {
      SlicesPlaced(pk, h, ts, ts', shares, |ts|);
      hide WellPlaced, Progress, Together, TableRun, Slice, PerPartition;
      SlicesRunTable(ts, ts', rows, shares);
    } else {
      SharesGrouped(h, pk, rows, shares);
      hide WellPlaced, Progress, Together, TableRun;
      GroupsDone(h, pk, ts, ts', AllPuts(shares), Puts(rows));
    }
  }

  lemma TakesSpelt(c: Codec, sys: Sys, cmd: Command)
    ensures cmd.Append? && cmd.rows != [] ==> Takes(c, sys, cmd) == Brief(c, sys, cmd)
    ensures cmd.Append? && cmd.rows == [] ==> Takes(c, sys, cmd)
    ensures cmd.Erase? ==> Takes(c, sys, cmd) == Brief(c, sys, cmd)
    ensures cmd.Erase? && cmd.keys == [] ==> Takes(c, sys, cmd)
  {
    hide Small;
  }

  /** What a write demands before anything is logged. */
  ghost predicate Admissible(pk: seq<string>, t: Table, rows: seq<Row>, upsert: bool) {
    && (rows != [] && upsert ==> pk != [])
    && (pk != [] && !upsert ==> !Repeated(KeysAt(pk, rows)) && !Clashes(t, KeysAt(pk, rows)))
  }

  lemma AdmissibleSpelt(pk: seq<string>, t: Table, rows: seq<Row>, upsert: bool)
    ensures rows == [] ==> Admissible(pk, t, rows, upsert)
    ensures rows != [] && upsert && pk == [] ==> !Admissible(pk, t, rows, upsert)
    ensures rows != [] && !(upsert && pk == []) ==>
              Admissible(pk, t, rows, upsert) ==
              !(pk != [] && !upsert && (Repeated(KeysAt(pk, rows)) || Clashes(t, KeysAt(pk, rows))))
  {
  }

  /** Without rows every share is empty. */
  lemma NothingToTake(c: Codec, h: Hash, pk: seq<string>, syss: seq<Sys>, rows: seq<Row>, upsert: bool)
    requires syss != [] && rows == []
    ensures AllTake(c, syss, Appends(SharesFor(h, |syss|, pk, rows), upsert))
  {
    hide Brief;
  }

  /** A batch repeats a key. */
  ghost predicate Repeated(keys: seq<RowKey>) { exists i, j :: 0 <= i < j < |keys| && keys[i] == keys[j] }

  /** A key of the batch is in the table. */
  ghost predicate Clashes(t: Table, keys: seq<RowKey>) { exists i :: 0 <= i < |keys| && keys[i] in MapOf(t) }

  function Appends(shares: seq<seq<Row>>, upsert: bool): (cmds: seq<Command>)
    ensures |cmds| == |shares| && forall i :: 0 <= i < |shares| ==> cmds[i] == Append(shares[i], upsert)
  {
    seq(|shares|, i requires 0 <= i < |shares| => Append(shares[i], upsert))
  }

  function Erases(groups: seq<seq<RowKey>>): (cmds: seq<Command>)
    ensures |cmds| == |groups| && forall i :: 0 <= i < |groups| ==> cmds[i] == Erase(groups[i])
  {
    seq(|groups|, i requires 0 <= i < |groups| => Erase(groups[i]))
  }

  /** The records the commands would log fit a frame. */
  ghost predicate AllEncodable(c: Codec, syss: seq<Sys>, cmds: seq<Command>) {
    |cmds| == |syss| && forall i :: 0 <= i < |syss| ==> Encodable(c, syss[i], cmds[i])
  }

  /** A partition takes its command: there is nothing to append, or the record has at most 2^30 bytes. */
  predicate Takes(c: Codec, sys: Sys, cmd: Command) { (cmd.Append? && cmd.rows == []) || Brief(c, sys, cmd) }

  ghost predicate AllTake(c: Codec, syss: seq<Sys>, cmds: seq<Command>) {
    |cmds| == |syss| && forall i :: 0 <= i < |syss| ==> Takes(c, syss[i], cmds[i])
  }

  /** The first partition that does not take its command. */
  ghost predicate FirstRefusal(c: Codec, syss: seq<Sys>, cmds: seq<Command>, at: nat) {
    && |cmds| == |syss| && at < |syss| && !Takes(c, syss[at], cmds[at])
    && forall i :: 0 <= i < at ==> Takes(c, syss[i], cmds[i])
  }

  lemma RefusalStops(c: Codec, syss: seq<Sys>, cmds: seq<Command>, at: nat)
    requires FirstRefusal(c, syss, cmds, at)
    ensures !AllTake(c, syss, cmds)
  {
    hide Takes;
  }

  /** The partitions below `m` are done, and the others are as they were. */
  ghost predicate Underway(c: Codec, pk: seq<string>, ts: seq<Table>, ts': seq<Table>, runs: seq<seq<Op>>,
                           syss: seq<Sys>, syss': seq<Sys>, cmds: seq<Command>, m: nat) {
    && |syss| == |syss'| == |ts| && Progress(pk, ts, ts', runs, m) && AllEncodable(c, syss, cmds)
    && (forall i :: m <= i < |ts| ==> syss'[i] == syss[i]) && (forall i :: 0 <= i < m ==> Takes(c, syss[i], cmds[i]))
  }

  lemma UnderwayStart(c: Codec, pk: seq<string>, ts: seq<Table>, runs: seq<seq<Op>>, syss: seq<Sys>, cmds: seq<Command>)
    requires |syss| == |ts| > 0 && |runs| == |cmds| && AllEncodable(c, syss, cmds)
    ensures Underway(c, pk, ts, ts, runs, syss, syss, cmds, 0) && |cmds| == |ts|
  {
    hide Encodable;
  }

  lemma UnderwayAt(c: Codec, pk: seq<string>, ts: seq<Table>, ts': seq<Table>, runs: seq<seq<Op>>,
                   syss: seq<Sys>, syss': seq<Sys>, cmds: seq<Command>, m: nat)
    requires Underway(c, pk, ts, ts', runs, syss, syss', cmds, m) && m < |ts|
    ensures |ts| == |ts'| == |runs| == |cmds| == |syss| == |syss'|
    ensures syss'[m] == syss[m] && ts'[m] == ts[m] && Encodable(c, syss[m], cmds[m])
  {
    hide Encodable;
  }

  lemma UnderwayRefused(c: Codec, pk: seq<string>, ts: seq<Table>, ts': seq<Table>, runs: seq<seq<Op>>,
                        syss: seq<Sys>, syss': seq<Sys>, cmds: seq<Command>, m: nat)
    requires Underway(c, pk, ts, ts', runs, syss, syss', cmds, m) && m < |ts|
    requires |cmds| == |syss| == |ts| && !Takes(c, syss[m], cmds[m])
    ensures FirstRefusal(c, syss, cmds, m)
  {
    hide Encodable, Takes;
  }

  lemma UnderwayNext(c: Codec, pk: seq<string>, ts: seq<Table>, ts': seq<Table>, ts'': seq<Table>, runs: seq<seq<Op>>,
                     syss: seq<Sys>, syss': seq<Sys>, syss'': seq<Sys>, cmds: seq<Command>, m: nat)
    requires Underway(c, pk, ts, ts', runs, syss, syss', cmds, m) && m < |ts|
    requires |ts'| == |ts| == |runs| && ts'' == ts'[m := TableRun(pk, ts'[m], runs[m])]
    requires |syss''| == |syss'| == |syss| == |cmds| == |ts| && syss'' == syss'[m := syss''[m]]
    requires Takes(c, syss[m], cmds[m])
    ensures Underway(c, pk, ts, ts'', runs, syss, syss'', cmds, m + 1)
  {
    hide Encodable, Takes, TableRun;
  }

  lemma UnderwayProgress(c: Codec, pk: seq<string>, ts: seq<Table>, ts': seq<Table>, runs: seq<seq<Op>>,
                         syss: seq<Sys>, syss': seq<Sys>, cmds: seq<Command>, m: nat)
    requires Underway(c, pk, ts, ts', runs, syss, syss', cmds, m)
    ensures Progress(pk, ts, ts', runs, m)
    ensures m == |ts| ==> AllTake(c, syss, cmds)
  {
    hide Takes, TableRun;
  }

  // ---------------------------------------------------------------- counting segments

  /** Flushing would write a segment: the buffer has a live row. */
  predicate Creates(sys: Sys) { FlushRows(sys.st) != [] }

  lemma CreatesSpelt(sys: Sys)
    ensures Creates(sys) <==> FlushRows(sys.st) != []
  {
  }

  /** How many partitions would write a segment. */
  function Creating(syss: seq<Sys>): nat {
    if syss == [] then 0 else Creating(syss[..|syss| - 1]) + (if Creates(syss[|syss| - 1]) then 1 else 0)
  }

  lemma NothingCreated(syss: seq<Sys>)
    ensures Creating(syss[..0]) == 0 && syss[..|syss|] == syss && syss[0..] == syss
  {
  }

  lemma CreatingNext(syss: seq<Sys>, i: nat)
    requires i < |syss|
    ensures Creating(syss[..i + 1]) == Creating(syss[..i]) + if Creates(syss[i]) then 1 else 0
  {
    assert syss[..i + 1][..i] == syss[..i];
  }

  // ---------------------------------------------------------------- opening

  /** What the partitions show once their disks are reopened. */
  ghost function Recovered(c: Codec, pk: seq<string>, disks: seq<Disk>): (ts: seq<Table>)
    requires forall i :: 0 <= i < |disks| ==> Recovery.Open(c, pk, disks[i]).Some?
    ensures |ts| == |disks| && forall i :: 0 <= i < |ts| ==> ts[i] == Observe(Recovery.Open(c, pk, disks[i]).value.st)
  {
    seq(|disks|, i requires 0 <= i < |disks| => Observe(Recovery.Open(c, pk, disks[i]).value.st))
  }

  /** Every disk reopens to a consistent partition, and keys are where they route. */
  ghost predicate Recoverable(c: Codec, pk: seq<string>, h: Hash, disks: seq<Disk>) {
    && disks != []
    && (forall i :: 0 <= i < |disks| ==>
          Recovery.Open(c, pk, disks[i]).Some? && Consistent(c, Recovery.Open(c, pk, disks[i]).value))
    && WellPlaced(h, pk, Recovered(c, pk, disks))
  }

  ghost predicate AllNumbered(disks: seq<Disk>) { forall i :: 0 <= i < |disks| ==> Recovery.Numbered(Loaded(disks[i])) }

  lemma NotRecoverable(c: Codec, pk: seq<string>, h: Hash, disks: seq<Disk>, i: nat)
    requires i < |disks| && Recovery.Open(c, pk, disks[i]) == None
    ensures !Recoverable(c, pk, h, disks)
  {
    hide Consistent, Recovery.Open, WellPlaced;
  }

  lemma RecoverableEach(c: Codec, pk: seq<string>, h: Hash, disks: seq<Disk>)
    requires Recoverable(c, pk, h, disks)
    ensures disks != [] && WellPlaced(h, pk, Recovered(c, pk, disks))
    ensures forall i :: 0 <= i < |disks| ==>
              Recovery.Open(c, pk, disks[i]).Some? && Consistent(c, Recovery.Open(c, pk, disks[i]).value)
  {
    hide Consistent, Recovery.Open, WellPlaced;
  }

  /** No two of them share anything. */
  ghost predicate Unshared(ps: seq<Partition>) {
    forall i, j :: 0 <= i < j < |ps| ==> ps[i] != ps[j] && ps[i].log != ps[j].log && ps[i].memtable != ps[j].memtable
  }

  /** The partition was opened from that disk. */
  ghost predicate OpenedFrom(c: Codec, pk: seq<string>, d: Disk, p: Partition)
    reads p, p.log, p.memtable
  {
    && p.codec == c && p.pk == pk && OpensTo(c, pk, d, p.SysNow())
    && (Consistent(c, p.SysNow()) ==> p.Valid())
  }

  /** The partitions were opened from these disks. */
  ghost predicate AllOpenedFrom(c: Codec, pk: seq<string>, disks: seq<Disk>, ps: seq<Partition>)
    reads ps, set p | p in ps :: p.log, set p | p in ps :: p.memtable
  {
    |ps| == |disks| && forall i :: 0 <= i < |disks| ==> OpenedFrom(c, pk, disks[i], ps[i])
  }

  lemma NoneOpened(c: Codec, pk: seq<string>, disks: seq<Disk>)
    ensures AllOpenedFrom(c, pk, disks[..0], []) && Unshared([])
  {
  }

  lemma OneOpened(c: Codec, pk: seq<string>, disks: seq<Disk>, i: nat, ps: seq<Partition>, p: Partition)
    requires i < |disks| && AllOpenedFrom(c, pk, disks[..i], ps) && Unshared(ps) && OpenedFrom(c, pk, disks[i], p)
    requires forall q :: q in ps ==> q != p && q.log != p.log && q.memtable != p.memtable
    ensures AllOpenedFrom(c, pk, disks[..i + 1], ps + [p]) && Unshared(ps + [p])
  {
    hide OpenedFrom;
    assert forall j :: 0 <= j < |ps| ==> ps[j] in ps;
    assert forall j :: 0 <= j < i ==> disks[..i + 1][j] == disks[..i][j];
  }

  class TableStore {
    const codec: Codec
    const pk: seq<string>
    const hash: Hash
    const partitions: seq<Partition>

    ghost function Repr(): set<object> {
      (set i | 0 <= i < |partitions| :: partitions[i] as object)
      + (set i | 0 <= i < |partitions| :: partitions[i].log as object)
      + (set i | 0 <= i < |partitions| :: partitions[i].memtable as object)
    }

    constructor (c: Codec, pk: seq<string>, hash: Hash, partitions: seq<Partition>)
      ensures codec == c && this.pk == pk && this.hash == hash && this.partitions == partitions
    {
      codec, this.pk, this.hash, this.partitions := c, pk, hash, partitions;
    }

    /** Opens a table from its partitions' disks, new or left behind by a crash; null when one cannot be opened. */
    static method Open(c: Codec, pk: seq<string>, hash: Hash, config: Config, disks: seq<Disk>) returns (t: TableStore?)
      requires disks != [] && AllNumbered(disks)
      ensures t == null ==> exists i :: 0 <= i < |disks| && Recovery.Open(c, pk, disks[i]) == None
      ensures t != null ==> fresh(t) && fresh(t.Repr()) && t.pk == pk && t.hash == hash && t.codec == c
      ensures t != null ==> Unshared(t.partitions) && AllOpenedFrom(c, pk, disks, t.partitions)
      ensures Recoverable(c, pk, hash, disks) ==> t != null && t.Valid() && t.Parts() == Recovered(c, pk, disks)
    {
      hide *;
      var ps: seq<Partition> := [];
      NoneOpened(c, pk, disks);
      for i := 0 to |disks|
        invariant |ps| == i && Unshared(ps) && AllOpenedFrom(c, pk, disks[..i], ps)
        invariant forall p :: p in ps ==> fresh(p) && fresh(p.log) && fresh(p.memtable)
      {
        var p := OpenOne(c, pk, config, disks, i);
        if p == null {
          NotRecoverable(c, pk, hash, disks, i);
          return null;
        }
        OneOpened(c, pk, disks, i, ps, p);
        ps := ps + [p];
      }
      assert disks[..|disks|] == disks;
      t := new TableStore(c, pk, hash, ps);
      t.Owns();
      if Recoverable(c, pk, hash, disks) {
        t.AllOpened(disks);
      }
    }

    lemma Owns()
      ensures forall o :: o in Repr() ==> exists p :: p in partitions && (o == p || o == p.log || o == p.memtable)
    {
      forall o | o in Repr()
        ensures exists p :: p in partitions && (o == p || o == p.log || o == p.memtable)
      {
        var i :| 0 <= i < |partitions| && (o == partitions[i] || o == partitions[i].log || o == partitions[i].memtable);
        assert partitions[i] in partitions;
      }
    }

    static method OpenOne(c: Codec, pk: seq<string>, config: Config, disks: seq<Disk>, i: nat) returns (p: Partition?)
      requires i < |disks| && AllNumbered(disks)
      ensures p == null ==> Recovery.Open(c, pk, disks[i]) == None
      ensures p != null ==> fresh(p) && fresh(p.log) && fresh(p.memtable) && OpenedFrom(c, pk, disks[i], p)
    {
      assert Recovery.Numbered(Loaded(disks[i]));
      hide Recovery.Numbered, Loaded, OpensTo, Consistent, Partition.Valid, Partition.Tied;
      p := Partition.Open(c, pk, config, disks[i]);
    }

    lemma AllOpened(disks: seq<Disk>)
      requires Recoverable(codec, pk, hash, disks) && Unshared(partitions)
               && AllOpenedFrom(codec, pk, disks, partitions)
      ensures Valid() && Parts() == Recovered(codec, pk, disks)
    {
      RecoverableEach(codec, pk, hash, disks);
      assert |partitions| == |disks| && forall i :: 0 <= i < |disks| ==> OpenedFrom(codec, pk, disks[i], partitions[i]);
      hide *;
      forall i | 0 <= i < |disks|
        ensures SoundAt(i) && Observe(partitions[i].st) == Recovered(codec, pk, disks)[i]
      {
        OpenedSound(i, disks[i]);
      }
      Settled(Recovered(codec, pk, disks));
    }

    lemma Settled(ts: seq<Table>)
      requires partitions != [] && |ts| == |partitions| && Unshared(partitions) && WellPlaced(hash, pk, ts)
      requires forall i :: 0 <= i < |partitions| ==> SoundAt(i) && Observe(partitions[i].st) == ts[i]
      ensures Valid() && Parts() == ts
    {
      hide Observe, SoundAt, WellPlaced;
      assert Parts() == ts;
    }

    lemma OpenedSound(i: nat, d: Disk)
      requires i < |partitions| && OpenedFrom(codec, pk, d, partitions[i])
      requires Recovery.Open(codec, pk, d).Some? && Consistent(codec, Recovery.Open(codec, pk, d).value)
      ensures SoundAt(i) && partitions[i].st == Recovery.Open(codec, pk, d).value.st
    {
      partitions[i].SysSpelt();
      hide Consistent, Recovery.Open, Partition.Valid;
    }

    /** No two partitions share anything. */
    ghost predicate Separate() { Unshared(partitions) }

    ghost function TablesTo(m: nat): (ts: seq<Table>)
      requires m <= |partitions|
      reads Repr()
      ensures |ts| == m && forall i :: 0 <= i < m ==> ts[i] == Observe(partitions[i].st)
    {
      if m == 0 then [] else TablesTo(m - 1) + [Observe(partitions[m - 1].st)]
    }

    ghost function SyssTo(m: nat): (ss: seq<Sys>)
      requires m <= |partitions|
      reads Repr()
      ensures |ss| == m && forall i :: 0 <= i < m ==> ss[i] == partitions[i].SysNow()
    {
      if m == 0 then [] else SyssTo(m - 1) + [partitions[m - 1].SysNow()]
    }

    /** Each partition's state and disk. */
    ghost function Syss(): (ss: seq<Sys>)
      reads Repr()
      ensures |ss| == |partitions| && forall i :: 0 <= i < |ss| ==> ss[i] == partitions[i].SysNow()
    {
      SyssTo(|partitions|)
    }

    /** What each partition holds. */
    ghost function Parts(): (ts: seq<Table>)
      reads Repr()
      ensures |ts| == |partitions| && forall i :: 0 <= i < |ts| ==> ts[i] == Observe(partitions[i].st)
    {
      TablesTo(|partitions|)
    }

    /** What the table holds. */
    ghost function Contents(): Table
      reads Repr()
    {
      Together(pk, Parts())
    }

    ghost predicate Valid()
      reads Repr()
    {
      Sound() && WellPlaced(hash, pk, Parts())
    }

    ghost predicate SoundAt(i: nat)
      requires i < |partitions|
      reads partitions[i], partitions[i].log, partitions[i].memtable
    {
      partitions[i].Valid() && partitions[i].pk == pk && partitions[i].codec == codec
    }

    /** Every partition is consistent, and no two share anything. */
    ghost predicate Sound()
      reads Repr()
    {
      partitions != [] && Separate() && forall i :: 0 <= i < |partitions| ==> SoundAt(i)
    }

    lemma DeletionAt(i: nat, keys: seq<RowKey>)
      requires i < |partitions| && Sound() && pk != []
      ensures var s, t := partitions[i].st, Parts()[i];
              && |PresentKeys(s.index, keys)| == Hits(MapOf(t).Keys, keys)
              && TableRun(pk, t, Dels(PresentKeys(s.index, keys))) == TableRun(pk, t, Dels(keys))
    {
      assert SoundAt(i);
      partitions[i].Spelt();
      var s := partitions[i].st;
      var v := View(s.store, s.index);
      assert Observe(s) == Keyed(v) && v.Keys == s.index.Keys;
      hide *;
      PresentHits(s.index, v, pk, keys);
      KeyedRun(pk, v, Dels(keys));
      KeyedRun(pk, v, Dels(PresentKeys(s.index, keys)));
    }

    lemma Numbered()
      requires Sound()
      ensures |partitions| > 0
    {
    }

    lemma Owned(i: nat)
      requires i < |partitions|
      ensures partitions[i] in Repr() && partitions[i].log in Repr() && partitions[i].memtable in Repr()
    {
    }

    lemma Apart(i: nat)
      requires i < |partitions| && Sound()
      ensures partitions[i].Valid() && partitions[i].pk == pk && partitions[i].codec == codec
      ensures Separate() && forall j :: 0 <= j < |partitions| && j != i ==>
                && SoundAt(j) && partitions[j] != partitions[i] && partitions[j].log != partitions[i].log
                && partitions[j].memtable != partitions[i].memtable
    {
      assert SoundAt(i);
      hide Partition.Valid;
    }

    lemma OneChanged(before: seq<Table>, i: nat, t: Table)
      requires i < |partitions| == |before| && Separate()
      requires partitions[i].Valid() && partitions[i].pk == pk && partitions[i].codec == codec
      requires Observe(partitions[i].st) == t
      requires forall j :: 0 <= j < |partitions| && j != i ==> SoundAt(j) && Observe(partitions[j].st) == before[j]
      ensures Sound() && Parts() == before[i := t]
    {
      hide Partition.Valid, Observe;
    }

    /** One partition appends rows; the others are left alone. */
    method AppendTo(i: nat, rows: seq<Row>, upsert: bool) returns (ok: bool, created: bool)
      requires i < |partitions| && Sound() && Encodable(codec, Syss()[i], Append(rows, upsert))
      modifies partitions[i], partitions[i].log, partitions[i].memtable
      ensures Sound() && Syss() == old(Syss())[i := Syss()[i]]
      ensures ok == Brief(codec, old(Syss())[i], Append(rows, upsert))
      ensures Parts() == if ok then old(Parts())[i := TableRun(pk, old(Parts())[i], Puts(rows))] else old(Parts())
    {
      hide *;
      Apart(i);
      ghost var before := Parts();
      ghost var did;
      ok, created, did := partitions[i].AppendRows(rows, upsert);
      OneChanged(before, i, if ok then TableRun(pk, before[i], Puts(rows)) else before[i]);
    }

    /** One partition deletes keys; the others are left alone. */
    method DeleteFrom(i: nat, keys: seq<RowKey>) returns (deleted: Option<nat>)
      requires i < |partitions| && Sound() && pk != [] && Encodable(codec, Syss()[i], Erase(keys))
      modifies partitions[i], partitions[i].log, partitions[i].memtable
      ensures Sound() && Syss() == old(Syss())[i := Syss()[i]]
      ensures deleted.Some? <==> Brief(codec, old(Syss())[i], Erase(keys))
      ensures deleted.Some? ==> deleted.value == Hits(MapOf(old(Parts())[i]).Keys, keys)
      ensures Parts() == if deleted.Some? then old(Parts())[i := TableRun(pk, old(Parts())[i], Dels(keys))]
              else old(Parts())
    {
      hide *;
      DeletionAt(i, keys);
      Apart(i);
      ghost var before := Parts();
      deleted := partitions[i].DeleteKeys(keys);
      OneChanged(before, i, if deleted.Some? then TableRun(pk, before[i], Dels(keys)) else before[i]);
    }

    /** One partition takes its share of a write; no record is logged for an empty share. */
    method TakeShare(i: nat, share: seq<Row>, upsert: bool) returns (ok: bool, created: bool)
      requires i < |partitions| && Sound() && Encodable(codec, Syss()[i], Append(share, upsert))
      modifies partitions[i], partitions[i].log, partitions[i].memtable
      ensures Sound() && Syss() == old(Syss())[i := Syss()[i]]
      ensures ok == Takes(codec, old(Syss())[i], Append(share, upsert))
      ensures Parts() == if ok then old(Parts())[i := TableRun(pk, old(Parts())[i], Puts(share))] else old(Parts())
    {
      ok, created := true, false;
      hide *;
      NoOps(pk, Parts()[i]);
      TakesSpelt(codec, Syss()[i], Append(share, upsert));
      if share != [] {
        ok, created := AppendTo(i, share, upsert);
      }
    }

    /** Every partition takes its share of the rows, unless a log refuses one. */
    method TakeShares(shares: seq<seq<Row>>, upsert: bool) returns (refused: Option<nat>, flushes: nat)
      requires Sound() && AllEncodable(codec, Syss(), Appends(shares, upsert))
      modifies Repr()
      ensures Sound() && (refused.Some? ==> refused.value < |partitions|)
      ensures refused == None ==> AllTake(codec, old(Syss()), Appends(shares, upsert))
      ensures refused.Some? ==> FirstRefusal(codec, old(Syss()), Appends(shares, upsert), refused.value)
      ensures Progress(pk, old(Parts()), Parts(), AllPuts(shares), if refused.Some? then refused.value
                       else |partitions|)
    {
      hide *;
      refused, flushes := None, 0;
      Numbered();
      ghost var before, first := Parts(), Syss();
      ghost var runs, cmds := AllPuts(shares), Appends(shares, upsert);
      UnderwayStart(codec, pk, before, runs, first, cmds);
      for i := 0 to |partitions|
        invariant Sound() && Underway(codec, pk, before, Parts(), runs, first, Syss(), cmds, i)
      {
        ghost var now, syss := Parts(), Syss();
        Owned(i);
        UnderwayAt(codec, pk, before, now, runs, first, syss, cmds, i);
        UnderwayProgress(codec, pk, before, now, runs, first, syss, cmds, i);
        var ok, created := TakeShare(i, shares[i], upsert);
        if !ok {
          UnderwayRefused(codec, pk, before, now, runs, first, syss, cmds, i);
          return Some(i), flushes;
        }
        flushes := flushes + (if created then 1 else 0);
        UnderwayNext(codec, pk, before, now, Parts(), runs, first, syss, Syss(), cmds, i);
      }
      UnderwayProgress(codec, pk, before, Parts(), runs, first, Syss(), cmds, |partitions|);
    }

    lemma Parted()
      requires Valid()
      ensures |partitions| > 0 && Sound() && WellPlaced(hash, pk, Parts())
      ensures Contents() == Together(pk, Parts())
    {
    }

    lemma Joined()
      requires Sound() && WellPlaced(hash, pk, Parts())
      ensures Valid() && Contents() == Together(pk, Parts())
    {
    }

    /** Looks for a key that already has a row, partition by partition. */
    method FindExisting(keys: seq<RowKey>, groups: seq<seq<nat>>) returns (r: Option<RowKey>)
      requires Valid() && pk != [] && AreGroups(hash, |partitions|, keys, groups)
      ensures r == None <==> !Clashes(Contents(), keys)
      ensures r.Some? ==> r.value in keys && r.value in MapOf(Contents())
      ensures Valid() && Parts() == old(Parts()) && Syss() == old(Syss())
    {
      hide *;
      Parted();
      ghost var ts, syss := Parts(), Syss();
      NothingSoFar(hash, ts, keys);
      AllSearched(hash, pk, ts, keys);
      for i := 0 to |partitions|
        invariant Valid() && Syss() == syss
        invariant Sound() && Parts() == ts && Contents() == Together(pk, ts) && Searched(hash, ts, keys, i)
      {
        GroupIs(hash, |partitions|, keys, groups, i);
        var group := groups[i];
        NothingInGroup(MapOf(ts[i]), keys, group);
        for p := 0 to |group|
          invariant Valid() && Syss() == syss
          invariant Sound() && Parts() == ts && Contents() == Together(pk, ts)
                    && GroupSearched(MapOf(ts[i]), keys, group, p)
        {
          var key := keys[group[p]];
          ContainsAt(i, key);
          if partitions[i].Contains(key) {
            FoundIn(hash, pk, ts, keys, i, p);
            return Some(key);
          }
          GroupSearchedNext(MapOf(ts[i]), keys, group, p);
        }
        SearchedNext(hash, ts, keys, i);
      }
      r := None;
    }

    /** The records a write would log fit their frames. */
    ghost predicate WriteFits(rows: seq<Row>, upsert: bool)
      requires |partitions| > 0
      reads Repr()
    {
      AllEncodable(codec, Syss(), Appends(SharesFor(hash, |partitions|, pk, rows), upsert))
    }

    /** Checks the batch and then spreads it over the partitions. Uniqueness is checked everywhere
        before anything is logged. */
    method Admit(rows: seq<Row>, keys: seq<RowKey>, groups: seq<seq<nat>>, repeat: Option<nat>, shares: seq<seq<Row>>,
                 upsert: bool) returns (r: Outcome<Written>)
      requires Valid() && WriteFits(rows, upsert) && (upsert ==> pk != [])
      requires keys == KeysAt(pk, rows) && AreGroups(hash, |partitions|, keys, groups)
      requires AreShares(hash, |partitions|, pk, rows, shares) && (repeat == None <==> !Repeated(keys))
      modifies Repr()
      ensures Valid()
      ensures r.Ok? ==> r.value.rows == |rows| && Contents() == TableRun(pk, old(Contents()), Puts(rows))
      ensures r.Err? && r.error.Repeats? <==> pk != [] && !upsert && Repeated(keys)
      ensures r.Err? && r.error.Exists? <==> pk != [] && !upsert && !Repeated(keys) && Clashes(old(Contents()), keys)
      ensures r.Err? && !r.error.Refused? ==> Parts() == old(Parts())
      ensures r.Err? && r.error.Refused? ==>
                && Progress(pk, old(Parts()), Parts(), AllPuts(shares), r.error.at)
                && FirstRefusal(codec, old(Syss()), Appends(shares, upsert), r.error.at)
      ensures r.Ok? ==> AllTake(codec, old(Syss()), Appends(shares, upsert))
      ensures r.Err? ==> !r.error.NoPrimaryKey? && !r.error.WrongKeyLength?
    {
      assert shares == SharesFor(hash, |partitions|, pk, rows);
      assert AllEncodable(codec, Syss(), Appends(shares, upsert));
      hide *;
      Parted();
      if pk != [] && !upsert {
        if repeat.Some? {
          return Err(Repeats(repeat.value));
        }
        var existing := FindExisting(keys, groups);
        if existing.Some? {
          return Err(Exists(existing.value));
        }
      }
      ghost var before := Parts();
      var refused, flushes := TakeShares(shares, upsert);
      SharesPlaced(hash, pk, before, Parts(), rows, shares, if refused.Some? then refused.value else |partitions|);
      Joined();
      if refused.Some? {
        return Err(Refused(refused.value));
      }
      SharesDone(hash, pk, before, Parts(), rows, shares);
      r := Ok(Written(|rows|, flushes));
    }

    /** Inserts or upserts a batch. It is taken exactly when it is admissible and every partition's log accepts the
        record of its share. An insert is inadmissible exactly when a key repeats in the batch or already has a
        row, and then changes nothing. */
    method Write(rows: seq<Row>, upsert: bool) returns (r: Outcome<Written>)
      requires Valid() && WriteFits(rows, upsert)
      modifies Repr()
      ensures Valid()
      ensures r.Ok? ==> r.value.rows == |rows| && Contents() == TableRun(pk, old(Contents()), Puts(rows))
      ensures r == Err(NoPrimaryKey) <==> rows != [] && upsert && pk == []
      ensures r.Err? && r.error.Repeats? <==> pk != [] && !upsert && Repeated(KeysAt(pk, rows))
      ensures r.Err? && r.error.Exists? <==>
                pk != [] && !upsert && !Repeated(KeysAt(pk, rows)) && Clashes(old(Contents()), KeysAt(pk, rows))
      ensures r.Err? && !r.error.Refused? ==> Contents() == old(Contents())
      ensures r.Err? && r.error.Refused? ==>
                && Progress(pk, old(Parts()), Parts(), AllPuts(SharesFor(hash, |partitions|, pk, rows)), r.error.at)
                && FirstRefusal(codec, old(Syss()), Appends(SharesFor(hash, |partitions|, pk, rows), upsert),
                                r.error.at)
      ensures r.Ok? <==>
                && Admissible(pk, old(Contents()), rows, upsert)
                && AllTake(codec, old(Syss()), Appends(SharesFor(hash, |partitions|, pk, rows), upsert))
    {
      NoOps(pk, Contents());
      assert rows == [] ==> rows == [] && !Repeated(KeysAt(pk, rows)) && !Clashes(Contents(), KeysAt(pk, rows));
      AdmissibleSpelt(pk, Contents(), rows, upsert);
      hide *;
      Parted();
      if rows == [] {
        NothingToTake(codec, hash, pk, Syss(), rows, upsert);
        return Ok(Written(0, 0));
      }
      if upsert && pk == [] {
        return Err(NoPrimaryKey);
      }
      ghost var before := Parts();
      var keys, groups, repeat, shares := Prepare(rows);
      SharesUnique(hash, |partitions|, pk, rows, shares);
      ghost var syss := Syss();
      r := Admit(rows, keys, groups, repeat, shares, upsert);
      if r.Err? && r.error.Refused? {
        RefusalStops(codec, syss, Appends(shares, upsert), r.error.at);
      }
      Parted();
    }

    /** Works out the batch's keys, and where each row goes. */
    method Prepare(rows: seq<Row>)
      returns (keys: seq<RowKey>, groups: seq<seq<nat>>, repeat: Option<nat>, shares: seq<seq<Row>>)
      requires Valid() && |partitions| > 0
      ensures keys == KeysAt(pk, rows) && AreGroups(hash, |partitions|, keys, groups)
      ensures AreShares(hash, |partitions|, pk, rows, shares) && (repeat == None <==> !Repeated(keys))
      ensures unchanged(Repr()) && Valid() && Parts() == old(Parts()) && Syss() == old(Syss())
    {
      keys, groups, repeat, shares := Prepared(hash, |partitions|, pk, rows);
      assert forall i :: 0 <= i < |partitions| ==> partitions[i].SysNow() == old(partitions[i].SysNow());
    }

    ghost predicate DeleteFits(keys: seq<RowKey>)
      requires |partitions| > 0
      reads Repr()
    {
      AllEncodable(codec, Syss(), Erases(KeyGroups(hash, |partitions|, keys)))
    }

    /** Deletes rows by key: removes exactly the given keys and counts those that had a row, a
        repeated one each time. */
    method Delete(keys: seq<RowKey>) returns (r: Outcome<nat>)
      requires Valid() && DeleteFits(keys)
      modifies Repr()
      ensures Valid()
      ensures r == Err(NoPrimaryKey) <==> pk == []
      ensures r == Err(WrongKeyLength) <==> pk != [] && exists i :: 0 <= i < |keys| && |keys[i]| != |pk|
      ensures r.Ok? ==> Contents() == TableRun(pk, old(Contents()), Dels(keys))
      ensures r.Ok? ==> r.value == Hits(MapOf(old(Contents())).Keys, keys)
      ensures r.Err? && !r.error.Refused? ==> Contents() == old(Contents())
      ensures r.Err? && r.error.Refused? ==>
                && Progress(pk, old(Parts()), Parts(), AllDels(KeyGroups(hash, |partitions|, keys)), r.error.at)
                && FirstRefusal(codec, old(Syss()), Erases(KeyGroups(hash, |partitions|, keys)), r.error.at)
      ensures r.Ok? <==>
                && pk != [] && (forall i :: 0 <= i < |keys| ==> |keys[i]| == |pk|)
                && AllTake(codec, old(Syss()), Erases(KeyGroups(hash, |partitions|, keys)))
    {
      hide *;
      Parted();
      if pk == [] {
        return Err(NoPrimaryKey);
      }
      if i :| 0 <= i < |keys| && |keys[i]| != |pk| {
        return Err(WrongKeyLength);
      }
      r := Remove(keys);
    }

    method Remove(keys: seq<RowKey>) returns (r: Outcome<nat>)
      requires Valid() && DeleteFits(keys) && pk != []
      modifies Repr()
      ensures Valid()
      ensures r.Ok? ==> Contents() == TableRun(pk, old(Contents()), Dels(keys))
      ensures r.Ok? ==> r.value == Hits(MapOf(old(Contents())).Keys, keys)
      ensures r.Err? ==>
                && r.error.Refused?
                && Progress(pk, old(Parts()), Parts(), AllDels(KeyGroups(hash, |partitions|, keys)), r.error.at)
                && FirstRefusal(codec, old(Syss()), Erases(KeyGroups(hash, |partitions|, keys)), r.error.at)
      ensures r.Ok? <==> AllTake(codec, old(Syss()), Erases(KeyGroups(hash, |partitions|, keys)))
    {
      hide *;
      Parted();
      DeleteFitsSpelt(keys);
      ghost var before := Parts();
      var groups := Grouping(keys);
      ghost var runs, syss := AllDels(groups), Syss();
      RemovalGrouped(hash, pk, keys, groups);
      var refused, deleted := TakeDeletions(keys, groups);
      ProgressRouted(hash, pk, before, Parts(), runs, Dels(keys), if refused.Some? then refused.value
                     else |partitions|);
      Joined();
      if refused.Some? {
        RefusalStops(codec, syss, Erases(groups), refused.value);
        return Err(Refused(refused.value));
      }
      GroupsDone(hash, pk, before, Parts(), runs, Dels(keys));
      AllHits(hash, pk, before, keys);
      r := Ok(deleted);
    }

    lemma DeleteFitsSpelt(keys: seq<RowKey>)
      requires |partitions| > 0 && DeleteFits(keys)
      ensures AllEncodable(codec, Syss(), Erases(KeyGroups(hash, |partitions|, keys)))
    {
    }

    /** Every partition deletes its group of keys, unless a log refuses. */
    method TakeDeletions(ghost keys: seq<RowKey>, groups: seq<seq<RowKey>>) returns (refused: Option<nat>, deleted: nat)
      requires Sound() && |partitions| > 0 && pk != [] && groups == KeyGroups(hash, |partitions|, keys)
      requires AllEncodable(codec, Syss(), Erases(groups))
      modifies Repr()
      ensures Sound() && (refused.Some? ==> refused.value < |partitions|)
      ensures refused == None ==> AllTake(codec, old(Syss()), Erases(groups))
      ensures refused.Some? ==> FirstRefusal(codec, old(Syss()), Erases(groups), refused.value)
      ensures Progress(pk, old(Parts()), Parts(), AllDels(groups), if refused.Some? then refused.value
                       else |partitions|)
      ensures refused == None ==> deleted == HitsBelow(hash, old(Parts()), keys, |partitions|)
    {
      hide *;
      refused, deleted := None, 0;
      ghost var before, first := Parts(), Syss();
      ghost var runs, cmds := AllDels(groups), Erases(groups);
      UnderwayStart(codec, pk, before, runs, first, cmds);
      NoHitsBelow(hash, before, keys);
      for i := 0 to |partitions|
        invariant Sound() && Underway(codec, pk, before, Parts(), runs, first, Syss(), cmds, i)
        invariant deleted == HitsBelow(hash, before, keys, i)
      {
        ghost var now, syss := Parts(), Syss();
        Owned(i);
        UnderwayAt(codec, pk, before, now, runs, first, syss, cmds, i);
        UnderwayProgress(codec, pk, before, now, runs, first, syss, cmds, i);
        var more := TakeDeletion(i, groups[i]);
        if more == None {
          UnderwayRefused(codec, pk, before, now, runs, first, syss, cmds, i);
          return Some(i), deleted;
        }
        HitsOfGroup(hash, before, keys, i);
        deleted := deleted + more.value;
        UnderwayNext(codec, pk, before, now, Parts(), runs, first, syss, Syss(), cmds, i);
      }
      UnderwayProgress(codec, pk, before, Parts(), runs, first, Syss(), cmds, |partitions|);
    }

    method TakeDeletion(i: nat, group: seq<RowKey>) returns (deleted: Option<nat>)
      requires i < |partitions| && Sound() && pk != [] && Encodable(codec, Syss()[i], Erase(group))
      modifies partitions[i], partitions[i].log, partitions[i].memtable
      ensures Sound() && Syss() == old(Syss())[i := Syss()[i]]
      ensures deleted.Some? <==> Takes(codec, old(Syss())[i], Erase(group))
      ensures deleted.Some? ==> deleted.value == Hits(MapOf(old(Parts())[i]).Keys, group)
      ensures Parts() == if deleted.Some? then old(Parts())[i := TableRun(pk, old(Parts())[i], Dels(group))]
              else old(Parts())
    {
      assert group == [] ==> Hits(MapOf(Parts()[i]).Keys, group) == 0;
      hide *;
      NoOps(pk, Parts()[i]);
      TakesSpelt(codec, Syss()[i], Erase(group));
      deleted := Some(0);
      if group != [] {
        deleted := DeleteFrom(i, group);
      }
    }

    method Grouping(keys: seq<RowKey>) returns (groups: seq<seq<RowKey>>)
      requires Valid() && |partitions| > 0
      ensures groups == KeyGroups(hash, |partitions|, keys)
      ensures Valid() && Parts() == old(Parts()) && Syss() == old(Syss()) && Contents() == old(Contents())
    {
      groups := GroupKeys(hash, |partitions|, keys);
      assert forall i :: 0 <= i < |partitions| ==> partitions[i].SysNow() == old(partitions[i].SysNow());
    }

    /** Flushes every partition's memtable, which changes nothing in the table; counts the segments created. */
    method Flush() returns (created: nat)
      requires Valid()
      modifies Repr()
      ensures Valid() && Contents() == old(Contents()) && created == Creating(old(Syss()))
    {
      hide *;
      Parted();
      ghost var before, syss := Parts(), Syss();
      created := 0;
      NothingCreated(syss);
      for i := 0 to |partitions|
        invariant Sound() && Parts() == before && Syss()[i..] == syss[i..] && created == Creating(syss[..i])
      {
        Owned(i);
        assert Syss()[i] == Syss()[i..][0] == syss[i];
        CreatingNext(syss, i);
        var one := FlushAt(i);
        created := created + (if one then 1 else 0);
      }
      Joined();
    }

    method FlushAt(i: nat) returns (created: bool)
      requires i < |partitions| && Sound()
      modifies partitions[i], partitions[i].log, partitions[i].memtable
      ensures Sound() && Parts() == old(Parts()) && Syss() == old(Syss())[i := Syss()[i]]
      ensures created == Creates(old(Syss())[i])
    {
      hide *;
      Apart(i);
      partitions[i].SysSpelt();
      CreatesSpelt(Syss()[i]);
      ghost var before := Parts();
      ghost var did;
      created, did := partitions[i].FlushLocked();
      OneChanged(before, i, before[i]);
    }

    /** Read views of every partition: together they show the table's rows, each of them once. */
    method Snapshots(fs: Filters, schema: seq<ColumnSchema>) returns (views: seq<Snapshot>)
      requires Valid()
      ensures Lists(old(Contents()), pk, Execution.AllVisible(views))
      ensures forall i :: 0 <= i < |views| ==> Accurate(views[i]) && Described(fs, schema, views[i])
    {
      hide *;
      Parted();
      views := [];
      ghost var ts := Parts();
      ghost var parts: seq<seq<Row>> := [];
      for i := 0 to |partitions|
        invariant Sound() && Parts() == ts && |views| == i
        invariant forall j :: 0 <= j < i ==>
                    Accurate(views[j]) && Described(fs, schema, views[j]) && Lists(ts[j], pk, VisibleRows(views[j]))
      {
        var view := SnapshotAt(i, fs, schema);
        views := views + [view];
      }
      Execution.AllVisibleFlat(views);
      PlacedList(hash, pk, ts, Execution.VisibleParts(views));
    }

    method SnapshotAt(i: nat, fs: Filters, schema: seq<ColumnSchema>) returns (view: Snapshot)
      requires i < |partitions| && Sound()
      ensures Sound() && Parts() == old(Parts()) && Lists(Parts()[i], pk, VisibleRows(view))
      ensures Accurate(view) && Described(fs, schema, view)
    {
      hide *;
      Apart(i);
      partitions[i].Spelt();
      ghost var before := Parts();
      ObservedLists(partitions[i].st);
      view := partitions[i].TakeSnapshot(fs, schema);
      OneChanged(before, i, before[i]);
    }

    /** Point lookup: the rows of the keys that exist, in request order. */
    method Get(keys: seq<RowKey>) returns (r: Outcome<seq<Row>>)
      requires Valid()
      ensures r == Err(NoPrimaryKey) <==> pk == []
      ensures r == Err(WrongKeyLength) <==> pk != [] && exists i :: 0 <= i < |keys| && |keys[i]| != |pk|
      ensures r.Err? ==> r.error.NoPrimaryKey? || r.error.WrongKeyLength?
      ensures r.Ok? ==> r.value == Found(MapOf(old(Contents())), keys)
    {
      hide *;
      Parted();
      if pk == [] {
        return Err(NoPrimaryKey);
      }
      if i :| 0 <= i < |keys| && |keys[i]| != |pk| {
        return Err(WrongKeyLength);
      }
      ghost var row := RowReader(Syss());
      var located := LocateAll(keys, row);
      var order, combined := ReadAll(located, row);
      SortRestores(Request, order, located);
      var rows := Restore(order, combined, row);
      r := Ok(rows);
    }

    /** Looks every requested key up in the index of its partition. */
    method LocateAll(keys: seq<RowKey>, ghost row: Hit -> Row) returns (located: seq<Hit>)
      requires Valid() && pk != [] && Reads(row, Syss())
      ensures Sound() && Syss() == old(Syss())
      ensures StrictlyAscends(Request, located) && AllLive(Syss(), located)
      ensures Mapped(row, located) == Found(MapOf(old(Contents())), keys)
    {
      hide *;
      Parted();
      located := [];
      ghost var syss, v := Syss(), MapOf(Contents());
      LocatedNone(v, keys, row, syss);
      for request := 0 to |keys|
        invariant Valid() && Sound() && Syss() == syss && MapOf(Contents()) == v
        invariant Located(v, keys, request, row, syss, located)
      {
        var idx := Route(hash, keys[request], |partitions|);
        IndexAt(idx, keys[request]);
        if keys[request] in partitions[idx].keyIndex {
          var hit := Hit(request, idx, partitions[idx].keyIndex[keys[request]]);
          LocatedHit(v, keys, row, syss, located, hit);
          located := located + [hit];
        } else {
          LocatedMiss(v, keys, request, row, syss, located);
        }
      }
      LocatedAll(v, keys, row, syss, located);
    }

    /** A key's index entry points at its row. */
    lemma IndexAt(i: nat, key: RowKey)
      requires Valid() && pk != [] && |partitions| > 0 && i == Route(hash, key, |partitions|)
      ensures var v := MapOf(Contents());
              && (key in partitions[i].keyIndex <==> key in v)
              && (key in v ==>
                    var loc := partitions[i].keyIndex[key];
                    i < |Syss()| && Live(Syss()[i].st.store, loc) && RowAt(Syss()[i].st.store, loc) == v[key])
    {
      assert SoundAt(i);
      UnionLookup(hash, |partitions|, Parts(), key);
      hide Route;
      partitions[i].IndexedRow(key);
      hide Partition.Valid, Observe;
    }

    /** Opens every source that holds a located row once, in any order, and takes its rows. */
    method ReadAll(located: seq<Hit>, ghost row: Hit -> Row) returns (order: seq<Hit>, combined: seq<Row>)
      requires Sound() && Reads(row, Syss()) && AllLive(Syss(), located)
      ensures multiset(order) == multiset(located) && combined == Mapped(row, order)
    {
      hide *;
      ghost var syss := Syss();
      var groups := Regroup(located);
      var rest := groups.Keys;
      order, combined := [], [];
      NothingArranged(located);
      while rest != {}
        invariant Sound() && Syss() == syss && rest <= groups.Keys
        invariant Arranges(order, located, rest) && combined == Mapped(row, order)
        decreases |rest|
      {
        var at :| at in rest;
        var wanted := SortBy(Ordinal, groups[at]);
        SortAscends(Ordinal, groups[at]);
        WantedLive(syss, located, at, wanted);
        WantedSpelt(syss, at, wanted);
        var rows := ReadAt(at.part, at.source);
        var batch := Taken(rows, wanted);
        BatchReads(syss, row, at, wanted, batch);
        ArrangesNext(order, located, rest, at, wanted);
        ApplyConcat(row, order, wanted);
        order, combined, rest := order + wanted, combined + batch, rest - {at};
      }
      AllArranged(order, located);
    }

    method Regroup(located: seq<Hit>) returns (groups: map<Place, seq<Hit>>)
      requires Sound()
      ensures Sound() && Syss() == old(Syss())
      ensures groups.Keys == PlacesOf(located) && forall at :: at in groups ==> groups[at] == HitsIn(located, at)
    {
      groups := GroupHits(located);
      assert forall i :: 0 <= i < |partitions| ==> partitions[i].SysNow() == old(partitions[i].SysNow());
    }

    method ReadAt(i: nat, src: Source) returns (rows: seq<Row>)
      requires Sound() && i < |Syss()| && src in Syss()[i].st.store
      ensures Sound() && Syss() == old(Syss()) && rows == Syss()[i].st.store[src].rows
    {
      assert SoundAt(i);
      partitions[i].Spelt();
      rows := partitions[i].ReadSource(src);
      assert forall j :: 0 <= j < |partitions| ==> partitions[j].SysNow() == old(partitions[j].SysNow());
    }

    lemma ContainsAt(i: nat, key: RowKey)
      requires i < |partitions| && Sound() && pk != []
      ensures partitions[i].Contains(key) <==> key in MapOf(Parts()[i])
    {
      hide Partition.Valid, Observe, Partition.Contains;
      assert SoundAt(i);
      partitions[i].ContainsObserved(key);
    }
  }

  /** No key that goes to a partition below `m` is there. */
  ghost predicate Searched(h: Hash, ts: seq<Table>, keys: seq<RowKey>, m: nat) {
    && |ts| > 0
    && forall row :: 0 <= row < |keys| && Route(h, keys[row], |ts|) < m ==>
         keys[row] !in MapOf(ts[Route(h, keys[row], |ts|)])
  }

  lemma NothingSoFar(h: Hash, ts: seq<Table>, keys: seq<RowKey>)
    requires |ts| > 0
    ensures Searched(h, ts, keys, 0)
  {
  }

  lemma SearchedNext(h: Hash, ts: seq<Table>, keys: seq<RowKey>, m: nat)
    requires Searched(h, ts, keys, m) && m < |ts|
    requires var group := KeyGroup(h, |ts|, keys, m); GroupSearched(MapOf(ts[m]), keys, group, |group|)
    ensures Searched(h, ts, keys, m + 1)
  {
    GroupMembers(h, |ts|, keys, m);
    var group := KeyGroup(h, |ts|, keys, m);
    forall row | 0 <= row < |keys| && Route(h, keys[row], |ts|) == m
      ensures keys[row] !in MapOf(ts[m])
    {
      assert row in group;
      var p :| 0 <= p < |group| && group[p] == row;
    }
  }

  lemma AllSearched(h: Hash, pk: seq<string>, ts: seq<Table>, keys: seq<RowKey>)
    requires pk != [] && WellPlaced(h, pk, ts)
    ensures Searched(h, ts, keys, |ts|) <==> !Clashes(Together(pk, ts), keys)
  {
    forall row | 0 <= row < |keys|
      ensures keys[row] in MapOf(Together(pk, ts)) <==> keys[row] in MapOf(ts[Route(h, keys[row], |ts|)])
    {
      UnionLookup(h, |ts|, ts, keys[row]);
    }
  }

  lemma FoundIn(h: Hash, pk: seq<string>, ts: seq<Table>, keys: seq<RowKey>, i: nat, p: nat)
    requires pk != [] && WellPlaced(h, pk, ts) && i < |ts|
    requires var group := KeyGroup(h, |ts|, keys, i); p < |group| && keys[group[p]] in MapOf(ts[i])
    ensures var k := keys[KeyGroup(h, |ts|, keys, i)[p]];
            k in keys && k in MapOf(Together(pk, ts)) && Clashes(Together(pk, ts), keys)
  {
    var group := KeyGroup(h, |ts|, keys, i);
    UnionLookup(h, |ts|, ts, keys[group[p]]);
    assert keys[group[p]] in MapOf(Together(pk, ts));
  }

  /** A partition's group has exactly the positions whose key goes there. */
  lemma {:induction false} GroupMembers(h: Hash, n: nat, keys: seq<RowKey>, i: nat)
    requires n > 0
    ensures forall row :: row in KeyGroup(h, n, keys, i) <==> 0 <= row < |keys| && Route(h, keys[row], n) == i
  {
    if keys != [] {
      GroupMembers(h, n, keys[..|keys| - 1], i);
    }
  }

  method Prepared(h: Hash, n: nat, pk: seq<string>, rows: seq<Row>)
    returns (keys: seq<RowKey>, groups: seq<seq<nat>>, repeat: Option<nat>, shares: seq<seq<Row>>)
    requires n > 0
    ensures keys == KeysAt(pk, rows) && AreGroups(h, n, keys, groups)
    ensures AreShares(h, n, pk, rows, shares) && (repeat == None <==> !Repeated(keys))
  {
    hide KeyGroup, Repeated, AreShares;
    keys := MakeKeys(pk, rows);
    repeat := FirstRepeat(keys);
    groups := SplitKeys(h, n, keys);
    shares := MakeShares(h, n, pk, rows, keys, groups);
  }

  lemma SharesUnique(h: Hash, n: nat, pk: seq<string>, rows: seq<Row>, shares: seq<seq<Row>>)
    requires AreShares(h, n, pk, rows, shares)
    ensures shares == SharesFor(h, n, pk, rows)
  {
  }

  /** The keys of a request that go to each partition. */
  function KeyGroups(h: Hash, n: nat, keys: seq<RowKey>): (groups: seq<seq<RowKey>>)
    requires n > 0
    ensures |groups| == n && forall i :: 0 <= i < n ==> groups[i] == Pick(keys, KeyGroup(h, n, keys, i))
  {
    seq(n, i requires 0 <= i < n => Pick(keys, KeyGroup(h, n, keys, i)))
  }

  method GroupKeys(h: Hash, n: nat, keys: seq<RowKey>) returns (groups: seq<seq<RowKey>>)
    requires n > 0
    ensures groups == KeyGroups(h, n, keys)
  {
    var positions := SplitKeys(h, n, keys);
    groups := seq(n, i requires 0 <= i < n => Pick(keys, positions[i]));
  }

  lemma RemovalGrouped(h: Hash, pk: seq<string>, keys: seq<RowKey>, groups: seq<seq<RowKey>>)
    requires |groups| > 0 && groups == KeyGroups(h, |groups|, keys)
    ensures Grouped(h, pk, AllDels(groups), Dels(keys))
  {
    forall i | 0 <= i < |groups|
      ensures Dels(groups[i]) == OpGroup(h, |groups|, pk, Dels(keys), i)
    {
      DelGroup(h, |groups|, pk, keys, i);
    }
  }

  lemma AllHits(h: Hash, pk: seq<string>, ts: seq<Table>, keys: seq<RowKey>)
    requires pk != [] && WellPlaced(h, pk, ts)
    ensures |ts| > 0 && HitsBelow(h, ts, keys, |ts|) == Hits(MapOf(Together(pk, ts)).Keys, keys)
  {
    AllHitsBelow(h, ts, keys);
  }

  lemma PlacedList(h: Hash, pk: seq<string>, ts: seq<Table>, parts: seq<seq<Row>>)
    requires WellPlaced(h, pk, ts) && |parts| == |ts| && forall i :: 0 <= i < |ts| ==> Lists(ts[i], pk, parts[i])
    ensures Lists(Together(pk, ts), pk, Memtables.Flatten(parts))
  {
    hide Lists, Together;
    PartsList(h, pk, ts, parts);
  }

  // ---------------------------------------------------------------- located rows

  /** The row a hit points at. */
  ghost function RowIn(syss: seq<Sys>, h: Hit): Row {
    if h.part < |syss| then RowAt(syss[h.part].st.store, h.loc) else map[]
  }

  ghost predicate Reads(row: Hit -> Row, syss: seq<Sys>) { forall h :: row(h) == RowIn(syss, h) }

  ghost function RowReader(syss: seq<Sys>): (row: Hit -> Row)
    ensures Reads(row, syss)
  {
    h => RowIn(syss, h)
  }

  ghost predicate AllLive(syss: seq<Sys>, hits: seq<Hit>) {
    forall i :: 0 <= i < |hits| ==> hits[i].part < |syss| && Live(syss[hits[i].part].st.store, hits[i].loc)
  }

  /** The first `n` requested keys have been looked up. */
  ghost predicate Located(v: map<RowKey, Row>, keys: seq<RowKey>, n: nat, row: Hit -> Row, syss: seq<Sys>,
                          located: seq<Hit>) {
    && n <= |keys| && StrictlyAscends(Request, located) && AllLive(syss, located)
    && (forall i :: 0 <= i < |located| ==> located[i].request < n)
    && Mapped(row, located) == Found(v, keys[..n])
  }

  lemma LocatedNone(v: map<RowKey, Row>, keys: seq<RowKey>, row: Hit -> Row, syss: seq<Sys>)
    ensures Located(v, keys, 0, row, syss, [])
  {
  }

  lemma LocatedMiss(v: map<RowKey, Row>, keys: seq<RowKey>, n: nat, row: Hit -> Row, syss: seq<Sys>, located: seq<Hit>)
    requires Located(v, keys, n, row, syss, located) && n < |keys| && keys[n] !in v
    ensures Located(v, keys, n + 1, row, syss, located)
  {
    assert keys[..n + 1][..n] == keys[..n];
  }

  lemma LocatedHit(v: map<RowKey, Row>, keys: seq<RowKey>, row: Hit -> Row, syss: seq<Sys>, located: seq<Hit>, hit: Hit)
    requires Located(v, keys, hit.request, row, syss, located) && Reads(row, syss) && hit.request < |keys|
    requires hit.part < |syss| && Live(syss[hit.part].st.store, hit.loc)
    requires keys[hit.request] in v && RowAt(syss[hit.part].st.store, hit.loc) == v[keys[hit.request]]
    ensures Located(v, keys, hit.request + 1, row, syss, located + [hit])
  {
    assert keys[..hit.request + 1][..hit.request] == keys[..hit.request];
    assert row(hit) == RowIn(syss, hit);
    assert Mapped(row, located + [hit]) == Mapped(row, located) + [row(hit)];
  }

  lemma LocatedAll(v: map<RowKey, Row>, keys: seq<RowKey>, row: Hit -> Row, syss: seq<Sys>, located: seq<Hit>)
    requires Located(v, keys, |keys|, row, syss, located)
    ensures StrictlyAscends(Request, located) && AllLive(syss, located) && Mapped(row, located) == Found(v, keys)
  {
    assert keys[..|keys|] == keys;
  }

  lemma {:induction false} HitsInMembers(hits: seq<Hit>, at: Place)
    ensures forall i :: 0 <= i < |HitsIn(hits, at)| ==>
              HitsIn(hits, at)[i] in hits && PlaceOf(HitsIn(hits, at)[i]) == at
    ensures at in PlacesOf(hits) ==> HitsIn(hits, at) != []
  {
    if hits != [] {
      HitsInMembers(hits[..|hits| - 1], at);
      assert hits == hits[..|hits| - 1] + [hits[|hits| - 1]];
      if at in PlacesOf(hits) && PlaceOf(hits[|hits| - 1]) != at {
        var i :| 0 <= i < |hits| && PlaceOf(hits[i]) == at;
        assert hits[..|hits| - 1][i] == hits[i];
      }
    }
  }

  /** The hits wanted from one place are there, and are live. */
  ghost predicate WantedAt(syss: seq<Sys>, at: Place, wanted: seq<Hit>) {
    && at.part < |syss| && at.source in syss[at.part].st.store
    && forall i :: 0 <= i < |wanted| ==>
         PlaceOf(wanted[i]) == at && wanted[i].loc.ordinal < |syss[at.part].st.store[at.source].rows|
  }

  lemma WantedLive(syss: seq<Sys>, hits: seq<Hit>, at: Place, wanted: seq<Hit>)
    requires AllLive(syss, hits) && at in PlacesOf(hits) && multiset(wanted) == multiset(HitsIn(hits, at))
    ensures WantedAt(syss, at, wanted)
  {
    HitsInMembers(hits, at);
    var first := HitsIn(hits, at)[0];
    assert first in hits;
    forall i | 0 <= i < |wanted|
      ensures wanted[i] in hits && PlaceOf(wanted[i]) == at
    {
      assert wanted[i] in multiset(HitsIn(hits, at));
    }
  }

  lemma WantedSpelt(syss: seq<Sys>, at: Place, wanted: seq<Hit>)
    requires WantedAt(syss, at, wanted)
    ensures at.part < |syss| && at.source in syss[at.part].st.store
    ensures forall i :: 0 <= i < |wanted| ==> wanted[i].loc.ordinal < |syss[at.part].st.store[at.source].rows|
  {
  }

  function Taken(rows: seq<Row>, wanted: seq<Hit>): (batch: seq<Row>)
    requires forall i :: 0 <= i < |wanted| ==> wanted[i].loc.ordinal < |rows|
    ensures |batch| == |wanted| && forall i :: 0 <= i < |wanted| ==> batch[i] == rows[wanted[i].loc.ordinal]
  {
    seq(|wanted|, i requires 0 <= i < |wanted| => rows[wanted[i].loc.ordinal])
  }

  lemma BatchReads(syss: seq<Sys>, row: Hit -> Row, at: Place, wanted: seq<Hit>, batch: seq<Row>)
    requires Reads(row, syss) && WantedAt(syss, at, wanted) && |batch| == |wanted|
    requires var rows := syss[at.part].st.store[at.source].rows;
             forall i :: 0 <= i < |wanted| ==> batch[i] == rows[wanted[i].loc.ordinal]
    ensures batch == Mapped(row, wanted)
  {
    forall i | 0 <= i < |wanted|
      ensures batch[i] == row(wanted[i])
    {
      assert row(wanted[i]) == RowIn(syss, wanted[i]) && PlaceOf(wanted[i]) == at;
    }
  }

  lemma ApplyConcat<T, U>(f: T -> U, a: seq<T>, b: seq<T>)
    ensures Mapped(f, a + b) == Mapped(f, a) + Mapped(f, b)
  {
  }

  // ---------------------------------------------------------------- searching for existing keys

  /** None of the first `p` keys of a group is in the partition. */
  ghost predicate GroupSearched(held: map<RowKey, Row>, keys: seq<RowKey>, group: seq<nat>, p: nat) {
    && p <= |group| && (forall q :: 0 <= q < |group| ==> group[q] < |keys|)
    && forall q :: 0 <= q < p ==> keys[group[q]] !in held
  }

  lemma NothingInGroup(held: map<RowKey, Row>, keys: seq<RowKey>, group: seq<nat>)
    requires forall q :: 0 <= q < |group| ==> group[q] < |keys|
    ensures GroupSearched(held, keys, group, 0)
  {
  }

  lemma GroupSearchedNext(held: map<RowKey, Row>, keys: seq<RowKey>, group: seq<nat>, p: nat)
    requires GroupSearched(held, keys, group, p) && p < |group| && keys[group[p]] !in held
    ensures GroupSearched(held, keys, group, p + 1)
  {
  }

  lemma GroupIs(h: Hash, n: nat, keys: seq<RowKey>, groups: seq<seq<nat>>, i: nat)
    requires AreGroups(h, n, keys, groups) && i < n
    ensures i < |groups| && groups[i] == KeyGroup(h, n, keys, i)
  {
  }

  ghost predicate AreGroups(h: Hash, n: nat, keys: seq<RowKey>, groups: seq<seq<nat>>) {
    && |groups| == n > 0
    && forall i :: 0 <= i < n ==> groups[i] == KeyGroup(h, n, keys, i)
  }

  /** Computes every partition's share. */
  method MakeShares(h: Hash, n: nat, pk: seq<string>, rows: seq<Row>, keys: seq<RowKey>, groups: seq<seq<nat>>)
    returns (shares: seq<seq<Row>>)
    requires keys == KeysAt(pk, rows) && AreGroups(h, n, keys, groups)
    ensures AreShares(h, n, pk, rows, shares)
  {
    shares := [];
    if pk == [] {
      var per := PerPartition(|rows|, n);
      for idx := 0 to n
        invariant |shares| == idx && forall i :: 0 <= i < idx ==> shares[i] == Slice(rows, per, i)
      {
        var offset := idx * per;
        StartsAscend(|rows|, per, idx);
        var share := if offset >= |rows| then [] else rows[offset..offset + Min(per, |rows| - offset)];
        shares := shares + [share];
      }
    } else {
      for idx := 0 to n
        invariant |shares| == idx && forall i :: 0 <= i < idx ==> shares[i] == Pick(rows, KeyGroup(h, n, keys, i))
      {
        shares := shares + [Pick(rows, groups[idx])];
      }
    }
  }

  method MakeKeys(pk: seq<string>, rows: seq<Row>) returns (keys: seq<RowKey>)
    ensures keys == KeysAt(pk, rows)
  {
    keys := [];
    for row := 0 to |rows|
      invariant |keys| == row && forall i :: 0 <= i < row ==> keys[i] == KeyAt(pk, rows[i])
    {
      keys := keys + [KeyAt(pk, rows[row])];
    }
  }

  /** The first row whose key an earlier row has. */
  method FirstRepeat(keys: seq<RowKey>) returns (r: Option<nat>)
    ensures r == None <==> !Repeated(keys)
    ensures r.Some? ==> r.value < |keys| && keys[r.value] in keys[..r.value] && !Repeated(keys[..r.value])
  {
    var seen: set<RowKey> := {};
    for row := 0 to |keys|
      invariant seen == KeySet(keys[..row]) && !Repeated(keys[..row])
    {
      RepeatedNext(keys, row);
      if keys[row] in seen {
        return Some(row);
      }
      KeySetLast(keys[..row + 1]);
      assert keys[..row + 1][..row] == keys[..row];
      seen := seen + {keys[row]};
    }
    assert keys[..|keys|] == keys;
    r := None;
  }

  lemma RepeatedNext(keys: seq<RowKey>, n: nat)
    requires n < |keys|
    ensures Repeated(keys[..n + 1]) <==> Repeated(keys[..n]) || keys[n] in keys[..n]
    ensures Repeated(keys[..n + 1]) ==> Repeated(keys)
  {
    if keys[n] in keys[..n] {
      var i :| 0 <= i < n && keys[..n][i] == keys[n];
      assert keys[..n + 1][i] == keys[..n + 1][n];
    }
    if Repeated(keys[..n]) {
      var i, j :| 0 <= i < j < n && keys[..n][i] == keys[..n][j];
      assert keys[..n + 1][i] == keys[..n + 1][j];
    }
    if Repeated(keys[..n + 1]) {
      var i, j :| 0 <= i < j < n + 1 && keys[..n + 1][i] == keys[..n + 1][j];
      assert keys[i] == keys[j];
      assert j < n ==> keys[..n][i] == keys[..n][j];
    }
  }

  lemma NoOps(pk: seq<string>, t: Table)
    ensures TableRun(pk, t, []) == t && Puts([]) == [] && Dels([]) == []
  {
  }
}
