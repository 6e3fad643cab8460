/** Whole runs of a partition, with crashes, against the table it implements
    (crates/adb-storage/src/table.rs). */
module Runs {
  import opened Values
  import opened PartitionState
  import opened Rewriting
  import opened Visibility
  import opened Wal
  import opened LogStore
  import opened Replays
  import opened Recovery
  import opened Crash

  /** What a table is: a map from keys to rows, or a bag of rows without a primary key. */
  datatype Table = Keyed(rows: map<RowKey, Row>) | Bag(bag: multiset<Row>)

  function TableStep(pk: seq<string>, t: Table, op: Op): Table {
    match t
    case Keyed(v) => Keyed(StepView(pk, v, op))
    case Bag(b) => match op case Put(row) => Bag(b + multiset{row}) case Del(_) => t
  }

  function TableRun(pk: seq<string>, t: Table, ops: seq<Op>): Table {
    if ops == [] then t else TableStep(pk, TableRun(pk, t, ops[..|ops| - 1]), ops[|ops| - 1])
  }

  ghost function Observe(s: State): Table {
    if s.pk == [] then Bag(multiset(Visible(s.store, s.next))) else Keyed(View(s.store, s.index))
  }

  // ---------------------------------------------------------------- what each command does to the table

  lemma VisibleAppend(st: Store, row: Row, n: nat)
    requires Memtable in st && NothingDead(st)
    ensures Visible(AppendRow(st, row), n) == Visible(st, n) + [row]
  {
    var st' := AppendRow(st, row);
    assert st[Memtable].dead == {} && st'[Memtable] == st[Memtable].(rows := st[Memtable].rows + [row]);
    assert forall i :: Segment(i) in st <==> Segment(i) in st';
    assert forall i :: Segment(i) in st ==> st[Segment(i)] == st'[Segment(i)];
    hide *;
    VisibleParts(st, n);
    VisibleParts(st', n);
    SegmentRowsSame(st, st', n);
    NothingSuppressed(st, Memtable);
    NothingSuppressed(st', Memtable);
  }

  lemma ObserveStep(s: State, op: Op)
    requires Valid(s)
    ensures Observe(Step(s, op)) == TableStep(s.pk, Observe(s), op)
  {
    if s.pk != [] {
      StepViews(s, op);
    } else if op.Put? {
      VisibleAppend(s.store, op.row, s.next);
    }
  }

  lemma {:induction false} ObserveRun(s: State, ops: seq<Op>)
    requires Valid(s)
    ensures Observe(Run(s, ops)) == TableRun(s.pk, Observe(s), ops)
  {
    if ops != [] {
      ObserveRun(s, ops[..|ops| - 1]);
      RunValid(s, ops[..|ops| - 1]);
      ObserveStep(Run(s, ops[..|ops| - 1]), ops[|ops| - 1]);
    }
  }

  /** A flush is invisible, down to the order in which a scan returns the rows. */
  lemma FlushInvisible(s: State)
    requires Valid(s)
    ensures Visible(FlushState(s).store, FlushState(s).next) == Visible(s.store, s.next)
    ensures Observe(FlushState(s)) == Observe(s)
  {
    if s.store[Memtable].rows != [] {
      FlushVisible(s.store, s.next);
      if FlushRows(s) == [] { EmptyFlushVisible(s.store, s.next); }
      if s.pk != [] {
        MergeView(s.pk, s.store, s.index, [Memtable], s.next);
      }
    }
  }

  /** A compaction keeps the bag of visible rows and every key's row. */
  lemma CompactInvisible(s: State, ids: set<nat>)
    requires Valid(s)
    ensures multiset(Visible(CompactState(s, ids).store, CompactState(s, ids).next))
            == multiset(Visible(s.store, s.next))
    ensures Observe(CompactState(s, ids)) == Observe(s)
  {
    if Inputs(s, ids) != [] {
      CompactVisible(s.store, set src | src in s.store && src.Segment? && src.id in ids :: src.id, s.next);
      if s.pk != [] {
        MergeView(s.pk, s.store, s.index, Inputs(s, ids), s.next);
      }
    }
  }

  /** The changes a completed command makes to the table. */
  function Effect(c: Codec, sys: Sys, cmd: Command): seq<Op> {
    match Logged(sys.st, cmd)
    case Some(m) => if Accepts(c, LogEntry(sys.nextLsn, m)) then Ops(m) else []
    case None => []
  }

  lemma ObserveDo(c: Codec, sys: Sys, cmd: Command)
    requires Valid(sys.st)
    ensures Observe(Do(c, sys, cmd).st) == TableRun(sys.st.pk, Observe(sys.st), Effect(c, sys, cmd))
  {
    match cmd
    case Flush => FlushInvisible(sys.st);
    case Compact(ids) => CompactInvisible(sys.st, ids);
    case _ =>
      match Logged(sys.st, cmd)
      case Some(m) => ObserveRun(sys.st, Ops(m));
      case None =>
  }

  // ---------------------------------------------------------------- runs

  /** The partition completes a command, or crashes in it, leaving a disk that is then reopened. */
  datatype Event = Done(cmd: Command) | Crashed(cmd: Command, left: Disk)

  function Next(c: Codec, sys: Sys, ev: Event): Option<Sys>
    requires Memtable in sys.st.store
  {
    match ev
    case Done(cmd) => Some(Do(c, sys, cmd))
    case Crashed(_, left) => Open(c, sys.st.pk, left)
  }

  /** The changes an event makes: all of a completed command's; of a command the crash interrupted,
      all or none. */
  function EventEffect(c: Codec, sys: Sys, ev: Event): seq<Op> {
    match ev
    case Done(cmd) => Effect(c, sys, cmd)
    case Crashed(cmd, left) =>
      var r := Open(c, sys.st.pk, left);
      if r.Some? && r.value.st != sys.st then Effect(c, sys, cmd) else []
  }

  /** Reopening succeeds, and would rebuild exactly the current state. */
  ghost predicate Consistent(c: Codec, sys: Sys) {
    var r := ScanLog(c, sys.disk.wal);
    r.Scanned? && Inv(c, sys, r.entries)
  }

  /** The run's crashes are ones its commands can suffer, and its records fit a frame. */
  ghost predicate Legal(c: Codec, sys: Sys, run: seq<Event>)
    requires Memtable in sys.st.store
    decreases |run|
  {
    run == [] ||
    (&& Encodable(c, sys, run[0].cmd)
     && (run[0].Crashed? ==> MayLeave(c, sys, run[0].cmd, run[0].left))
     && var r := Next(c, sys, run[0]);
        (r.Some? && Memtable in r.value.st.store ==> Legal(c, r.value, run[1..])))
  }

  function Execute(c: Codec, sys: Sys, run: seq<Event>): Option<Sys>
    decreases |run|
  {
    if run == [] then Some(sys)
    else if Memtable !in sys.st.store then None
    else match Next(c, sys, run[0])
      case Some(r) => Execute(c, r, run[1..])
      case None => None
  }

  function Effects(c: Codec, sys: Sys, run: seq<Event>): seq<Op>
    decreases |run|
  {
    if run == [] || Memtable !in sys.st.store then []
    else match Next(c, sys, run[0])
      case Some(r) => EventEffect(c, sys, run[0]) + Effects(c, r, run[1..])
      case None => []
  }

  lemma InvConsistent(c: Codec, sys: Sys, es: seq<LogEntry>)
    requires Inv(c, sys, es)
    ensures Consistent(c, sys)
  {
    ScanEncoded(c, es);
  }

  lemma {:induction false} TableRunConcat(pk: seq<string>, t: Table, a: seq<Op>, b: seq<Op>)
    ensures TableRun(pk, t, a + b) == TableRun(pk, TableRun(pk, t, a), b)
  {
    if b == [] {
      assert a + b == a;
    } else {
      var n := |b| - 1;
      TableRunConcat(pk, t, a, b[..n]);
      assert (a + b)[..|a + b| - 1] == a + b[..n];
    }
  }

  lemma RecoveredConsistent(c: Codec, d: Disk, st: State, es: seq<LogEntry>)
    requires RecoversTo(c, d, st, es)
    ensures Open(c, st.pk, d).Some? && Open(c, st.pk, d).value.st == st && Consistent(c, Open(c, st.pk, d).value)
  {
    InvConsistent(c, Open(c, st.pk, d).value, es);
  }

  lemma DoPk(c: Codec, sys: Sys, cmd: Command)
    requires Memtable in sys.st.store
    ensures Do(c, sys, cmd).st.pk == sys.st.pk
  {
  }

  /** After a crash, reopening gives a consistent partition in the state before or after the command. */
  lemma CrashConsistent(c: Codec, sys: Sys, cmd: Command, left: Disk)
    requires Consistent(c, sys) && Encodable(c, sys, cmd) && MayLeave(c, sys, cmd, left)
    ensures var r := Open(c, sys.st.pk, left);
            r.Some? && Consistent(c, r.value) && (r.value.st == sys.st || r.value.st == Do(c, sys, cmd).st)
  {
    var es := ScanLog(c, sys.disk.wal).entries;
    var done := Do(c, sys, cmd).st;
    CrashRecovers(c, sys, es, cmd, left);
    DoPk(c, sys, cmd);
    if RecoversTo(c, left, sys.st, es) {
      RecoveredConsistent(c, left, sys.st, es);
    } else if RecoversTo(c, left, done, es) {
      RecoveredConsistent(c, left, done, es);
    } else {
      RecoveredConsistent(c, left, done, EntriesAfter(c, sys, es, cmd));
    }
  }

  lemma DoConsistent(c: Codec, sys: Sys, cmd: Command)
    requires Consistent(c, sys) && Encodable(c, sys, cmd)
    ensures Consistent(c, Do(c, sys, cmd))
  {
    var es := ScanLog(c, sys.disk.wal).entries;
    DoInv(c, sys, es, cmd);
    InvConsistent(c, Do(c, sys, cmd), EntriesAfter(c, sys, es, cmd));
  }

  /** One event: the partition stays consistent and the table changes by exactly its effect. */
  lemma EventCorrect(c: Codec, sys: Sys, ev: Event)
    requires Consistent(c, sys) && Encodable(c, sys, ev.cmd)
    requires ev.Crashed? ==> MayLeave(c, sys, ev.cmd, ev.left)
    ensures var r := Next(c, sys, ev);
            && r.Some? && Consistent(c, r.value) && r.value.st.pk == sys.st.pk
            && Observe(r.value.st) == TableRun(sys.st.pk, Observe(sys.st), EventEffect(c, sys, ev))
  {
    assert Memtable in sys.st.store && Valid(sys.st) && TableRun(sys.st.pk, Observe(sys.st), []) == Observe(sys.st);
    hide Consistent, Observe, TableRun, Effect, Encodable, MayLeave, Do, Open;
    ObserveDo(c, sys, ev.cmd);
    DoPk(c, sys, ev.cmd);
    match ev
    case Done(cmd) => DoConsistent(c, sys, cmd);
    case Crashed(cmd, left) => CrashConsistent(c, sys, cmd, left);
  }

  lemma LegalHead(c: Codec, sys: Sys, run: seq<Event>)
    requires Memtable in sys.st.store && run != [] && Legal(c, sys, run)
    ensures Encodable(c, sys, run[0].cmd) && (run[0].Crashed? ==> MayLeave(c, sys, run[0].cmd, run[0].left))
  {
    hide Encodable, MayLeave, Next;
  }

  lemma RunStep(c: Codec, sys: Sys, run: seq<Event>, next: Sys)
    requires Memtable in sys.st.store && run != [] && Legal(c, sys, run)
    requires Next(c, sys, run[0]) == Some(next) && Memtable in next.st.store
    ensures Legal(c, next, run[1..]) && Execute(c, sys, run) == Execute(c, next, run[1..])
    ensures Effects(c, sys, run) == EventEffect(c, sys, run[0]) + Effects(c, next, run[1..])
  {
    hide Encodable, MayLeave, Next, EventEffect;
  }

  lemma EmptyRun(c: Codec, sys: Sys, run: seq<Event>)
    requires run == []
    ensures Execute(c, sys, run) == Some(sys) && TableRun(sys.st.pk, Observe(sys.st), Effects(c, sys, run))
            == Observe(sys.st)
  {
    hide Observe;
  }

  lemma ConsistentBuffer(c: Codec, sys: Sys)
    requires Consistent(c, sys)
    ensures Memtable in sys.st.store
  {
  }

  /** Crash recovery over whole runs: the partition ends consistent, and shows exactly the changes
      of the completed commands, in order, with those of each interrupted command made or not. */
  lemma {:induction false} RunCorrect(c: Codec, sys: Sys, run: seq<Event>)
    requires Consistent(c, sys) && Legal(c, sys, run)
    ensures var r := Execute(c, sys, run);
            && r.Some? && Consistent(c, r.value)
            && Observe(r.value.st) == TableRun(sys.st.pk, Observe(sys.st), Effects(c, sys, run))
    decreases |run|
  {
    hide *;
    ConsistentBuffer(c, sys);
    if run == [] {
      EmptyRun(c, sys, run);
    } else {
      LegalHead(c, sys, run);
      EventCorrect(c, sys, run[0]);
      var next := Next(c, sys, run[0]).value;
      ConsistentBuffer(c, next);
      RunStep(c, sys, run, next);
      RunCorrect(c, next, run[1..]);
      TableRunConcat(sys.st.pk, Observe(sys.st), EventEffect(c, sys, run[0]), Effects(c, next, run[1..]));
    }
  }

  // ---------------------------------------------------------------- commands in a row

  /** Runs commands one after the other. */
  function DoAll(c: Codec, sys: Sys, cmds: seq<Command>): Sys {
    if cmds == [] then sys
    else
      var before := DoAll(c, sys, cmds[..|cmds| - 1]);
      if Memtable in before.st.store then Do(c, before, cmds[|cmds| - 1]) else before
  }

  /** The disks they go through. */
  function DisksAll(c: Codec, sys: Sys, cmds: seq<Command>): seq<Disk> {
    if cmds == [] then []
    else
      var before := DoAll(c, sys, cmds[..|cmds| - 1]);
      DisksAll(c, sys, cmds[..|cmds| - 1])
      + (if Memtable in before.st.store then Disks(c, before, cmds[|cmds| - 1]) else [])
  }

  /** The changes they make to the table. */
  function EffectAll(c: Codec, sys: Sys, cmds: seq<Command>): seq<Op> {
    if cmds == [] then []
    else
      EffectAll(c, sys, cmds[..|cmds| - 1]) + Effect(c, DoAll(c, sys, cmds[..|cmds| - 1]), cmds[|cmds| - 1])
  }

  /** All records fit a frame. */
  predicate EncodableAll(c: Codec, sys: Sys, cmds: seq<Command>) {
    forall j :: 0 <= j < |cmds| ==> Encodable(c, DoAll(c, sys, cmds[..j]), cmds[j])
  }

  /** A disk that a crash can leave before the commands or in one of them, those before it completed. */
  ghost predicate CrashIn(c: Codec, sys: Sys, cmds: seq<Command>, left: Disk) {
    left == sys.disk || exists j :: 0 <= j < |cmds| && CrashDuring(c, DoAll(c, sys, cmds[..j]), cmds[j], left)
  }

  ghost predicate CrashDuring(c: Codec, sys: Sys, cmd: Command, left: Disk) {
    Memtable in sys.st.store && MayLeave(c, sys, cmd, left)
  }

  lemma PrefixNext(c: Codec, sys: Sys, cmds: seq<Command>, j: nat)
    requires j < |cmds| && Memtable in DoAll(c, sys, cmds[..j]).st.store
    ensures DoAll(c, sys, cmds[..j + 1]) == Do(c, DoAll(c, sys, cmds[..j]), cmds[j])
    ensures EffectAll(c, sys, cmds[..j + 1]) ==
            EffectAll(c, sys, cmds[..j]) + Effect(c, DoAll(c, sys, cmds[..j]), cmds[j])
    ensures DisksAll(c, sys, cmds[..j + 1]) ==
            DisksAll(c, sys, cmds[..j]) + Disks(c, DoAll(c, sys, cmds[..j]), cmds[j])
  {
    assert cmds[..j + 1][..j] == cmds[..j];
    hide Do, Effect, Disks;
  }

  /** After any of the commands the partition is consistent and shows exactly their changes. */
  lemma {:induction false} AllConsistent(c: Codec, sys: Sys, cmds: seq<Command>, j: nat)
    requires Consistent(c, sys) && EncodableAll(c, sys, cmds) && j <= |cmds|
    ensures var s := DoAll(c, sys, cmds[..j]);
            && Consistent(c, s) && s.st.pk == sys.st.pk && Memtable in s.st.store
            && Observe(s.st) == TableRun(sys.st.pk, Observe(sys.st), EffectAll(c, sys, cmds[..j]))
  {
    hide *;
    if j == 0 {
      ConsistentBuffer(c, sys);
      NoneDone(c, sys, cmds);
    } else {
      AllConsistent(c, sys, cmds, j - 1);
      PrefixNext(c, sys, cmds, j - 1);
      EncodableAt(c, sys, cmds, j - 1);
      var s, cmd := DoAll(c, sys, cmds[..j - 1]), cmds[j - 1];
      DoConsistent(c, s, cmd);
      ConsistentBuffer(c, DoAll(c, sys, cmds[..j]));
      DoPk(c, s, cmd);
      ConsistentValid(c, s);
      ObserveDo(c, s, cmd);
      TableRunConcat(sys.st.pk, Observe(sys.st), EffectAll(c, sys, cmds[..j - 1]), Effect(c, s, cmd));
    }
  }

  lemma NoneDone(c: Codec, sys: Sys, cmds: seq<Command>)
    ensures DoAll(c, sys, cmds[..0]) == sys && EffectAll(c, sys, cmds[..0]) == [] && DisksAll(c, sys, cmds[..0]) == []
    ensures TableRun(sys.st.pk, Observe(sys.st), []) == Observe(sys.st)
  {
    hide Observe;
  }

  lemma EncodableAt(c: Codec, sys: Sys, cmds: seq<Command>, j: nat)
    requires EncodableAll(c, sys, cmds) && j < |cmds|
    ensures Encodable(c, DoAll(c, sys, cmds[..j]), cmds[j])
  {
    hide Encodable, DoAll;
  }

  lemma ConsistentValid(c: Codec, sys: Sys)
    requires Consistent(c, sys)
    ensures Valid(sys.st)
  {
    hide WellFormed, Mirrors, Rebuilt, ScanLog;
  }

  lemma StayedPut(c: Codec, sys: Sys)
    requires Consistent(c, sys)
    ensures var r := Open(c, sys.st.pk, sys.disk);
            r.Some? && Consistent(c, r.value) && Observe(r.value.st) == Observe(sys.st)
  {
    ConsistentBuffer(c, sys);
    ConsistentValid(c, sys);
    assert Encodable(c, sys, Flush) && MayLeave(c, sys, Flush, sys.disk);
    hide *;
    CrashConsistent(c, sys, Flush, sys.disk);
    FlushInvisible(sys.st);
    Flushed(c, sys);
  }

  lemma Flushed(c: Codec, sys: Sys)
    requires Memtable in sys.st.store
    ensures Do(c, sys, Flush).st == FlushState(sys.st)
  {
  }

  /** After a crash in a row of commands, reopening gives a consistent partition that shows exactly the changes of
      some of the first commands: of all those completed, and of the interrupted one made or not. */
  lemma RowCrash(c: Codec, sys: Sys, cmds: seq<Command>, left: Disk) returns (m: nat)
    requires Consistent(c, sys) && EncodableAll(c, sys, cmds) && CrashIn(c, sys, cmds, left)
    ensures m <= |cmds|
    ensures var r := Open(c, sys.st.pk, left);
            && r.Some? && Consistent(c, r.value)
            && Observe(r.value.st) == TableRun(sys.st.pk, Observe(sys.st), EffectAll(c, sys, cmds[..m]))
  {
    if left == sys.disk {
      StayedPut(c, sys);
      NoneDone(c, sys, cmds);
      return 0;
    }
    var j :| 0 <= j < |cmds| && CrashDuring(c, DoAll(c, sys, cmds[..j]), cmds[j], left);
    assert MayLeave(c, DoAll(c, sys, cmds[..j]), cmds[j], left);
    hide *;
    AllConsistent(c, sys, cmds, j);
    AllConsistent(c, sys, cmds, j + 1);
    PrefixNext(c, sys, cmds, j);
    EncodableAt(c, sys, cmds, j);
    CrashConsistent(c, DoAll(c, sys, cmds[..j]), cmds[j], left);
    m := if Open(c, sys.st.pk, left).value.st == DoAll(c, sys, cmds[..j]).st then j else j + 1;
  }

  lemma OneDone(c: Codec, sys: Sys, cmd: Command)
    requires Memtable in sys.st.store
    ensures DoAll(c, sys, [cmd]) == Do(c, sys, cmd) && DisksAll(c, sys, [cmd]) == Disks(c, sys, cmd)
  {
    NoneDone(c, sys, [cmd]);
    PrefixNext(c, sys, [cmd], 0);
    assert [cmd][..1] == [cmd];
    hide Do, Disks, DoAll, DisksAll;
    assert [] + Disks(c, sys, cmd) == Disks(c, sys, cmd);
  }

  /** One more command. */
  function Then(c: Codec, sys: Sys, cmd: Command): Sys { if Memtable in sys.st.store then Do(c, sys, cmd) else sys }

  function ThenDisks(c: Codec, sys: Sys, cmd: Command): seq<Disk> {
    if Memtable in sys.st.store then Disks(c, sys, cmd) else []
  }

  lemma DoneLast(c: Codec, sys: Sys, cmds: seq<Command>, cmd: Command)
    ensures DoAll(c, sys, cmds + [cmd]) == Then(c, DoAll(c, sys, cmds), cmd)
    ensures DisksAll(c, sys, cmds + [cmd]) == DisksAll(c, sys, cmds) + ThenDisks(c, DoAll(c, sys, cmds), cmd)
  {
    assert (cmds + [cmd])[..|cmds|] == cmds;
    hide Do, Disks;
  }

  lemma {:induction false} DoneMore(c: Codec, sys: Sys, a: seq<Command>, b: seq<Command>)
    ensures DoAll(c, sys, a + b) == DoAll(c, DoAll(c, sys, a), b)
    ensures DisksAll(c, sys, a + b) == DisksAll(c, sys, a) + DisksAll(c, DoAll(c, sys, a), b)
  {
    hide *;
    if b == [] {
      assert a + b == a && b[..0] == b;
      NoneDone(c, DoAll(c, sys, a), b);
    } else {
      var n := |b| - 1;
      var s := DoAll(c, sys, a);
      DoneMore(c, sys, a, b[..n]);
      DoneLast(c, sys, a + b[..n], b[n]);
      DoneLast(c, s, b[..n], b[n]);
      assert a + b[..n] + [b[n]] == a + b && b[..n] + [b[n]] == b;
      Associate(DisksAll(c, sys, a), DisksAll(c, s, b[..n]), ThenDisks(c, DoAll(c, s, b[..n]), b[n]));
    }
  }

  /** Flushes and compactions. */
  predicate Upkeep(cmds: seq<Command>) { forall i :: 0 <= i < |cmds| ==> cmds[i].Flush? || cmds[i].Compact? }

  lemma UpkeepQuiet(c: Codec, sys: Sys, cmds: seq<Command>, j: nat)
    requires 0 < j < |cmds| && Upkeep(cmds[1..])
    ensures Effect(c, sys, cmds[j]) == []
  {
    assert cmds[1..][j - 1] == cmds[j];
  }

  lemma EffectNext(c: Codec, sys: Sys, cmds: seq<Command>, j: nat)
    requires j < |cmds|
    ensures EffectAll(c, sys, cmds[..j + 1]) ==
            EffectAll(c, sys, cmds[..j]) + Effect(c, DoAll(c, sys, cmds[..j]), cmds[j])
  {
    assert cmds[..j + 1][..j] == cmds[..j];
    hide Effect, DoAll;
  }

  /** One command and then only upkeep makes all of the command's changes or none, wherever it is cut off. */
  lemma {:induction false} UpkeepEffect(c: Codec, sys: Sys, cmds: seq<Command>, m: nat)
    requires 0 < |cmds| && Upkeep(cmds[1..]) && m <= |cmds|
    ensures EffectAll(c, sys, cmds[..m]) == if m == 0 then [] else Effect(c, sys, cmds[0])
  {
    hide *;
    NoneDone(c, sys, cmds);
    if m > 0 {
      UpkeepEffect(c, sys, cmds, m - 1);
      EffectNext(c, sys, cmds, m - 1);
      if m > 1 {
        UpkeepQuiet(c, DoAll(c, sys, cmds[..m - 1]), cmds, m - 1);
      }
    }
  }

  /** The LSN discipline: the LSNs in the file strictly increase, and an acknowledged record's LSN is
      above the checkpoint, so that the replay filter does not drop it. */
  lemma AcknowledgedIsReplayed(c: Codec, sys: Sys, cmd: Command, m: Mutation)
    requires Consistent(c, sys) && Encodable(c, sys, cmd) && !cmd.Flush? && !cmd.Compact?
    requires Logged(sys.st, cmd) == Some(m) && Accepts(c, LogEntry(sys.nextLsn, m))
    ensures var e := LogEntry(sys.nextLsn, m);
            var es, done := ScanLog(c, sys.disk.wal).entries, Do(c, sys, cmd);
            var r := ScanLog(c, done.disk.wal);
            && r.Scanned? && r.entries == es + [e] && Increasing(r.entries)
            && Above(r.entries, Loaded(done.disk).applied) == Above(es, Loaded(sys.disk).applied) + [e]
  {
    var es, done := ScanLog(c, sys.disk.wal).entries, Do(c, sys, cmd);
    var e := LogEntry(sys.nextLsn, m);
    assert Loaded(sys.disk).applied < e.lsn;
    AboveSnoc(es, e, Loaded(sys.disk).applied);
    assert Loaded(done.disk) == Loaded(sys.disk);
    DoInv(c, sys, es, cmd);
    DoLogged(c, sys, es, cmd, m);
    ScanOfInv(c, done, es + [e]);
    hide *;
  }

  lemma ScanOfInv(c: Codec, sys: Sys, es: seq<LogEntry>)
    requires Inv(c, sys, es)
    ensures ScanLog(c, sys.disk.wal) == Scanned(es, |sys.disk.wal|) && Increasing(es)
  {
    ScanEncoded(c, es);
  }

  function FreshState(pk: seq<string>): State { State(pk, map[Memtable := Rows([], {})], map[], 0, 0, 1) }

  lemma NothingVisible(st: Store, n: nat)
    requires forall l :: !Live(st, l)
    ensures Visible(st, n) == []
  {
    var locs := Gather(st, ScanOrder(n));
    if 0 < |locs| {
      GatherMembers(st, ScanOrder(n), locs[0]);
    }
  }

  lemma FreshBase(pk: seq<string>)
    ensures Base(pk, EMPTY_MANIFEST, map[]) == FreshState(pk)
    ensures Valid(FreshState(pk)) && Visible(FreshState(pk).store, FreshState(pk).next) == []
  {
    hide Gather, SegmentsBelow, ScanOrder, Visible, RebuildTo;
    var s := FreshState(pk);
    assert LoadedStore(EMPTY_MANIFEST, map[]) == s.store;
    NothingVisible(s.store, s.next);
    if pk != [] {
      RebuildIndexed(pk, s.store, s.index, s.next);
    }
  }

  lemma FreshOpen(c: Codec, pk: seq<string>)
    requires GoodCodec(c)
    ensures Open(c, pk, Disk([], None, map[])) == Some(Sys(FreshState(pk), Disk(WAL_MAGIC, None, map[]), 1))
    ensures EncodeLog(c, []) == WAL_MAGIC
  {
    assert EncodeLog(c, []) == WAL_MAGIC;
    ScanEncoded(c, []);
    FreshBase(pk);
    NothingLogged(pk);
    var empty: map<Source, seq<Row>> := map[];
    assert Referenced(EMPTY_MANIFEST, empty) == empty;
    hide ScanLog, EncodeLog, Base, Replay, Referenced, FreshState, Above;
    assert WAL_MAGIC[..|WAL_MAGIC|] == WAL_MAGIC;
  }

  lemma NothingLogged(pk: seq<string>)
    ensures Replay(FreshState(pk), Above([], 0)) == FreshState(pk)
  {
  }

  /** A partition that has never been opened before starts consistent and empty. */
  lemma FreshConsistent(c: Codec, pk: seq<string>)
    requires GoodCodec(c)
    ensures var r := Open(c, pk, Disk([], None, map[]));
            && r.Some? && Consistent(c, r.value)
            && Observe(r.value.st) == if pk == [] then Bag(multiset{}) else Keyed(map[])
  {
    FreshOpen(c, pk);
    FreshBase(pk);
    InvConsistent(c, Sys(FreshState(pk), Disk(WAL_MAGIC, None, map[]), 1), []);
  }
}
