/** Replaying logged records, and why suppressions published ahead of the log position are
    harmless (crates/adb-storage/src/table.rs: apply_entry, open, rebuild_key_index, compact_locked). */
module Replays {
  import opened Values
  import opened PartitionState
  import opened Rewriting
  import opened Wal

  function Puts(rows: seq<Row>): (ops: seq<Op>)
    ensures |ops| == |rows| && forall i :: 0 <= i < |rows| ==> ops[i] == Put(rows[i])
  {
    seq(|rows|, i requires 0 <= i < |rows| => Put(rows[i]))
  }

  function Dels(keys: seq<RowKey>): (ops: seq<Op>)
    ensures |ops| == |keys| && forall i :: 0 <= i < |keys| ==> ops[i] == Del(keys[i])
  {
    seq(|keys|, i requires 0 <= i < |keys| => Del(keys[i]))
  }

  /** Insert and upsert replay alike: uniqueness is checked before a record is logged. */
  function Ops(m: Mutation): seq<Op> {
    match m
    case Insert(rows) => Puts(rows)
    case Upsert(rows) => Puts(rows)
    case Delete(keys) => Dels(keys)
  }

  function AllOps(es: seq<LogEntry>): seq<Op> {
    if es == [] then [] else AllOps(es[..|es| - 1]) + Ops(es[|es| - 1].mutation)
  }

  function LastLsn(last: nat, es: seq<LogEntry>): nat {
    if es == [] then last else Max(LastLsn(last, es[..|es| - 1]), es[|es| - 1].lsn)
  }

  /** Applies one logged record. */
  function Apply(s: State, e: LogEntry): (t: State)
    requires Memtable in s.store
    ensures Memtable in t.store && t.pk == s.pk
  {
    Run(s, Ops(e.mutation)).(last := Max(s.last, e.lsn))
  }

  /** Applies logged records in order. */
  function Replay(s: State, es: seq<LogEntry>): (t: State)
    requires Memtable in s.store
    ensures Memtable in t.store && t.pk == s.pk
  {
    Run(s, AllOps(es)).(last := LastLsn(s.last, es))
  }

  // ---------------------------------------------------------------- runs of changes

  lemma {:induction false} RunConcat(s: State, a: seq<Op>, b: seq<Op>)
    requires Memtable in s.store
    ensures Run(s, a + b) == Run(Run(s, a), b)
  {
    if b == [] {
      assert a + b == a;
    } else {
      var n := |b| - 1;
      RunConcat(s, a, b[..n]);
      assert (a + b)[..|a + b| - 1] == a + b[..n];
    }
  }

  lemma StepLast(s: State, op: Op, x: nat)
    requires Memtable in s.store
    ensures Step(s.(last := x), op) == Step(s, op).(last := x)
  {
  }

  lemma {:induction false} RunLast(s: State, ops: seq<Op>, x: nat)
    requires Memtable in s.store
    ensures Run(s.(last := x), ops) == Run(s, ops).(last := x)
  {
    if ops != [] {
      RunLast(s, ops[..|ops| - 1], x);
      StepLast(Run(s, ops[..|ops| - 1]), ops[|ops| - 1], x);
    }
  }

  /** Replaying one more record applies it to the state replayed so far. */
  lemma ReplaySnoc(s: State, es: seq<LogEntry>, e: LogEntry)
    requires Memtable in s.store
    ensures Replay(s, es + [e]) == Apply(Replay(s, es), e)
  {
    assert (es + [e])[..|es|] == es;
    RunConcat(s, AllOps(es), Ops(e.mutation));
    RunLast(Run(s, AllOps(es)), Ops(e.mutation), LastLsn(s.last, es));
  }

  /** Replaying what lies above `n`, record by record. */
  lemma ReplayNext(s: State, es: seq<LogEntry>, i: nat, n: nat)
    requires Memtable in s.store && i < |es|
    ensures var t := Replay(s, Above(es[..i], n));
            Replay(s, Above(es[..i + 1], n)) == if es[i].lsn > n then Apply(t, es[i]) else t
  {
    var prior := Above(es[..i], n);
    assert es[..i + 1][..i] == es[..i];
    assert Above(es[..i + 1], n) == if es[i].lsn > n then prior + [es[i]] else prior;
    hide *;
    ReplaySnoc(s, prior, es[i]);
  }

  lemma {:induction false} RunValid(s: State, ops: seq<Op>)
    requires Valid(s)
    ensures Valid(Run(s, ops))
    ensures s.pk != [] ==> View(Run(s, ops).store, Run(s, ops).index) == RunView(s.pk, View(s.store, s.index), ops)
  {
    if ops != [] {
      RunValid(s, ops[..|ops| - 1]);
      StepValid(Run(s, ops[..|ops| - 1]), ops[|ops| - 1]);
      if s.pk != [] {
        StepViews(Run(s, ops[..|ops| - 1]), ops[|ops| - 1]);
      }
    }
  }

  // ---------------------------------------------------------------- the index is determined by the rows

  /** Two indexes over the same live rows are equal. */
  lemma IndexUnique(pk: seq<string>, st: Store, ix: Index, ix': Index)
    requires Indexed(pk, st, ix) && Indexed(pk, st, ix')
    ensures ix == ix'
  {
  }

  /** Two valid states that differ at most in their index are equal. */
  lemma StateUnique(a: State, b: State)
    requires Valid(a) && Valid(b) && a.(index := b.index) == b
    ensures a == b
  {
    if a.pk != [] {
      IndexUnique(a.pk, a.store, a.index, b.index);
    }
  }

  // ---------------------------------------------------------------- what a replay depends on

  function MemSlot(ix: Index, k: RowKey): Option<nat> {
    if k in ix && ix[k].source == Memtable then Some(ix[k].ordinal) else None
  }

  /** The two states buffer the same rows and index the buffered rows alike. */
  ghost predicate SameBuffer(a: State, b: State) {
    && a.pk == b.pk
    && Memtable in a.store && Memtable in b.store && a.store[Memtable] == b.store[Memtable]
    && forall k :: MemSlot(a.index, k) == MemSlot(b.index, k)
  }

  lemma SameBufferStep(a: State, b: State, op: Op)
    requires SameBuffer(a, b)
    ensures SameBuffer(Step(a, op), Step(b, op))
  {
    var k := OpKey(a.pk, op);
    assert MemSlot(a.index, k) == MemSlot(b.index, k);
    forall k'
      ensures MemSlot(Step(a, op).index, k') == MemSlot(Step(b, op).index, k')
    {
      assert MemSlot(a.index, k') == MemSlot(b.index, k');
    }
  }

  /** The buffer a replay builds depends on the records only, not on the segments. */
  lemma {:induction false} SameBufferRun(a: State, b: State, ops: seq<Op>)
    requires SameBuffer(a, b)
    ensures SameBuffer(Run(a, ops), Run(b, ops))
  {
    if ops != [] {
      SameBufferRun(a, b, ops[..|ops| - 1]);
      SameBufferStep(Run(a, ops[..|ops| - 1]), Run(b, ops[..|ops| - 1]), ops[|ops| - 1]);
    }
  }

  /** No segment row is indexed under `k`. */
  predicate SegmentFree(ix: Index, k: RowKey) { k in ix ==> ix[k].source == Memtable }

  lemma {:induction false} TouchedIsSegmentFree(s: State, ops: seq<Op>, i: nat)
    requires Memtable in s.store && s.pk != [] && i < |ops|
    ensures SegmentFree(Run(s, ops).index, OpKey(s.pk, ops[i]))
  {
    if i < |ops| - 1 {
      TouchedIsSegmentFree(s, ops[..|ops| - 1], i);
    }
  }

  lemma {:induction false} StaysSegmentFree(s: State, ops: seq<Op>, k: RowKey)
    requires Memtable in s.store && SegmentFree(s.index, k)
    ensures SegmentFree(Run(s, ops).index, k)
  {
    if ops != [] {
      StaysSegmentFree(s, ops[..|ops| - 1], k);
    }
  }

  /** Changes to keys no segment row has leave every segment as it is. */
  lemma {:induction false} SegmentsUntouched(s: State, ops: seq<Op>)
    requires Memtable in s.store
    requires s.pk != [] ==> forall i :: 0 <= i < |ops| ==> SegmentFree(s.index, OpKey(s.pk, ops[i]))
    requires s.pk == [] ==> s.index == map[]
    ensures Run(s, ops).store == s.store[Memtable := Run(s, ops).store[Memtable]]
    ensures s.pk == [] ==> Run(s, ops).index == map[]
  {
    if ops != [] {
      var n := |ops| - 1;
      SegmentsUntouched(s, ops[..n]);
      if s.pk != [] {
        assert SegmentFree(s.index, OpKey(s.pk, ops[n]));
        StaysSegmentFree(s, ops[..n], OpKey(s.pk, ops[n]));
      }
    }
  }
}
