/** The in-memory state of one partition and what each logged change does to it
    (crates/adb-storage/src/table.rs: PartitionState).

    A source of rows is the memtable or a segment; each has rows addressed by ordinal and a
    suppression bitmap. `Store` maps every source to both. The vector of segments the partition
    keeps, sorted by id, is refined to this map in module Partitions. */
module PartitionState {
  import opened Values

  datatype Source = Memtable | Segment(id: nat)

  datatype Locator = Locator(source: Source, ordinal: nat)

  datatype Rows = Rows(rows: seq<Row>, dead: set<nat>)

  type Store = map<Source, Rows>

  type Index = map<RowKey, Locator>

  datatype State = State(pk: seq<string>, store: Store, index: Index, applied: nat, last: nat, next: nat)

  /** One elementary change; a logged record is a sequence of these. */
  datatype Op = Put(row: Row) | Del(key: RowKey)

  // ---------------------------------------------------------------- addresses

  predicate Present(st: Store, l: Locator) {
    l.source in st && l.ordinal < |st[l.source].rows|
  }

  predicate Live(st: Store, l: Locator) {
    Present(st, l) && l.ordinal !in st[l.source].dead
  }

  /** The row stored at an address; an address outside the store reads as the empty row. */
  function RowAt(st: Store, l: Locator): Row {
    if Present(st, l) then st[l.source].rows[l.ordinal] else map[]
  }

  // ---------------------------------------------------------------- the invariant

  /** The key index is a bijection between keys and live rows. */
  ghost predicate Indexed(pk: seq<string>, st: Store, ix: Index) {
    && (forall k :: k in ix ==> Live(st, ix[k]) && KeyAt(pk, RowAt(st, ix[k])) == k)
    && (forall l :: Live(st, l) ==> var k := KeyAt(pk, RowAt(st, l)); k in ix && ix[k] == l)
  }

  /** Suppressed ordinals are below the row count. */
  ghost predicate DeadInRange(st: Store) {
    forall src, o :: src in st && o in st[src].dead ==> o < |st[src].rows|
  }

  /** There is a memtable, and every segment id is below the next one to be given out. */
  ghost predicate IdsBelow(st: Store, next: nat) {
    Memtable in st && forall src: Source :: src in st && src.Segment? ==> src.id < next
  }

  ghost predicate NothingDead(st: Store) {
    forall src :: src in st ==> st[src].dead == {}
  }

  /** The partition invariant; an append-only table keeps no index and suppresses nothing. */
  ghost predicate Valid(s: State) {
    && DeadInRange(s.store)
    && IdsBelow(s.store, s.next)
    && s.applied <= s.last
    && if s.pk == [] then s.index == map[] && NothingDead(s.store) else Indexed(s.pk, s.store, s.index)
  }

  /** The map a keyed table is observed as. */
  ghost function View(st: Store, ix: Index): map<RowKey, Row> {
    map k | k in ix :: RowAt(st, ix[k])
  }

  // ---------------------------------------------------------------- logged changes

  function Suppress(st: Store, l: Locator): Store {
    if l.source in st then st[l.source := st[l.source].(dead := st[l.source].dead + {l.ordinal})] else st
  }

  function Displace(st: Store, ix: Index, k: RowKey): Store {
    if k in ix then Suppress(st, ix[k]) else st
  }

  function AppendRow(st: Store, row: Row): Store
    requires Memtable in st
  {
    st[Memtable := st[Memtable].(rows := st[Memtable].rows + [row])]
  }

  function NextSlot(st: Store): Locator
    requires Memtable in st
  {
    Locator(Memtable, |st[Memtable].rows|)
  }

  function Step(s: State, op: Op): (t: State)
    requires Memtable in s.store
    ensures Memtable in t.store && t.pk == s.pk && t.applied == s.applied && t.last == s.last && t.next == s.next
  {
    match op
    case Put(row) =>
      if s.pk == [] then s.(store := AppendRow(s.store, row))
      else
        var k := KeyAt(s.pk, row);
        s.(store := AppendRow(Displace(s.store, s.index, k), row), index := s.index[k := NextSlot(s.store)])
    case Del(k) => s.(store := Displace(s.store, s.index, k), index := s.index - {k})
  }

  function Run(s: State, ops: seq<Op>): (t: State)
    requires Memtable in s.store
    ensures Memtable in t.store && t.pk == s.pk && t.applied == s.applied && t.last == s.last && t.next == s.next
  {
    if ops == [] then s else Step(Run(s, ops[..|ops| - 1]), ops[|ops| - 1])
  }

  function OpKey(pk: seq<string>, op: Op): RowKey {
    match op case Put(row) => KeyAt(pk, row) case Del(k) => k
  }

  /** What a change means for the observed map. */
  function StepView(pk: seq<string>, v: map<RowKey, Row>, op: Op): map<RowKey, Row> {
    match op case Put(row) => v[KeyAt(pk, row) := row] case Del(k) => v - {k}
  }

  function RunView(pk: seq<string>, v: map<RowKey, Row>, ops: seq<Op>): map<RowKey, Row> {
    if ops == [] then v else StepView(pk, RunView(pk, v, ops[..|ops| - 1]), ops[|ops| - 1])
  }

  // ---------------------------------------------------------------- the invariant is kept

  /** Suppressing an address removes exactly that address. */
  lemma SuppressLive(st: Store, at: Locator, l: Locator)
    ensures Present(Suppress(st, at), l) <==> Present(st, l)
    ensures RowAt(Suppress(st, at), l) == RowAt(st, l)
    ensures Live(Suppress(st, at), l) <==> Live(st, l) && l != at
  {
  }

  lemma DisplaceIndexed(pk: seq<string>, st: Store, ix: Index, k: RowKey)
    requires Indexed(pk, st, ix)
    ensures Indexed(pk, Displace(st, ix, k), ix - {k})
  {
    forall l: Locator | k in ix
      ensures RowAt(Suppress(st, ix[k]), l) == RowAt(st, l)
      ensures Live(Suppress(st, ix[k]), l) <==> Live(st, l) && l != ix[k]
    {
      SuppressLive(st, ix[k], l);
    }
  }

  lemma DisplaceView(st: Store, ix: Index, k: RowKey)
    ensures View(Displace(st, ix, k), ix - {k}) == View(st, ix) - {k}
  {
    forall l: Locator | k in ix
      ensures Present(Suppress(st, ix[k]), l) <==> Present(st, l)
      ensures RowAt(Suppress(st, ix[k]), l) == RowAt(st, l)
    {
      SuppressLive(st, ix[k], l);
    }
  }

  lemma AppendLive(st: Store, row: Row, l: Locator)
    requires Memtable in st && DeadInRange(st)
    ensures Live(AppendRow(st, row), l) <==> Live(st, l) || l == NextSlot(st)
    ensures Present(st, l) ==> Present(AppendRow(st, row), l) && RowAt(AppendRow(st, row), l) == RowAt(st, l)
    ensures Present(AppendRow(st, row), NextSlot(st)) && RowAt(AppendRow(st, row), NextSlot(st)) == row
  {
  }

  lemma AppendIndexed(pk: seq<string>, st: Store, ix: Index, row: Row)
    requires Memtable in st && DeadInRange(st) && Indexed(pk, st, ix)
    requires KeyAt(pk, row) !in ix
    ensures Indexed(pk, AppendRow(st, row), ix[KeyAt(pk, row) := NextSlot(st)])
  {
    var st' := AppendRow(st, row);
    forall l: Locator
      ensures Live(st', l) <==> Live(st, l) || l == NextSlot(st)
      ensures Live(st, l) ==> RowAt(st', l) == RowAt(st, l)
    {
      AppendLive(st, row, l);
    }
    AppendLive(st, row, NextSlot(st));
  }

  lemma DisplaceRange(st: Store, ix: Index, k: RowKey, next: nat)
    requires DeadInRange(st) && IdsBelow(st, next)
    requires k in ix ==> Live(st, ix[k])
    ensures DeadInRange(Displace(st, ix, k)) && IdsBelow(Displace(st, ix, k), next)
    ensures Memtable in Displace(st, ix, k) && NextSlot(Displace(st, ix, k)) == NextSlot(st)
  {
  }

  lemma AppendRange(st: Store, row: Row, next: nat)
    requires DeadInRange(st) && IdsBelow(st, next)
    ensures DeadInRange(AppendRow(st, row)) && IdsBelow(AppendRow(st, row), next)
    ensures NothingDead(st) ==> NothingDead(AppendRow(st, row))
  {
  }

  /** Every elementary change keeps the partition invariant. */
  lemma StepValid(s: State, op: Op)
    requires Valid(s)
    ensures Valid(Step(s, op))
  {
    var k := OpKey(s.pk, op);
    if s.pk != [] {
      DisplaceIndexed(s.pk, s.store, s.index, k);
    }
    DisplaceRange(s.store, s.index, k, s.next);
    if op.Put? {
      var st := if s.pk == [] then s.store else Displace(s.store, s.index, k);
      AppendRange(st, op.row, s.next);
      if s.pk != [] {
        AppendIndexed(s.pk, st, s.index - {k}, op.row);
        assert (s.index - {k})[k := NextSlot(s.store)] == s.index[k := NextSlot(s.store)];
      }
    }
  }

  lemma PutRows(st: Store, ix: Index, k: RowKey, row: Row, next: nat, l: Locator)
    requires DeadInRange(st) && IdsBelow(st, next) && (k in ix ==> Live(st, ix[k]))
    ensures Memtable in Displace(st, ix, k)
    ensures Present(st, l) ==> RowAt(AppendRow(Displace(st, ix, k), row), l) == RowAt(st, l)
    ensures RowAt(AppendRow(Displace(st, ix, k), row), NextSlot(st)) == row
  {
    DisplaceRange(st, ix, k, next);
    if k in ix {
      SuppressLive(st, ix[k], l);
    }
    AppendLive(Displace(st, ix, k), row, l);
    AppendLive(Displace(st, ix, k), row, NextSlot(st));
  }

  lemma PutView(st: Store, ix: Index, k: RowKey, row: Row, next: nat)
    requires DeadInRange(st) && IdsBelow(st, next)
    requires forall k' :: k' in ix ==> Live(st, ix[k'])
    ensures Memtable in Displace(st, ix, k)
    ensures View(AppendRow(Displace(st, ix, k), row), ix[k := NextSlot(st)]) == View(st, ix)[k := row]
  {
    PutRows(st, ix, k, row, next, NextSlot(st));
    forall k' | k' in ix
      ensures RowAt(AppendRow(Displace(st, ix, k), row), ix[k']) == RowAt(st, ix[k'])
    {
      assert Live(st, ix[k']);
      PutRows(st, ix, k, row, next, ix[k']);
    }
    hide *;
    ViewPut(st, AppendRow(Displace(st, ix, k), row), ix, k, row, NextSlot(st));
  }

  lemma ViewPut(st: Store, st': Store, ix: Index, k: RowKey, row: Row, at: Locator)
    requires RowAt(st', at) == row && forall k' :: k' in ix ==> RowAt(st', ix[k']) == RowAt(st, ix[k'])
    ensures View(st', ix[k := at]) == View(st, ix)[k := row]
  {
    hide RowAt;
    assert View(st, ix)[k := row].Keys == ix.Keys + {k};
  }

  /** On a keyed table, every elementary change acts on the observed map as its name says. */
  lemma StepViews(s: State, op: Op)
    requires Valid(s) && s.pk != []
    ensures View(Step(s, op).store, Step(s, op).index) == StepView(s.pk, View(s.store, s.index), op)
  {
    match op
    case Put(row) => PutView(s.store, s.index, KeyAt(s.pk, row), row, s.next);
    case Del(k) => DisplaceView(s.store, s.index, k);
  }
}
