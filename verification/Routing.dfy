/** How a table's rows are spread over its partitions, and why the partitions together act as one
    table (crates/adb-storage/src/table.rs: TableStore; hash.rs: hash_key).

    The hash of a key is a parameter; the FNV arithmetic is not modelled. */
module Routing {
  import opened Values
  import opened PartitionState
  import opened Rewriting
  import opened Visibility
  import opened Replays
  import opened Crash
  import opened Runs
  import opened Memtables

  type Hash = RowKey -> nat

  function Route(h: Hash, k: RowKey, n: nat): (i: nat)
    requires n > 0
    ensures i < n
  {
    h(k) % n
  }

  /** A key goes to the partition that is its hash modulo their number. */
  lemma RouteMeans(h: Hash, k: RowKey, n: nat, i: nat)
    requires i < n
    ensures Route(h, k, n) == i <==> exists q: nat :: h(k) == q * n + i
  {
    assert h(k) == h(k) / n * n + h(k) % n;
    if q: nat :| h(k) == q * n + i {
      OneRemainder(h(k), n, q, i, h(k) / n, h(k) % n);
    }
  }

  lemma OneRemainder(x: nat, n: nat, q: nat, i: nat, q': nat, i': nat)
    requires i < n && i' < n && x == q * n + i == q' * n + i'
    ensures i == i'
  {
    if q > q' {
      OneMore(q, q', n);
    } else if q < q' {
      OneMore(q', q, n);
    }
  }

  lemma {:induction false} OneMore(a: nat, b: nat, n: nat)
    requires a > b
    ensures a * n >= b * n + n
  {
    Successor(a - 1, n);
    if a > b + 1 {
      OneMore(a - 1, b, n);
    }
  }

  lemma Successor(a: nat, n: nat)
    ensures (a + 1) * n == a * n + n
  {
  }

  /** The changes whose key goes to partition `i` of `n`, in order. */
  function OpGroup(h: Hash, n: nat, pk: seq<string>, ops: seq<Op>, i: nat): seq<Op>
    requires n > 0
  {
    if ops == [] then []
    else
      var last := ops[|ops| - 1];
      OpGroup(h, n, pk, ops[..|ops| - 1], i) + (if Route(h, OpKey(pk, last), n) == i then [last] else [])
  }

  /** The positions of the keys that go to partition `i`. */
  function KeyGroup(h: Hash, n: nat, keys: seq<RowKey>, i: nat): (group: seq<nat>)
    requires n > 0
    ensures forall p :: 0 <= p < |group| ==> group[p] < |keys|
  {
    if keys == [] then []
    else
      var last := |keys| - 1;
      KeyGroup(h, n, keys[..last], i) + (if Route(h, keys[last], n) == i then [last] else [])
  }

  function Pick<T>(xs: seq<T>, at: seq<nat>): (r: seq<T>)
    requires forall p :: 0 <= p < |at| ==> at[p] < |xs|
    ensures |r| == |at| && forall p :: 0 <= p < |at| ==> r[p] == xs[at[p]]
  {
    seq(|at|, p requires 0 <= p < |at| => xs[at[p]])
  }

  /** Sends the position of every key to its partition's group. */
  method SplitKeys(h: Hash, n: nat, keys: seq<RowKey>) returns (groups: seq<seq<nat>>)
    requires n > 0
    ensures |groups| == n && forall i :: 0 <= i < n ==> groups[i] == KeyGroup(h, n, keys, i)
  {
    groups := seq(n, _ => []);
    for row := 0 to |keys|
      invariant |groups| == n && forall i :: 0 <= i < n ==> groups[i] == KeyGroup(h, n, keys[..row], i)
    {
      var target := Route(h, keys[row], n);
      assert keys[..row + 1][..row] == keys[..row];
      groups := groups[target := groups[target] + [row]];
    }
    assert keys[..|keys|] == keys;
  }

  lemma {:induction false} PutGroup(h: Hash, n: nat, pk: seq<string>, rows: seq<Row>, keys: seq<RowKey>, i: nat)
    requires n > 0 && |keys| == |rows| && forall r :: 0 <= r < |rows| ==> keys[r] == KeyAt(pk, rows[r])
    ensures Puts(Pick(rows, KeyGroup(h, n, keys, i))) == OpGroup(h, n, pk, Puts(rows), i)
  {
    if rows != [] {
      var last := |rows| - 1;
      PutGroup(h, n, pk, rows[..last], keys[..last], i);
      assert Puts(rows)[..last] == Puts(rows[..last]);
      var init := KeyGroup(h, n, keys[..last], i);
      assert Pick(rows, init) == Pick(rows[..last], init);
    }
  }

  lemma {:induction false} DelGroup(h: Hash, n: nat, pk: seq<string>, keys: seq<RowKey>, i: nat)
    requires n > 0
    ensures Dels(Pick(keys, KeyGroup(h, n, keys, i))) == OpGroup(h, n, pk, Dels(keys), i)
  {
    if keys != [] {
      var last := |keys| - 1;
      DelGroup(h, n, pk, keys[..last], i);
      assert Dels(keys)[..last] == Dels(keys[..last]);
      var init := KeyGroup(h, n, keys[..last], i);
      assert Pick(keys, init) == Pick(keys[..last], init);
    }
  }

  // ---------------------------------------------------------------- the partitions as one table

  ghost function MapOf(t: Table): map<RowKey, Row> { if t.Keyed? then t.rows else map[] }

  ghost function BagIn(t: Table): multiset<Row> { if t.Bag? then t.bag else multiset{} }

  ghost function UnionOf(ts: seq<Table>): map<RowKey, Row> {
    if ts == [] then map[] else UnionOf(ts[..|ts| - 1]) + MapOf(ts[|ts| - 1])
  }

  ghost function SumOf(ts: seq<Table>): multiset<Row> {
    if ts == [] then multiset{} else SumOf(ts[..|ts| - 1]) + BagIn(ts[|ts| - 1])
  }

  /** What the partitions' tables are together. */
  ghost function Together(pk: seq<string>, ts: seq<Table>): Table {
    if pk == [] then Bag(SumOf(ts)) else Keyed(UnionOf(ts))
  }

  /** Every key is in the partition it routes to, and so in at most one. */
  ghost predicate Routed(h: Hash, n: nat, ts: seq<Table>) {
    && 0 < n && |ts| <= n
    && forall i, k :: 0 <= i < |ts| && k in MapOf(ts[i]) ==> Route(h, k, n) == i
  }

  /** A key is in the table exactly when it is in the partition it routes to, with the same row. */
  lemma {:induction false} UnionLookup(h: Hash, n: nat, ts: seq<Table>, k: RowKey)
    requires Routed(h, n, ts)
    ensures var i := Route(h, k, n);
            && (k in UnionOf(ts) <==> i < |ts| && k in MapOf(ts[i]))
            && (k in UnionOf(ts) ==> UnionOf(ts)[k] == MapOf(ts[i])[k])
  {
    if ts != [] {
      UnionLookup(h, n, ts[..|ts| - 1], k);
    }
  }

  /** The row two maps have for a key agrees. */
  ghost predicate SameAt(v: map<RowKey, Row>, w: map<RowKey, Row>, k: RowKey) {
    (k in v <==> k in w) && (k in v ==> v[k] == w[k])
  }

  lemma OneStep(pk: seq<string>, v: map<RowKey, Row>, op: Op, k: RowKey)
    ensures OpKey(pk, op) != k ==> SameAt(StepView(pk, v, op), v, k)
    ensures OpKey(pk, op) == k ==> (k in StepView(pk, v, op) <==> op.Put?)
    ensures OpKey(pk, op) == k && op.Put? ==> StepView(pk, v, op)[k] == op.row
  {
  }

  /** One more change either joins a partition's group or not. */
  lemma GroupNext(h: Hash, n: nat, pk: seq<string>, v: map<RowKey, Row>, ops: seq<Op>, i: nat)
    requires n > 0 && ops != []
    ensures var m := |ops| - 1;
            var init := RunView(pk, v, OpGroup(h, n, pk, ops[..m], i));
            RunView(pk, v, OpGroup(h, n, pk, ops, i)) ==
            if Route(h, OpKey(pk, ops[m]), n) == i then StepView(pk, init, ops[m]) else init
  {
    var m := |ops| - 1;
    var group := OpGroup(h, n, pk, ops[..m], i);
    assert (group + [ops[m]])[..|group|] == group && group + [] == group;
    hide StepView, Route, OpKey;
  }

  /** Changes for other partitions do not affect a key. */
  lemma {:induction false} GroupedLookup(h: Hash, n: nat, pk: seq<string>, v: map<RowKey, Row>, w: map<RowKey, Row>,
                                         ops: seq<Op>, k: RowKey)
    requires n > 0 && SameAt(v, w, k)
    ensures SameAt(RunView(pk, v, ops), RunView(pk, w, OpGroup(h, n, pk, ops, Route(h, k, n))), k)
  {
    if ops != [] {
      var m := |ops| - 1;
      var i := Route(h, k, n);
      GroupedLookup(h, n, pk, v, w, ops[..m], k);
      GroupNext(h, n, pk, w, ops, i);
      OneStep(pk, RunView(pk, v, ops[..m]), ops[m], k);
      OneStep(pk, RunView(pk, w, OpGroup(h, n, pk, ops[..m], i)), ops[m], k);
      hide StepView, OpGroup, Route;
    }
  }

  lemma {:induction false} GroupStaysRouted(h: Hash, n: nat, pk: seq<string>, v: map<RowKey, Row>, ops: seq<Op>, i: nat)
    requires n > 0 && forall k :: k in v ==> Route(h, k, n) == i
    ensures forall k :: k in RunView(pk, v, OpGroup(h, n, pk, ops, i)) ==> Route(h, k, n) == i
  {
    if ops != [] {
      var m := |ops| - 1;
      var before := RunView(pk, v, OpGroup(h, n, pk, ops[..m], i));
      GroupStaysRouted(h, n, pk, v, ops[..m], i);
      GroupNext(h, n, pk, v, ops, i);
      assert forall k :: k in StepView(pk, before, ops[m]) ==> k in before || k == OpKey(pk, ops[m]);
    }
  }

  lemma {:induction false} KeyedRun(pk: seq<string>, v: map<RowKey, Row>, ops: seq<Op>)
    ensures TableRun(pk, Keyed(v), ops) == Keyed(RunView(pk, v, ops))
  {
    if ops != [] {
      KeyedRun(pk, v, ops[..|ops| - 1]);
    }
  }

  /** Each partition runs its own group of the changes. */
  ghost predicate RanGroups(h: Hash, pk: seq<string>, ts: seq<Table>, ts': seq<Table>, ops: seq<Op>) {
    && |ts'| == |ts| > 0
    && forall i :: 0 <= i < |ts| ==> ts[i].Keyed? && ts'[i] == TableRun(pk, ts[i], OpGroup(h, |ts|, pk, ops, i))
  }

  lemma RanGroupsAt(h: Hash, pk: seq<string>, ts: seq<Table>, ts': seq<Table>, ops: seq<Op>, i: nat)
    requires RanGroups(h, pk, ts, ts', ops) && i < |ts|
    ensures MapOf(ts'[i]) == RunView(pk, MapOf(ts[i]), OpGroup(h, |ts|, pk, ops, i))
  {
    KeyedRun(pk, ts[i].rows, OpGroup(h, |ts|, pk, ops, i));
  }

  lemma GroupsStayRouted(h: Hash, pk: seq<string>, ts: seq<Table>, ts': seq<Table>, ops: seq<Op>)
    requires RanGroups(h, pk, ts, ts', ops) && Routed(h, |ts|, ts)
    ensures Routed(h, |ts|, ts')
  {
    forall i, k | 0 <= i < |ts'| && k in MapOf(ts'[i])
      ensures Route(h, k, |ts|) == i
    {
      RanGroupsAt(h, pk, ts, ts', ops, i);
      GroupStaysRouted(h, |ts|, pk, MapOf(ts[i]), ops, i);
    }
  }

  lemma GroupsLookup(h: Hash, pk: seq<string>, ts: seq<Table>, ts': seq<Table>, ops: seq<Op>, k: RowKey)
    requires RanGroups(h, pk, ts, ts', ops) && Routed(h, |ts|, ts) && Routed(h, |ts|, ts')
    ensures SameAt(UnionOf(ts'), RunView(pk, UnionOf(ts), ops), k)
  {
    var i := Route(h, k, |ts|);
    UnionLookup(h, |ts|, ts, k);
    UnionLookup(h, |ts|, ts', k);
    RanGroupsAt(h, pk, ts, ts', ops, i);
    GroupedLookup(h, |ts|, pk, UnionOf(ts), MapOf(ts[i]), ops, k);
  }

  /** When every partition runs its group of the changes, the table as a whole runs them all, in
      order; keys stay where they route. */
  lemma GroupsRunTable(h: Hash, pk: seq<string>, ts: seq<Table>, ts': seq<Table>, ops: seq<Op>)
    requires pk != [] && RanGroups(h, pk, ts, ts', ops) && Routed(h, |ts|, ts)
    ensures Routed(h, |ts|, ts')
    ensures Together(pk, ts') == TableRun(pk, Together(pk, ts), ops)
  {
    GroupsStayRouted(h, pk, ts, ts', ops);
    KeyedRun(pk, UnionOf(ts), ops);
    var v, w := UnionOf(ts'), RunView(pk, UnionOf(ts), ops);
    forall k: RowKey
      ensures SameAt(v, w, k)
    {
      GroupsLookup(h, pk, ts, ts', ops, k);
    }
    SameMaps(v, w);
  }

  lemma SameMaps(v: map<RowKey, Row>, w: map<RowKey, Row>)
    requires forall k :: SameAt(v, w, k)
    ensures v == w
  {
    assert forall k :: (k in v <==> k in w) && (k in v ==> v[k] == w[k]) by {
      forall k
        ensures (k in v <==> k in w) && (k in v ==> v[k] == w[k])
      {
        assert SameAt(v, w, k);
      }
    }
  }

  // ---------------------------------------------------------------- tables without a primary key

  lemma {:induction false} BagRun(pk: seq<string>, b: multiset<Row>, rows: seq<Row>)
    ensures TableRun(pk, Bag(b), Puts(rows)) == Bag(b + multiset(rows))
  {
    if rows != [] {
      var n := |rows| - 1;
      BagRun(pk, b, rows[..n]);
      assert Puts(rows)[..n] == Puts(rows[..n]);
      assert rows == rows[..n] + [rows[n]];
    }
  }

  /** Each partition took one slice. */
  ghost predicate RanSlices(ts: seq<Table>, ts': seq<Table>, slices: seq<seq<Row>>) {
    && |ts'| == |ts| == |slices|
    && forall i :: 0 <= i < |ts| ==> ts[i].Bag? && ts'[i] == Bag(ts[i].bag + multiset(slices[i]))
  }

  lemma {:induction false} SlicesSum(ts: seq<Table>, ts': seq<Table>, slices: seq<seq<Row>>)
    requires RanSlices(ts, ts', slices)
    ensures SumOf(ts') == SumOf(ts) + multiset(Flatten(slices))
  {
    if ts != [] {
      var n := |ts| - 1;
      SlicesSum(ts[..n], ts'[..n], slices[..n]);
    }
  }

  /** Where partition `i`'s slice starts. */
  function SliceStart(total: nat, per: nat, i: nat): (at: nat)
    ensures at <= total
  {
    if i * per < total then i * per else total
  }

  lemma StartsAscend(total: nat, per: nat, i: nat)
    ensures SliceStart(total, per, i) <= SliceStart(total, per, i + 1)
    ensures SliceStart(total, per, i) == i * per < total ==>
              SliceStart(total, per, i + 1) == i * per + Min(per, total - i * per)
    ensures i * per >= total ==> SliceStart(total, per, i + 1) == total
  {
    assert (i + 1) * per == i * per + per;
  }

  lemma CeilCovers(total: nat, n: nat)
    requires n > 0
    ensures n * ((total + n - 1) / n) >= total
  {
    var per := (total + n - 1) / n;
    assert total + n - 1 == n * per + (total + n - 1) % n;
  }

  /** The slice of a batch that partition `i` takes when each takes `per` rows. */
  function Slice(rows: seq<Row>, per: nat, i: nat): seq<Row> {
    StartsAscend(|rows|, per, i);
    rows[SliceStart(|rows|, per, i)..SliceStart(|rows|, per, i + 1)]
  }

  lemma {:induction false} SlicesCover(rows: seq<Row>, per: nat, slices: seq<seq<Row>>)
    requires forall i :: 0 <= i < |slices| ==> slices[i] == Slice(rows, per, i)
    ensures Flatten(slices) == rows[..SliceStart(|rows|, per, |slices|)]
  {
    if slices == [] {
      assert SliceStart(|rows|, per, 0) == 0;
    } else {
      var m := |slices| - 1;
      SlicesCover(rows, per, slices[..m]);
      StartsAscend(|rows|, per, m);
      hide SliceStart;
      SlicesJoin(rows, SliceStart(|rows|, per, m), SliceStart(|rows|, per, m + 1));
    }
  }

  lemma SlicesJoin<T>(xs: seq<T>, i: nat, j: nat)
    requires i <= j <= |xs|
    ensures xs[..i] + xs[i..j] == xs[..j]
  {
  }

  /** Rows per partition, rounded up. */
  function PerPartition(total: nat, n: nat): nat
    requires n > 0
  {
    (total + n - 1) / n
  }

  lemma AllCovered(rows: seq<Row>, n: nat)
    requires n > 0
    ensures SliceStart(|rows|, PerPartition(|rows|, n), n) == |rows|
  {
    CeilCovers(|rows|, n);
  }

  /** When every partition appends its slice, the table gains exactly the batch. */
  lemma SlicesRunTable(ts: seq<Table>, ts': seq<Table>, rows: seq<Row>, slices: seq<seq<Row>>)
    requires RanSlices(ts, ts', slices) && |ts| > 0
    requires forall i :: 0 <= i < |slices| ==> slices[i] == Slice(rows, PerPartition(|rows|, |ts|), i)
    ensures Together([], ts') == TableRun([], Together([], ts), Puts(rows))
  {
    SlicesSum(ts, ts', slices);
    SlicesCover(rows, PerPartition(|rows|, |ts|), slices);
    AllCovered(rows, |ts|);
    assert rows[..|rows|] == rows;
    hide SumOf, Flatten, TableRun, PerPartition, Slice, SliceStart, RanSlices;
    BagRun([], SumOf(ts), rows);
  }

  // ---------------------------------------------------------------- what a run of puts or deletes means

  /** The last of the rows with a given key. */
  function LastWith(pk: seq<string>, rows: seq<Row>, k: RowKey): Option<Row> {
    if rows == [] then None
    else if KeyAt(pk, rows[|rows| - 1]) == k then Some(rows[|rows| - 1])
    else LastWith(pk, rows[..|rows| - 1], k)
  }

  /** After a write, a key has the last of its rows in the batch, or else the row it had. */
  lemma {:induction false} LastRowWins(pk: seq<string>, v: map<RowKey, Row>, rows: seq<Row>, k: RowKey)
    ensures var w := RunView(pk, v, Puts(rows));
            match LastWith(pk, rows, k)
            case Some(row) => k in w && w[k] == row
            case None => SameAt(w, v, k)
  {
    if rows != [] {
      var n := |rows| - 1;
      LastRowWins(pk, v, rows[..n], k);
      assert Puts(rows)[..n] == Puts(rows[..n]);
    }
  }

  ghost function KeySet(keys: seq<RowKey>): (ks: set<RowKey>)
    ensures forall k :: k in ks <==> k in keys
  {
    set k | k in keys
  }

  lemma KeySetLast(keys: seq<RowKey>)
    requires keys != []
    ensures KeySet(keys) == KeySet(keys[..|keys| - 1]) + {keys[|keys| - 1]}
  {
    assert keys == keys[..|keys| - 1] + [keys[|keys| - 1]];
  }

  /** A delete removes exactly the given keys. */
  lemma {:induction false} DeletedKeys(pk: seq<string>, v: map<RowKey, Row>, keys: seq<RowKey>)
    ensures RunView(pk, v, Dels(keys)) == v - KeySet(keys)
  {
    if keys != [] {
      var n := |keys| - 1;
      DeletedKeys(pk, v, keys[..n]);
      assert Dels(keys)[..n] == Dels(keys[..n]);
      KeySetLast(keys);
      hide KeySet;
    } else {
      assert v - KeySet(keys) == v;
    }
  }

  // ---------------------------------------------------------------- how many keys a delete finds

  /** How many of the requested keys are in the table, a repeated one counted each time. */
  function Hits(present: set<RowKey>, keys: seq<RowKey>): nat {
    if keys == [] then 0 else Hits(present, keys[..|keys| - 1]) + (if keys[|keys| - 1] in present then 1 else 0)
  }

  /** The same, over the keys of the first `m` partitions only. */
  ghost function HitsBelow(h: Hash, ts: seq<Table>, keys: seq<RowKey>, m: nat): nat
    requires |ts| > 0
  {
    if keys == [] then 0
    else
      var last := keys[|keys| - 1];
      var i := Route(h, last, |ts|);
      HitsBelow(h, ts, keys[..|keys| - 1], m) + (if i < m && last in MapOf(ts[i]) then 1 else 0)
  }

  lemma {:induction false} HitsOfGroup(h: Hash, ts: seq<Table>, keys: seq<RowKey>, m: nat)
    requires m < |ts|
    ensures HitsBelow(h, ts, keys, m + 1) ==
            HitsBelow(h, ts, keys, m) + Hits(MapOf(ts[m]).Keys, Pick(keys, KeyGroup(h, |ts|, keys, m)))
  {
    if keys != [] {
      var last := |keys| - 1;
      var init := KeyGroup(h, |ts|, keys[..last], m);
      HitsOfGroup(h, ts, keys[..last], m);
      assert Pick(keys, init) == Pick(keys[..last], init);
      assert Pick(keys, init + [last])[..|init|] == Pick(keys, init) && init + [] == init;
      hide Pick, Route;
    }
  }

  lemma {:induction false} NoHitsBelow(h: Hash, ts: seq<Table>, keys: seq<RowKey>)
    requires |ts| > 0
    ensures HitsBelow(h, ts, keys, 0) == 0
  {
    if keys != [] {
      NoHitsBelow(h, ts, keys[..|keys| - 1]);
    }
  }

  lemma {:induction false} AllHitsBelow(h: Hash, ts: seq<Table>, keys: seq<RowKey>)
    requires Routed(h, |ts|, ts)
    ensures HitsBelow(h, ts, keys, |ts|) == Hits(UnionOf(ts).Keys, keys)
  {
    if keys != [] {
      AllHitsBelow(h, ts, keys[..|keys| - 1]);
      UnionLookup(h, |ts|, ts, keys[|keys| - 1]);
      hide Routed, UnionOf, MapOf;
    }
  }

  lemma {:induction false} PresentHits(ix: Index, v: map<RowKey, Row>, pk: seq<string>, keys: seq<RowKey>)
    requires v.Keys == ix.Keys
    ensures |PresentKeys(ix, keys)| == Hits(v.Keys, keys)
    ensures RunView(pk, v, Dels(PresentKeys(ix, keys))) == RunView(pk, v, Dels(keys))
  {
    if keys != [] {
      PresentHits(ix, v, pk, keys[..|keys| - 1]);
    }
    forall k
      ensures k in PresentKeys(ix, keys) <==> k in keys && k in v
    {
      PresentMembers(ix, keys, k);
    }
    DeletedKeys(pk, v, keys);
    DeletedKeys(pk, v, PresentKeys(ix, keys));
    hide PresentKeys, RunView;
  }

  lemma {:induction false} PresentMembers(ix: Index, keys: seq<RowKey>, k: RowKey)
    ensures k in PresentKeys(ix, keys) <==> k in keys && k in ix
  {
    if keys != [] {
      PresentMembers(ix, keys[..|keys| - 1], k);
      assert keys == keys[..|keys| - 1] + [keys[|keys| - 1]];
    }
  }

  /** No key that exists is asked for twice. */
  ghost predicate NoRepeatedHit(v: map<RowKey, Row>, keys: seq<RowKey>) {
    forall i, j :: 0 <= i < j < |keys| && keys[i] in v ==> keys[i] != keys[j]
  }

  /** The count is how many rows a delete removes, exactly when no existing key is asked for twice. */
  lemma {:induction false} DeletedCount(v: map<RowKey, Row>, keys: seq<RowKey>)
    ensures |v| <= |v - KeySet(keys)| + Hits(v.Keys, keys)
    ensures |v| == |v - KeySet(keys)| + Hits(v.Keys, keys) <==> NoRepeatedHit(v, keys)
  {
    if keys == [] {
      assert v - KeySet(keys) == v;
    } else {
      DeletedCount(v, keys[..|keys| - 1]);
      RemoveLast(v, keys);
      LastRepeats(v, keys);
      hide NoRepeatedHit;
    }
  }

  lemma RemoveLast(v: map<RowKey, Row>, keys: seq<RowKey>)
    requires keys != []
    ensures var n := |keys| - 1;
            |v - KeySet(keys[..n])| ==
            |v - KeySet(keys)| + if keys[n] in v && keys[n] !in keys[..n] then 1 else 0
  {
    var n := |keys| - 1;
    KeySetLast(keys);
    hide KeySet;
    RemoveMore(v, KeySet(keys[..n]), keys[n]);
  }

  lemma RemoveMore(v: map<RowKey, Row>, s: set<RowKey>, k: RowKey)
    ensures |v - s| == |v - (s + {k})| + if k in v && k !in s then 1 else 0
  {
    assert (v - (s + {k})).Keys == v.Keys - s - {k} && (v - s).Keys == v.Keys - s;
    assert |v - s| == |(v - s).Keys| && |v - (s + {k})| == |(v - (s + {k})).Keys|;
    if k in v && k !in s {
      assert |v.Keys - s - {k}| == |v.Keys - s| - 1;
    } else {
      assert v.Keys - s - {k} == v.Keys - s;
    }
  }

  lemma LastRepeats(v: map<RowKey, Row>, keys: seq<RowKey>)
    requires keys != []
    ensures var n := |keys| - 1;
            NoRepeatedHit(v, keys) <==> NoRepeatedHit(v, keys[..n]) && !(keys[n] in v && keys[n] in keys[..n])
  {
    var n := |keys| - 1;
    if keys[n] in v && keys[n] in keys[..n] {
      var i :| 0 <= i < n && keys[i] == keys[n];
    }
  }

  // ---------------------------------------------------------------- the rows of a table

  /** The rows are the table's, each of them once. */
  ghost predicate Lists(t: Table, pk: seq<string>, rows: seq<Row>) {
    match t
    case Bag(b) => multiset(rows) == b
    case Keyed(v) =>
      && Distinct(KeysAt(pk, rows))
      && (forall p :: 0 <= p < |rows| ==> KeyAt(pk, rows[p]) in v && v[KeyAt(pk, rows[p])] == rows[p])
      && (forall k :: k in v ==> k in KeysAt(pk, rows))
  }

  lemma ObservedLists(s: State)
    requires Valid(s)
    ensures Lists(Observe(s), s.pk, Visible(s.store, s.next))
  {
    if s.pk != [] {
      VisibleIsView(s.pk, s.store, s.index, s.next);
    }
  }

  ghost predicate AllList(ts: seq<Table>, pk: seq<string>, parts: seq<seq<Row>>) {
    |ts| == |parts| && forall i :: 0 <= i < |ts| ==> Lists(ts[i], pk, parts[i])
  }

  lemma {:induction false} BagsList(ts: seq<Table>, pk: seq<string>, parts: seq<seq<Row>>)
    requires AllList(ts, pk, parts) && forall i :: 0 <= i < |ts| ==> ts[i].Bag?
    ensures multiset(Flatten(parts)) == SumOf(ts)
  {
    if ts != [] {
      BagsList(ts[..|ts| - 1], pk, parts[..|parts| - 1]);
    }
  }

  /** Lists of two tables without a key in common make a list of both. */
  lemma ConcatLists(v: map<RowKey, Row>, w: map<RowKey, Row>, pk: seq<string>, a: seq<Row>, b: seq<Row>)
    requires Lists(Keyed(v), pk, a) && Lists(Keyed(w), pk, b) && v.Keys !! w.Keys
    ensures Lists(Keyed(v + w), pk, a + b)
  {
    ListedKeys(v, pk, a);
    ListedKeys(w, pk, b);
    var ka, kb := KeysAt(pk, a), KeysAt(pk, b);
    assert KeysAt(pk, a + b) == ka + kb;
    ConcatDistinct(ka, kb);
    hide Distinct, KeyAt;
    assert forall p :: 0 <= p < |b| ==> KeyAt(pk, b[p]) in w && w[KeyAt(pk, b[p])] == b[p];
    forall p | 0 <= p < |a|
      ensures KeyAt(pk, a[p]) in v && KeyAt(pk, a[p]) !in w && v[KeyAt(pk, a[p])] == a[p]
    {
      assert ka[p] in ka;
    }
  }

  lemma KeyedConcat(h: Hash, n: nat, pk: seq<string>, ts: seq<Table>, a: seq<Row>, b: seq<Row>)
    requires Routed(h, n, ts) && ts != [] && ts[|ts| - 1].Keyed?
    requires Lists(Keyed(UnionOf(ts[..|ts| - 1])), pk, a) && Lists(ts[|ts| - 1], pk, b)
    ensures Lists(Keyed(UnionOf(ts)), pk, a + b)
  {
    var before, last := UnionOf(ts[..|ts| - 1]), MapOf(ts[|ts| - 1]);
    forall k | k in before
      ensures k !in last
    {
      UnionLookup(h, n, ts[..|ts| - 1], k);
    }
    hide Lists;
    ConcatLists(before, last, pk, a, b);
  }

  lemma ListedKeys(v: map<RowKey, Row>, pk: seq<string>, rows: seq<Row>)
    requires Lists(Keyed(v), pk, rows)
    ensures forall k :: k in KeysAt(pk, rows) ==> k in v
  {
  }

  lemma {:induction false} KeyedList(h: Hash, n: nat, pk: seq<string>, ts: seq<Table>, parts: seq<seq<Row>>)
    requires Routed(h, n, ts) && AllList(ts, pk, parts) && forall i :: 0 <= i < |ts| ==> ts[i].Keyed?
    ensures Lists(Keyed(UnionOf(ts)), pk, Flatten(parts))
  {
    if ts == [] {
      assert Flatten(parts) == [];
    } else {
      var m := |ts| - 1;
      KeyedList(h, n, pk, ts[..m], parts[..m]);
      hide Lists, Routed;
      KeyedConcat(h, n, pk, ts, Flatten(parts[..m]), parts[m]);
    }
  }

  /** Rows listed partition by partition are the table's rows. */
  lemma PartsList(h: Hash, pk: seq<string>, ts: seq<Table>, parts: seq<seq<Row>>)
    requires AllList(ts, pk, parts)
    requires if pk == [] then forall i :: 0 <= i < |ts| ==> ts[i].Bag?
             else (forall i :: 0 <= i < |ts| ==> ts[i].Keyed?) && Routed(h, |ts|, ts)
    ensures Lists(Together(pk, ts), pk, Flatten(parts))
  {
    if pk == [] {
      BagsList(ts, pk, parts);
    } else {
      hide Lists, Routed;
      KeyedList(h, |ts|, pk, ts, parts);
    }
  }
}
