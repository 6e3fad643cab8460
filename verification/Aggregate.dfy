/** Grouped aggregation: partial tables per partition, merged on the coordinator
    (crates/adb-exec/src/aggregate.rs: Aggregator; lib.rs: run_aggregate). */
module Aggregation {
  import opened Values
  import opened Pruning
  import opened AggStates
  import opened Memtables

  datatype AggregateExpr = AggregateExpr(func: AggregateFunc, column: Option<string>, alias: string)

  datatype AggregateSpec = AggregateSpec(groupBy: seq<string>, aggregates: seq<AggregateExpr>)

  /** The types of the scanned columns. */
  type Types = map<string, DataType>

  /** The group table: keys in order of first occurrence, and each key's states. */
  datatype Groups = Groups(keys: seq<RowKey>, states: map<RowKey, seq<AggState>>)

  function ArgumentType(types: Types, agg: AggregateExpr): Option<DataType> {
    if agg.column.Some? && agg.column.value in types then Some(types[agg.column.value]) else None
  }

  function FreshStates(spec: AggregateSpec, types: Types): (s: seq<AggState>)
    ensures |s| == |spec.aggregates|
    ensures forall j :: 0 <= j < |s| ==> s[j] == New(spec.aggregates[j].func, ArgumentType(types, spec.aggregates[j]))
  {
    seq(|spec.aggregates|, j requires 0 <= j < |spec.aggregates| =>
      New(spec.aggregates[j].func, ArgumentType(types, spec.aggregates[j])))
  }

  function Input(agg: AggregateExpr, row: Row): Option<Value> {
    if agg.column == None then None else Some(Cell(row, agg.column.value))
  }

  // ---------------------------------------------------------------- what aggregation means

  /** The rows of one group. */
  function KeyRows(cols: seq<string>, rows: seq<Row>, k: RowKey): seq<Row> {
    if rows == [] then []
    else
      var last := rows[|rows| - 1];
      KeyRows(cols, rows[..|rows| - 1], k) + (if KeyAt(cols, last) == k then [last] else [])
  }

  /** The group keys in order of first occurrence. */
  function FirstKeys(cols: seq<string>, rows: seq<Row>): seq<RowKey> {
    if rows == [] then []
    else
      var before, k := FirstKeys(cols, rows[..|rows| - 1]), KeyAt(cols, rows[|rows| - 1]);
      if k in before then before else before + [k]
  }

  function InputsOf(agg: AggregateExpr, rows: seq<Row>): (inputs: seq<Option<Value>>)
    ensures |inputs| == |rows| && forall i :: 0 <= i < |rows| ==> inputs[i] == Input(agg, rows[i])
  {
    seq(|rows|, i requires 0 <= i < |rows| => Input(agg, rows[i]))
  }

  /** The states after folding rows in one pass. */
  function FoldRows(spec: AggregateSpec, types: Types, rows: seq<Row>): (s: seq<AggState>)
    ensures |s| == |spec.aggregates|
    ensures forall j :: 0 <= j < |s| ==>
              s[j] == Fold(New(spec.aggregates[j].func, ArgumentType(types, spec.aggregates[j])),
                           InputsOf(spec.aggregates[j], rows))
  {
    seq(|spec.aggregates|, j requires 0 <= j < |spec.aggregates| =>
      Fold(New(spec.aggregates[j].func, ArgumentType(types, spec.aggregates[j])), InputsOf(spec.aggregates[j], rows)))
  }

  /** The group table of a sequence of rows, folded group by group in one pass. */
  function GroupsOf(spec: AggregateSpec, types: Types, rows: seq<Row>): Groups {
    var keys := FirstKeys(spec.groupBy, rows);
    Groups(keys, map k | k in keys :: FoldRows(spec, types, KeyRows(spec.groupBy, rows, k)))
  }

  /** The integers a sum may be computed from in parts: of one sign, or within 64 bits on either side. Without
      groups, where columns are added up by a kernel, sums and averages need the latter. */
  predicate SumFits(vectorized: bool, func: AggregateFunc, inputs: seq<Option<Value>>) {
    match func
    case SumOf =>
      if vectorized then InWord(PosSum(inputs), NegSum(inputs)) else Splittable(PosSum(inputs), NegSum(inputs))
    case AvgOf => vectorized ==> InWord(PosSum(inputs), NegSum(inputs))
    case CountOf => true
    case MinFunc => true
    case MaxFunc => true
  }

  lemma SumFitsPart(vectorized: bool, func: AggregateFunc, a: seq<Option<Value>>, b: seq<Option<Value>>)
    requires SumFits(vectorized, func, a + b)
    ensures SumFits(vectorized, func, a) && SumFits(vectorized, func, b)
    ensures func.SumOf? ==> Splittable(PosSum(a) + PosSum(b), NegSum(a) + NegSum(b))
    ensures vectorized && (func.SumOf? || func.AvgOf?) ==> InWord(PosSum(a) + PosSum(b), NegSum(a) + NegSum(b))
  {
    SumsConcat(a, b);
    hide PosSum, NegSum;
  }

  /** Every sum fits, in every group. */
  ghost predicate Bounded(spec: AggregateSpec, rows: seq<Row>) {
    forall k: RowKey, j :: 0 <= j < |spec.aggregates| ==>
      SumFits(spec.groupBy == [], spec.aggregates[j].func, InputsOf(spec.aggregates[j], KeyRows(spec.groupBy, rows, k)))
  }

  /** Every sum over the whole of the rows fits. */
  ghost predicate AllFit(spec: AggregateSpec, vectorized: bool, rows: seq<Row>) {
    forall j :: 0 <= j < |spec.aggregates| ==>
      SumFits(vectorized, spec.aggregates[j].func, InputsOf(spec.aggregates[j], rows))
  }

  // ---------------------------------------------------------------- groups of concatenated rows

  lemma {:induction false} KeyRowsConcat(cols: seq<string>, a: seq<Row>, b: seq<Row>, k: RowKey)
    ensures KeyRows(cols, a + b, k) == KeyRows(cols, a, k) + KeyRows(cols, b, k)
  {
    if b == [] {
      assert a + b == a;
    } else {
      assert (a + b)[..|a + b| - 1] == a + b[..|b| - 1];
      KeyRowsConcat(cols, a, b[..|b| - 1], k);
    }
  }

  lemma {:induction false} FirstKeysMembers(cols: seq<string>, rows: seq<Row>, k: RowKey)
    ensures k in FirstKeys(cols, rows) <==> KeyRows(cols, rows, k) != []
  {
    if rows != [] {
      FirstKeysMembers(cols, rows[..|rows| - 1], k);
    }
  }

  /** The keys of `more` that are not among `keys`. */
  function Missing(keys: seq<RowKey>, more: seq<RowKey>): seq<RowKey> {
    if more == [] then []
    else
      var last := more[|more| - 1];
      Missing(keys, more[..|more| - 1]) + (if last in keys then [] else [last])
  }

  lemma {:induction false} MissingMembers(keys: seq<RowKey>, more: seq<RowKey>, k: RowKey)
    ensures k in Missing(keys, more) <==> k in more && k !in keys
  {
    if more != [] {
      MissingMembers(keys, more[..|more| - 1], k);
      assert more == more[..|more| - 1] + [more[|more| - 1]];
    }
  }

  /** First occurrences in the concatenation: those of the first part, then the new ones. */
  lemma {:induction false} FirstKeysConcat(cols: seq<string>, a: seq<Row>, b: seq<Row>)
    ensures FirstKeys(cols, a + b) == FirstKeys(cols, a) + Missing(FirstKeys(cols, a), FirstKeys(cols, b))
  {
    if b == [] {
      assert a + b == a;
    } else {
      var n := |b| - 1;
      var k := KeyAt(cols, b[n]);
      var before := FirstKeys(cols, b[..n]);
      assert (a + b)[..|a + b| - 1] == a + b[..n];
      FirstKeysConcat(cols, a, b[..n]);
      MissingMembers(FirstKeys(cols, a), before, k);
      assert (before + [k])[..|before|] == before;
    }
  }

  lemma InputsConcat(agg: AggregateExpr, a: seq<Row>, b: seq<Row>)
    ensures InputsOf(agg, a + b) == InputsOf(agg, a) + InputsOf(agg, b)
  {
  }

  /** Merges state by state. */
  function MergeAll(s: seq<AggState>, t: seq<AggState>): Option<seq<AggState>> {
    if |s| != |t| then None
    else if s == [] then Some([])
    else
      var n := |s| - 1;
      match (MergeAll(s[..n], t[..n]), Merge(s[n], t[n]))
      case (Some(before), Some(last)) => Some(before + [last])
      case _ => None
  }

  /** Merging the states of two stretches of one group is folding both in one pass. */
  lemma FoldRowsMerge(spec: AggregateSpec, types: Types, a: seq<Row>, b: seq<Row>)
    requires AllFit(spec, spec.groupBy == [], a + b)
    ensures MergeAll(FoldRows(spec, types, a), FoldRows(spec, types, b)) == Some(FoldRows(spec, types, a + b))
  {
    forall j | 0 <= j < |spec.aggregates|
      ensures Merge(FoldRows(spec, types, a)[j], FoldRows(spec, types, b)[j]) == Some(FoldRows(spec, types, a + b)[j])
    {
      var agg := spec.aggregates[j];
      InputsConcat(agg, a, b);
      SumFitsPart(spec.groupBy == [], agg.func, InputsOf(agg, a), InputsOf(agg, b));
      MergeIsOnePass(agg.func, ArgumentType(types, agg), InputsOf(agg, a), InputsOf(agg, b));
    }
    MergeAllIs(FoldRows(spec, types, a), FoldRows(spec, types, b), FoldRows(spec, types, a + b));
  }

  lemma {:induction false} MergeAllIs(s: seq<AggState>, t: seq<AggState>, r: seq<AggState>)
    requires |s| == |t| == |r| && forall j :: 0 <= j < |s| ==> Merge(s[j], t[j]) == Some(r[j])
    ensures MergeAll(s, t) == Some(r)
  {
    if s != [] {
      var n := |s| - 1;
      MergeAllIs(s[..n], t[..n], r[..n]);
      assert r == r[..n] + [r[n]];
    }
    hide Merge;
  }

  // ---------------------------------------------------------------- merging tables

  /** A key's states once the keys `done` of `h` have been merged into `g`. */
  function StatesAfter(g: Groups, h: Groups, done: seq<RowKey>, k: RowKey): Option<seq<AggState>> {
    if k in done && k in h.states then
      if k in g.states then MergeAll(g.states[k], h.states[k]) else Some(h.states[k])
    else if k in g.states then Some(g.states[k])
    else None
  }

  ghost predicate Merged(g: Groups, h: Groups, done: seq<RowKey>, r: Groups) {
    && r.keys == g.keys + Missing(g.keys, done)
    && forall k :: (k in r.states <==> k in r.keys)
                   && (k in r.states ==> StatesAfter(g, h, done, k) == Some(r.states[k]))
  }

  lemma GroupsAt(spec: AggregateSpec, types: Types, rows: seq<Row>, k: RowKey)
    ensures var g, group := GroupsOf(spec, types, rows), KeyRows(spec.groupBy, rows, k);
            && (k in g.states <==> group != []) && (k in FirstKeys(spec.groupBy, rows) <==> group != [])
            && (group != [] ==> g.states[k] == FoldRows(spec, types, group))
  {
    FirstKeysMembers(spec.groupBy, rows, k);
    hide FirstKeys, KeyRows, FoldRows;
  }

  lemma MergedState(spec: AggregateSpec, types: Types, a: seq<Row>, b: seq<Row>, k: RowKey)
    requires Bounded(spec, a + b)
    ensures var cols := spec.groupBy;
            StatesAfter(GroupsOf(spec, types, a), GroupsOf(spec, types, b), FirstKeys(cols, b), k) ==
            if KeyRows(cols, a + b, k) == [] then None else Some(FoldRows(spec, types, KeyRows(cols, a + b, k)))
  {
    var cols := spec.groupBy;
    KeyRowsConcat(cols, a, b, k);
    GroupsAt(spec, types, a, k);
    GroupsAt(spec, types, b, k);
    FoldRowsMergeIf(spec, types, a, b, k);
    hide GroupsOf, FoldRows, KeyRows, FirstKeys, MergeAll, Bounded;
    NothingAdded(KeyRows(cols, a, k), KeyRows(cols, b, k));
  }

  lemma FoldRowsMergeIf(spec: AggregateSpec, types: Types, a: seq<Row>, b: seq<Row>, k: RowKey)
    requires Bounded(spec, a + b)
    ensures MergeAll(FoldRows(spec, types, KeyRows(spec.groupBy, a, k)),
                     FoldRows(spec, types, KeyRows(spec.groupBy, b, k))) ==
            Some(FoldRows(spec, types, KeyRows(spec.groupBy, a, k) + KeyRows(spec.groupBy, b, k)))
  {
    KeyRowsConcat(spec.groupBy, a, b, k);
    assert AllFit(spec, spec.groupBy == [], KeyRows(spec.groupBy, a + b, k));
    FoldRowsMerge(spec, types, KeyRows(spec.groupBy, a, k), KeyRows(spec.groupBy, b, k));
  }

  /** Merging the tables of two stretches of rows gives the table of both: the same groups, in the same
      order, with the same states. */
  lemma MergedIsOnePass(spec: AggregateSpec, types: Types, a: seq<Row>, b: seq<Row>, r: Groups)
    requires Bounded(spec, a + b) && Merged(GroupsOf(spec, types, a), GroupsOf(spec, types, b),
                                            FirstKeys(spec.groupBy, b), r)
    ensures r == GroupsOf(spec, types, a + b)
  {
    var cols := spec.groupBy;
    FirstKeysConcat(cols, a, b);
    forall k: RowKey
      ensures (k in r.states <==> k in FirstKeys(cols, a + b))
      ensures k in r.states ==> r.states[k] == FoldRows(spec, types, KeyRows(cols, a + b, k))
    {
      MergedState(spec, types, a, b, k);
    }
    assert r.keys == FirstKeys(cols, a + b);
    hide *;
    SameGroups(r, spec, types, a + b);
  }

  lemma SameGroups(r: Groups, spec: AggregateSpec, types: Types, rows: seq<Row>)
    requires r.keys == FirstKeys(spec.groupBy, rows) && forall k :: k in r.states <==> k in r.keys
    requires forall k :: k in r.states ==> r.states[k] == FoldRows(spec, types, KeyRows(spec.groupBy, rows, k))
    ensures r == GroupsOf(spec, types, rows)
  {
    hide FoldRows, KeyRows, FirstKeys;
    assert r.states == GroupsOf(spec, types, rows).states;
  }

  // ---------------------------------------------------------------- adding one row

  function UpdateAll(spec: AggregateSpec, s: seq<AggState>, row: Row): (r: seq<AggState>)
    requires |s| == |spec.aggregates|
    ensures |r| == |s| && forall j :: 0 <= j < |s| ==> r[j] == Update(s[j], Input(spec.aggregates[j], row))
  {
    seq(|s|, j requires 0 <= j < |s| => Update(s[j], Input(spec.aggregates[j], row)))
  }

  lemma FoldRowsNext(spec: AggregateSpec, types: Types, rows: seq<Row>, row: Row)
    ensures FoldRows(spec, types, rows + [row]) == UpdateAll(spec, FoldRows(spec, types, rows), row)
    ensures FoldRows(spec, types, []) == FreshStates(spec, types)
  {
    forall j | 0 <= j < |spec.aggregates|
      ensures FoldRows(spec, types, rows + [row])[j] == UpdateAll(spec, FoldRows(spec, types, rows), row)[j]
    {
      assert InputsOf(spec.aggregates[j], rows + [row])[..|rows|] == InputsOf(spec.aggregates[j], rows);
    }
  }

  /** The states a row's group has before the row is added. */
  function StatesFor(spec: AggregateSpec, types: Types, g: Groups, k: RowKey): seq<AggState> {
    if k in g.states then g.states[k] else FreshStates(spec, types)
  }

  lemma KeyRowsNext(cols: seq<string>, rows: seq<Row>, row: Row, k: RowKey)
    ensures KeyRows(cols, rows + [row], k) == if KeyAt(cols, row) == k then KeyRows(cols, rows, k) + [row]
            else KeyRows(cols, rows, k)
  {
    assert (rows + [row])[..|rows|] == rows;
    hide KeyAt;
  }

  lemma GroupAfter(spec: AggregateSpec, types: Types, rows: seq<Row>, row: Row, k': RowKey)
    ensures var g, r, k := GroupsOf(spec, types, rows), GroupsOf(spec, types, rows + [row]), KeyAt(spec.groupBy, row);
            && (k' in r.states <==> k' in g.states || k' == k)
            && (k' in r.states && k' != k ==> r.states[k'] == g.states[k'])
            && (k' == k ==> r.states[k'] == FoldRows(spec, types, KeyRows(spec.groupBy, rows, k) + [row]))
  {
    hide *;
    KeyRowsNext(spec.groupBy, rows, row, k');
    GroupsAt(spec, types, rows, k');
    GroupsAt(spec, types, rows + [row], k');
  }

  lemma GroupsNextStates(spec: AggregateSpec, types: Types, rows: seq<Row>, row: Row)
    ensures var g, r, k := GroupsOf(spec, types, rows), GroupsOf(spec, types, rows + [row]), KeyAt(spec.groupBy, row);
            && |StatesFor(spec, types, g, k)| == |spec.aggregates|
            && r.states == g.states[k := UpdateAll(spec, StatesFor(spec, types, g, k), row)]
  {
    var cols, k := spec.groupBy, KeyAt(spec.groupBy, row);
    var g, r := GroupsOf(spec, types, rows).states, GroupsOf(spec, types, rows + [row]).states;
    var group := KeyRows(cols, rows, k);
    FoldRowsNext(spec, types, group, row);
    GroupsAt(spec, types, rows, k);
    assert StatesFor(spec, types, GroupsOf(spec, types, rows), k) == FoldRows(spec, types, group);
    hide *;
    forall k': RowKey
      ensures k' in r <==> k' in g || k' == k
      ensures k' in r && k' != k ==> r[k'] == g[k']
    {
      GroupAfter(spec, types, rows, row, k');
    }
    GroupAfter(spec, types, rows, row, k);
    MapNext(g, r, k);
  }

  lemma MapNext(g: map<RowKey, seq<AggState>>, r: map<RowKey, seq<AggState>>, k: RowKey)
    requires forall k' :: k' in r <==> k' in g || k' == k
    requires forall k' :: k' in r && k' != k ==> r[k'] == g[k']
    ensures r == g[k := r[k]]
  {
  }

  /** One more row joins its group, or opens a new one at the end. */
  lemma GroupsNext(spec: AggregateSpec, types: Types, rows: seq<Row>, row: Row)
    ensures var g, r, k := GroupsOf(spec, types, rows), GroupsOf(spec, types, rows + [row]), KeyAt(spec.groupBy, row);
            && |StatesFor(spec, types, g, k)| == |spec.aggregates|
            && r.keys == (if k in g.states then g.keys else g.keys + [k])
            && r.states == g.states[k := UpdateAll(spec, StatesFor(spec, types, g, k), row)]
  {
    GroupsNextStates(spec, types, rows, row);
    GroupsAt(spec, types, rows, KeyAt(spec.groupBy, row));
    assert (rows + [row])[..|rows|] == rows;
    hide FoldRows, KeyRows, KeyAt, StatesFor, UpdateAll;
  }

  // ---------------------------------------------------------------- the hash table

  datatype Group = Group(key: RowKey, states: seq<AggState>)

  /** `lookup` finds every group by its key. */
  ghost predicate Indexes(lookup: map<RowKey, nat>, groups: seq<Group>) {
    && (forall k :: k in lookup ==> lookup[k] < |groups| && groups[lookup[k]].key == k)
    && forall i :: 0 <= i < |groups| ==> groups[i].key in lookup && lookup[groups[i].key] == i
  }

  function KeysOf(groups: seq<Group>): (keys: seq<RowKey>)
    ensures |keys| == |groups| && forall i :: 0 <= i < |groups| ==> keys[i] == groups[i].key
  {
    seq(|groups|, i requires 0 <= i < |groups| => groups[i].key)
  }

  /** The table a hash table holds. */
  function TableOf(lookup: map<RowKey, nat>, groups: seq<Group>): Groups {
    Groups(KeysOf(groups), map k | k in lookup && lookup[k] < |groups| :: groups[lookup[k]].states)
  }

  lemma AddGroup(lookup: map<RowKey, nat>, groups: seq<Group>, group: Group)
    requires Indexes(lookup, groups) && group.key !in lookup
    ensures var more, at := groups + [group], lookup[group.key := |groups|];
            && Indexes(at, more) && TableOf(at, more).keys == KeysOf(groups) + [group.key]
            && TableOf(at, more).states == TableOf(lookup, groups).states[group.key := group.states]
  {
  }

  lemma KeysSpelt(lookup: map<RowKey, nat>, groups: seq<Group>)
    requires Indexes(lookup, groups)
    ensures TableOf(lookup, groups).keys == KeysOf(groups)
  {
  }

  lemma SetStates(lookup: map<RowKey, nat>, groups: seq<Group>, i: nat, states: seq<AggState>)
    requires Indexes(lookup, groups) && i < |groups|
    ensures var changed := groups[i := groups[i].(states := states)];
            && Indexes(lookup, changed) && TableOf(lookup, changed).keys == KeysOf(groups)
            && TableOf(lookup, changed).states == TableOf(lookup, groups).states[groups[i].key := states]
  {
  }

  /** The columns the aggregates read are scanned, and hold values of their types. */
  ghost predicate WellTyped(spec: AggregateSpec, types: Types, rows: seq<Row>) {
    forall j :: 0 <= j < |spec.aggregates| && spec.aggregates[j].column.Some? ==>
      && spec.aggregates[j].column.value in types
      && Typed(types[spec.aggregates[j].column.value], ColumnValues(rows, spec.aggregates[j].column.value))
  }

  class Aggregator {
    const spec: AggregateSpec
    const types: Types
    var lookup: map<RowKey, nat>
    var groups: seq<Group>

    ghost predicate Valid()
      reads this
    {
      Indexes(lookup, groups)
    }

    ghost function Contents(): Groups
      reads this
    {
      TableOf(lookup, groups)
    }

    constructor (spec: AggregateSpec, types: Types)
      ensures this.spec == spec && this.types == types && Valid() && Contents() == GroupsOf(spec, types, [])
              && groups == []
    {
      this.spec, this.types, lookup, groups := spec, types, map[], [];
    }

    /** Takes over the first partial. */
    constructor Adopt(spec: AggregateSpec, types: Types, lookup: map<RowKey, nat>, groups: seq<Group>)
      requires Indexes(lookup, groups)
      ensures this.spec == spec && this.types == types && Valid() && Contents() == TableOf(lookup, groups)
    {
      this.spec, this.types, this.lookup, this.groups := spec, types, lookup, groups;
    }

    /** Adds one row to its group. */
    method AddRow(ghost seen: seq<Row>, row: Row)
      requires Valid() && Contents() == GroupsOf(spec, types, seen)
      modifies this
      ensures Valid() && Contents() == GroupsOf(spec, types, seen + [row])
    {
      GroupsNext(spec, types, seen, row);
      var key := KeyAt(spec.groupBy, row);
      hide GroupsOf, KeyAt;
      if key in lookup {
        var index := lookup[key];
        assert Contents().states[key] == groups[index].states;
        var states := UpdateAll(spec, groups[index].states, row);
        SetStates(lookup, groups, index, states);
        groups := groups[index := groups[index].(states := states)];
      } else {
        var states := UpdateAll(spec, FreshStates(spec, types), row);
        AddGroup(lookup, groups, Group(key, states));
        lookup, groups := lookup[key := |groups|], groups + [Group(key, states)];
      }
    }

    /** Folds a batch in: row by row when grouped, column by column when there is a single group. */
    method Update(ghost seen: seq<Row>, batch: seq<Row>)
      requires Valid() && Contents() == GroupsOf(spec, types, seen)
      requires Bounded(spec, seen + batch) && WellTyped(spec, types, batch)
      modifies this
      ensures Valid() && Contents() == GroupsOf(spec, types, seen + batch)
    {
      if batch == [] {
        assert seen + batch == seen;
        return;
      }
      if spec.groupBy == [] {
        UpdateColumns(seen, batch);
        return;
      }
      assert seen + batch[..0] == seen && batch[..|batch|] == batch;
      hide *;
      for row := 0 to |batch|
        invariant Valid() && Contents() == GroupsOf(spec, types, seen + batch[..row])
      {
        AddRow(seen + batch[..row], batch[row]);
        AppendNext(seen, batch, row);
      }
    }

    /** Takes in another partition's groups, which it built for the rows `b`. */
    method Merge(other: seq<Group>, ghost at: map<RowKey, nat>, ghost a: seq<Row>, ghost b: seq<Row>) returns (ok: bool)
      requires Valid() && Contents() == GroupsOf(spec, types, a) && Bounded(spec, a + b)
      requires Indexes(at, other) && TableOf(at, other) == GroupsOf(spec, types, b)
      modifies this
      ensures ok && Valid() && Contents() == GroupsOf(spec, types, a + b)
    {
      assert KeysOf(other) == FirstKeys(spec.groupBy, b) && KeysOf(other)[..|other|] == KeysOf(other);
      hide *;
      NothingMerged(spec, types, a, TableOf(at, other));
      for i := 0 to |other|
        invariant Valid() && Merged(GroupsOf(spec, types, a), TableOf(at, other), KeysOf(other)[..i], Contents())
      {
        ok := TakeGroup(other, i, at, a, b);
        if !ok {
          return;
        }
      }
      MergedIsOnePass(spec, types, a, b, Contents());
      ok := true;
    }

    /** Takes in one group. */
    method TakeGroup(other: seq<Group>, i: nat, ghost at: map<RowKey, nat>, ghost a: seq<Row>, ghost b: seq<Row>)
      returns (ok: bool)
      requires Valid() && Bounded(spec, a + b) && i < |other|
      requires Indexes(at, other) && TableOf(at, other) == GroupsOf(spec, types, b)
      requires Merged(GroupsOf(spec, types, a), TableOf(at, other), KeysOf(other)[..i], Contents())
      modifies this
      ensures ok && Valid()
      ensures Merged(GroupsOf(spec, types, a), TableOf(at, other), KeysOf(other)[..i + 1], Contents())
    {
      hide *;
      ghost var g, h, r := GroupsOf(spec, types, a), TableOf(at, other), Contents();
      var key := other[i].key;
      Spelt();
      NextReady(spec, types, a, b, at, other, i, lookup, groups);
      if key in lookup {
        var index := lookup[key];
        var states := MergeAll(groups[index].states, other[i].states);
        if states == None {
          return false;
        }
        SetStates(lookup, groups, index, states.value);
        KeysSpelt(lookup, groups);
        groups := groups[index := groups[index].(states := states.value)];
      } else {
        AddGroup(lookup, groups, other[i]);
        KeysSpelt(lookup, groups);
        lookup, groups := lookup[key := |groups|], groups + [other[i]];
      }
      Intact();
      MergedNext(g, h, KeysOf(other)[..i], key, r, Contents());
      ok := true;
    }

    lemma Spelt()
      requires Valid()
      ensures Indexes(lookup, groups) && Contents() == TableOf(lookup, groups)
    {
    }

    lemma Intact()
      requires Indexes(lookup, groups)
      ensures Valid() && Contents() == TableOf(lookup, groups)
    {
    }

    /** The result batch; a single group exists even without rows. */
    method Finish(output: seq<OutputColumn>) returns (rows: Option<seq<Row>>)
      requires Valid()
      modifies this
      ensures rows == ResultBatch(spec, output, Tuples(spec, types, old(Contents())))
    {
      TuplesFrom(spec, types, lookup, groups);
      assert |ResultNames(spec)| == |spec.groupBy| + |spec.aggregates|;
      hide Tuples, GroupTuples, LabelAll;
      if groups == [] && spec.groupBy == [] {
        groups := [Group([], FreshStates(spec, types))];
      }
      if |output| != |spec.groupBy| + |spec.aggregates| {
        return None;
      }
      rows := FinishAll(groups, output);
    }

    method UpdateColumns(ghost seen: seq<Row>, batch: seq<Row>)
      requires Valid() && Contents() == GroupsOf(spec, types, seen)
      requires Bounded(spec, seen + batch) && WellTyped(spec, types, batch) && spec.groupBy == [] && batch != []
      modifies this
      ensures Valid() && Contents() == GroupsOf(spec, types, seen + batch)
    {
      TheGroup(spec, types, lookup, groups, seen);
      BoundedWhole(spec, seen + batch);
      FoldRowsNext(spec, types, [], map[]);
      assert seen + batch != [];
      hide *;
      if groups == [] {
        groups, lookup := [Group([], FreshStates(spec, types))], map[[] := 0];
      }
      var states := AccumulateAll(spec, types, seen, batch, groups[0].states);
      OneGroupTable(spec, types, seen + batch, states);
      groups, lookup := [Group([], states)], map[[] := 0];
    }
  }

  lemma TheGroup(spec: AggregateSpec, types: Types, lookup: map<RowKey, nat>, groups: seq<Group>, rows: seq<Row>)
    requires spec.groupBy == [] && Indexes(lookup, groups) && TableOf(lookup, groups) == GroupsOf(spec, types, rows)
    ensures groups == if rows == [] then [] else [Group([], FoldRows(spec, types, rows))]
  {
    OnlyGroup(spec, types, rows);
    hide GroupsOf, FoldRows;
    assert |groups| == |TableOf(lookup, groups).keys|;
    if rows != [] {
      assert groups[0].key == TableOf(lookup, groups).keys[0];
      assert groups[0].states == TableOf(lookup, groups).states[groups[0].key];
    }
  }

  lemma OneGroupTable(spec: AggregateSpec, types: Types, rows: seq<Row>, states: seq<AggState>)
    requires spec.groupBy == [] && rows != [] && states == FoldRows(spec, types, rows)
    ensures var lookup, groups := map[[] := 0], [Group([], states)];
            Indexes(lookup, groups) && TableOf(lookup, groups) == GroupsOf(spec, types, rows)
  {
    OnlyGroup(spec, types, rows);
    hide GroupsOf, FoldRows;
    OneIndexed(states);
  }

  lemma OneIndexed(states: seq<AggState>)
    ensures var lookup, groups := map[[] := 0], [Group([], states)];
            Indexes(lookup, groups) && TableOf(lookup, groups) == Groups([[]], map[[] := states])
  {
    var lookup, groups := map[[] := 0], [Group([], states)];
    assert KeysOf(groups) == [[]];
    assert TableOf(lookup, groups).states == map[[] := states];
  }

  lemma {:induction false} OneKey(rows: seq<Row>)
    ensures KeyRows([], rows, []) == rows && FirstKeys([], rows) == if rows == [] then [] else [[]]
  {
    if rows != [] {
      OneKey(rows[..|rows| - 1]);
    }
  }

  /** Without grouping columns there is one group, once there is a row. */
  lemma OnlyGroup(spec: AggregateSpec, types: Types, rows: seq<Row>)
    requires spec.groupBy == []
    ensures GroupsOf(spec, types, rows) ==
            if rows == [] then Groups([], map[]) else Groups([[]], map[[] := FoldRows(spec, types, rows)])
  {
    OneKey(rows);
    hide FoldRows, KeyRows, FirstKeys;
  }

  lemma BoundedWhole(spec: AggregateSpec, rows: seq<Row>)
    requires spec.groupBy == [] && Bounded(spec, rows)
    ensures AllFit(spec, true, rows)
  {
    OneKey(rows);
    assert AllFit(spec, true, KeyRows([], rows, []));
  }

  /** The state a column has, and the bound that lets the kernel add a batch to it. */
  lemma SlotReady(spec: AggregateSpec, types: Types, seen: seq<Row>, batch: seq<Row>, j: nat)
    requires j < |spec.aggregates| && AllFit(spec, true, seen + batch)
    ensures var agg, s := spec.aggregates[j], FoldRows(spec, types, seen)[j];
            && Fold(s, InputsOf(agg, batch)) == FoldRows(spec, types, seen + batch)[j]
            && KernelFits(s, InputsOf(agg, batch))
  {
    var agg := spec.aggregates[j];
    var start := New(agg.func, ArgumentType(types, agg));
    assert SumFits(true, agg.func, InputsOf(agg, seen + batch));
    hide InputsOf, SumFits, Fold;
    InputsConcat(agg, seen, batch);
    SumFitsPart(true, agg.func, InputsOf(agg, seen), InputsOf(agg, batch));
    FoldConcat(start, InputsOf(agg, seen), InputsOf(agg, batch));
    FoldKind(start, InputsOf(agg, seen));
    if start.SumInt? {
      SumFolds(0, false, InputsOf(agg, seen));
    }
    hide HasInt, PosSum, NegSum;
  }

  /** Accumulates every aggregate's column of a batch. */
  method AccumulateAll(spec: AggregateSpec, types: Types, ghost seen: seq<Row>, batch: seq<Row>, states: seq<AggState>)
    returns (r: seq<AggState>)
    requires states == FoldRows(spec, types, seen) && WellTyped(spec, types, batch)
    requires AllFit(spec, true, seen + batch)
    ensures r == FoldRows(spec, types, seen + batch)
  {
    r := [];
    for j := 0 to |spec.aggregates|
      invariant |r| == j && forall i :: 0 <= i < j ==> r[i] == FoldRows(spec, types, seen + batch)[i]
    {
      var agg := spec.aggregates[j];
      SlotReady(spec, types, seen, batch, j);
      var s: AggState;
      if agg.column.Some? {
        var values := ColumnValues(batch, agg.column.value);
        assert Inputs(values) == InputsOf(agg, batch);
        s := AccumulateColumn(states[j], types[agg.column.value], Some(values), |batch|);
      } else {
        assert Stars(|batch|) == InputsOf(agg, batch);
        s := AccumulateColumn(states[j], TUtf8, None, |batch|);
      }
      r := r + [s];
    }
  }

  // ---------------------------------------------------------------- merging groups one by one

  lemma NothingMerged(spec: AggregateSpec, types: Types, a: seq<Row>, h: Groups)
    ensures Merged(GroupsOf(spec, types, a), h, [], GroupsOf(spec, types, a))
  {
    var g := GroupsOf(spec, types, a);
    assert g.keys + Missing(g.keys, []) == g.keys;
  }

  /** Merging one more group keeps the table on its way to the merged one. */
  lemma MergedNext(g: Groups, h: Groups, done: seq<RowKey>, k: RowKey, r: Groups, r': Groups)
    requires Merged(g, h, done, r) && k !in done && k in h.states && (k in g.states <==> k in g.keys)
    requires if k in r.states
             then MergeAll(r.states[k], h.states[k]).Some? && r'.keys == r.keys
                  && r'.states == r.states[k := MergeAll(r.states[k], h.states[k]).value]
             else r'.keys == r.keys + [k] && r'.states == r.states[k := h.states[k]]
    ensures Merged(g, h, done + [k], r')
    ensures k in r.states <==> k in g.states
  {
    assert (done + [k])[..|done|] == done;
    MissingMembers(g.keys, done, k);
    MergedAt(g, h, done, r, k);
    assert StatesAfter(g, h, done, k) == if k in g.states then Some(g.states[k]) else None;
    NextKeys(g.keys, done, k, r.keys, r'.keys);
    assert forall k' :: k' in r'.keys <==> k' in r.keys || k' == k;
    hide MergeAll, Missing, Merged;
    forall k': RowKey
      ensures k' in r'.states <==> k' in r'.keys
      ensures k' in r'.states ==> StatesAfter(g, h, done + [k], k') == Some(r'.states[k'])
    {
      MergedAt(g, h, done, r, k');
      StatesNext(g, h, done, k, k');
      hide StatesAfter;
    }
    MergedIntro(g, h, done + [k], r');
  }

  lemma NextKeys(keys: seq<RowKey>, done: seq<RowKey>, k: RowKey, now: seq<RowKey>, next: seq<RowKey>)
    requires now == keys + Missing(keys, done) && next == if k in keys then now else now + [k]
    ensures next == keys + Missing(keys, done + [k])
  {
    assert (done + [k])[..|done|] == done;
    assert keys + Missing(keys, done) + [k] == keys + (Missing(keys, done) + [k]);
    assert Missing(keys, done) + [] == Missing(keys, done);
  }

  lemma StatesNext(g: Groups, h: Groups, done: seq<RowKey>, k: RowKey, k': RowKey)
    requires k in h.states
    ensures StatesAfter(g, h, done + [k], k') ==
            if k' == k then (if k in g.states then MergeAll(g.states[k], h.states[k]) else Some(h.states[k]))
            else StatesAfter(g, h, done, k')
  {
    hide MergeAll;
  }

  lemma MergedAt(g: Groups, h: Groups, done: seq<RowKey>, r: Groups, k: RowKey)
    requires Merged(g, h, done, r)
    ensures (k in r.states <==> k in r.keys) && (k in r.states ==> StatesAfter(g, h, done, k) == Some(r.states[k]))
  {
    hide StatesAfter;
  }

  lemma MergedIntro(g: Groups, h: Groups, done: seq<RowKey>, r: Groups)
    requires r.keys == g.keys + Missing(g.keys, done)
    requires forall k :: k in r.states <==> k in r.keys
    requires forall k :: k in r.states ==> StatesAfter(g, h, done, k) == Some(r.states[k])
    ensures Merged(g, h, done, r)
  {
    hide StatesAfter;
  }

  /** What is known when the `i`th group of the other table is about to be merged. */
  lemma NextReady(spec: AggregateSpec, types: Types, a: seq<Row>, b: seq<Row>, at: map<RowKey, nat>, other: seq<Group>,
                  i: nat,
                  lookup: map<RowKey, nat>, groups: seq<Group>)
    requires Bounded(spec, a + b) && i < |other| && Indexes(at, other) && TableOf(at, other) == GroupsOf(spec, types, b)
    requires Indexes(lookup, groups)
    requires Merged(GroupsOf(spec, types, a), TableOf(at, other), KeysOf(other)[..i], TableOf(lookup, groups))
    ensures var k, done := other[i].key, KeysOf(other)[..i];
            var g, h, r := GroupsOf(spec, types, a), TableOf(at, other), TableOf(lookup, groups);
            && k !in done && KeysOf(other)[..i + 1] == done + [k]
            && k in h.states && h.states[k] == other[i].states && (k in g.states <==> k in g.keys)
            && (k in lookup <==> k in r.states)
            && (k in lookup ==>
                  && lookup[k] < |groups| && groups[lookup[k]].key == k && r.states[k] == groups[lookup[k]].states
                  && MergeAll(r.states[k], h.states[k]).Some?)
  {
    var k, done := other[i].key, KeysOf(other)[..i];
    var g, h, r := GroupsOf(spec, types, a), TableOf(at, other), TableOf(lookup, groups);
    GroupsAt(spec, types, a, k);
    assert g.keys == FirstKeys(spec.groupBy, a);
    NextKey(at, other, i);
    TableAt(at, other, k);
    TableAt(lookup, groups, k);
    hide *;
    MergedAt(g, h, done, r, k);
    Unmerged(g, h, done, k);
    if k in lookup {
      Mergeable(spec, types, a, b, k);
    }
  }

  lemma NextKey(at: map<RowKey, nat>, other: seq<Group>, i: nat)
    requires i < |other| && Indexes(at, other)
    ensures other[i].key !in KeysOf(other)[..i] && KeysOf(other)[..i + 1] == KeysOf(other)[..i] + [other[i].key]
    ensures other[i].key in at && at[other[i].key] == i
  {
    assert forall j :: 0 <= j < i ==> KeysOf(other)[..i][j] == other[j].key != other[i].key;
  }

  lemma TableAt(lookup: map<RowKey, nat>, groups: seq<Group>, k: RowKey)
    requires Indexes(lookup, groups)
    ensures k in lookup <==> k in TableOf(lookup, groups).states
    ensures k in lookup ==>
              && lookup[k] < |groups| && groups[lookup[k]].key == k
              && TableOf(lookup, groups).states[k] == groups[lookup[k]].states
  {
  }

  lemma Unmerged(g: Groups, h: Groups, done: seq<RowKey>, k: RowKey)
    requires k !in done
    ensures StatesAfter(g, h, done, k) == if k in g.states then Some(g.states[k]) else None
  {
  }

  function Aliases(spec: AggregateSpec): (names: seq<string>)
    ensures |names| == |spec.aggregates| && forall j :: 0 <= j < |names| ==> names[j] == spec.aggregates[j].alias
  {
    seq(|spec.aggregates|, j requires 0 <= j < |spec.aggregates| => spec.aggregates[j].alias)
  }

  /** The columns an aggregation computes: its group columns, then its aliases. */
  function ResultNames(spec: AggregateSpec): (names: seq<string>)
    ensures |names| == |spec.groupBy| + |spec.aggregates|
  {
    spec.groupBy + Aliases(spec)
  }

  function Finished(states: seq<AggState>): (values: seq<Value>)
    ensures |values| == |states| && forall j :: 0 <= j < |states| ==> values[j] == AggStates.Finish(states[j])
  {
    seq(|states|, j requires 0 <= j < |states| => AggStates.Finish(states[j]))
  }

  /** The values of one group, column by column. */
  function Tuple(key: RowKey, states: seq<AggState>): seq<Value> { key + Finished(states) }

  /** The values of every group; a single group exists even without rows. */
  function Tuples(spec: AggregateSpec, types: Types, g: Groups): seq<seq<Value>> {
    if g.keys == [] && spec.groupBy == [] then [Tuple([], FreshStates(spec, types))] else KeyTuples(g, g.keys)
  }

  function KeyTuples(g: Groups, keys: seq<RowKey>): (tuples: seq<seq<Value>>)
    ensures |tuples| == |keys|
    ensures forall i :: 0 <= i < |keys| ==>
              tuples[i] == Tuple(keys[i], if keys[i] in g.states then g.states[keys[i]] else [])
  {
    seq(|keys|, i requires 0 <= i < |keys| => Tuple(keys[i], if keys[i] in g.states then g.states[keys[i]] else []))
  }

  /** The computed values, group after group. */
  function Results(spec: AggregateSpec, types: Types, rows: seq<Row>): seq<seq<Value>> {
    Tuples(spec, types, GroupsOf(spec, types, rows))
  }

  /** Gives the columns their values, in order. */
  function Assign(row: Row, columns: seq<string>, values: seq<Value>): Row
    decreases |columns|
  {
    if columns == [] || values == [] then row
    else Assign(row[columns[0] := values[0]], columns[1..], values[1..])
  }

  function NameAll(names: seq<string>, tuples: seq<seq<Value>>): (rows: seq<Row>)
    ensures |rows| == |tuples| && forall i :: 0 <= i < |rows| ==> rows[i] == Assign(map[], names, tuples[i])
  {
    seq(|tuples|, i requires 0 <= i < |tuples| => Assign(map[], names, tuples[i]))
  }

  /** What an aggregation of rows means: every computed value under its own name. */
  function AggregateRows(spec: AggregateSpec, types: Types, rows: seq<Row>): seq<Row> {
    NameAll(ResultNames(spec), Results(spec, types, rows))
  }

  // ---------------------------------------------------------------- the result batch

  datatype OutputColumn = OutputColumn(name: string, dataType: DataType)

  function NamesOf(output: seq<OutputColumn>): (names: seq<string>)
    ensures |names| == |output| && forall j :: 0 <= j < |names| ==> names[j] == output[j].name
  {
    seq(|output|, j requires 0 <= j < |output| => output[j].name)
  }

  /** `as i32`. */
  function Wrap32(x: int): int { (x + 0x8000_0000) % 0x1_0000_0000 - 0x8000_0000 }

  /** A value as an array of the given type holds it; nothing when it does not fit the type. */
  function Cast(ty: DataType, v: Value): Option<Value> {
    if v == Null then Some(Null)
    else match ty
      case TBool => if v.Bool? then Some(v) else None
      case TInt64 => if AsInt(v).Some? then Some(Int(AsInt(v).value)) else None
      case TFloat64 => if AsReal(v).Some? then Some(Float(AsReal(v).value)) else None
      case TUtf8 => if v.Str? then Some(v) else None
      case TUuid => if v.Str? then Some(v) else None
      case TJson => if v.Str? then Some(v) else None
      case TTimestamp => if AsInt(v).Some? then Some(Timestamp(AsInt(v).value)) else None
      case TDate => if AsInt(v).Some? then Some(Date(Wrap32(AsInt(v).value))) else None
  }

  function CastAll(output: seq<OutputColumn>, values: seq<Value>): Option<seq<Value>>
    requires |output| == |values|
  {
    if values == [] then Some([])
    else
      var n := |values| - 1;
      match (CastAll(output[..n], values[..n]), Cast(output[n].dataType, values[n]))
      case (Some(before), Some(last)) => Some(before + [last])
      case _ => None
  }

  /** A row of the batch: the computed values under the plan's output columns, by position. */
  function LabelRow(output: seq<OutputColumn>, values: seq<Value>): Option<Row> {
    if |output| != |values| then None
    else match CastAll(output, values) case Some(cast) => Some(Assign(map[], NamesOf(output), cast)) case None => None
  }

  function LabelAll(output: seq<OutputColumn>, tuples: seq<seq<Value>>): Option<seq<Row>> {
    if tuples == [] then Some([])
    else
      var n := |tuples| - 1;
      match (LabelAll(output, tuples[..n]), LabelRow(output, tuples[n]))
      case (Some(before), Some(last)) => Some(before + [last])
      case _ => None
  }

  /** The batch `finish` builds. Its columns are named and typed by the plan's output, position by
      position; a different number of columns is an error. */
  function ResultBatch(spec: AggregateSpec, output: seq<OutputColumn>, tuples: seq<seq<Value>>): Option<seq<Row>> {
    if |output| != |ResultNames(spec)| then None else LabelAll(output, tuples)
  }

  method FinishAll(groups: seq<Group>, output: seq<OutputColumn>) returns (rows: Option<seq<Row>>)
    ensures rows == LabelAll(output, GroupTuples(groups))
  {
    var all: seq<Row> := [];
    var tuples := GroupTuples(groups);
    for i := 0 to |groups|
      invariant LabelAll(output, tuples[..i]) == Some(all)
    {
      assert tuples[..i + 1][..i] == tuples[..i];
      var row := LabelRow(output, tuples[i]);
      if row == None {
        LabelFails(output, tuples, i + 1);
        return None;
      }
      all := all + [row.value];
    }
    assert tuples[..|tuples|] == tuples;
    rows := Some(all);
  }

  lemma {:induction false} LabelFails(output: seq<OutputColumn>, tuples: seq<seq<Value>>, i: nat)
    requires i <= |tuples| && LabelAll(output, tuples[..i]) == None
    ensures LabelAll(output, tuples) == None
    decreases |tuples| - i
  {
    if i == |tuples| {
      assert tuples[..i] == tuples;
    } else {
      assert tuples[..i + 1][..i] == tuples[..i];
      LabelFails(output, tuples, i + 1);
    }
  }

  function GroupTuples(groups: seq<Group>): (tuples: seq<seq<Value>>)
    ensures |tuples| == |groups|
    ensures forall i :: 0 <= i < |groups| ==> tuples[i] == Tuple(groups[i].key, groups[i].states)
  {
    seq(|groups|, i requires 0 <= i < |groups| => Tuple(groups[i].key, groups[i].states))
  }

  lemma TuplesFrom(spec: AggregateSpec, types: Types, lookup: map<RowKey, nat>, groups: seq<Group>)
    requires Indexes(lookup, groups)
    ensures var all := if groups == [] && spec.groupBy == [] then [Group([], FreshStates(spec, types))] else groups;
            GroupTuples(all) == Tuples(spec, types, TableOf(lookup, groups))
  {
    var g := TableOf(lookup, groups);
    assert forall i :: 0 <= i < |groups| ==> groups[i].key in g.states && g.states[groups[i].key] == groups[i].states;
    hide Tuple;
  }

  /** The states of a key both tables have can be merged. */
  lemma Mergeable(spec: AggregateSpec, types: Types, a: seq<Row>, b: seq<Row>, k: RowKey)
    requires Bounded(spec, a + b) && k in GroupsOf(spec, types, a).states && k in GroupsOf(spec, types, b).states
    ensures MergeAll(GroupsOf(spec, types, a).states[k], GroupsOf(spec, types, b).states[k]).Some?
  {
    GroupsAt(spec, types, a, k);
    GroupsAt(spec, types, b, k);
    hide GroupsOf, MergeAll, FoldRows, KeyRows;
    FoldRowsMergeIf(spec, types, a, b, k);
  }

  // ---------------------------------------------------------------- partial aggregation over partitions

  lemma BoundedPart(spec: AggregateSpec, a: seq<Row>, b: seq<Row>)
    requires Bounded(spec, a + b)
    ensures Bounded(spec, a) && Bounded(spec, b)
  {
    forall k: RowKey, j | 0 <= j < |spec.aggregates|
      ensures var agg := spec.aggregates[j];
              && SumFits(spec.groupBy == [], agg.func, InputsOf(agg, KeyRows(spec.groupBy, a, k)))
              && SumFits(spec.groupBy == [], agg.func, InputsOf(agg, KeyRows(spec.groupBy, b, k)))
    {
      var x, y := KeyRows(spec.groupBy, a, k), KeyRows(spec.groupBy, b, k);
      KeyRowsConcat(spec.groupBy, a, b, k);
      InputsConcat(spec.aggregates[j], x, y);
      SumFitsPart(spec.groupBy == [], spec.aggregates[j].func, InputsOf(spec.aggregates[j], x),
                  InputsOf(spec.aggregates[j], y));
    }
  }

  lemma TypedPart(spec: AggregateSpec, types: Types, a: seq<Row>, b: seq<Row>)
    requires WellTyped(spec, types, a + b)
    ensures WellTyped(spec, types, a) && WellTyped(spec, types, b)
  {
    forall j | 0 <= j < |spec.aggregates| && spec.aggregates[j].column.Some?
      ensures Typed(types[spec.aggregates[j].column.value], ColumnValues(a, spec.aggregates[j].column.value))
      ensures Typed(types[spec.aggregates[j].column.value], ColumnValues(b, spec.aggregates[j].column.value))
    {
      var c := spec.aggregates[j].column.value;
      assert ColumnValues(a + b, c) == ColumnValues(a, c) + ColumnValues(b, c);
      TypedConcat(types[c], ColumnValues(a, c), ColumnValues(b, c));
    }
  }

  lemma TypedConcat(ty: DataType, a: seq<Value>, b: seq<Value>)
    requires Typed(ty, a + b)
    ensures Typed(ty, a) && Typed(ty, b)
  {
    assert forall i :: 0 <= i < |a| ==> (a + b)[i] == a[i];
    assert forall i :: 0 <= i < |b| ==> (a + b)[|a| + i] == b[i];
  }

  /** The rows can be aggregated exactly. */
  ghost predicate Exact(spec: AggregateSpec, types: Types, rows: seq<Row>) {
    Bounded(spec, rows) && WellTyped(spec, types, rows)
  }

  lemma ExactPart(spec: AggregateSpec, types: Types, a: seq<Row>, b: seq<Row>)
    requires Exact(spec, types, a + b)
    ensures Exact(spec, types, a) && Exact(spec, types, b)
  {
    BoundedPart(spec, a, b);
    TypedPart(spec, types, a, b);
  }

  /** A partition's hash table, moved to the coordinator. */
  datatype Partial = Partial(lookup: map<RowKey, nat>, groups: seq<Group>)

  /** Aggregates the batches a scan of one partition emits. */
  method AggregatePartition(spec: AggregateSpec, types: Types, batches: seq<seq<Row>>) returns (p: Option<Partial>)
    requires Exact(spec, types, Flatten(batches)) && forall i :: 0 <= i < |batches| ==> batches[i] != []
    ensures p == None ==> Flatten(batches) == []
    ensures p.Some? ==> Indexes(p.value.lookup, p.value.groups)
                        && TableOf(p.value.lookup, p.value.groups) == GroupsOf(spec, types, Flatten(batches))
  {
    var aggregator := new Aggregator(spec, types);
    var sawRows := false;
    assert batches[..|batches|] == batches;
    assert Flatten(batches[..0]) == [];
    hide Exact, GroupsOf, Flatten, Indexes, TableOf;
    for i := 0 to |batches|
      invariant fresh(aggregator) && aggregator.spec == spec && aggregator.types == types && aggregator.Valid()
      invariant aggregator.Contents() == GroupsOf(spec, types, Flatten(batches[..i])) && (sawRows <==> i > 0)
    {
      sawRows := true;
      BatchExact(spec, types, batches, i);
      FlattenNext(batches, i);
      aggregator.Update(Flatten(batches[..i]), batches[i]);
    }
    p := if sawRows || spec.groupBy == [] then Some(Partial(aggregator.lookup, aggregator.groups)) else None;
  }

  lemma BatchExact(spec: AggregateSpec, types: Types, batches: seq<seq<Row>>, i: nat)
    requires i < |batches| && Exact(spec, types, Flatten(batches))
    ensures Bounded(spec, Flatten(batches[..i]) + batches[i]) && WellTyped(spec, types, batches[i])
  {
    FlattenSplit(batches, i + 1);
    FlattenNext(batches, i);
    ExactPart(spec, types, Flatten(batches[..i + 1]), Flatten(batches[i + 1..]));
    ExactPart(spec, types, Flatten(batches[..i]), batches[i]);
  }

  /** The rows each partition emits. */
  function PartRows(parts: seq<seq<seq<Row>>>): (rows: seq<seq<Row>>)
    ensures |rows| == |parts| && forall i :: 0 <= i < |parts| ==> rows[i] == Flatten(parts[i])
  {
    seq(|parts|, i requires 0 <= i < |parts| => Flatten(parts[i]))
  }

  /** Partial aggregation per partition, merged in partition order: the same groups in the same order
      with the same values as one pass over all rows, in a batch named by the plan's output. */
  method RunAggregate(spec: AggregateSpec, types: Types, output: seq<OutputColumn>, parts: seq<seq<seq<Row>>>)
    returns (rows: Option<seq<Row>>)
    requires Exact(spec, types, Flatten(PartRows(parts)))
    requires forall i, j :: 0 <= i < |parts| && 0 <= j < |parts[i]| ==> parts[i][j] != []
    ensures rows == ResultBatch(spec, output, Results(spec, types, Flatten(PartRows(parts))))
  {
    var all := PartRows(parts);
    var partials := AggregatePartitions(spec, types, parts);
    rows := MergePartials(spec, types, output, all, partials);
  }

  /** Merges the partials in partition order. */
  method MergePartials(spec: AggregateSpec, types: Types, output: seq<OutputColumn>, ghost all: seq<seq<Row>>,
                       partials: seq<Option<Partial>>) returns (rows: Option<seq<Row>>)
    requires Exact(spec, types, Flatten(all)) && |partials| == |all|
    requires forall i :: 0 <= i < |all| ==> PartialOf(spec, types, all[i], partials[i])
    ensures rows == ResultBatch(spec, output, Results(spec, types, Flatten(all)))
  {
    var merged: Aggregator? := null;
    assert Flatten(all[..0]) == [] && all[..|all|] == all;
    hide Exact, GroupsOf, Flatten, Indexes, TableOf, Tuples, ResultBatch;
    for i := 0 to |partials|
      invariant merged == null ==> Flatten(all[..i]) == []
      invariant merged != null ==>
                  && fresh(merged) && merged.spec == spec && merged.types == types && merged.Valid()
                  && merged.Contents() == GroupsOf(spec, types, Flatten(all[..i]))
    {
      FlattenNext(all, i);
      BatchExact(spec, types, all, i);
      if partials[i].Some? {
        var p := partials[i].value;
        NothingAdded(Flatten(all[..i]), all[i]);
        if merged == null {
          merged := new Aggregator.Adopt(spec, types, p.lookup, p.groups);
        } else {
          var ok := merged.Merge(p.groups, p.lookup, Flatten(all[..i]), all[i]);
        }
      } else {
        NothingAdded(Flatten(all[..i]), all[i]);
      }
    }
    if merged == null {
      merged := new Aggregator(spec, types);
    }
    rows := merged.Finish(output);
  }

  method AggregatePartitions(spec: AggregateSpec, types: Types, parts: seq<seq<seq<Row>>>)
    returns (partials: seq<Option<Partial>>)
    requires Exact(spec, types, Flatten(PartRows(parts)))
    requires forall i, j :: 0 <= i < |parts| && 0 <= j < |parts[i]| ==> parts[i][j] != []
    ensures |partials| == |parts|
    ensures forall i :: 0 <= i < |parts| ==> PartialOf(spec, types, Flatten(parts[i]), partials[i])
  {
    partials := [];
    for i := 0 to |parts|
      invariant |partials| == i && forall j :: 0 <= j < i ==> PartialOf(spec, types, Flatten(parts[j]), partials[j])
    {
      PartExact(spec, types, PartRows(parts), i);
      hide Exact, GroupsOf, Flatten, Indexes, TableOf;
      var p := AggregatePartition(spec, types, parts[i]);
      partials := partials + [p];
    }
  }

  /** A partition's table; none when the partition has no rows. */
  ghost predicate PartialOf(spec: AggregateSpec, types: Types, rows: seq<Row>, p: Option<Partial>) {
    match p
    case None => rows == []
    case Some(t) => Indexes(t.lookup, t.groups) && TableOf(t.lookup, t.groups) == GroupsOf(spec, types, rows)
  }

  lemma PartExact(spec: AggregateSpec, types: Types, all: seq<seq<Row>>, i: nat)
    requires i < |all| && Exact(spec, types, Flatten(all))
    ensures Exact(spec, types, all[i])
  {
    FlattenSplit(all, i + 1);
    FlattenNext(all, i);
    ExactPart(spec, types, Flatten(all[..i + 1]), Flatten(all[i + 1..]));
    ExactPart(spec, types, Flatten(all[..i]), all[i]);
  }

  // ---------------------------------------------------------------- what an aggregation depends on

  /** The rows agree on the columns an aggregation reads. */
  ghost predicate SameCells(columns: set<string>, rows: seq<Row>, rows': seq<Row>) {
    && |rows| == |rows'|
    && forall i, c :: 0 <= i < |rows| && c in columns ==> Cell(rows[i], c) == Cell(rows'[i], c)
  }

  /** The columns an aggregation reads. */
  function SpecColumns(spec: AggregateSpec): set<string> {
    (set c | c in spec.groupBy)
    + (set j | 0 <= j < |spec.aggregates| && spec.aggregates[j].column.Some? :: spec.aggregates[j].column.value)
  }

  lemma {:induction false} KeyDepends(cols: seq<string>, row: Row, row': Row)
    requires forall c :: c in cols ==> Cell(row, c) == Cell(row', c)
    ensures KeyAt(cols, row) == KeyAt(cols, row')
  {
    if cols != [] {
      KeyDepends(cols[1..], row, row');
    }
  }

  lemma {:induction false} KeysDepend(cols: seq<string>, columns: set<string>, rows: seq<Row>, rows': seq<Row>)
    requires SameCells(columns, rows, rows') && forall c :: c in cols ==> c in columns
    ensures FirstKeys(cols, rows) == FirstKeys(cols, rows')
  {
    if rows != [] {
      var n := |rows| - 1;
      KeysDepend(cols, columns, rows[..n], rows'[..n]);
      KeyDepends(cols, rows[n], rows'[n]);
    }
  }

  lemma {:induction false} KeyRowsDepend(cols: seq<string>, columns: set<string>, rows: seq<Row>, rows': seq<Row>,
                                         k: RowKey)
    requires SameCells(columns, rows, rows') && forall c :: c in cols ==> c in columns
    ensures SameCells(columns, KeyRows(cols, rows, k), KeyRows(cols, rows', k))
  {
    if rows != [] {
      var n := |rows| - 1;
      KeyRowsDepend(cols, columns, rows[..n], rows'[..n], k);
      KeyDepends(cols, rows[n], rows'[n]);
      hide KeyAt;
    }
  }

  /** The types agree on the columns an aggregation reads. */
  ghost predicate SameTypes(columns: set<string>, types: Types, types': Types) {
    forall c :: c in columns ==> (c in types <==> c in types') && (c in types ==> types[c] == types'[c])
  }

  lemma FoldDepends(spec: AggregateSpec, types: Types, types': Types, rows: seq<Row>, rows': seq<Row>)
    requires SameCells(SpecColumns(spec), rows, rows') && SameTypes(SpecColumns(spec), types, types')
    ensures FoldRows(spec, types, rows) == FoldRows(spec, types', rows')
  {
    forall j | 0 <= j < |spec.aggregates|
      ensures FoldRows(spec, types, rows)[j] == FoldRows(spec, types', rows')[j]
    {
      var agg := spec.aggregates[j];
      assert agg.column.Some? ==> agg.column.value in SpecColumns(spec);
      assert InputsOf(agg, rows) == InputsOf(agg, rows');
    }
  }

  /** An aggregation depends on the columns it reads only. */
  lemma AggregateDepends(spec: AggregateSpec, types: Types, types': Types, rows: seq<Row>, rows': seq<Row>)
    requires SameCells(SpecColumns(spec), rows, rows') && SameTypes(SpecColumns(spec), types, types')
    ensures Results(spec, types, rows) == Results(spec, types', rows')
  {
    KeysDepend(spec.groupBy, SpecColumns(spec), rows, rows');
    FoldDepends(spec, types, types', [], []);
    FoldRowsNext(spec, types, [], map[]);
    FoldRowsNext(spec, types', [], map[]);
    forall k: RowKey
      ensures FoldRows(spec, types, KeyRows(spec.groupBy, rows, k))
              == FoldRows(spec, types', KeyRows(spec.groupBy, rows', k))
    {
      KeyRowsDepend(spec.groupBy, SpecColumns(spec), rows, rows', k);
      FoldDepends(spec, types, types', KeyRows(spec.groupBy, rows, k), KeyRows(spec.groupBy, rows', k));
    }
    hide FoldRows, KeyRows, FirstKeys, KeyTuples, Tuple, FreshStates;
    assert GroupsOf(spec, types, rows) == GroupsOf(spec, types', rows');
  }
}
