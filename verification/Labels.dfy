/** The result batch of an aggregation under a projection: its columns carry the names and types of the
    plan's final output, by position, and the projection looks its sources up among those names
    (crates/adb-exec/src/aggregate.rs: finish, build_array; crates/adb-exec/src/lib.rs: apply_rename). */
module Labels {
  import opened Values
  import opened Pruning
  import opened AggStates
  import opened Aggregation
  import opened Renamings

  // ---------------------------------------------------------------- types

  predicate TypedValue(ty: DataType, v: Value) {
    match v
    case Null => true
    case Bool(_) => ty.TBool?
    case Int(_) => ty.TInt64?
    case Float(_) => ty.TFloat64?
    case Str(_) => ty.TUtf8? || ty.TUuid? || ty.TJson?
    case Timestamp(_) => ty.TTimestamp?
    case Date(d) => ty.TDate? && Wrap32(d) == d
  }

  /** The result type of an aggregate, given its argument's; none for `count(*)`. */
  function OutputType(func: AggregateFunc, argument: Option<DataType>): DataType {
    match func
    case CountOf => TInt64
    case AvgOf => TFloat64
    case SumOf => if argument == Some(TInt64) then TInt64 else TFloat64
    case MinFunc => if argument.Some? then argument.value else TFloat64
    case MaxFunc => if argument.Some? then argument.value else TFloat64
  }

  function IsText(ty: DataType): bool { ty.TUtf8? || ty.TUuid? || ty.TJson? }

  function IsIntegral(ty: DataType): bool { ty.TInt64? || ty.TTimestamp? || ty.TDate? }

  /** Every value of type `from` fits an array of type `into`. */
  predicate Accepts(into: DataType, from: DataType) {
    into == from || (IsText(into) && IsText(from)) || (IsIntegral(into) && IsIntegral(from))
      || (into.TFloat64? && from.TInt64?)
  }

  /** Every value of type `from` reads back unchanged from an array of type `into`. */
  predicate Preserves(into: DataType, from: DataType) { into == from || (IsText(into) && IsText(from)) }

  function Sample(ty: DataType): (v: Value)
    ensures TypedValue(ty, v) && v != Null
  {
    match ty
    case TBool => Bool(true)
    case TInt64 => Int(1)
    case TFloat64 => Float(0.5)
    case TUtf8 => Str("a")
    case TUuid => Str("a")
    case TJson => Str("a")
    case TTimestamp => Timestamp(1)
    case TDate => Date(1)
  }

  lemma CastTyped(into: DataType, from: DataType, v: Value)
    requires TypedValue(from, v)
    ensures Accepts(into, from) ==> Cast(into, v).Some?
    ensures Preserves(into, from) ==> Cast(into, v) == Some(v)
  {
  }

  /** A cast gives a value of the type, the same number or string; dates keep the low 32 bits. */
  lemma CastMeans(into: DataType, v: Value, w: Value)
    requires Cast(into, v) == Some(w) && v != Null
    ensures TypedValue(into, w)
    ensures into.TFloat64? ==> AsReal(v).Some? && AsReal(w) == AsReal(v)
    ensures into.TInt64? || into.TTimestamp? ==> AsInt(v).Some? && AsInt(w) == AsInt(v)
    ensures into.TDate? ==> AsInt(v).Some? && AsInt(w).Some? && (AsInt(v).value - AsInt(w).value) % 0x1_0000_0000 == 0
    ensures !(into.TFloat64? || into.TInt64? || into.TTimestamp? || into.TDate?) ==> w == v
  {
  }

  // ---------------------------------------------------------------- assigning and casting

  lemma {:induction false} AssignOther(row: Row, columns: seq<string>, values: seq<Value>, c: string)
    requires c !in columns
    ensures Cell(Assign(row, columns, values), c) == Cell(row, c)
    decreases |columns|
  {
    if columns != [] && values != [] {
      AssignOther(row[columns[0] := values[0]], columns[1..], values[1..], c);
    }
  }

  lemma {:induction false} AssignAt(row: Row, columns: seq<string>, values: seq<Value>, j: nat)
    requires |columns| == |values| && NoRepeats(columns) && j < |columns|
    ensures Cell(Assign(row, columns, values), columns[j]) == values[j]
    decreases |columns|
  {
    if j == 0 {
      AssignOther(row[columns[0] := values[0]], columns[1..], values[1..], columns[0]);
    } else {
      AssignAt(row[columns[0] := values[0]], columns[1..], values[1..], j - 1);
    }
  }

  lemma {:induction false} CastAt(output: seq<OutputColumn>, values: seq<Value>)
    requires |output| == |values|
    ensures CastAll(output, values).Some? <==> forall j :: 0 <= j < |values| ==>
              Cast(output[j].dataType, values[j]).Some?
    ensures CastAll(output, values).Some? ==>
              && |CastAll(output, values).value| == |values|
              && forall j :: 0 <= j < |values| ==>
                   Some(CastAll(output, values).value[j]) == Cast(output[j].dataType, values[j])
  {
    if values != [] {
      CastAt(output[..|values| - 1], values[..|values| - 1]);
      hide Cast;
    }
  }

  // ---------------------------------------------------------------- when the labels are right

  /** A row of the batch, with the projection applied; nothing when a source is not among the batch's names. */
  function Relabel(output: seq<OutputColumn>, m: Renaming, values: seq<Value>): Option<Row> {
    match LabelRow(output, values)
    case None => None
    case Some(row) => if forall i :: 0 <= i < |m| ==> m[i].0 in NamesOf(output) then Some(RenameRow(m, row)) else None
  }

  ghost predicate TypedTuple(computed: seq<OutputColumn>, values: seq<Value>) {
    |values| == |computed| && forall j :: 0 <= j < |values| ==> TypedValue(computed[j].dataType, values[j])
  }

  /** Names that are used once, and sources that are computed. */
  ghost predicate WellNamed(computed: seq<OutputColumn>, output: seq<OutputColumn>, m: Renaming) {
    && NoRepeats(NamesOf(computed)) && NoRepeats(NamesOf(output)) && NoRepeats(OutputNames(m))
    && SourcesWithin(m, NamesOf(computed))
  }

  /** What the projection of the computed values should be. */
  function Intended(computed: seq<OutputColumn>, m: Renaming, values: seq<Value>): Row {
    RenameRow(m, Assign(map[], NamesOf(computed), values))
  }

  lemma {:induction false} SourceAt(m: Renaming, i: nat)
    requires NoRepeats(OutputNames(m)) && i < |m|
    ensures Source(m, m[i].1) == Some(m[i].0)
  {
    if i > 0 {
      assert OutputNames(m)[0] != OutputNames(m)[i];
      assert forall k :: 0 <= k < |m| - 1 ==> OutputNames(m[1..])[k] == OutputNames(m)[k + 1];
      SourceAt(m[1..], i - 1);
    }
  }

  lemma SameRenamed(m: Renaming, row: Row, row': Row)
    requires forall i :: 0 <= i < |m| ==> Cell(row, m[i].0) == Cell(row', m[i].0)
    ensures RenameRow(m, row) == RenameRow(m, row')
  {
    forall a | a in OutputNames(m) && Source(m, a).Some?
      ensures Cell(row, Source(m, a).value) == Cell(row', Source(m, a).value)
    {
      SourceFirst(m, a);
    }
  }

  lemma ProbedCell(computed: seq<OutputColumn>, output: seq<OutputColumn>, m: Renaming, values: seq<Value>, i: nat)
    requires WellNamed(computed, output, m) && i < |m|
    requires Relabel(output, m, values) == Some(Intended(computed, m, values))
    ensures LabelRow(output, values).Some? && m[i].0 in NamesOf(output)
    ensures Cell(LabelRow(output, values).value, m[i].0) == Cell(Assign(map[], NamesOf(computed), values), m[i].0)
  {
    var row, right := LabelRow(output, values).value, Assign(map[], NamesOf(computed), values);
    SourceAt(m, i);
    assert OutputNames(m)[i] == m[i].1;
    assert RenameRow(m, row)[m[i].1] == Cell(row, m[i].0) && RenameRow(m, right)[m[i].1] == Cell(right, m[i].0);
  }

  lemma TwoAssigned(x: string, y: string, v: Value, w: Value)
    requires x != y
    ensures Assign(map[], [x, y], [v, w]) == map[x := v, y := w]
  {
    assert [x, y][1..] == [y] && [v, w][1..] == [w] && [y][1..] == [] && [w][1..] == [];
    var empty: Row := map[];
    assert Assign(empty[x := v][y := w], [], []) == map[x := v, y := w];
    assert Assign(empty[x := v], [y], [w]) == map[x := v, y := w];
  }

  lemma TwoKept(x: string, y: string, row: Row)
    requires x != y
    ensures RenameRow([(x, x), (y, y)], row) == map[x := Cell(row, x), y := Cell(row, y)]
  {
    var m: Renaming := [(x, x), (y, y)];
    assert m[1..] == [(y, y)] && OutputNames(m) == [x, y];
    assert Source(m, x) == Some(x) && Source(m[1..], y) == Some(y) && Source(m, y) == Some(y);
  }

  lemma TwoCast(x: string, y: string, a: real, b: real)
    ensures var output := [OutputColumn(x, TFloat64), OutputColumn(y, TFloat64)];
            NamesOf(output) == [x, y] && LabelRow(output, [Float(a), Float(b)])
              == Some(Assign(map[], [x, y], [Float(a), Float(b)]))
  {
    var output, values := [OutputColumn(x, TFloat64), OutputColumn(y, TFloat64)], [Float(a), Float(b)];
    CastAt(output, values);
    assert forall j :: 0 <= j < 2 ==> Cast(output[j].dataType, values[j]) == Some(values[j]);
    assert CastAll(output, values).value == values;
    assert NamesOf(output) == [x, y];
  }

  /** Selecting two float sums in the other order swaps them silently: the batch carries the first sum under
      the second one's name. */
  lemma SwappedSilently(a: real, b: real)
    ensures var output := [OutputColumn("y", TFloat64), OutputColumn("x", TFloat64)];
            Relabel(output, [("y", "y"), ("x", "x")], [Float(a), Float(b)])
              == Some(map["y" := Float(a), "x" := Float(b)])
    ensures var computed := [OutputColumn("x", TFloat64), OutputColumn("y", TFloat64)];
            Intended(computed, [("y", "y"), ("x", "x")], [Float(a), Float(b)]) == map["x" := Float(a), "y" := Float(b)]
  {
    var m: Renaming := [("y", "y"), ("x", "x")];
    var output := [OutputColumn("y", TFloat64), OutputColumn("x", TFloat64)];
    TwoCast("y", "x", a, b);
    TwoCast("x", "y", a, b);
    TwoAssigned("y", "x", Float(a), Float(b));
    TwoAssigned("x", "y", Float(a), Float(b));
    var row: Row, right: Row := map["y" := Float(a), "x" := Float(b)], map["x" := Float(a), "y" := Float(b)];
    TwoKept("y", "x", row);
    TwoKept("y", "x", right);
    assert m[0].0 in NamesOf(output) && m[1].0 in NamesOf(output);
    hide LabelRow, Assign, RenameRow, NamesOf;
  }

  // ---------------------------------------------------------------- the computed columns

  /** The columns an aggregation computes, with their types. */
  function ResultColumns(spec: AggregateSpec, types: Types): (computed: seq<OutputColumn>)
    ensures NamesOf(computed) == ResultNames(spec)
  {
    var n := |spec.groupBy|;
    var names := ResultNames(spec);
    seq(|names|, j requires 0 <= j < |names| =>
      OutputColumn(names[j],
                   if j < n then (if spec.groupBy[j] in types then types[spec.groupBy[j]] else TUtf8)
                   else OutputType(spec.aggregates[j - n].func, ArgumentType(types, spec.aggregates[j - n]))))
  }

  /** Sums and averages are of numbers, and only a count does without a column. */
  predicate Apt(types: Types, agg: AggregateExpr) {
    && (agg.column == None ==> agg.func.CountOf?)
    && (agg.func.SumOf? || agg.func.AvgOf? ==>
          agg.column.value in types && types[agg.column.value] in {TInt64, TFloat64})
  }

  /** The rows hold values of the columns' types. */
  ghost predicate RowTyped(types: Types, columns: set<string>, row: Row) {
    forall c :: c in columns ==> c in types && TypedValue(types[c], Cell(row, c))
  }

  ghost predicate RowsTyped(types: Types, columns: set<string>, rows: seq<Row>) {
    forall i :: 0 <= i < |rows| ==> RowTyped(types, columns, rows[i])
  }

  predicate TypedInput(ty: Option<DataType>, input: Option<Value>) {
    input.Some? ==> ty.Some? && TypedValue(ty.value, input.value)
  }

  predicate TypedState(func: AggregateFunc, ty: Option<DataType>, s: AggState) {
    match s
    case Count(_) => func.CountOf?
    case SumInt(_, _) => func.SumOf? && ty == Some(TInt64)
    case SumFloat(_, _) => func.SumOf? && ty != Some(TInt64)
    case Avg(_, _) => func.AvgOf?
    case Smallest(v) => func.MinFunc? && TypedInput(ty, v)
    case Largest(v) => func.MaxFunc? && TypedInput(ty, v)
  }

  lemma {:induction false} FoldTyped(func: AggregateFunc, ty: Option<DataType>, inputs: seq<Option<Value>>)
    requires forall i :: 0 <= i < |inputs| ==> TypedInput(ty, inputs[i])
    ensures TypedState(func, ty, Fold(New(func, ty), inputs))
  {
    if inputs != [] {
      FoldTyped(func, ty, inputs[..|inputs| - 1]);
    }
  }

  lemma FinishTyped(func: AggregateFunc, ty: Option<DataType>, s: AggState)
    requires TypedState(func, ty, s)
    ensures TypedValue(OutputType(func, ty), AggStates.Finish(s))
  {
  }

  lemma {:induction false} KeyCell(cols: seq<string>, row: Row, j: nat)
    requires j < |cols|
    ensures j < |KeyAt(cols, row)| == |cols| && KeyAt(cols, row)[j] == Cell(row, cols[j])
  {
    KeyLength(cols, row);
    if j > 0 {
      KeyCell(cols[1..], row, j - 1);
    }
  }

  lemma {:induction false} KeyLength(cols: seq<string>, row: Row)
    ensures |KeyAt(cols, row)| == |cols|
  {
    if cols != [] {
      KeyLength(cols[1..], row);
    }
  }

  /** Every group's key is some row's. */
  lemma {:induction false} KeyOfRow(cols: seq<string>, rows: seq<Row>, k: RowKey)
    requires k in FirstKeys(cols, rows)
    ensures exists i :: 0 <= i < |rows| && KeyAt(cols, rows[i]) == k
  {
    var n := |rows| - 1;
    if k in FirstKeys(cols, rows[..n]) {
      KeyOfRow(cols, rows[..n], k);
      var i :| 0 <= i < n && KeyAt(cols, rows[..n][i]) == k;
      assert rows[i] == rows[..n][i];
    } else {
      assert KeyAt(cols, rows[n]) == k;
    }
  }

  /** The rows of a group are rows. */
  lemma {:induction false} KeyRowsTyped(types: Types, columns: set<string>, cols: seq<string>, rows: seq<Row>,
                                        k: RowKey)
    requires RowsTyped(types, columns, rows)
    ensures RowsTyped(types, columns, KeyRows(cols, rows, k))
  {
    if rows != [] {
      KeyRowsTyped(types, columns, cols, rows[..|rows| - 1], k);
      hide RowTyped;
    }
  }

  lemma StatesTyped(spec: AggregateSpec, types: Types, rows: seq<Row>, j: nat)
    requires RowsTyped(types, SpecColumns(spec), rows) && j < |spec.aggregates|
    ensures TypedValue(OutputType(spec.aggregates[j].func, ArgumentType(types, spec.aggregates[j])),
                       AggStates.Finish(FoldRows(spec, types, rows)[j]))
  {
    var agg := spec.aggregates[j];
    var ty, inputs := ArgumentType(types, agg), InputsOf(agg, rows);
    assert agg.column.Some? ==> agg.column.value in SpecColumns(spec);
    forall i | 0 <= i < |inputs|
      ensures TypedInput(ty, inputs[i])
    {
    }
    FoldTyped(agg.func, ty, inputs);
    FinishTyped(agg.func, ty, Fold(New(agg.func, ty), inputs));
  }

  lemma TupleTyped(spec: AggregateSpec, types: Types, rows: seq<Row>, key: RowKey)
    requires RowsTyped(types, SpecColumns(spec), rows) && |key| == |spec.groupBy|
    requires forall j :: 0 <= j < |key| ==> spec.groupBy[j] in types && TypedValue(types[spec.groupBy[j]], key[j])
    ensures TypedTuple(ResultColumns(spec, types), Tuple(key, FoldRows(spec, types, rows)))
  {
    var states := FoldRows(spec, types, rows);
    forall j | 0 <= j < |spec.aggregates|
      ensures TypedValue(OutputType(spec.aggregates[j].func, ArgumentType(types, spec.aggregates[j])),
                         AggStates.Finish(states[j]))
    {
      StatesTyped(spec, types, rows, j);
    }
    hide FoldRows, RowsTyped;
    ColumnsTyped(spec, types, key, Finished(states));
  }

  lemma ColumnsTyped(spec: AggregateSpec, types: Types, key: RowKey, values: seq<Value>)
    requires |key| == |spec.groupBy| && |values| == |spec.aggregates|
    requires forall j :: 0 <= j < |key| ==> spec.groupBy[j] in types && TypedValue(types[spec.groupBy[j]], key[j])
    requires forall j :: 0 <= j < |values| ==>
               TypedValue(OutputType(spec.aggregates[j].func, ArgumentType(types, spec.aggregates[j])), values[j])
    ensures TypedTuple(ResultColumns(spec, types), key + values)
  {
    hide TypedValue, OutputType, ArgumentType;
    var n := |key|;
    assert |ResultColumns(spec, types)| == n + |values|;
    forall j | 0 <= j < n + |values|
      ensures TypedValue(ResultColumns(spec, types)[j].dataType, (key + values)[j])
    {
      if j >= n {
        assert (key + values)[j] == values[j - n];
      }
    }
  }

  /** The computed values are of their columns' types. */
  lemma ResultsTyped(spec: AggregateSpec, types: Types, rows: seq<Row>)
    requires RowsTyped(types, SpecColumns(spec), rows)
    ensures forall i :: 0 <= i < |Results(spec, types, rows)| ==>
              TypedTuple(ResultColumns(spec, types), Results(spec, types, rows)[i])
  {
    var g := GroupsOf(spec, types, rows);
    if g.keys == [] && spec.groupBy == [] {
      FoldRowsNext(spec, types, [], map[]);
      TupleTyped(spec, types, [], []);
    } else {
      forall i | 0 <= i < |g.keys|
        ensures TypedTuple(ResultColumns(spec, types), KeyTuples(g, g.keys)[i])
      {
        GroupTyped(spec, types, rows, g.keys[i]);
      }
    }
  }

  lemma GroupTyped(spec: AggregateSpec, types: Types, rows: seq<Row>, k: RowKey)
    requires RowsTyped(types, SpecColumns(spec), rows) && k in FirstKeys(spec.groupBy, rows)
    ensures k in GroupsOf(spec, types, rows).states
    ensures TypedTuple(ResultColumns(spec, types), Tuple(k, GroupsOf(spec, types, rows).states[k]))
  {
    KeyOfRow(spec.groupBy, rows, k);
    var r :| 0 <= r < |rows| && KeyAt(spec.groupBy, rows[r]) == k;
    KeyLength(spec.groupBy, rows[r]);
    forall j | 0 <= j < |k|
      ensures spec.groupBy[j] in types && TypedValue(types[spec.groupBy[j]], k[j])
    {
      KeyCell(spec.groupBy, rows[r], j);
      assert spec.groupBy[j] in SpecColumns(spec);
    }
    GroupsAt(spec, types, rows, k);
    KeyRowsTyped(types, SpecColumns(spec), spec.groupBy, rows, k);
    hide FirstKeys, KeyRows, FoldRows, RowsTyped, TypedTuple, TypedValue, KeyAt;
    TupleTyped(spec, types, KeyRows(spec.groupBy, rows, k), k);
  }

  // ---------------------------------------------------------------- whole batches

  ghost predicate AllTyped(computed: seq<OutputColumn>, tuples: seq<seq<Value>>) {
    forall i :: 0 <= i < |tuples| ==> TypedTuple(computed, tuples[i])
  }

  lemma OwnLabel(computed: seq<OutputColumn>, values: seq<Value>)
    requires TypedTuple(computed, values)
    ensures LabelRow(computed, values) == Some(Assign(map[], NamesOf(computed), values))
  {
    CastAt(computed, values);
    forall j | 0 <= j < |values|
      ensures Cast(computed[j].dataType, values[j]) == Some(values[j])
    {
      CastTyped(computed[j].dataType, computed[j].dataType, values[j]);
    }
    assert CastAll(computed, values).value == values;
  }

  /** Without a projection, the output's labels are the computed columns' own. */
  lemma {:induction false} OwnBatch(computed: seq<OutputColumn>, tuples: seq<seq<Value>>)
    requires AllTyped(computed, tuples)
    ensures LabelAll(computed, tuples) == Some(NameAll(NamesOf(computed), tuples))
  {
    var names := NamesOf(computed);
    if tuples == [] {
      assert NameAll(names, tuples) == [];
    } else {
      var n := |tuples| - 1;
      OwnBatch(computed, tuples[..n]);
      OwnLabel(computed, tuples[n]);
      hide LabelRow, Assign, TypedTuple;
      assert NameAll(names, tuples) == NameAll(names, tuples[..n]) + [Assign(map[], names, tuples[n])];
    }
  }

  /** When every row of the batch projects to what it should, projecting the batch is projecting the computed
      values. */
  lemma {:induction false} RelabelledBatch(computed: seq<OutputColumn>, output: seq<OutputColumn>, m: Renaming,
                                           tuples: seq<seq<Value>>)
    requires forall i :: 0 <= i < |tuples| ==> Relabel(output, m, tuples[i]) == Some(Intended(computed, m, tuples[i]))
    ensures LabelAll(output, tuples).Some? && |LabelAll(output, tuples).value| == |tuples|
    ensures RenameAll(m, LabelAll(output, tuples).value) == RenameAll(m, NameAll(NamesOf(computed), tuples))
    ensures tuples != [] ==> SourcesWithin(m, NamesOf(output))
  {
    if tuples != [] {
      var n := |tuples| - 1;
      RelabelledBatch(computed, output, m, tuples[..n]);
      assert Relabel(output, m, tuples[n]) == Some(Intended(computed, m, tuples[n]));
      var names := NamesOf(computed);
      var row := LabelRow(output, tuples[n]).value;
      assert SourcesWithin(m, NamesOf(output));
      hide LabelRow, Assign, RenameRow, SourcesWithin;
      assert NameAll(names, tuples) == NameAll(names, tuples[..n]) + [Assign(map[], names, tuples[n])];
      RenameSnoc(m, LabelAll(output, tuples[..n]).value, row);
      RenameSnoc(m, NameAll(names, tuples[..n]), Assign(map[], names, tuples[n]));
    }
  }

  lemma {:induction false} LabelledAt(output: seq<OutputColumn>, tuples: seq<seq<Value>>)
    requires LabelAll(output, tuples).Some?
    ensures |LabelAll(output, tuples).value| == |tuples|
    ensures forall i :: 0 <= i < |tuples| ==> LabelRow(output, tuples[i]) == Some(LabelAll(output, tuples).value[i])
  {
    if tuples != [] {
      LabelledAt(output, tuples[..|tuples| - 1]);
      hide LabelRow;
    }
  }

  /** And the other way round. */
  lemma RightRows(computed: seq<OutputColumn>, output: seq<OutputColumn>, m: Renaming, tuples: seq<seq<Value>>)
    requires LabelAll(output, tuples).Some? && SourcesWithin(m, NamesOf(output))
    requires RenameAll(m, LabelAll(output, tuples).value) == RenameAll(m, NameAll(NamesOf(computed), tuples))
    ensures forall i :: 0 <= i < |tuples| ==> Relabel(output, m, tuples[i]) == Some(Intended(computed, m, tuples[i]))
  {
    var batch, named := LabelAll(output, tuples).value, NameAll(NamesOf(computed), tuples);
    LabelledAt(output, tuples);
    forall i | 0 <= i < |tuples|
      ensures Relabel(output, m, tuples[i]) == Some(Intended(computed, m, tuples[i]))
    {
      assert RenameAll(m, batch)[i] == RenameAll(m, named)[i];
      assert forall r :: 0 <= r < |m| ==> m[r].0 in NamesOf(output);
      hide LabelRow, LabelAll, RenameRow, Assign;
    }
  }
}
