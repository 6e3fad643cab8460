/** Which columns of an aggregation are always equal, and so when the names that a projection above it looks up
    lead to the right values in every table (crates/adb-exec/src/aggregate.rs: finish; lib.rs: apply_rename). */
module Quantities {
  import opened Values
  import opened ValueOrder
  import opened Pruning
  import opened AggStates
  import opened Aggregation
  import opened Renamings
  import opened Labels

  // ---------------------------------------------------------------- what a column computes

  /** What a column of the result computes, whatever its name. In a group, the smallest, the largest and (of floats)
      the average value of a grouping column are the group's key. */
  datatype Quantity =
    | KeyOf(c: string)
    | Counted(column: Option<string>)
    | Summed(c: string)
    | Averaged(c: string)
    | Least(c: string)
    | Greatest(c: string)
    | Other(j: nat)

  function AggQuantity(groupBy: seq<string>, types: Types, agg: AggregateExpr, j: nat): Quantity {
    if agg.func.CountOf? then Counted(agg.column)
    else if agg.column == None then Other(j)
    else
      var c := agg.column.value;
      match agg.func
      case SumOf => Summed(c)
      case AvgOf => if c in groupBy && c in types && types[c] == TFloat64 then KeyOf(c) else Averaged(c)
      case MinFunc => if c in groupBy then KeyOf(c) else Least(c)
      case MaxFunc => if c in groupBy then KeyOf(c) else Greatest(c)
  }

  function QuantityAt(spec: AggregateSpec, types: Types, j: nat): Quantity
    requires j < |spec.groupBy| + |spec.aggregates|
  {
    var n := |spec.groupBy|;
    if j < n then KeyOf(spec.groupBy[j]) else AggQuantity(spec.groupBy, types, spec.aggregates[j - n], j - n)
  }

  /** The value of an aggregate over the rows of a group. */
  function AggValue(types: Types, func: AggregateFunc, column: Option<string>, rows: seq<Row>): Value {
    var agg := AggregateExpr(func, column, "");
    AggStates.Finish(Fold(New(func, ArgumentType(types, agg)), InputsOf(agg, rows)))
  }

  /** The value of a quantity over the rows of a group. */
  function ValueOf(spec: AggregateSpec, types: Types, q: Quantity, rows: seq<Row>): Value {
    match q
    case KeyOf(c) => if rows == [] then Null else Cell(rows[0], c)
    case Counted(column) => AggValue(types, CountOf, column, rows)
    case Summed(c) => AggValue(types, SumOf, Some(c), rows)
    case Averaged(c) => AggValue(types, AvgOf, Some(c), rows)
    case Least(c) => AggValue(types, MinFunc, Some(c), rows)
    case Greatest(c) => AggValue(types, MaxFunc, Some(c), rows)
    case Other(j) =>
      if j < |spec.aggregates| then AggValue(types, spec.aggregates[j].func, spec.aggregates[j].column, rows) else Null
  }

  /** The rows of one group. */
  ghost predicate IsGroup(spec: AggregateSpec, types: Types, rows: seq<Row>) {
    && (rows == [] ==> spec.groupBy == [])
    && RowsTyped(types, SpecColumns(spec), rows)
    && forall i, c :: 0 <= i < |rows| && c in spec.groupBy ==> Cell(rows[i], c) == Cell(rows[0], c)
  }

  // ---------------------------------------------------------------- columns that are the key

  function Copies(v: Value, n: nat): (inputs: seq<Option<Value>>)
    ensures |inputs| == n && forall i :: 0 <= i < n ==> inputs[i] == Some(v)
  {
    seq(n, _ => Some(v))
  }

  lemma {:induction false} LeastCopy(v: Value, n: nat)
    requires n > 0
    ensures Fold(Smallest(None), Copies(v, n)) == Smallest(if v == Null then None else Some(v))
    ensures Fold(Largest(None), Copies(v, n)) == Largest(if v == Null then None else Some(v))
  {
    LeqTotal(v, v);
    assert Copies(v, n)[..n - 1] == Copies(v, n - 1);
    if n > 1 {
      LeastCopy(v, n - 1);
    } else {
      assert Copies(v, 0) == [];
    }
  }

  lemma {:induction false} AvgCopy(v: Value, n: nat)
    ensures Fold(Avg(0.0, 0), Copies(v, n)) ==
            if AsReal(v).Some? then Avg(n as real * AsReal(v).value, n) else Avg(0.0, 0)
  {
    if n > 0 {
      AvgCopy(v, n - 1);
      assert Copies(v, n)[..n - 1] == Copies(v, n - 1);
      if AsReal(v).Some? {
        OneMore(n, AsReal(v).value);
      }
    }
  }

  lemma OneMore(n: nat, r: real)
    requires n > 0
    ensures (n - 1) as real * r + r == n as real * r
  {
    assert (n - 1) as real == n as real - 1.0;
    Distributes(n as real, r);
  }

  lemma Distributes(x: real, r: real)
    ensures (x - 1.0) * r + r == x * r
  {
  }

  lemma Divides(n: nat, r: real)
    requires n > 0
    ensures n as real * r / n as real == r
  {
  }

  lemma CopiedInputs(func: AggregateFunc, c: string, rows: seq<Row>)
    requires forall i :: 0 <= i < |rows| ==> Cell(rows[i], c) == Cell(rows[0], c)
    ensures rows != [] ==> InputsOf(AggregateExpr(func, Some(c), ""), rows) == Copies(Cell(rows[0], c), |rows|)
  {
  }

  lemma CopiesFinished(v: Value, n: nat)
    requires n > 0
    ensures AggStates.Finish(Fold(Smallest(None), Copies(v, n))) == v
    ensures AggStates.Finish(Fold(Largest(None), Copies(v, n))) == v
    ensures AggStates.Finish(Fold(Avg(0.0, 0), Copies(v, n))) ==
            if AsReal(v).Some? then Float(AsReal(v).value) else Null
  {
    hide Fold, Copies, AsReal;
    LeastCopy(v, n);
    AvgCopy(v, n);
    if AsReal(v).Some? {
      Divides(n, AsReal(v).value);
    }
  }

  /** The smallest, the largest and the average value of a column that is the same in all rows. */
  lemma ConstantColumn(types: Types, c: string, rows: seq<Row>)
    requires rows != [] && forall i :: 0 <= i < |rows| ==> Cell(rows[i], c) == Cell(rows[0], c)
    ensures AggValue(types, MinFunc, Some(c), rows) == AggValue(types, MaxFunc, Some(c), rows) == Cell(rows[0], c)
    ensures var v := Cell(rows[0], c);
            AggValue(types, AvgOf, Some(c), rows) == if AsReal(v).Some? then Float(AsReal(v).value) else Null
  {
    CopiedInputs(MinFunc, c, rows);
    CopiedInputs(MaxFunc, c, rows);
    CopiedInputs(AvgOf, c, rows);
    CopiesFinished(Cell(rows[0], c), |rows|);
    hide Fold, Copies, InputsOf, Cell, AsReal, ArgumentType, AggStates.Finish;
  }

  lemma StateValue(spec: AggregateSpec, types: Types, rows: seq<Row>, j: nat)
    requires j < |spec.aggregates|
    ensures AggStates.Finish(FoldRows(spec, types, rows)[j]) ==
            AggValue(types, spec.aggregates[j].func, spec.aggregates[j].column, rows)
  {
    var agg := spec.aggregates[j];
    assert InputsOf(agg, rows) == InputsOf(AggregateExpr(agg.func, agg.column, ""), rows);
  }

  lemma TupleAt(key: RowKey, states: seq<AggState>, j: nat)
    requires j < |key| + |states|
    ensures |Tuple(key, states)| == |key| + |states|
    ensures Tuple(key, states)[j] == if j < |key| then key[j] else AggStates.Finish(states[j - |key|])
  {
  }

  /** Every column of a group's tuple is the value of what it computes. */
  lemma TupleValue(spec: AggregateSpec, types: Types, rows: seq<Row>, key: RowKey, j: nat)
    requires IsGroup(spec, types, rows) && |key| == |spec.groupBy| && j < |spec.groupBy| + |spec.aggregates|
    requires forall i :: 0 <= i < |key| ==> rows != [] && key[i] == Cell(rows[0], spec.groupBy[i])
    ensures |Tuple(key, FoldRows(spec, types, rows))| == |spec.groupBy| + |spec.aggregates|
            && Tuple(key, FoldRows(spec, types, rows))[j] == ValueOf(spec, types, QuantityAt(spec, types, j), rows)
  {
    var n := |spec.groupBy|;
    hide AggValue, FoldRows, RowsTyped, AggQuantity, IsGroup, Tuple, SpecColumns;
    TupleAt(key, FoldRows(spec, types, rows), j);
    if j >= n {
      StateValue(spec, types, rows, j - n);
      AggIsValue(spec, types, rows, j - n);
    }
  }

  lemma AggIsValue(spec: AggregateSpec, types: Types, rows: seq<Row>, j: nat)
    requires IsGroup(spec, types, rows) && j < |spec.aggregates|
    ensures AggValue(types, spec.aggregates[j].func, spec.aggregates[j].column, rows) ==
            ValueOf(spec, types, AggQuantity(spec.groupBy, types, spec.aggregates[j], j), rows)
  {
    var agg := spec.aggregates[j];
    if agg.column.Some? && agg.column.value in spec.groupBy {
      GroupedColumn(spec, types, rows, agg.column.value);
    }
    AggCases(spec, types, rows, agg, j);
    hide *;
  }

  lemma AggCases(spec: AggregateSpec, types: Types, rows: seq<Row>, agg: AggregateExpr, j: nat)
    requires j < |spec.aggregates| && agg == spec.aggregates[j]
    requires agg.column.Some? && agg.column.value in spec.groupBy ==>
               var c := agg.column.value;
               && rows != []
               && AggValue(types, MinFunc, agg.column, rows) == AggValue(types, MaxFunc, agg.column, rows) ==
                  Cell(rows[0], c)
               && (c in types && types[c] == TFloat64 ==> AggValue(types, AvgOf, agg.column, rows) == Cell(rows[0], c))
    ensures AggValue(types, agg.func, agg.column, rows) ==
            ValueOf(spec, types, AggQuantity(spec.groupBy, types, agg, j), rows)
  {
    hide AggValue, Cell;
  }

  /** The smallest, the largest and the average value of a grouping column. */
  lemma GroupedColumn(spec: AggregateSpec, types: Types, rows: seq<Row>, c: string)
    requires IsGroup(spec, types, rows) && c in spec.groupBy
    ensures rows != []
    ensures AggValue(types, MinFunc, Some(c), rows) == AggValue(types, MaxFunc, Some(c), rows) == Cell(rows[0], c)
    ensures c in types && types[c] == TFloat64 ==> AggValue(types, AvgOf, Some(c), rows) == Cell(rows[0], c)
  {
    assert rows != [] && c in SpecColumns(spec) && RowTyped(types, SpecColumns(spec), rows[0]);
    hide AggValue, RowsTyped;
    ConstantColumn(types, c, rows);
    FloatKey(types, c, Cell(rows[0], c));
  }

  lemma FloatKey(types: Types, c: string, v: Value)
    requires c in types && TypedValue(types[c], v)
    ensures types[c] == TFloat64 ==> v == if AsReal(v).Some? then Float(AsReal(v).value) else Null
    ensures types[c] == TInt64 ==> v == Null || (v.Int? && AsReal(v) == Some(v.i as real))
  {
  }

  // ---------------------------------------------------------------- when the labels are right

  /** Reading column `k` of the batch, held as the type `into`, always gives what column `i` computes. */
  predicate ReadsAs(spec: AggregateSpec, types: Types, into: DataType, k: nat, i: nat)
    requires k < |spec.groupBy| + |spec.aggregates| && i < |spec.groupBy| + |spec.aggregates|
  {
    var held, wanted := QuantityAt(spec, types, k), QuantityAt(spec, types, i);
    || (held == wanted && Preserves(into, ResultColumns(spec, types)[k].dataType))
    || (held.KeyOf? && held.c in types && types[held.c] == TInt64 && into == TFloat64 && wanted == Averaged(held.c))
  }

  /** The batch has a column of that name, and reading it gives what the aggregation computes under the name. */
  predicate SourceRight(spec: AggregateSpec, types: Types, output: seq<OutputColumn>, source: string) {
    var names := ResultNames(spec);
    exists k, i :: 0 <= k < |output| && 0 <= i < |names| && k < |names|
                   && output[k].name == source && names[i] == source && ReadsAs(spec, types, output[k].dataType, k, i)
  }

  /** The batch has the computed columns, each can hold what is computed there, and every source is right. */
  predicate AllRight(spec: AggregateSpec, types: Types, output: seq<OutputColumn>, m: Renaming) {
    var computed := ResultColumns(spec, types);
    && |output| == |computed|
    && (forall j :: 0 <= j < |computed| ==> Accepts(output[j].dataType, computed[j].dataType))
    && (forall r :: 0 <= r < |m| ==> SourceRight(spec, types, output, m[r].0))
  }

  // ---------------------------------------------------------------- right labels are enough

  /** The values that some group computes. */
  ghost predicate Computed(spec: AggregateSpec, types: Types, values: seq<Value>) {
    && TypedTuple(ResultColumns(spec, types), values)
    && exists rows :: IsGroup(spec, types, rows) && Computes(spec, types, rows, values)
  }

  ghost predicate Computes(spec: AggregateSpec, types: Types, rows: seq<Row>, values: seq<Value>) {
    && |values| == |spec.groupBy| + |spec.aggregates|
    && forall j :: 0 <= j < |values| ==> values[j] == ValueOf(spec, types, QuantityAt(spec, types, j), rows)
  }

  lemma {:induction false} KeyRowsKey(cols: seq<string>, rows: seq<Row>, k: RowKey)
    ensures forall i :: 0 <= i < |KeyRows(cols, rows, k)| ==> KeyAt(cols, KeyRows(cols, rows, k)[i]) == k
  {
    if rows != [] {
      KeyRowsKey(cols, rows[..|rows| - 1], k);
      hide KeyAt;
    }
  }

  /** Rows with the same key have the same values in the grouping columns. */
  lemma SameKeys(cols: seq<string>, group: seq<Row>, k: RowKey)
    requires group != [] && forall i :: 0 <= i < |group| ==> KeyAt(cols, group[i]) == k
    ensures |k| == |cols|
    ensures forall i, j :: 0 <= i < |group| && 0 <= j < |cols| ==> Cell(group[i], cols[j]) == k[j]
  {
    KeyLength(cols, group[0]);
    forall i, j | 0 <= i < |group| && 0 <= j < |cols|
      ensures Cell(group[i], cols[j]) == k[j]
    {
      KeyCell(cols, group[i], j);
    }
  }

  lemma SameCellsGroup(spec: AggregateSpec, types: Types, group: seq<Row>, k: RowKey)
    requires group != [] && RowsTyped(types, SpecColumns(spec), group) && |k| == |spec.groupBy|
    requires forall i, j :: 0 <= i < |group| && 0 <= j < |k| ==> Cell(group[i], spec.groupBy[j]) == k[j]
    ensures IsGroup(spec, types, group)
  {
    hide RowsTyped, Cell;
  }

  lemma KeyedGroup(spec: AggregateSpec, types: Types, rows: seq<Row>, k: RowKey)
    requires RowsTyped(types, SpecColumns(spec), rows) && k in FirstKeys(spec.groupBy, rows)
    ensures var group := KeyRows(spec.groupBy, rows, k);
            && group != [] && IsGroup(spec, types, group) && |k| == |spec.groupBy|
            && forall j :: 0 <= j < |k| ==> k[j] == Cell(group[0], spec.groupBy[j])
  {
    hide *;
    var group := KeyRows(spec.groupBy, rows, k);
    GroupsAt(spec, types, rows, k);
    KeyRowsTyped(types, SpecColumns(spec), spec.groupBy, rows, k);
    KeyRowsKey(spec.groupBy, rows, k);
    SameKeys(spec.groupBy, group, k);
    SameCellsGroup(spec, types, group, k);
  }

  lemma GroupComputes(spec: AggregateSpec, types: Types, rows: seq<Row>, key: RowKey)
    requires IsGroup(spec, types, rows) && |key| == |spec.groupBy|
    requires forall i :: 0 <= i < |key| ==> rows != [] && key[i] == Cell(rows[0], spec.groupBy[i])
    ensures Computes(spec, types, rows, Tuple(key, FoldRows(spec, types, rows)))
  {
    TupleLength(key, FoldRows(spec, types, rows));
    forall j | 0 <= j < |spec.groupBy| + |spec.aggregates|
      ensures Tuple(key, FoldRows(spec, types, rows))[j] == ValueOf(spec, types, QuantityAt(spec, types, j), rows)
    {
      TupleValue(spec, types, rows, key, j);
    }
    hide Tuple, FoldRows, ValueOf, QuantityAt, IsGroup;
  }

  lemma TupleLength(key: RowKey, states: seq<AggState>)
    ensures |Tuple(key, states)| == |key| + |states|
  {
  }

  /** What a table's groups compute. */
  lemma ResultsComputed(spec: AggregateSpec, types: Types, rows: seq<Row>)
    requires RowsTyped(types, SpecColumns(spec), rows)
    ensures forall i :: 0 <= i < |Results(spec, types, rows)| ==> Computed(spec, types, Results(spec, types, rows)[i])
  {
    ResultsTyped(spec, types, rows);
    var g := GroupsOf(spec, types, rows);
    hide TypedTuple, RowsTyped, FoldRows, Tuple;
    if g.keys == [] && spec.groupBy == [] {
      FoldRowsNext(spec, types, [], map[]);
      NoRowsGroup(spec, types);
      GroupComputes(spec, types, [], []);
    } else {
      forall i | 0 <= i < |g.keys|
        ensures Computed(spec, types, Results(spec, types, rows)[i])
      {
        KeyedGroup(spec, types, rows, g.keys[i]);
        GroupsAt(spec, types, rows, g.keys[i]);
        GroupComputes(spec, types, KeyRows(spec.groupBy, rows, g.keys[i]), g.keys[i]);
        hide KeyRows, FirstKeys, IsGroup, Computes;
      }
    }
  }

  lemma NoRowsGroup(spec: AggregateSpec, types: Types)
    requires spec.groupBy == []
    ensures IsGroup(spec, types, [])
  {
  }

  lemma KeyIsGrouped(spec: AggregateSpec, types: Types, k: nat)
    requires k < |spec.groupBy| + |spec.aggregates| && QuantityAt(spec, types, k).KeyOf?
    ensures QuantityAt(spec, types, k).c in spec.groupBy
  {
  }

  /** Reading a column as another quantity gives that quantity's value. */
  lemma ReadValue(spec: AggregateSpec, types: Types, into: DataType, k: nat, i: nat, rows: seq<Row>, v: Value)
    requires k < |spec.groupBy| + |spec.aggregates| && i < |spec.groupBy| + |spec.aggregates|
    requires IsGroup(spec, types, rows) && ReadsAs(spec, types, into, k, i)
    requires v == ValueOf(spec, types, QuantityAt(spec, types, k), rows)
    requires TypedValue(ResultColumns(spec, types)[k].dataType, v)
    ensures Cast(into, v) == Some(ValueOf(spec, types, QuantityAt(spec, types, i), rows))
  {
    var held, wanted := QuantityAt(spec, types, k), QuantityAt(spec, types, i);
    if held == wanted && Preserves(into, ResultColumns(spec, types)[k].dataType) {
      CastTyped(into, ResultColumns(spec, types)[k].dataType, v);
    } else {
      KeyIsGrouped(spec, types, k);
      var c := held.c;
      assert rows != [] && c in SpecColumns(spec) && RowTyped(types, SpecColumns(spec), rows[0]);
      hide AggValue, RowsTyped, QuantityAt;
      ConstantColumn(types, c, rows);
      FloatKey(types, c, Cell(rows[0], c));
    }
    hide QuantityAt, ValueOf, ResultColumns, Cast;
  }

  ghost predicate NamedRight(spec: AggregateSpec, types: Types, output: seq<OutputColumn>, m: Renaming) {
    WellNamed(ResultColumns(spec, types), output, m) && m != []
  }

  lemma RightRow(spec: AggregateSpec, types: Types, output: seq<OutputColumn>, m: Renaming, values: seq<Value>)
    requires NamedRight(spec, types, output, m) && AllRight(spec, types, output, m) && Computed(spec, types, values)
    ensures Relabel(output, m, values) == Some(Intended(ResultColumns(spec, types), m, values))
  {
    var computed := ResultColumns(spec, types);
    CastAt(output, values);
    forall j | 0 <= j < |values|
      ensures Cast(output[j].dataType, values[j]).Some?
    {
      CastTyped(output[j].dataType, computed[j].dataType, values[j]);
    }
    assert LabelRow(output, values).Some?;
    forall r | 0 <= r < |m|
      ensures m[r].0 in NamesOf(output)
      ensures Cell(LabelRow(output, values).value, m[r].0) == Cell(Assign(map[], NamesOf(computed), values), m[r].0)
    {
      RightCell(spec, types, output, m[r].0, values);
    }
    assert m[0].0 in NamesOf(output);
    hide LabelRow, Assign, AllRight, WellNamed, Computed, Cast, Accepts, ResultColumns;
    SameRenamed(m, LabelRow(output, values).value, Assign(map[], NamesOf(computed), values));
  }

  lemma LabelledCell(output: seq<OutputColumn>, values: seq<Value>, k: nat)
    requires NoRepeats(NamesOf(output)) && |output| == |values| && LabelRow(output, values).Some? && k < |output|
    ensures Cast(output[k].dataType, values[k]) == Some(Cell(LabelRow(output, values).value, output[k].name))
  {
    CastAt(output, values);
    hide Cast;
    assert NamesOf(output)[k] == output[k].name;
    AssignAt(map[], NamesOf(output), CastAll(output, values).value, k);
  }

  lemma RightCell(spec: AggregateSpec, types: Types, output: seq<OutputColumn>, source: string, values: seq<Value>)
    requires NoRepeats(NamesOf(output)) && NoRepeats(ResultNames(spec)) && Computed(spec, types, values)
    requires |output| == |values| && LabelRow(output, values).Some? && SourceRight(spec, types, output, source)
    ensures source in NamesOf(output)
    ensures Cell(LabelRow(output, values).value, source) ==
            Cell(Assign(map[], NamesOf(ResultColumns(spec, types)), values), source)
  {
    var names := ResultNames(spec);
    var k, i :| 0 <= k < |output| && 0 <= i < |names| && k < |names| && output[k].name == source && names[i] == source
                && ReadsAs(spec, types, output[k].dataType, k, i);
    var rows :| IsGroup(spec, types, rows) && Computes(spec, types, rows, values);
    assert NamesOf(output)[k] == source;
    hide Cast, ValueOf, QuantityAt, Preserves, ReadsAs, IsGroup, LabelRow;
    ReadValue(spec, types, output[k].dataType, k, i, rows, values[k]);
    LabelledCell(output, values, k);
    AssignAt(map[], names, values, i);
  }

  // ---------------------------------------------------------------- right labels are needed

  /** What validation guarantees of an aggregation: its columns are the table's, sums and averages are of numbers,
      and only a count does without a column. */
  predicate Sensible(spec: AggregateSpec, types: Types) {
    && (forall c :: c in SpecColumns(spec) ==> c in types)
    && forall j :: 0 <= j < |spec.aggregates| ==> Apt(types, spec.aggregates[j])
  }

  /** A second sample, different from the first. */
  function Second(ty: DataType): (v: Value)
    ensures TypedValue(ty, v) && v != Null
  {
    match ty
    case TBool => Bool(false)
    case TInt64 => Int(2)
    case TFloat64 => Float(1.5)
    case TUtf8 => Str("b")
    case TUuid => Str("b")
    case TJson => Str("b")
    case TTimestamp => Timestamp(2)
    case TDate => Date(2)
  }

  /** A table with one column filled in. */
  function Filled(c: string, xs: seq<Value>): (rows: seq<Row>)
    ensures |rows| == |xs| && forall i :: 0 <= i < |rows| ==> rows[i] == map[c := xs[i]]
  {
    seq(|xs|, i requires 0 <= i < |xs| => map[c := xs[i]])
  }

  lemma FilledInputs(func: AggregateFunc, d: string, c: string, xs: seq<Value>)
    ensures InputsOf(AggregateExpr(func, Some(d), ""), Filled(c, xs)) ==
            if d == c then Inputs(xs) else Copies(Null, |xs|)
    ensures InputsOf(AggregateExpr(func, None, ""), Filled(c, xs)) == Stars(|xs|)
  {
  }

  lemma {:induction false} FoldNulls(s: AggState, n: nat)
    ensures Fold(s, Copies(Null, n)) == s
  {
    if n > 0 {
      FoldNulls(s, n - 1);
      assert Copies(Null, n)[..n - 1] == Copies(Null, n - 1);
    }
  }

  lemma FoldFew(s: AggState, x: Value, y: Value)
    ensures Fold(s, Inputs([x])) == Update(s, Some(x))
    ensures Fold(s, Inputs([x, y])) == Update(Update(s, Some(x)), Some(y))
  {
    assert Inputs([x])[..0] == [] && Inputs([x, y])[..1] == Inputs([x]);
    assert Fold(s, Inputs([x])) == Update(Fold(s, Inputs([x])[..0]), Some(x));
  }

  /** The value of an aggregate over a table with one column filled in. */
  function FilledValue(types: Types, func: AggregateFunc, column: Option<string>, c: string, xs: seq<Value>): Value
    requires 1 <= |xs| <= 2
  {
    var start := New(func, ArgumentType(types, AggregateExpr(func, column, "")));
    AggStates.Finish(
      if column == None then Fold(start, Stars(|xs|))
      else if column != Some(c) then start
      else if |xs| == 1 then Update(start, Some(xs[0]))
      else Update(Update(start, Some(xs[0])), Some(xs[1])))
  }

  lemma FilledAgg(types: Types, func: AggregateFunc, column: Option<string>, c: string, xs: seq<Value>)
    requires 1 <= |xs| <= 2
    ensures AggValue(types, func, column, Filled(c, xs)) == FilledValue(types, func, column, c, xs)
  {
    if column.Some? {
      FilledInputs(func, column.value, c, xs);
      FoldNulls(New(func, ArgumentType(types, AggregateExpr(func, column, ""))), |xs|);
      FoldFew(New(func, ArgumentType(types, AggregateExpr(func, column, ""))), xs[0], xs[|xs| - 1]);
      assert xs == if |xs| == 1 then [xs[0]] else [xs[0], xs[1]];
    } else {
      FilledInputs(func, "", c, xs);
    }
    hide Fold, InputsOf, Inputs, Copies, Stars, Update, Filled;
  }

  // Telling two quantities apart

  function ColumnOf(q: Quantity): Option<string> {
    match q
    case KeyOf(c) => Some(c)
    case Counted(column) => column
    case Summed(c) => Some(c)
    case Averaged(c) => Some(c)
    case Least(c) => Some(c)
    case Greatest(c) => Some(c)
    case Other(_) => None
  }

  /** The type of a quantity. */
  function QuantityType(types: Types, q: Quantity): DataType {
    match q
    case Counted(_) => TInt64
    case Averaged(_) => TFloat64
    case _ => if ColumnOf(q).Some? && ColumnOf(q).value in types then types[ColumnOf(q).value] else TUtf8
  }

  /** What a sensible aggregation may compute. */
  predicate Possible(groupBy: seq<string>, types: Types, q: Quantity) {
    && !q.Other? && (ColumnOf(q) == None ==> q.Counted?)
    && (ColumnOf(q).Some? ==> ColumnOf(q).value in types)
    && (q.KeyOf? ==> q.c in groupBy)
    && (q.Summed? || q.Averaged? ==> types[q.c] in {TInt64, TFloat64})
    && (q.Averaged? && q.c in groupBy ==> types[q.c] == TInt64)
    && (q.Least? || q.Greatest? ==> q.c !in groupBy)
  }

  lemma QuantityPossible(spec: AggregateSpec, types: Types, j: nat)
    requires Sensible(spec, types) && j < |spec.groupBy| + |spec.aggregates|
    ensures var q := QuantityAt(spec, types, j);
            Possible(spec.groupBy, types, q) && ResultColumns(spec, types)[j].dataType == QuantityType(types, q)
  {
    var n := |spec.groupBy|;
    if j < n {
      assert spec.groupBy[j] in SpecColumns(spec);
    } else {
      var agg := spec.aggregates[j - n];
      assert agg.column.Some? ==> agg.column.value in SpecColumns(spec);
      assert ResultColumns(spec, types)[j].dataType == OutputType(agg.func, ArgumentType(types, agg));
      match agg.func
      case CountOf =>
      case SumOf =>
      case AvgOf =>
      case MinFunc =>
      case MaxFunc =>
    }
  }

  /** The value of a quantity over a table with one column filled in. */
  function Seen(types: Types, q: Quantity, c: string, xs: seq<Value>): Value
    requires 1 <= |xs| <= 2
  {
    match q
    case KeyOf(d) => if d == c then xs[0] else Null
    case Counted(column) => FilledValue(types, CountOf, column, c, xs)
    case Summed(d) => FilledValue(types, SumOf, Some(d), c, xs)
    case Averaged(d) => FilledValue(types, AvgOf, Some(d), c, xs)
    case Least(d) => FilledValue(types, MinFunc, Some(d), c, xs)
    case Greatest(d) => FilledValue(types, MaxFunc, Some(d), c, xs)
    case Other(_) => Null
  }

  lemma SeenValue(spec: AggregateSpec, types: Types, q: Quantity, c: string, xs: seq<Value>)
    requires 1 <= |xs| <= 2 && !q.Other?
    ensures ValueOf(spec, types, q, Filled(c, xs)) == Seen(types, q, c, xs)
  {
    FilledAgg(types, CountOf, ColumnOf(q), c, xs);
    FilledAgg(types, SumOf, ColumnOf(q), c, xs);
    FilledAgg(types, AvgOf, ColumnOf(q), c, xs);
    FilledAgg(types, MinFunc, ColumnOf(q), c, xs);
    FilledAgg(types, MaxFunc, ColumnOf(q), c, xs);
    assert Filled(c, xs)[0] == map[c := xs[0]];
    hide AggValue, FilledValue, Filled;
  }

  lemma CountSeen(types: Types, column: Option<string>, c: string, xs: seq<Value>)
    requires 1 <= |xs| <= 2
    ensures column == None ==> FilledValue(types, CountOf, column, c, xs) == Int(|xs|)
    ensures column.Some? && xs == [Null] ==> FilledValue(types, CountOf, column, c, xs) == Int(0)
    ensures column.Some? && column != Some(c) ==> FilledValue(types, CountOf, column, c, xs) == Int(0)
    ensures column == Some(c) && |xs| == 1 && xs[0] != Null ==> FilledValue(types, CountOf, column, c, xs) == Int(1)
  {
    StarsFold(Count(0), |xs|);
    hide Fold;
  }

  /** Nothing comes of a column without values. */
  lemma NothingSeen(groupBy: seq<string>, types: Types, q: Quantity, c: string, xs: seq<Value>)
    requires Possible(groupBy, types, q) && !q.Counted? && 1 <= |xs| <= 2 && (ColumnOf(q) != Some(c) || xs == [Null])
    ensures Seen(types, q, c, xs) == Null
  {
    hide Fold;
  }

  /** What is seen of one sample. */
  lemma SampleSeen(groupBy: seq<string>, types: Types, q: Quantity, c: string)
    requires Possible(groupBy, types, q) && ColumnOf(q) == Some(c)
    ensures var v := Seen(types, q, c, [Sample(types[c])]);
            && v != Null && v != Int(0) && TypedValue(QuantityType(types, q), v)
            && (q.KeyOf? || q.Summed? || q.Least? || q.Greatest? ==> v == Sample(types[c]))
            && (q.Averaged? ==> v == Float(if types[c] == TInt64 then 1.0 else 0.5))
            && (q.Counted? ==> v == Int(1))
  {
    hide Fold;
  }

  lemma CastKeeps(into: DataType, from: DataType, v: Value)
    requires TypedValue(from, v) && v != Null
    ensures Cast(into, v) == Some(v) ==> Preserves(into, from)
    ensures Cast(into, v).Some? <==> Accepts(into, from)
  {
  }

  /** A cast neither makes a value of nothing nor nothing of a value, and keeps 0 and 1 apart. */
  lemma CastApart(into: DataType, v: Value, w: Value)
    ensures Cast(into, v) == Some(w) ==> (v == Null <==> w == Null)
    ensures Cast(into, v) == Some(w) && (v == Int(0) || v == Int(1)) && w.Int? ==> v == w
  {
  }

  /** A sample is not taken for zero. */
  lemma SampleNotZero(into: DataType, groupBy: seq<string>, types: Types, q: Quantity, c: string)
    requires Possible(groupBy, types, q) && ColumnOf(q) == Some(c)
    ensures Cast(into, Seen(types, q, c, [Sample(types[c])])) != Some(Int(0))
  {
    SampleSeen(groupBy, types, q, c);
    hide Seen;
  }

  /** Samples and a table that fits the column types and the grouping. */
  predicate Fillable(groupBy: seq<string>, types: Types, c: string, xs: seq<Value>) {
    && 1 <= |xs| <= 2
    && (forall i :: 0 <= i < |xs| ==> xs[i] == Null || (c in types && TypedValue(types[c], xs[i])))
    && (c in groupBy ==> forall i :: 0 <= i < |xs| ==> xs[i] == xs[0])
  }

  lemma DifferentColumns(groupBy: seq<string>, types: Types, into: DataType, p: Quantity, q: Quantity)
    returns (c: string, xs: seq<Value>)
    requires Possible(groupBy, types, p) && Possible(groupBy, types, q) && ColumnOf(p) != ColumnOf(q)
    ensures Fillable(groupBy, types, c, xs) && Cast(into, Seen(types, p, c, xs)) != Some(Seen(types, q, c, xs))
  {
    hide FilledValue, Sample;
    if ColumnOf(q) == None || ColumnOf(p) == None {
      c, xs := "", [Null];
      CountSeen(types, ColumnOf(p), c, xs);
      CountSeen(types, ColumnOf(q), c, xs);
    } else {
      c := ColumnOf(p).value;
      xs := [Sample(types[c])];
      SampleSeen(groupBy, types, p, c);
      SampleNotZero(into, groupBy, types, p, c);
      CountSeen(types, ColumnOf(q), c, xs);
    }
    if !p.Counted? && xs == [Null] {
      NothingSeen(groupBy, types, p, c, xs);
    }
    if !q.Counted? {
      NothingSeen(groupBy, types, q, c, xs);
    }
    CastApart(into, Seen(types, p, c, xs), Seen(types, q, c, xs));
    hide Cast, Possible;
  }

  /** A sum differs from the other values of its column when that has the same value twice. */
  lemma SumApart(groupBy: seq<string>, types: Types, into: DataType, p: Quantity, q: Quantity, c: string)
    requires Possible(groupBy, types, p) && Possible(groupBy, types, q) && ColumnOf(p) == ColumnOf(q) == Some(c)
    requires p != q && !p.Counted? && !q.Counted? && (p.Summed? || q.Summed?)
    ensures var xs := [Sample(types[c]), Sample(types[c])];
            Cast(into, Seen(types, p, c, xs)) != Some(Seen(types, q, c, xs))
  {
    var xs := [Sample(types[c]), Sample(types[c])];
    hide Fold;
    assert types[c] == TInt64 || types[c] == TFloat64;
    TwiceSeen(groupBy, types, p, c);
    TwiceSeen(groupBy, types, q, c);
    hide Seen, Sample;
  }

  lemma TwiceSeen(groupBy: seq<string>, types: Types, q: Quantity, c: string)
    requires Possible(groupBy, types, q) && ColumnOf(q) == Some(c) && !q.Counted?
    requires types[c] == TInt64 || types[c] == TFloat64
    ensures var v := Seen(types, q, c, [Sample(types[c]), Sample(types[c])]);
            if types[c] == TInt64
            then v == if q.Summed? then Int(2) else if q.Averaged? then Float(1.0) else Int(1)
            else v == if q.Summed? then Float(1.0) else Float(0.5)
  {
    hide Fold;
  }

  /** The smallest, the largest and the average value differ when a column has two values. */
  lemma ExtremesApart(groupBy: seq<string>, types: Types, into: DataType, p: Quantity, q: Quantity, c: string)
    requires Possible(groupBy, types, p) && Possible(groupBy, types, q) && ColumnOf(p) == ColumnOf(q) == Some(c)
    requires p != q && (p.Least? || p.Greatest? || p.Averaged?) && (q.Least? || q.Greatest? || q.Averaged?)
    ensures var xs := [Sample(types[c]), Second(types[c])];
            Cast(into, Seen(types, p, c, xs)) != Some(Seen(types, q, c, xs))
  {
    hide Fold;
    TwoSeen(groupBy, types, p, c);
    TwoSeen(groupBy, types, q, c);
    hide Seen;
  }

  lemma TwoSeen(groupBy: seq<string>, types: Types, q: Quantity, c: string)
    requires Possible(groupBy, types, q) && ColumnOf(q) == Some(c) && (q.Least? || q.Greatest? || q.Averaged?)
    ensures var x, y := Sample(types[c]), Second(types[c]);
            var v := Seen(types, q, c, [x, y]);
            match q
            case Averaged(_) => v == Float(if types[c] == TInt64 then 1.5 else 1.0)
            case Least(_) => v == if types[c] == TBool then y else x
            case _ => v == if types[c] == TBool then x else y
  {
    hide Fold;
  }

  /** The key of an integer column is its average only as a float. */
  lemma KeyApart(groupBy: seq<string>, types: Types, into: DataType, p: Quantity, q: Quantity, c: string)
    requires Possible(groupBy, types, p) && Possible(groupBy, types, q) && ColumnOf(p) == ColumnOf(q) == Some(c)
    requires (p.KeyOf? && q.Averaged? && into != TFloat64) || (p.Averaged? && q.KeyOf?)
    ensures var xs := [Sample(types[c])]; Cast(into, Seen(types, p, c, xs)) != Some(Seen(types, q, c, xs))
  {
    SampleSeen(groupBy, types, p, c);
    SampleSeen(groupBy, types, q, c);
    hide Seen;
  }

  /** Reading a quantity as itself needs a type that keeps it. */
  lemma TypeApart(groupBy: seq<string>, types: Types, into: DataType, q: Quantity) returns (c: string, xs: seq<Value>)
    requires Possible(groupBy, types, q) && !Preserves(into, QuantityType(types, q))
    ensures Fillable(groupBy, types, c, xs) && Cast(into, Seen(types, q, c, xs)) != Some(Seen(types, q, c, xs))
  {
    c, xs := Filling(groupBy, types, q);
    CastKeeps(into, QuantityType(types, q), Seen(types, q, c, xs));
    hide Seen;
  }

  /** A table in which a quantity has a value. */
  lemma Filling(groupBy: seq<string>, types: Types, q: Quantity) returns (c: string, xs: seq<Value>)
    requires Possible(groupBy, types, q)
    ensures Fillable(groupBy, types, c, xs)
    ensures Seen(types, q, c, xs) != Null && TypedValue(QuantityType(types, q), Seen(types, q, c, xs))
  {
    if ColumnOf(q) == None {
      c, xs := "", [Null];
      CountSeen(types, None, c, xs);
    } else {
      c := ColumnOf(q).value;
      xs := [Sample(types[c])];
      SampleSeen(groupBy, types, q, c);
    }
    hide FilledValue;
  }

  /** Whenever reading column `k` is not reading what column `i` computes, a small table shows it. */
  lemma Apart(spec: AggregateSpec, types: Types, into: DataType, k: nat, i: nat) returns (c: string, xs: seq<Value>)
    requires Sensible(spec, types) && k < |spec.groupBy| + |spec.aggregates| && i < |spec.groupBy| + |spec.aggregates|
    requires !ReadsAs(spec, types, into, k, i)
    ensures Fillable(spec.groupBy, types, c, xs)
    ensures var p, q := QuantityAt(spec, types, k), QuantityAt(spec, types, i);
            Cast(into, Seen(types, p, c, xs)) != Some(Seen(types, q, c, xs))
  {
    var p, q := QuantityAt(spec, types, k), QuantityAt(spec, types, i);
    QuantityPossible(spec, types, k);
    QuantityPossible(spec, types, i);
    hide QuantityAt, ResultColumns, Seen, Cast, Preserves;
    if p == q {
      c, xs := TypeApart(spec.groupBy, types, into, p);
    } else if ColumnOf(p) != ColumnOf(q) {
      c, xs := DifferentColumns(spec.groupBy, types, into, p, q);
    } else {
      c, xs := SameColumn(spec.groupBy, types, into, p, q);
    }
  }

  lemma SameColumn(groupBy: seq<string>, types: Types, into: DataType, p: Quantity, q: Quantity)
    returns (c: string, xs: seq<Value>)
    requires Possible(groupBy, types, p) && Possible(groupBy, types, q) && p != q && ColumnOf(p) == ColumnOf(q)
    requires !(p.KeyOf? && types[p.c] == TInt64 && into == TFloat64 && q == Averaged(p.c))
    ensures Fillable(groupBy, types, c, xs) && Cast(into, Seen(types, p, c, xs)) != Some(Seen(types, q, c, xs))
  {
    hide Seen, Cast;
    c := ColumnOf(p).value;
    if p.Counted? || q.Counted? {
      xs := [Null];
      CountApart(groupBy, types, into, p, q, c);
    } else if p.Summed? || q.Summed? {
      xs := [Sample(types[c]), Sample(types[c])];
      SumApart(groupBy, types, into, p, q, c);
    } else if p.KeyOf? || q.KeyOf? {
      xs := [Sample(types[c])];
      KeyApart(groupBy, types, into, p, q, c);
    } else {
      xs := [Sample(types[c]), Second(types[c])];
      ExtremesApart(groupBy, types, into, p, q, c);
    }
  }

  lemma CountApart(groupBy: seq<string>, types: Types, into: DataType, p: Quantity, q: Quantity, c: string)
    requires Possible(groupBy, types, p) && Possible(groupBy, types, q) && ColumnOf(p) == ColumnOf(q) == Some(c)
    requires p != q && (p.Counted? || q.Counted?)
    ensures Cast(into, Seen(types, p, c, [Null])) != Some(Seen(types, q, c, [Null]))
  {
    CountSeen(types, Some(c), c, [Null]);
    if !p.Counted? {
      NothingSeen(groupBy, types, p, c, [Null]);
    }
    if !q.Counted? {
      NothingSeen(groupBy, types, q, c, [Null]);
    }
    CastApart(into, Seen(types, p, c, [Null]), Seen(types, q, c, [Null]));
    hide Cast, FilledValue;
  }

  // Over all tables

  /** The projection comes out right for every group of a table. */
  ghost predicate ReadsRight(spec: AggregateSpec, types: Types, output: seq<OutputColumn>, m: Renaming,
                             rows: seq<Row>) {
    forall g :: 0 <= g < |Results(spec, types, rows)| ==>
      Relabel(output, m, Results(spec, types, rows)[g]) ==
      Some(Intended(ResultColumns(spec, types), m, Results(spec, types, rows)[g]))
  }

  lemma {:induction false} OneKeyRows(cols: seq<string>, rows: seq<Row>, k: RowKey)
    requires forall i :: 0 <= i < |rows| ==> KeyAt(cols, rows[i]) == k
    ensures KeyRows(cols, rows, k) == rows
  {
    if rows != [] {
      var init, last := rows[..|rows| - 1], rows[|rows| - 1];
      OneKeyRows(cols, init, k);
      assert KeyAt(cols, last) == k && rows == init + [last];
      hide KeyAt;
    }
  }

  lemma {:induction false} OneKey(cols: seq<string>, rows: seq<Row>, k: RowKey)
    requires forall i :: 0 <= i < |rows| ==> KeyAt(cols, rows[i]) == k
    ensures FirstKeys(cols, rows) == if rows == [] then [] else [k]
  {
    if rows != [] {
      OneKey(cols, rows[..|rows| - 1], k);
      assert KeyAt(cols, rows[|rows| - 1]) == k;
      hide KeyAt;
    }
  }

  /** A table that is one group has one tuple. */
  lemma GroupTable(spec: AggregateSpec, types: Types, rows: seq<Row>)
    requires IsGroup(spec, types, rows) && rows != []
    ensures |Results(spec, types, rows)| == 1 && Computes(spec, types, rows, Results(spec, types, rows)[0])
  {
    var k := KeyAt(spec.groupBy, rows[0]);
    forall i | 0 <= i < |rows|
      ensures KeyAt(spec.groupBy, rows[i]) == k
    {
      KeyDepends(spec.groupBy, rows[i], rows[0]);
    }
    OneKeyRows(spec.groupBy, rows, k);
    OneKey(spec.groupBy, rows, k);
    GroupsAt(spec, types, rows, k);
    KeyLength(spec.groupBy, rows[0]);
    forall j | 0 <= j < |k|
      ensures k[j] == Cell(rows[0], spec.groupBy[j])
    {
      KeyCell(spec.groupBy, rows[0], j);
    }
    hide KeyAt, FoldRows, KeyRows, FirstKeys, IsGroup, Computes, Tuple;
    GroupComputes(spec, types, rows, k);
  }

  lemma FilledGroup(spec: AggregateSpec, types: Types, c: string, xs: seq<Value>)
    requires Sensible(spec, types) && Fillable(spec.groupBy, types, c, xs)
    ensures RowsTyped(types, types.Keys, Filled(c, xs)) && IsGroup(spec, types, Filled(c, xs))
  {
    var rows := Filled(c, xs);
    forall i, d | 0 <= i < |rows| && d in types
      ensures TypedValue(types[d], Cell(rows[i], d))
    {
      assert rows[i] == map[c := xs[i]];
    }
    assert RowsTyped(types, SpecColumns(spec), rows);
    hide RowsTyped, SpecColumns, TypedValue;
  }

  /** What a table with one column filled in gives. */
  lemma FilledResults(spec: AggregateSpec, types: Types, c: string, xs: seq<Value>) returns (values: seq<Value>)
    requires Sensible(spec, types) && Fillable(spec.groupBy, types, c, xs)
    ensures RowsTyped(types, types.Keys, Filled(c, xs)) && Results(spec, types, Filled(c, xs)) == [values]
    ensures |values| == |spec.groupBy| + |spec.aggregates|
    ensures forall j :: 0 <= j < |values| ==> values[j] == Seen(types, QuantityAt(spec, types, j), c, xs)
  {
    var rows := Filled(c, xs);
    FilledGroup(spec, types, c, xs);
    GroupTable(spec, types, rows);
    values := Results(spec, types, rows)[0];
    hide Results, IsGroup, RowsTyped, ValueOf, Seen, Filled, QuantityAt, Possible;
    forall j | 0 <= j < |values|
      ensures values[j] == Seen(types, QuantityAt(spec, types, j), c, xs)
    {
      QuantityPossible(spec, types, j);
      PossibleKind(spec.groupBy, types, QuantityAt(spec, types, j));
      SeenValue(spec, types, QuantityAt(spec, types, j), c, xs);
    }
  }

  lemma PossibleKind(groupBy: seq<string>, types: Types, q: Quantity)
    requires Possible(groupBy, types, q)
    ensures !q.Other?
  {
  }

  /** A projection that comes out right has read right values. */
  lemma ReadBack(spec: AggregateSpec, types: Types, output: seq<OutputColumn>, m: Renaming, values: seq<Value>, r: nat,
                 i: nat)
    returns (k: nat)
    requires NamedRight(spec, types, output, m) && |values| == |ResultNames(spec)|
    requires Relabel(output, m, values) == Some(Intended(ResultColumns(spec, types), m, values))
    requires r < |m| && i < |values| && ResultNames(spec)[i] == m[r].0
    ensures |output| == |values| && (forall j :: 0 <= j < |values| ==> Cast(output[j].dataType, values[j]).Some?)
    ensures k < |output| && output[k].name == m[r].0 && Cast(output[k].dataType, values[k]) == Some(values[i])
  {
    CastAt(output, values);
    ProbedCell(ResultColumns(spec, types), output, m, values, r);
    AssignAt(map[], ResultNames(spec), values, i);
    k :| 0 <= k < |output| && NamesOf(output)[k] == m[r].0;
    LabelledCell(output, values, k);
    hide Cast, Assign, WellNamed;
  }

  ghost predicate AlwaysRight(spec: AggregateSpec, types: Types, output: seq<OutputColumn>, m: Renaming) {
    forall rows :: RowsTyped(types, types.Keys, rows) ==> ReadsRight(spec, types, output, m, rows)
  }

  /** A projection above an aggregation gives the right rows, in every table, exactly when the labels are right. */
  lemma TablesExactly(spec: AggregateSpec, types: Types, output: seq<OutputColumn>, m: Renaming)
    requires NamedRight(spec, types, output, m) && Sensible(spec, types)
    ensures (forall rows :: RowsTyped(types, types.Keys, rows) ==> ReadsRight(spec, types, output, m, rows)) <==>
            AllRight(spec, types, output, m)
  {
    hide *;
    if AllRight(spec, types, output, m) {
      forall rows | RowsTyped(types, types.Keys, rows)
        ensures ReadsRight(spec, types, output, m, rows)
      {
        RightTable(spec, types, output, m, rows);
      }
    } else if forall rows :: RowsTyped(types, types.Keys, rows) ==> ReadsRight(spec, types, output, m, rows) {
      IsAlways(spec, types, output, m);
      NeededRight(spec, types, output, m);
    }
  }

  lemma IsAlways(spec: AggregateSpec, types: Types, output: seq<OutputColumn>, m: Renaming)
    requires forall rows :: RowsTyped(types, types.Keys, rows) ==> ReadsRight(spec, types, output, m, rows)
    ensures AlwaysRight(spec, types, output, m)
  {
    hide RowsTyped, ReadsRight;
  }

  lemma RightTable(spec: AggregateSpec, types: Types, output: seq<OutputColumn>, m: Renaming, rows: seq<Row>)
    requires NamedRight(spec, types, output, m) && AllRight(spec, types, output, m)
    requires RowsTyped(types, SpecColumns(spec), rows) || (Sensible(spec, types) && RowsTyped(types, types.Keys, rows))
    ensures ReadsRight(spec, types, output, m, rows)
  {
    assert RowsTyped(types, SpecColumns(spec), rows);
    hide RowsTyped, Results, Computed, AllRight, NamedRight, Relabel, Intended;
    ResultsComputed(spec, types, rows);
    forall g | 0 <= g < |Results(spec, types, rows)|
      ensures Relabel(output, m, Results(spec, types, rows)[g]) ==
              Some(Intended(ResultColumns(spec, types), m, Results(spec, types, rows)[g]))
    {
      RightRow(spec, types, output, m, Results(spec, types, rows)[g]);
    }
  }

  lemma RightTuple(spec: AggregateSpec, types: Types, output: seq<OutputColumn>, m: Renaming, rows: seq<Row>,
                   values: seq<Value>)
    requires AlwaysRight(spec, types, output, m) && RowsTyped(types, types.Keys, rows)
    requires Results(spec, types, rows) == [values]
    ensures Relabel(output, m, values) == Some(Intended(ResultColumns(spec, types), m, values))
  {
    hide RowsTyped, Relabel, Intended;
    assert ReadsRight(spec, types, output, m, rows);
    assert Results(spec, types, rows)[0] == values;
    hide Results;
  }

  /** Of a table with one column filled in, every column fits its array, and reading column `k` gives column `i`. */
  ghost predicate Reads(spec: AggregateSpec, types: Types, output: seq<OutputColumn>, c: string, xs: seq<Value>, k: nat,
                        i: nat) {
    && |output| == |ResultNames(spec)| && k < |output| && i < |output| && 1 <= |xs| <= 2
    && (forall j :: 0 <= j < |output| ==>
          Cast(output[j].dataType, Seen(types, QuantityAt(spec, types, j), c, xs)).Some?)
    && Cast(output[k].dataType, Seen(types, QuantityAt(spec, types, k), c, xs)) ==
       Some(Seen(types, QuantityAt(spec, types, i), c, xs))
  }

  lemma SeenReads(spec: AggregateSpec, types: Types, output: seq<OutputColumn>, c: string, xs: seq<Value>, k: nat,
                  i: nat, values: seq<Value>)
    requires 1 <= |xs| <= 2 && |output| == |values| == |ResultNames(spec)| && k < |output| && i < |output|
    requires forall j :: 0 <= j < |values| ==> values[j] == Seen(types, QuantityAt(spec, types, j), c, xs)
    requires forall j :: 0 <= j < |values| ==> Cast(output[j].dataType, values[j]).Some?
    requires Cast(output[k].dataType, values[k]) == Some(values[i])
    ensures Reads(spec, types, output, c, xs, k, i)
  {
    hide Cast, Seen, QuantityAt;
  }

  /** What is seen of a small table when every table comes out right. */
  lemma FilledRead(spec: AggregateSpec, types: Types, output: seq<OutputColumn>, m: Renaming, c: string,
                   xs: seq<Value>, r: nat, i: nat)
    returns (k: nat)
    requires NamedRight(spec, types, output, m) && Sensible(spec, types) && Fillable(spec.groupBy, types, c, xs)
    requires AlwaysRight(spec, types, output, m)
    requires r < |m| && i < |ResultNames(spec)| && ResultNames(spec)[i] == m[r].0
    ensures k < |output| && output[k].name == m[r].0 && Reads(spec, types, output, c, xs, k, i)
  {
    assert 1 <= |xs| <= 2;
    hide *;
    var values := FilledResults(spec, types, c, xs);
    RightTuple(spec, types, output, m, Filled(c, xs), values);
    k := ReadBack(spec, types, output, m, values, r, i);
    SeenReads(spec, types, output, c, xs, k, i, values);
  }

  lemma NeededRight(spec: AggregateSpec, types: Types, output: seq<OutputColumn>, m: Renaming)
    requires NamedRight(spec, types, output, m) && Sensible(spec, types) && AlwaysRight(spec, types, output, m)
    ensures AllRight(spec, types, output, m)
  {
    var computed, names := ResultColumns(spec, types), ResultNames(spec);
    assert m[0].0 in names;
    var i0 :| 0 <= i0 < |names| && names[i0] == m[0].0;
    hide AlwaysRight, Sensible, Accepts, Reads, QuantityAt;
    forall j | 0 <= j < |names|
      ensures |output| == |names| && Accepts(output[j].dataType, computed[j].dataType)
    {
      TypeNeeded(spec, types, output, m, i0, j);
    }
    forall r | 0 <= r < |m|
      ensures SourceRight(spec, types, output, m[r].0)
    {
      assert m[r].0 in names;
      var i :| 0 <= i < |names| && names[i] == m[r].0;
      SourceNeeded(spec, types, output, m, r, i);
    }
  }

  lemma TypeNeeded(spec: AggregateSpec, types: Types, output: seq<OutputColumn>, m: Renaming, i: nat, j: nat)
    requires NamedRight(spec, types, output, m) && Sensible(spec, types) && AlwaysRight(spec, types, output, m)
    requires m != [] && i < |ResultNames(spec)| && ResultNames(spec)[i] == m[0].0 && j < |ResultNames(spec)|
    ensures |output| == |ResultNames(spec)| && Accepts(output[j].dataType, ResultColumns(spec, types)[j].dataType)
  {
    hide NamedRight, AlwaysRight, Sensible, Accepts, QuantityAt, Seen, Cast;
    QuantityPossible(spec, types, j);
    var c, xs := Filling(spec.groupBy, types, QuantityAt(spec, types, j));
    var k := FilledRead(spec, types, output, m, c, xs, 0, i);
    CastKeeps(output[j].dataType, ResultColumns(spec, types)[j].dataType,
              Seen(types, QuantityAt(spec, types, j), c, xs));
  }

  lemma UniqueName(output: seq<OutputColumn>, k: nat, k': nat)
    requires NoRepeats(NamesOf(output)) && k < |output| && k' < |output| && output[k].name == output[k'].name
    ensures k == k'
  {
    assert NamesOf(output)[k] == NamesOf(output)[k'];
  }

  lemma SourceNeeded(spec: AggregateSpec, types: Types, output: seq<OutputColumn>, m: Renaming, r: nat, i: nat)
    requires NamedRight(spec, types, output, m) && Sensible(spec, types) && AlwaysRight(spec, types, output, m)
    requires r < |m| && i < |ResultNames(spec)| && ResultNames(spec)[i] == m[r].0
    ensures SourceRight(spec, types, output, m[r].0)
  {
    assert Fillable(spec.groupBy, types, "", [Null]);
    assert NoRepeats(NamesOf(output));
    hide *;
    var k := FilledRead(spec, types, output, m, "", [Null], r, i);
    ReadsLength(spec, types, output, "", [Null], k, i);
    KeptApart(spec, types, output, m, r, i, k);
    IsRight(spec, types, output, m[r].0, k, i);
  }

  lemma ReadsLength(spec: AggregateSpec, types: Types, output: seq<OutputColumn>, c: string, xs: seq<Value>, k: nat,
                    i: nat)
    requires Reads(spec, types, output, c, xs, k, i)
    ensures |output| == |ResultNames(spec)| == |spec.groupBy| + |spec.aggregates| && 1 <= |xs| <= 2
  {
    hide Cast, Seen, QuantityAt;
  }

  lemma IsRight(spec: AggregateSpec, types: Types, output: seq<OutputColumn>, source: string, k: nat, i: nat)
    requires |output| == |ResultNames(spec)| == |spec.groupBy| + |spec.aggregates| && k < |output| && i < |output|
    requires output[k].name == source && ResultNames(spec)[i] == source
    requires ReadsAs(spec, types, output[k].dataType, k, i)
    ensures SourceRight(spec, types, output, source)
  {
    hide ReadsAs, ResultNames;
  }

  /** The column of the source's name always reads as the source. */
  lemma KeptApart(spec: AggregateSpec, types: Types, output: seq<OutputColumn>, m: Renaming, r: nat, i: nat, k: nat)
    requires NamedRight(spec, types, output, m) && Sensible(spec, types) && AlwaysRight(spec, types, output, m)
    requires |output| == |ResultNames(spec)| && NoRepeats(NamesOf(output))
    requires r < |m| && i < |ResultNames(spec)| && ResultNames(spec)[i] == m[r].0
    requires k < |output| && output[k].name == m[r].0
    ensures k < |spec.groupBy| + |spec.aggregates| && i < |spec.groupBy| + |spec.aggregates|
    ensures ReadsAs(spec, types, output[k].dataType, k, i)
  {
    assert |ResultNames(spec)| == |spec.groupBy| + |spec.aggregates|;
    hide *;
    if !ReadsAs(spec, types, output[k].dataType, k, i) {
      var c, xs := Apart(spec, types, output[k].dataType, k, i);
      var k' := FilledRead(spec, types, output, m, c, xs, r, i);
      ReadsLength(spec, types, output, c, xs, k', i);
      ReadsApart(spec, types, output, c, xs, k, k', i);
    }
  }

  lemma ReadsApart(spec: AggregateSpec, types: Types, output: seq<OutputColumn>, c: string, xs: seq<Value>, k: nat,
                   k': nat, i: nat)
    requires Reads(spec, types, output, c, xs, k', i) && k < |output| && k' < |output| && NoRepeats(NamesOf(output))
    requires k < |spec.groupBy| + |spec.aggregates| && i < |spec.groupBy| + |spec.aggregates| && 1 <= |xs| <= 2
    requires Cast(output[k].dataType, Seen(types, QuantityAt(spec, types, k), c, xs)) !=
             Some(Seen(types, QuantityAt(spec, types, i), c, xs))
    ensures output[k].name != output[k'].name
  {
    hide Cast, Seen, QuantityAt;
    if output[k].name == output[k'].name {
      UniqueName(output, k, k');
    }
  }
}
