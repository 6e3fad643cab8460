/** Validation of logical plans: columns resolved, literals coerced once, limits clamped
    (crates/adb-planner/src/validate.rs; expr.rs: coerce_literal).

    The date and timestamp parsers are parameters. A rejected plan is `None`; which error is not modelled, nor
    are nullability flags. */
module Validation {
  import opened Values
  import opened ValueOrder
  import opened Expressions
  import opened Renamings
  import opened Pruning
  import opened AggStates
  import opened Aggregation
  import opened Labels
  import opened Plans

  /** A table column. Sensitive ones must be asked for by name; adding up hostile ones, such as identifiers, is
      refused. */
  datatype TableColumn = TableColumn(name: string, dataType: DataType, sensitive: bool, hostile: bool)

  datatype Table = Table(columns: seq<TableColumn>, maxRows: nat, timestamp: string -> Option<int>,
                         date: string -> Option<int>)

  predicate IsOrdered(ty: DataType) { !ty.TJson? }

  predicate IsNumeric(ty: DataType) { ty.TInt64? || ty.TFloat64? }

  function FindTable(columns: seq<TableColumn>, name: string): Option<TableColumn> {
    if columns == [] then None else if columns[0].name == name then Some(columns[0]) else FindTable(columns[1..], name)
  }

  function FindOutput(schema: seq<OutputColumn>, name: string): Option<OutputColumn> {
    if schema == [] then None else if schema[0].name == name then Some(schema[0]) else FindOutput(schema[1..], name)
  }

  /** Every column that is not sensitive. */
  function DefaultProjection(columns: seq<TableColumn>): seq<string> {
    if columns == [] then []
    else (if columns[0].sensitive then [] else [columns[0].name]) + DefaultProjection(columns[1..])
  }

  const SEC_BOUND := 100_000_000_000
  const MILLI_BOUND := 100_000_000_000_000

  /** Seconds, milliseconds or microseconds, by magnitude. */
  function EpochMicros(v: int): int {
    if Abs(v) < SEC_BOUND then Saturate(v * 1_000_000) else if Abs(v) < MILLI_BOUND then Saturate(v * 1_000) else v
  }

  /** Coerces a literal to a column's type. */
  function Coerce(t: Table, value: Value, target: DataType): Option<Value> {
    if value == Null then Some(Null)
    else match target
      case TBool => if value.Bool? then Some(value) else None
      case TInt64 =>
        if value.Int? then Some(value)
        else if value.Float? && value.f == value.f.Floor as real then Some(Int(Saturate(value.f.Floor)))
        else None
      case TFloat64 => if value.Float? then Some(value) else if value.Int? then Some(Float(value.i as real)) else None
      case TUtf8 => if value.Str? then Some(value) else None
      case TUuid => if value.Str? then Some(value) else None
      case TJson => if value.Str? then Some(value) else None
      case TTimestamp =>
        (match value
         case Timestamp(_) => Some(value)
         case Str(s) => (match (t.timestamp)(s) case Some(m) => Some(Timestamp(m)) case None => None)
         case Int(i) => Some(Timestamp(EpochMicros(i)))
         case _ => None)
      case TDate =>
        (match value
         case Date(_) => Some(value)
         case Str(s) => (match (t.date)(s) case Some(d) => Some(Date(d)) case None => None)
         case Int(i) => if Wrap32(i) == i then Some(Date(i)) else None
         case _ => None)
  }

  function CoerceAll(t: Table, values: seq<Value>, target: DataType): Option<seq<Value>> {
    if values == [] then Some([])
    else match (CoerceAll(t, values[..|values| - 1], target), Coerce(t, values[|values| - 1], target))
      case (Some(before), Some(last)) => Some(before + [last])
      case _ => None
  }

  function TypeOf(v: Value): Option<DataType> {
    match v
    case Null => None
    case Bool(_) => Some(TBool)
    case Int(_) => Some(TInt64)
    case Float(_) => Some(TFloat64)
    case Str(_) => Some(TUtf8)
    case Timestamp(_) => Some(TTimestamp)
    case Date(_) => Some(TDate)
  }

  // ---------------------------------------------------------------- expressions

  /** A checked expression and its type; an untyped NULL has none. */
  datatype Typed = Typed(expr: Expr, ty: Option<DataType>)

  predicate MayBeBool(ty: Option<DataType>) { ty == None || ty == Some(TBool) }

  /** Coerces a literal operand to the other side's type. */
  function Adopt(t: Table, l: Typed, r: Typed): Option<(Typed, Typed)> {
    if l.ty.Some? && r.expr.Literal? then
      (match Coerce(t, r.expr.value, l.ty.value) case Some(w) => Some((l, Typed(Literal(w), l.ty))) case None => None)
    else if l.expr.Literal? && r.ty.Some? then
      (match Coerce(t, l.expr.value, r.ty.value) case Some(w) => Some((Typed(Literal(w), r.ty), r)) case None => None)
    else Some((l, r))
  }

  /** The type of an arithmetic or comparison operator on adopted operands; none of it when they do not fit. */
  function ResultType(op: BinaryOp, l: Option<DataType>, r: Option<DataType>): Option<DataType> {
    if op.IsArithmetic() then
      if l == None || r == None || !IsNumeric(l.value) || !IsNumeric(r.value) then None
      else Some(if l == Some(TFloat64) || r == Some(TFloat64) then TFloat64 else TInt64)
    else if l.Some? && r.Some? && !(l == r || (IsNumeric(l.value) && IsNumeric(r.value))) then None
    else if l.Some? && r.Some? && !IsOrdered(l.value) && op != Eq && op != NotEq then None
    else Some(TBool)
  }

  function CheckBinary(t: Table, op: BinaryOp, l: Typed, r: Typed): Option<Typed> {
    if op.IsLogical() then
      if MayBeBool(l.ty) && MayBeBool(r.ty) then Some(Typed(Binary(op, l.expr, r.expr), Some(TBool))) else None
    else if op == Like then
      if (l.ty.Some? && l.ty != Some(TUtf8) && l.ty != Some(TUuid)) || !r.expr.Literal? || !r.expr.value.Str? then None
      else Some(Typed(Binary(op, l.expr, r.expr), Some(TBool)))
    else match Adopt(t, l, r)
      case None => None
      case Some((l', r')) =>
        var ty := ResultType(op, l'.ty, r'.ty);
        if ty == None then None else Some(Typed(Binary(op, l'.expr, r'.expr), ty))
  }

  function CheckExpr(t: Table, schema: seq<OutputColumn>, e: Expr): Option<Typed> {
    match e
    case Column(name) =>
      (match FindOutput(schema, name) case Some(c) => Some(Typed(e, Some(c.dataType))) case None => None)
    case Literal(v) => Some(Typed(e, TypeOf(v)))
    case Not(inner) =>
      (match CheckExpr(t, schema, inner)
       case Some(c) => if MayBeBool(c.ty) then Some(Typed(Not(c.expr), Some(TBool))) else None
       case None => None)
    case IsNull(inner) =>
      (match CheckExpr(t, schema, inner) case Some(c) => Some(Typed(IsNull(c.expr), Some(TBool))) case None => None)
    case IsNotNull(inner) =>
      (match CheckExpr(t, schema, inner) case Some(c) => Some(Typed(IsNotNull(c.expr), Some(TBool))) case None => None)
    case InList(inner, list, negated) =>
      (match CheckExpr(t, schema, inner)
       case Some(c) =>
         if list == [] then None
         else
           (match (if c.ty.Some? then CoerceAll(t, list, c.ty.value) else Some(list))
            case Some(values) => Some(Typed(InList(c.expr, values, negated), Some(TBool)))
            case None => None)
       case None => None)
    case Between(inner, low, high, negated) =>
      (match CheckExpr(t, schema, inner)
       case Some(c) =>
         (match (if c.ty.Some? then Coerce(t, low, c.ty.value) else Some(low),
                 if c.ty.Some? then Coerce(t, high, c.ty.value) else Some(high))
          case (Some(l), Some(h)) =>
            if Less(h, l) then None else Some(Typed(Between(c.expr, l, h, negated), Some(TBool)))
          case _ => None)
       case None => None)
    case Binary(op, left, right) =>
      (match (CheckExpr(t, schema, left), CheckExpr(t, schema, right))
       case (Some(l), Some(r)) => CheckBinary(t, op, l, r)
       case _ => None)
  }

  // ---------------------------------------------------------------- aggregates

  const MAX_IDENT_LEN := 64

  predicate ValidIdent(s: string) {
    && 0 < |s| <= MAX_IDENT_LEN
    && (forall i :: 0 <= i < |s| ==> 'a' <= s[i] <= 'z' || '0' <= s[i] <= '9' || s[i] == '_' || s[i] == '-')
    && ('a' <= s[0] <= 'z' || s[0] == '_')
  }

  function FuncName(f: AggregateFunc): string {
    match f case CountOf => "count" case SumOf => "sum" case AvgOf => "avg" case MinFunc => "min" case MaxFunc => "max"
  }

  function AliasOf(agg: AggregateExpr): string {
    if agg.alias != "" then agg.alias
    else if agg.column.Some? then FuncName(agg.func) + "_" + agg.column.value
    else "count"
  }

  /** Whether the function is defined and meaningful for the column. */
  predicate Applies(t: Table, func: AggregateFunc, c: OutputColumn) {
    && (match func
        case CountOf => true
        case SumOf => IsNumeric(c.dataType)
        case AvgOf => IsNumeric(c.dataType)
        case MinFunc => IsOrdered(c.dataType)
        case MaxFunc => IsOrdered(c.dataType))
    && (func.SumOf? || func.AvgOf? ==> !(FindTable(t.columns, c.name).Some?
                                         && FindTable(t.columns, c.name).value.hostile))
  }

  function CheckAggregate(t: Table, schema: seq<OutputColumn>, agg: AggregateExpr): Option<AggregateExpr> {
    var alias := AliasOf(agg);
    if !ValidIdent(alias) then None
    else if agg.column == None then
      if agg.func.CountOf? then Some(AggregateExpr(agg.func, None, alias)) else None
    else
      var c := FindOutput(schema, agg.column.value);
      if c == None || !Applies(t, agg.func, c.value) then None else Some(AggregateExpr(agg.func, agg.column, alias))
  }

  function CheckAggregates(t: Table, schema: seq<OutputColumn>, aggs: seq<AggregateExpr>): Option<seq<AggregateExpr>> {
    if aggs == [] then Some([])
    else match (CheckAggregates(t, schema, aggs[..|aggs| - 1]), CheckAggregate(t, schema, aggs[|aggs| - 1]))
      case (Some(before), Some(last)) => Some(before + [last])
      case _ => None
  }

  // ---------------------------------------------------------------- plans

  /** A validated plan and the limits that were clamped. */
  datatype Checking = Checking(query: Query, schema: seq<OutputColumn>, clamped: seq<nat>)

  function TypesOf(columns: seq<TableColumn>): Types {
    map i | 0 <= i < |columns| :: columns[i].name := ColumnType(columns, columns[i].name)
  }

  function ColumnType(columns: seq<TableColumn>, name: string): DataType {
    var c := FindTable(columns, name); if c.Some? then c.value.dataType else TUtf8
  }

  predicate OrderedColumn(schema: seq<OutputColumn>, name: string) {
    var c := FindOutput(schema, name); c.Some? && IsOrdered(c.value.dataType)
  }

  /** A list of columns a scan may name. */
  predicate Scannable(t: Table, names: seq<string>) {
    NoRepeats(names) && forall i :: 0 <= i < |names| ==> FindTable(t.columns, names[i]).Some?
  }

  function WalkScan(t: Table, columns: Option<seq<string>>): Option<Checking> {
    var names := if columns.Some? then columns.value else DefaultProjection(t.columns);
    if columns == Some([]) || !Scannable(t, names) then None
    else Some(Checking(Scan(Some(names)), ScanOutput(TypesOf(t.columns), names), []))
  }

  function Walk(t: Table, q: Query): Option<Checking> {
    match q
    case Scan(columns) => WalkScan(t, columns)
    case Where(input, cond) =>
      (match Walk(t, input)
       case None => None
       case Some(c) =>
         (match CheckExpr(t, c.schema, cond)
          case Some(e) => if MayBeBool(e.ty) then Some(c.(query := Where(c.query, e.expr))) else None
          case None => None))
    case Project(input, exprs) =>
      (match Walk(t, input)
       case None => None
       case Some(c) =>
         (match RenamingOf(exprs)
          case None => None
          case Some(m) =>
            if exprs == [] || !NoRepeats(OutputNames(m))
               || exists i :: 0 <= i < |m| && (FindOutput(c.schema, m[i].0) == None || !ValidIdent(m[i].1))
            then None else Some(Checking(Project(c.query, exprs), Projected(c.schema, m), c.clamped))))
    case GroupBy(input, spec) =>
      (match Walk(t, input)
       case None => None
       case Some(c) =>
         if spec.aggregates == [] || exists i :: 0 <= i < |spec.groupBy| && !OrderedColumn(c.schema, spec.groupBy[i])
           then None
         else match CheckAggregates(t, c.schema, spec.aggregates)
           case None => None
           case Some(aggs) =>
             var spec' := AggregateSpec(spec.groupBy, aggs);
             if !NoRepeats(ResultNames(spec')) then None
             else Some(Checking(GroupBy(c.query, spec'), ResultColumns(spec', TypesIn(c.schema)), c.clamped)))
    case OrderBy(input, keys) =>
      (match Walk(t, input)
       case None => None
       case Some(c) =>
         if keys == [] || exists i :: 0 <= i < |keys| && !OrderedColumn(c.schema, keys[i].column) then None
         else Some(c.(query := OrderBy(c.query, keys))))
    case Limited(input, limit, skip) =>
      (match Walk(t, input)
       case None => None
       case Some(c) =>
         if limit > t.maxRows then Some(Checking(Limited(c.query, t.maxRows, skip), c.schema, c.clamped + [limit]))
         else Some(c.(query := Limited(c.query, limit, skip))))
    case Join(_, _, _) => None
  }

  function Validate(t: Table, q: Query): Option<Checking> {
    match Walk(t, q) case Some(c) => if c.schema == [] then None else Some(c) case None => None
  }

  // ---------------------------------------------------------------- validating again: expressions

  lemma CoerceAgain(t: Table, v: Value, target: DataType)
    requires Coerce(t, v, target).Some?
    ensures Coerce(t, Coerce(t, v, target).value, target) == Coerce(t, v, target)
  {
  }

  lemma {:induction false} CoerceAllAgain(t: Table, values: seq<Value>, target: DataType)
    requires CoerceAll(t, values, target).Some?
    ensures |CoerceAll(t, values, target).value| == |values|
    ensures CoerceAll(t, CoerceAll(t, values, target).value, target) == CoerceAll(t, values, target)
  {
    if values != [] {
      var n := |values| - 1;
      CoerceAllAgain(t, values[..n], target);
      CoerceAgain(t, values[n], target);
      var before, last := CoerceAll(t, values[..n], target).value, Coerce(t, values[n], target).value;
      assert (before + [last])[..n] == before;
      hide Coerce;
    }
  }

  /** Checking the result of a check changes nothing. */
  ghost predicate Settled(t: Table, schema: seq<OutputColumn>, c: Typed) {
    CheckExpr(t, schema, c.expr) == Some(c)
  }

  lemma AdoptAgain(t: Table, l: Typed, r: Typed)
    requires Adopt(t, l, r).Some?
    requires l.expr.Literal? ==> l.ty == TypeOf(l.expr.value)
    requires r.expr.Literal? ==> r.ty == TypeOf(r.expr.value)
    ensures var (l', r') := Adopt(t, l, r).value;
            && (l' == l || l'.expr.Literal?) && (r' == r || r'.expr.Literal?)
            && var l2 := if l'.expr.Literal? then Typed(l'.expr, TypeOf(l'.expr.value)) else l';
               var r2 := if r'.expr.Literal? then Typed(r'.expr, TypeOf(r'.expr.value)) else r';
               Adopt(t, l2, r2) == Some((l', r'))
  {
    if l.ty.Some? && r.expr.Literal? {
      CoerceAgain(t, r.expr.value, l.ty.value);
    } else if l.expr.Literal? && r.ty.Some? {
      CoerceAgain(t, l.expr.value, r.ty.value);
    }
    hide Coerce;
  }

  /** What checking makes of an operand that has been adopted. */
  function Reread(c: Typed): Typed { if c.expr.Literal? then Typed(c.expr, TypeOf(c.expr.value)) else c }

  lemma BinaryAgain(t: Table, op: BinaryOp, l: Typed, r: Typed)
    requires CheckBinary(t, op, l, r).Some?
    requires l.expr.Literal? ==> l.ty == TypeOf(l.expr.value)
    requires r.expr.Literal? ==> r.ty == TypeOf(r.expr.value)
    ensures var c := CheckBinary(t, op, l, r).value;
            && c.expr.Binary? && c.expr.op == op && (c.expr.left == l.expr || c.expr.left.Literal?)
            && (c.expr.right == r.expr || c.expr.right.Literal?)
            && CheckBinary(t, op, Reread(Typed(c.expr.left, l.ty)), Reread(Typed(c.expr.right, r.ty))) == Some(c)
  {
    if !op.IsLogical() && op != Like {
      AdoptAgain(t, l, r);
      hide Adopt, ResultType;
    }
  }

  /** Checking settles an expression: checking the result again changes nothing. */
  lemma {:induction false} CheckAgain(t: Table, schema: seq<OutputColumn>, e: Expr)
    requires CheckExpr(t, schema, e).Some?
    ensures Settled(t, schema, CheckExpr(t, schema, e).value)
    decreases e
  {
    match e
    case Column(_) =>
    case Literal(_) =>
    case Not(inner) => CheckAgain(t, schema, inner);
    case IsNull(inner) => CheckAgain(t, schema, inner);
    case IsNotNull(inner) => CheckAgain(t, schema, inner);
    case InList(inner, list, negated) =>
      CheckAgain(t, schema, inner);
      var c := CheckExpr(t, schema, inner).value;
      if c.ty.Some? {
        CoerceAllAgain(t, list, c.ty.value);
      }
    case Between(inner, low, high, negated) =>
      CheckAgain(t, schema, inner);
      var c := CheckExpr(t, schema, inner).value;
      if c.ty.Some? {
        CoerceAgain(t, low, c.ty.value);
        CoerceAgain(t, high, c.ty.value);
      }
    case Binary(op, left, right) =>
      CheckAgain(t, schema, left);
      CheckAgain(t, schema, right);
      BinarySettles(t, schema, op, CheckExpr(t, schema, left).value, CheckExpr(t, schema, right).value);
  }

  lemma BinarySettles(t: Table, schema: seq<OutputColumn>, op: BinaryOp, l: Typed, r: Typed)
    requires Settled(t, schema, l) && Settled(t, schema, r) && CheckBinary(t, op, l, r).Some?
    ensures Settled(t, schema, CheckBinary(t, op, l, r).value)
  {
    assert l.expr.Literal? ==> l.ty == TypeOf(l.expr.value);
    assert r.expr.Literal? ==> r.ty == TypeOf(r.expr.value);
    BinaryAgain(t, op, l, r);
    var c := CheckBinary(t, op, l, r).value;
    assert CheckExpr(t, schema, c.expr.left) == Some(Reread(Typed(c.expr.left, l.ty)));
    assert CheckExpr(t, schema, c.expr.right) == Some(Reread(Typed(c.expr.right, r.ty)));
    hide CheckBinary;
  }

  lemma {:induction false} FoundOutput(schema: seq<OutputColumn>, name: string)
    ensures FindOutput(schema, name).Some? <==> name in NamesOf(schema)
    ensures FindOutput(schema, name).Some? ==>
              FindOutput(schema, name).value == OutputColumn(name, TypeAt(schema, name))
  {
    if schema != [] {
      FoundOutput(schema[1..], name);
      assert NamesOf(schema) == [schema[0].name] + NamesOf(schema[1..]);
    }
  }

  /** A checked expression refers to columns of the schema only. */
  lemma {:induction false} CheckResolves(t: Table, schema: seq<OutputColumn>, e: Expr)
    requires CheckExpr(t, schema, e).Some?
    ensures AllIn(Columns(CheckExpr(t, schema, e).value.expr), NamesOf(schema))
    decreases e
  {
    match e
    case Column(name) => FoundOutput(schema, name);
    case Literal(_) =>
    case Not(inner) => CheckResolves(t, schema, inner);
    case IsNull(inner) => CheckResolves(t, schema, inner);
    case IsNotNull(inner) => CheckResolves(t, schema, inner);
    case InList(inner, _, _) => CheckResolves(t, schema, inner);
    case Between(inner, _, _, _) => CheckResolves(t, schema, inner);
    case Binary(op, left, right) =>
      CheckResolves(t, schema, left);
      CheckResolves(t, schema, right);
      var l, r := CheckExpr(t, schema, left).value, CheckExpr(t, schema, right).value;
      assert CheckBinary(t, op, l, r).Some?;
  }

  // ---------------------------------------------------------------- validating again: plans

  lemma AggregateAgain(t: Table, schema: seq<OutputColumn>, agg: AggregateExpr)
    requires CheckAggregate(t, schema, agg).Some?
    ensures var last := CheckAggregate(t, schema, agg).value;
            && CheckAggregate(t, schema, last) == Some(last)
            && (last.column.Some? ==> last.column.value in NamesOf(schema))
  {
    var last := CheckAggregate(t, schema, agg).value;
    assert AliasOf(last) == AliasOf(agg) == last.alias;
    if last.column.Some? {
      FoundOutput(schema, last.column.value);
    }
    hide ValidIdent, Applies, AliasOf, FindOutput, NamesOf;
  }

  lemma {:induction false} AggregatesAgain(t: Table, schema: seq<OutputColumn>, aggs: seq<AggregateExpr>)
    requires CheckAggregates(t, schema, aggs).Some?
    ensures var checked := CheckAggregates(t, schema, aggs).value;
            && |checked| == |aggs| && CheckAggregates(t, schema, checked) == Some(checked)
            && forall j :: 0 <= j < |checked| && checked[j].column.Some? ==> checked[j].column.value in NamesOf(schema)
  {
    hide CheckAggregate, NamesOf;
    if aggs != [] {
      var n := |aggs| - 1;
      AggregatesAgain(t, schema, aggs[..n]);
      AggregateAgain(t, schema, aggs[n]);
      var before, last := CheckAggregates(t, schema, aggs[..n]).value, CheckAggregate(t, schema, aggs[n]).value;
      assert (before + [last])[..n] == before;
    }
  }

  /** The scan names its columns, or the table has one that is not sensitive. */
  predicate NamesColumns(t: Table, q: Query) {
    match q
    case Scan(columns) => columns.Some? || DefaultProjection(t.columns) != []
    case Join(_, _, _) => true
    case _ => NamesColumns(t, q.input)
  }

  /** A plan that validation leaves as it is. */
  ghost predicate Fixed(t: Table, c: Checking) { Walk(t, c.query) == Some(Checking(c.query, c.schema, [])) }

  lemma ScanAgain(t: Table, q: Query)
    requires q.Scan? && Walk(t, q).Some?
    ensures Fixed(t, Walk(t, q).value) <==> NamesColumns(t, q)
    ensures Walk(t, Walk(t, q).value.query).Some? <==> NamesColumns(t, q)
  {
    var names := if q.columns.Some? then q.columns.value else DefaultProjection(t.columns);
    assert Walk(t, q) == WalkScan(t, q.columns) && Walk(t, Scan(Some(names))) == WalkScan(t, Some(names));
    assert NamesColumns(t, q) <==> q.columns.Some? || DefaultProjection(t.columns) != [];
    hide Walk, Scannable, ScanOutput, TypesOf, DefaultProjection, NamesColumns;
  }

  lemma {:induction false} WalkAgain(t: Table, q: Query)
    requires Walk(t, q).Some?
    ensures Fixed(t, Walk(t, q).value) <==> NamesColumns(t, q)
    ensures Walk(t, Walk(t, q).value.query).Some? <==> NamesColumns(t, q)
    decreases q
  {
    if q.Scan? {
      ScanAgain(t, q);
    } else {
      WalkAgain(t, q.input);
      var c := Walk(t, q.input).value;
      match q
      case Where(input, cond) => CheckAgain(t, c.schema, cond);
      case GroupBy(input, spec) => AggregatesAgain(t, c.schema, spec.aggregates);
      case _ =>
    }
  }

  /** Validation is idempotent exactly when the scan names its columns or the table has a column that is not
      sensitive: then validating a validated plan gives the identical plan and schema, and clamps nothing;
      otherwise it rejects the plan it has itself produced. */
  lemma ValidateAgain(t: Table, q: Query)
    requires Validate(t, q).Some?
    ensures var c := Validate(t, q).value;
            && (Validate(t, c.query) == Some(Checking(c.query, c.schema, [])) <==> NamesColumns(t, q))
            && (Validate(t, c.query) == None <==> !NamesColumns(t, q))
  {
    WalkAgain(t, q);
    hide Walk, NamesColumns;
  }

  // ---------------------------------------------------------------- what validation guarantees

  lemma {:induction false} FoundColumn(columns: seq<TableColumn>, name: string)
    requires FindTable(columns, name).Some?
    ensures exists i :: 0 <= i < |columns| && columns[i].name == name
  {
    if columns[0].name != name {
      FoundColumn(columns[1..], name);
      var i :| 0 <= i < |columns[1..]| && columns[1..][i].name == name;
      assert columns[i + 1].name == name;
    }
  }

  /** The plan is resolved, reads the table's columns, aggregates what can be aggregated and has the schema computed
      for it. */
  ghost predicate Sound(t: Table, c: Checking) {
    Checked(TypesOf(t.columns), Validated(c.query, c.schema)) && Meaningful(TypesOf(t.columns), c.query)
  }

  /** Validation admits an aggregate only where it applies. */
  lemma {:induction false} AggregatesApt(t: Table, schema: seq<OutputColumn>, aggs: seq<AggregateExpr>)
    requires CheckAggregates(t, schema, aggs).Some?
    ensures var checked := CheckAggregates(t, schema, aggs).value;
            forall j :: 0 <= j < |checked| ==> Apt(TypesIn(schema), checked[j])
  {
    if aggs != [] {
      var agg := aggs[|aggs| - 1];
      AggregatesApt(t, schema, aggs[..|aggs| - 1]);
      if agg.column.Some? {
        FoundOutput(schema, agg.column.value);
      }
      hide AliasOf, ValidIdent, FindOutput, TypeAt, NamesOf;
    }
  }

  lemma ScanSound(t: Table, q: Query)
    requires q.Scan? && WalkScan(t, q.columns).Some? && NamesColumns(t, q)
    ensures Sound(t, WalkScan(t, q.columns).value)
  {
    var names := if q.columns.Some? then q.columns.value else DefaultProjection(t.columns);
    var types := TypesOf(t.columns);
    forall i | 0 <= i < |names|
      ensures names[i] in types
    {
      FoundColumn(t.columns, names[i]);
    }
    assert Resolved(Scan(Some(names))) && Known(types, Scan(Some(names)));
  }

  lemma WhereSound(t: Table, c: Checking, cond: Expr)
    requires Sound(t, c) && CheckExpr(t, c.schema, cond).Some?
    ensures Sound(t, c.(query := Where(c.query, CheckExpr(t, c.schema, cond).value.expr)))
  {
    CheckResolves(t, c.schema, cond);
    OutputNamed(TypesOf(t.columns), c.query);
    hide CheckExpr, TypesOf, NamesOf, NoRepeats;
  }

  lemma ProjectSound(t: Table, c: Checking, exprs: seq<(Expr, string)>, m: Renaming)
    requires Sound(t, c) && RenamingOf(exprs) == Some(m) && exprs != [] && NoRepeats(OutputNames(m))
    requires forall i :: 0 <= i < |m| ==> FindOutput(c.schema, m[i].0).Some?
    ensures Sound(t, Checking(Project(c.query, exprs), Projected(c.schema, m), c.clamped))
  {
    OutputNamed(TypesOf(t.columns), c.query);
    RenamingAt(exprs);
    var q := Project(c.query, exprs);
    assert Outputs(q) == OutputNames(m);
    forall i | 0 <= i < |exprs|
      ensures exprs[i].0.Column? && exprs[i].0.name in Outputs(c.query)
    {
      FoundOutput(c.schema, m[i].0);
    }
    hide TypesOf, NamesOf, NoRepeats, RenamingOf, FindOutput;
  }

  lemma GroupSound(t: Table, c: Checking, spec: AggregateSpec)
    requires Sound(t, c) && spec.aggregates != [] && NoRepeats(ResultNames(spec))
    requires forall i :: 0 <= i < |spec.groupBy| ==> OrderedColumn(c.schema, spec.groupBy[i])
    requires forall j :: 0 <= j < |spec.aggregates| && spec.aggregates[j].column.Some? ==>
               spec.aggregates[j].column.value in NamesOf(c.schema)
    requires forall j :: 0 <= j < |spec.aggregates| ==> Apt(TypesIn(c.schema), spec.aggregates[j])
    ensures Sound(t, Checking(GroupBy(c.query, spec), ResultColumns(spec, TypesIn(c.schema)), c.clamped))
  {
    OutputNamed(TypesOf(t.columns), c.query);
    forall name | name in SpecColumns(spec)
      ensures name in Outputs(c.query)
    {
      if name in spec.groupBy {
        FoundOutput(c.schema, name);
      }
    }
    hide TypesOf, NamesOf, NoRepeats, FindOutput, ResultColumns, TypesIn;
  }

  lemma OrderSound(t: Table, c: Checking, keys: seq<SortExpr>)
    requires Sound(t, c) && keys != []
    requires forall i :: 0 <= i < |keys| ==> OrderedColumn(c.schema, keys[i].column)
    ensures Sound(t, c.(query := OrderBy(c.query, keys)))
  {
    OutputNamed(TypesOf(t.columns), c.query);
    forall i | 0 <= i < |keys|
      ensures keys[i].column in Outputs(c.query)
    {
      FoundOutput(c.schema, keys[i].column);
    }
    hide TypesOf, NamesOf, NoRepeats, FindOutput;
  }

  lemma {:induction false} WalkSound(t: Table, q: Query)
    requires Walk(t, q).Some? && NamesColumns(t, q)
    ensures Sound(t, Walk(t, q).value)
    decreases q
  {
    hide Sound;
    if q.Scan? {
      ScanSound(t, q);
    } else {
      WalkSound(t, q.input);
      var c := Walk(t, q.input).value;
      match q
      case Where(_, cond) => WhereSound(t, c, cond);
      case Project(_, exprs) => ProjectSound(t, c, exprs, RenamingOf(exprs).value);
      case GroupBy(_, spec) =>
        AggregatesAgain(t, c.schema, spec.aggregates);
        AggregatesApt(t, c.schema, spec.aggregates);
        GroupSound(t, c, AggregateSpec(spec.groupBy, CheckAggregates(t, c.schema, spec.aggregates).value));
      case OrderBy(_, keys) => OrderSound(t, c, keys);
      case Limited(_, limit, skip) => LimitSound(t, c, Min(limit, t.maxRows), skip);
    }
  }

  lemma LimitSound(t: Table, c: Checking, limit: nat, skip: nat)
    requires Sound(t, c)
    ensures forall clamped :: Sound(t, Checking(Limited(c.query, limit, skip), c.schema, clamped))
  {
  }

  /** Every plan that passes validation, its scan naming columns, is resolved: each reference is a column of its
      node's input, output names are used once, aggregates are of columns they apply to, and the schema handed to the
      physical planner is the plan's. */
  lemma ValidateSound(t: Table, q: Query)
    requires Validate(t, q).Some? && NamesColumns(t, q)
    ensures var c := Validate(t, q).value;
            Resolved(c.query) && c.schema == OutputOf(TypesOf(t.columns), c.query)
              && NamesOf(c.schema) == Outputs(c.query)
    ensures Checked(TypesOf(t.columns), Validated(Validate(t, q).value.query, Validate(t, q).value.schema))
    ensures Meaningful(TypesOf(t.columns), Validate(t, q).value.query)
  {
    WalkSound(t, q);
    OutputNamed(TypesOf(t.columns), Walk(t, q).value.query);
    hide Walk, NamesColumns, Resolved, Known, NamesOf, OutputOf;
  }
}
