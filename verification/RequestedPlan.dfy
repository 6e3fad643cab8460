/** The plan a query asks for: the query with its defaults spelt out. Validation accepts exactly the queries that make
    sense and gives that plan, with its literals read as the types they meet (crates/adb-planner/src/validate.rs). */
module RequestedPlans {
  import opened Values
  import opened ValueOrder
  import opened Expressions
  import opened Renamings
  import opened Pruning
  import opened AggStates
  import opened Aggregation
  import opened Labels
  import opened Plans
  import opened Validation
  import opened Requests

  // ---------------------------------------------------------------- defaults

  function ScanNames(t: Table, columns: Option<seq<string>>): seq<string> {
    if columns.Some? then columns.value else DefaultProjection(t.columns)
  }

  /** The default projection has the columns that are not sensitive, in order. */
  lemma {:induction false} DefaultExactly(columns: seq<TableColumn>, more: seq<TableColumn>)
    ensures DefaultProjection(columns + more) == DefaultProjection(columns) + DefaultProjection(more)
    ensures forall c :: DefaultProjection([c]) == if c.sensitive then [] else [c.name]
  {
    DefaultOne();
    hide DefaultProjection;
    if columns == [] {
      assert columns + more == more;
      DefaultNext(columns);
    } else {
      DefaultExactly(columns[1..], more);
      DefaultNext(columns);
      DefaultNext(columns + more);
      assert (columns + more)[1..] == columns[1..] + more && (columns + more)[0] == columns[0];
    }
  }

  lemma DefaultOne()
    ensures forall c :: DefaultProjection([c]) == if c.sensitive then [] else [c.name]
  {
    forall c: TableColumn
      ensures DefaultProjection([c]) == if c.sensitive then [] else [c.name]
    {
      assert [c][1..] == [];
    }
  }

  lemma DefaultNext(columns: seq<TableColumn>)
    ensures columns == [] ==> DefaultProjection(columns) == []
    ensures columns != [] ==>
              DefaultProjection(columns) ==
              (if columns[0].sensitive then [] else [columns[0].name]) + DefaultProjection(columns[1..])
  {
  }

  /** The name of an aggregate that is given none: its function's and its column's. */
  function DefaultAlias(agg: AggregateExpr): string {
    match agg.column
    case None => "count"
    case Some(c) =>
      match agg.func
      case CountOf => "count_" + c
      case SumOf => "sum_" + c
      case AvgOf => "avg_" + c
      case MinFunc => "min_" + c
      case MaxFunc => "max_" + c
  }

  function WithAlias(agg: AggregateExpr): AggregateExpr {
    if agg.alias == "" then agg.(alias := DefaultAlias(agg)) else agg
  }

  /** Aggregates without an alias get one. */
  function Aliased(aggs: seq<AggregateExpr>): (r: seq<AggregateExpr>)
    ensures |r| == |aggs| && forall j :: 0 <= j < |r| ==> r[j] == WithAlias(aggs[j])
  {
    seq(|aggs|, j requires 0 <= j < |aggs| => WithAlias(aggs[j]))
  }

  /** A lower-case name: a letter or an underscore, then letters, digits, underscores and hyphens, 64 in all. */
  predicate IsName(s: string) {
    && 0 < |s| < 65 && (s[0] in LETTERS || s[0] == '_')
    && forall i :: 0 < i < |s| ==> s[i] in LETTERS || s[i] in DIGITS || s[i] == '_' || s[i] == '-'
  }

  const LETTERS := "abcdefghijklmnopqrstuvwxyz"

  const DIGITS := "0123456789"

  lemma LetterRange(c: char)
    ensures c in LETTERS <==> 'a' <= c <= 'z'
  {
    if 'a' <= c <= 'z' {
      assert LETTERS[c as int - 'a' as int] == c;
    }
  }

  lemma DigitRange(c: char)
    ensures c in DIGITS <==> '0' <= c <= '9'
  {
    if '0' <= c <= '9' {
      assert DIGITS[c as int - '0' as int] == c;
    }
  }

  lemma NameExactly(s: string)
    ensures ValidIdent(s) <==> IsName(s)
  {
    forall c
      ensures c in LETTERS <==> 'a' <= c <= 'z'
      ensures c in DIGITS <==> '0' <= c <= '9'
    {
      LetterRange(c);
      DigitRange(c);
    }
    hide LETTERS, DIGITS;
  }

  lemma AliasExactly(agg: AggregateExpr)
    ensures agg.(alias := AliasOf(agg)) == WithAlias(agg)
  {
  }

  // ---------------------------------------------------------------- what is asked for

  /** The columns a query asks for, with their types. */
  function SchemaOf(t: Table, q: Query): seq<OutputColumn> {
    match q
    case Scan(columns) => ScanOutput(TypesOf(t.columns), ScanNames(t, columns))
    case Where(input, _) => SchemaOf(t, input)
    case Project(input, exprs) =>
      (match RenamingOf(exprs) case Some(m) => Projected(SchemaOf(t, input), m) case None => [])
    case GroupBy(input, spec) =>
      ResultColumns(spec.(aggregates := Aliased(spec.aggregates)), TypesIn(SchemaOf(t, input)))
    case OrderBy(input, _) => SchemaOf(t, input)
    case Limited(input, _, _) => SchemaOf(t, input)
    case Join(_, _, _) => []
  }

  /** The second plan asks what the query does, node by node: the scan's columns and the aliases are spelt out, limits
      are at most the table's, and the literals of conditions are read as the types they meet. */
  ghost predicate Follows(t: Table, q: Query, v: Query) {
    match q
    case Scan(columns) => v == Scan(Some(ScanNames(t, columns)))
    case Where(input, cond) =>
      v.Where? && Follows(t, input, v.input) && CondFollows(t, SchemaOf(t, input), cond, v.cond)
    case Project(input, exprs) => v.Project? && Follows(t, input, v.input) && v.exprs == exprs
    case GroupBy(input, spec) =>
      v.GroupBy? && Follows(t, input, v.input) && v.spec == spec.(aggregates := Aliased(spec.aggregates))
    case OrderBy(input, keys) => v.OrderBy? && Follows(t, input, v.input) && v.keys == keys
    case Limited(input, limit, skip) =>
      v.Limited? && Follows(t, input, v.input) && v.limit == Min(limit, t.maxRows) && v.skip == skip
    case Join(_, _, _) => false
  }

  // ---------------------------------------------------------------- which queries make sense

  predicate HasColumn(schema: seq<OutputColumn>, c: string) { c in NamesOf(schema) }

  /** A column that can be sorted and grouped by. */
  predicate Orderable(schema: seq<OutputColumn>, c: string) { HasColumn(schema, c) && TypeAt(schema, c) != TJson }

  /** The table's columns have their types; of a name, the first. */
  lemma TypesExactly(columns: seq<TableColumn>, name: string)
    ensures name in TypesOf(columns) <==> exists i :: 0 <= i < |columns| && columns[i].name == name
    ensures name in TypesOf(columns) ==>
              exists i: nat :: FirstNamed(columns, name, i) && TypesOf(columns)[name] == columns[i].dataType
  {
    FoundExactly(columns, name);
    hide FindTable;
  }

  /** The table's column of the name is marked as one not to be added up. */
  ghost predicate IsHostile(t: Table, c: string) {
    exists i: nat :: FirstNamed(t.columns, c, i) && t.columns[i].hostile
  }

  lemma HostileExactly(t: Table, c: string)
    ensures IsHostile(t, c) <==> FindTable(t.columns, c).Some? && FindTable(t.columns, c).value.hostile
  {
    FoundExactly(t.columns, c);
    hide FindTable;
  }

  /** Counts apply to everything, sums and averages to numbers that are meant to be added, and minima and maxima to
      what has an order. */
  ghost predicate AggregateSuits(t: Table, schema: seq<OutputColumn>, agg: AggregateExpr) {
    && IsName(WithAlias(agg).alias)
    && match agg.column
       case None => agg.func.CountOf?
       case Some(c) =>
         && HasColumn(schema, c)
         && (agg.func.SumOf? || agg.func.AvgOf? ==> Numeric(Some(TypeAt(schema, c))) && !IsHostile(t, c))
         && (agg.func.MinFunc? || agg.func.MaxFunc? ==> Orderable(schema, c))
  }

  /** The projection is of columns, under names that are valid and used once. */
  ghost predicate ProjectSuits(schema: seq<OutputColumn>, exprs: seq<(Expr, string)>) {
    && exprs != [] && (forall i, j :: 0 <= i < j < |exprs| ==> exprs[i].1 != exprs[j].1)
    && forall i :: 0 <= i < |exprs| ==> exprs[i].0.Column? && HasColumn(schema, exprs[i].0.name) && IsName(exprs[i].1)
  }

  ghost predicate GroupSuits(t: Table, schema: seq<OutputColumn>, spec: AggregateSpec) {
    && spec.aggregates != [] && (forall i :: 0 <= i < |spec.groupBy| ==> Orderable(schema, spec.groupBy[i]))
    && AllSuit(t, schema, spec.aggregates)
    && NoRepeats(ResultNames(spec.(aggregates := Aliased(spec.aggregates))))
  }

  /** The query makes sense over the table: its columns exist, its conditions are conditions, and names are used
      once. */
  ghost predicate Sensible(t: Table, q: Query) {
    match q
    case Scan(columns) =>
      && columns != Some([]) && NoRepeats(ScanNames(t, columns))
      && forall i :: 0 <= i < |ScanNames(t, columns)| ==> IsColumn(t, ScanNames(t, columns)[i])
    case Where(input, cond) =>
      && Sensible(t, input) && TypeChecks(t, SchemaOf(t, input), cond) && Boolean(TypeIn(SchemaOf(t, input), cond))
    case Project(input, exprs) => Sensible(t, input) && ProjectSuits(SchemaOf(t, input), exprs)
    case GroupBy(input, spec) => Sensible(t, input) && GroupSuits(t, SchemaOf(t, input), spec)
    case OrderBy(input, keys) =>
      && Sensible(t, input) && keys != []
      && forall i :: 0 <= i < |keys| ==> Orderable(SchemaOf(t, input), keys[i].column)
    case Limited(input, _, _) => Sensible(t, input)
    case Join(_, _, _) => false
  }

  ghost predicate IsColumn(t: Table, c: string) { exists i :: 0 <= i < |t.columns| && t.columns[i].name == c }

  // ---------------------------------------------------------------- validation is exact

  /** The first column of the name. */
  ghost predicate FirstNamed(columns: seq<TableColumn>, name: string, i: nat) {
    i < |columns| && columns[i].name == name && forall j :: 0 <= j < i ==> columns[j].name != name
  }

  lemma {:induction false} FoundExactly(columns: seq<TableColumn>, name: string)
    ensures FindTable(columns, name) == None ==> forall i :: 0 <= i < |columns| ==> columns[i].name != name
    ensures FindTable(columns, name).Some? ==>
              exists i: nat :: FirstNamed(columns, name, i) && columns[i] == FindTable(columns, name).value
  {
    if columns != [] {
      FoundExactly(columns[1..], name);
      if columns[0].name == name {
        assert FirstNamed(columns, name, 0);
      } else if FindTable(columns, name) == None {
        assert forall i :: 0 < i < |columns| ==> columns[i] == columns[1..][i - 1];
      } else {
        var i: nat :| FirstNamed(columns[1..], name, i) && columns[1..][i] == FindTable(columns, name).value;
        assert forall j :: 0 < j < |columns| ==> columns[j] == columns[1..][j - 1];
        assert FirstNamed(columns, name, i + 1);
      }
    }
  }

  /** What validation says of a query: whether it makes sense, its columns, and the plan it asks for. */
  ghost predicate WalkedExactly(t: Table, q: Query) {
    var c := Walk(t, q);
    && (c.Some? <==> Sensible(t, q))
    && (c.Some? ==> c.value.schema == SchemaOf(t, q) && Follows(t, q, c.value.query))
  }

  lemma ScanExactly(t: Table, q: Query)
    requires q.Scan?
    ensures WalkedExactly(t, q)
  {
    var names := ScanNames(t, q.columns);
    forall i | 0 <= i < |names|
      ensures FindTable(t.columns, names[i]).Some? <==> IsColumn(t, names[i])
    {
      FoundExactly(t.columns, names[i]);
    }
    assert Walk(t, q) == WalkScan(t, q.columns);
    hide FindTable, IsColumn, NoRepeats, DefaultProjection;
  }

  lemma OrderedExactly(schema: seq<OutputColumn>, c: string)
    ensures OrderedColumn(schema, c) <==> Orderable(schema, c)
  {
    FoundOutput(schema, c);
    hide FindOutput, TypeAt, NamesOf;
  }

  lemma ProjectionExactly(schema: seq<OutputColumn>, exprs: seq<(Expr, string)>)
    ensures ProjectSuits(schema, exprs) <==>
            RenamingOf(exprs).Some? && exprs != [] && NoRepeats(OutputNames(RenamingOf(exprs).value))
            && !exists i :: 0 <= i < |RenamingOf(exprs).value|
                            && (FindOutput(schema, RenamingOf(exprs).value[i].0) == None
                                || !ValidIdent(RenamingOf(exprs).value[i].1))
  {
    if RenamingOf(exprs).Some? {
      var m := RenamingOf(exprs).value;
      RenamingAt(exprs);
      forall i | 0 <= i < |m|
        ensures HasColumn(schema, exprs[i].0.name) <==> FindOutput(schema, m[i].0) != None
      {
        FoundOutput(schema, m[i].0);
      }
      forall i | 0 <= i < |m|
        ensures ValidIdent(m[i].1) <==> IsName(exprs[i].1)
      {
        NameExactly(m[i].1);
      }
      assert forall i :: 0 <= i < |m| ==> OutputNames(m)[i] == exprs[i].1;
      hide RenamingOf, ValidIdent, FindOutput, HasColumn, IsName;
    } else if ProjectSuits(schema, exprs) {
      AllColumns(exprs);
    }
  }

  lemma AggregateExactly(t: Table, schema: seq<OutputColumn>, agg: AggregateExpr)
    ensures CheckAggregate(t, schema, agg) ==
            if AggregateSuits(t, schema, agg) then Some(WithAlias(agg)) else None
  {
    AliasExactly(agg);
    NameExactly(AliasOf(agg));
    if agg.column.Some? {
      FoundOutput(schema, agg.column.value);
      AppliesExactly(t, agg.func, OutputColumn(agg.column.value, TypeAt(schema, agg.column.value)));
    }
    assert CheckAggregate(t, schema, agg).Some? ==> CheckAggregate(t, schema, agg).value == WithAlias(agg);
    hide IsHostile, FindOutput, TypeAt, NamesOf, ValidIdent, AliasOf, Applies, IsName, WithAlias;
  }

  lemma AppliesExactly(t: Table, func: AggregateFunc, c: OutputColumn)
    ensures Applies(t, func, c) <==>
            && (func.SumOf? || func.AvgOf? ==> Numeric(Some(c.dataType)) && !IsHostile(t, c.name))
            && (func.MinFunc? || func.MaxFunc? ==> c.dataType != TJson)
  {
    HostileExactly(t, c.name);
    hide IsHostile, FindTable;
  }

  lemma {:induction false} AggregatesExactly(t: Table, schema: seq<OutputColumn>, aggs: seq<AggregateExpr>)
    ensures var c := CheckAggregates(t, schema, aggs);
            && (c.Some? <==> AllSuit(t, schema, aggs))
            && (c.Some? ==> c.value == Aliased(aggs))
  {
    if aggs != [] {
      var n := |aggs| - 1;
      AggregatesExactly(t, schema, aggs[..n]);
      AggregateExactly(t, schema, aggs[n]);
      AliasedLast(aggs);
      AllSuitLast(t, schema, aggs);
      hide CheckAggregate, AggregateSuits, WithAlias, Aliased, AllSuit;
    }
  }

  ghost predicate AllSuit(t: Table, schema: seq<OutputColumn>, aggs: seq<AggregateExpr>) {
    forall j :: 0 <= j < |aggs| ==> AggregateSuits(t, schema, aggs[j])
  }

  lemma AllSuitLast(t: Table, schema: seq<OutputColumn>, aggs: seq<AggregateExpr>)
    requires aggs != []
    ensures AllSuit(t, schema, aggs) <==>
            AllSuit(t, schema, aggs[..|aggs| - 1]) && AggregateSuits(t, schema, aggs[|aggs| - 1])
  {
    assert forall j :: 0 <= j < |aggs| - 1 ==> aggs[..|aggs| - 1][j] == aggs[j];
    hide AggregateSuits;
  }

  lemma AliasedLast(aggs: seq<AggregateExpr>)
    requires aggs != []
    ensures Aliased(aggs) == Aliased(aggs[..|aggs| - 1]) + [WithAlias(aggs[|aggs| - 1])]
  {
    hide WithAlias;
  }

  lemma GroupExactly(t: Table, q: Query)
    requires q.GroupBy? && WalkedExactly(t, q.input)
    ensures WalkedExactly(t, q)
  {
    var spec, schema := q.spec, SchemaOf(t, q.input);
    AggregatesExactly(t, schema, spec.aggregates);
    forall i | 0 <= i < |spec.groupBy|
      ensures OrderedColumn(schema, spec.groupBy[i]) <==> Orderable(schema, spec.groupBy[i])
    {
      OrderedExactly(schema, spec.groupBy[i]);
    }
    WalkGroup(t, q);
    hide Walk, Orderable, OrderedColumn, CheckAggregates, AllSuit, NoRepeats, ResultNames, ResultColumns, TypesIn;
  }

  lemma WalkGroup(t: Table, q: Query)
    requires q.GroupBy?
    ensures Walk(t, q) ==
            match Walk(t, q.input)
            case None => None
            case Some(c) =>
              if q.spec.aggregates == []
                 || exists i :: 0 <= i < |q.spec.groupBy| && !OrderedColumn(c.schema, q.spec.groupBy[i]) then None
              else match CheckAggregates(t, c.schema, q.spec.aggregates)
                case None => None
                case Some(aggs) =>
                  var spec' := AggregateSpec(q.spec.groupBy, aggs);
                  if !NoRepeats(ResultNames(spec')) then None
                  else Some(Checking(GroupBy(c.query, spec'), ResultColumns(spec', TypesIn(c.schema)), c.clamped))
  {
    hide OrderedColumn, CheckAggregates, NoRepeats, ResultNames, ResultColumns, TypesIn;
  }

  lemma WhereExactly(t: Table, q: Query)
    requires q.Where? && WalkedExactly(t, q.input)
    ensures WalkedExactly(t, q)
  {
    CheckExactly(t, SchemaOf(t, q.input), q.cond);
    assert Walk(t, q) ==
           match Walk(t, q.input)
           case None => None
           case Some(c) =>
             (match CheckExpr(t, c.schema, q.cond)
              case Some(e) => if MayBeBool(e.ty) then Some(c.(query := Where(c.query, e.expr))) else None
              case None => None);
    hide Walk, CheckExpr, TypeChecks, CondFollows, TypeIn;
  }

  lemma ProjectExactly(t: Table, q: Query)
    requires q.Project? && WalkedExactly(t, q.input)
    ensures WalkedExactly(t, q)
  {
    ProjectionExactly(SchemaOf(t, q.input), q.exprs);
    WalkProject(t, q);
    hide Walk, ProjectSuits, RenamingOf, NoRepeats, FindOutput, ValidIdent, Projected;
  }

  lemma WalkProject(t: Table, q: Query)
    requires q.Project?
    ensures Walk(t, q) ==
            match (Walk(t, q.input), RenamingOf(q.exprs))
            case (Some(c), Some(m)) =>
              if q.exprs == [] || !NoRepeats(OutputNames(m))
                 || exists i :: 0 <= i < |m| && (FindOutput(c.schema, m[i].0) == None || !ValidIdent(m[i].1)) then None
              else Some(Checking(Project(c.query, q.exprs), Projected(c.schema, m), c.clamped))
            case _ => None
  {
    hide RenamingOf, NoRepeats, FindOutput, ValidIdent, Projected;
  }

  lemma OrderExactly(t: Table, q: Query)
    requires q.OrderBy? && WalkedExactly(t, q.input)
    ensures WalkedExactly(t, q)
  {
    var schema := SchemaOf(t, q.input);
    forall i | 0 <= i < |q.keys|
      ensures OrderedColumn(schema, q.keys[i].column) <==> Orderable(schema, q.keys[i].column)
    {
      OrderedExactly(schema, q.keys[i].column);
    }
    hide Orderable, OrderedColumn;
  }

  lemma LimitExactly(t: Table, q: Query)
    requires q.Limited? && WalkedExactly(t, q.input)
    ensures WalkedExactly(t, q)
  {
  }

  /** Validation accepts exactly the queries that make sense, and gives the plan they ask for. */
  lemma {:induction false} WalkExactly(t: Table, q: Query)
    ensures WalkedExactly(t, q)
    decreases q
  {
    hide WalkedExactly;
    if q.Scan? {
      ScanExactly(t, q);
    } else if q.Join? {
      JoinExactly(t, q);
    } else {
      WalkExactly(t, q.input);
      match q
      case Where(_, _) => WhereExactly(t, q);
      case Project(_, _) => ProjectExactly(t, q);
      case GroupBy(_, _) => GroupExactly(t, q);
      case OrderBy(_, _) => OrderExactly(t, q);
      case Limited(_, _, _) => LimitExactly(t, q);
    }
  }

  lemma JoinExactly(t: Table, q: Query)
    requires q.Join?
    ensures WalkedExactly(t, q)
  {
  }

  /** A query is validated exactly when it makes sense and has a column. */
  lemma ValidateExactly(t: Table, q: Query)
    ensures Validate(t, q).Some? <==> Sensible(t, q) && SchemaOf(t, q) != []
    ensures Validate(t, q).Some? ==>
              Validate(t, q).value.schema == SchemaOf(t, q) && Follows(t, q, Validate(t, q).value.query)
  {
    WalkExactly(t, q);
    hide Walk, Sensible, SchemaOf, Follows;
  }

  // ---------------------------------------------------------------- only one plan follows a query

  lemma OneReading(t: Table, ty: Option<DataType>, w: Value, a: Value, b: Value)
    requires ReadAs(t, ty, w, a) && ReadAs(t, ty, w, b)
    ensures a == b
  {
    ReadsExactly(t, ty, w);
    hide ReadAs, CoerceTo;
  }

  lemma {:induction false} OneCondition(t: Table, schema: seq<OutputColumn>, e: Expr, a: Expr, b: Expr)
    requires CondFollows(t, schema, e, a) && CondFollows(t, schema, e, b)
    ensures a == b
    decreases e
  {
    hide ReadAs, TypeIn;
    match e
    case Column(_) =>
    case Literal(_) =>
    case Not(inner) => OneCondition(t, schema, inner, a.inner, b.inner);
    case IsNull(inner) => OneCondition(t, schema, inner, a.inner, b.inner);
    case IsNotNull(inner) => OneCondition(t, schema, inner, a.inner, b.inner);
    case InList(inner, list, _) =>
      OneCondition(t, schema, inner, a.expr, b.expr);
      forall i | 0 <= i < |list|
        ensures a.list[i] == b.list[i]
      {
        OneReading(t, TypeIn(schema, inner), list[i], a.list[i], b.list[i]);
      }
    case Between(inner, low, high, _) =>
      OneCondition(t, schema, inner, a.expr, b.expr);
      OneReading(t, TypeIn(schema, inner), low, a.low, b.low);
      OneReading(t, TypeIn(schema, inner), high, a.high, b.high);
    case Binary(op, left, right) =>
      if Coerces(op) && left.Literal? {
        OneReading(t, LeftType(schema, left, right), left.value, a.left.value, b.left.value);
      } else {
        OneCondition(t, schema, left, a.left, b.left);
      }
      if Coerces(op) && right.Literal? {
        OneReading(t, RightType(schema, left, right), right.value, a.right.value, b.right.value);
      } else {
        OneCondition(t, schema, right, a.right, b.right);
      }
  }

  /** A query asks for one plan. */
  lemma {:induction false} OnePlan(t: Table, q: Query, v: Query, v': Query)
    requires Follows(t, q, v) && Follows(t, q, v')
    ensures v == v'
    decreases q
  {
    if !q.Scan? {
      OnePlan(t, q.input, v.input, v'.input);
      if q.Where? {
        OneCondition(t, SchemaOf(t, q.input), q.cond, v.cond, v'.cond);
      }
      hide CondFollows, SchemaOf;
    }
  }

  // ---------------------------------------------------------------- the rows of the query itself

  /** The query with its defaults spelt out and its conditions as they are. */
  function Spelled(t: Table, q: Query): Query {
    match q
    case Scan(columns) => Scan(Some(ScanNames(t, columns)))
    case Where(input, cond) => Where(Spelled(t, input), cond)
    case Project(input, exprs) => Project(Spelled(t, input), exprs)
    case GroupBy(input, spec) => GroupBy(Spelled(t, input), spec.(aggregates := Aliased(spec.aggregates)))
    case OrderBy(input, keys) => OrderBy(Spelled(t, input), keys)
    case Limited(input, limit, skip) => Limited(Spelled(t, input), Min(limit, t.maxRows), skip)
    case Join(_, _, _) => q
  }

  /** The literal is of the type. */
  predicate Stays(ty: Option<DataType>, w: Value) { ty == None || w == Null || OfType(ty.value, w) }

  /** The literal is of the type, or a number that stays the same. */
  predicate StaysNumber(ty: Option<DataType>, w: Value) {
    || Stays(ty, w) || (ty == Some(TFloat64) && w.Int?)
    || (ty == Some(TInt64) && w.Float? && MIN64 as real <= w.f <= MAX64 as real)
  }

  /** The condition compares with literals of the columns' types, or with numbers within 64 bits. */
  predicate PlainCond(schema: seq<OutputColumn>, e: Expr) {
    match e
    case Column(_) => true
    case Literal(_) => true
    case Not(inner) => PlainCond(schema, inner)
    case IsNull(inner) => PlainCond(schema, inner)
    case IsNotNull(inner) => PlainCond(schema, inner)
    case InList(inner, list, _) =>
      PlainCond(schema, inner) && forall i :: 0 <= i < |list| ==> StaysNumber(TypeIn(schema, inner), list[i])
    case Between(inner, low, high, _) =>
      PlainCond(schema, inner) && StaysNumber(TypeIn(schema, inner), low) && StaysNumber(TypeIn(schema, inner), high)
    case Binary(op, left, right) =>
      && (if Coerces(op) && left.Literal? then PlainLiteral(op, LeftType(schema, left, right), left.value)
          else PlainCond(schema, left))
      && (if Coerces(op) && right.Literal? then PlainLiteral(op, RightType(schema, left, right), right.value)
          else PlainCond(schema, right))
  }

  predicate PlainLiteral(op: BinaryOp, ty: Option<DataType>, w: Value) {
    if op.IsComparison() then StaysNumber(ty, w) else Stays(ty, w)
  }

  predicate Plain(t: Table, q: Query) {
    match q
    case Scan(_) => true
    case Join(_, _, _) => true
    case Where(input, cond) => Plain(t, input) && PlainCond(SchemaOf(t, input), cond)
    case _ => Plain(t, q.input)
  }

  /** The values are the same, or the same number. */
  predicate SameNumber(a: Value, b: Value) {
    a == b || ((a.Int? || a.Float?) && (b.Int? || b.Float?) && Number(a) == Number(b))
  }

  lemma StaysSame(t: Table, ty: Option<DataType>, w: Value, w': Value)
    requires ReadAs(t, ty, w, w')
    ensures Stays(ty, w) ==> w' == w
    ensures StaysNumber(ty, w) ==> SameNumber(w, w')
  {
  }

  lemma CompareSame(op: BinaryOp, a: Value, b: Value, a': Value, b': Value)
    requires op.IsComparison() && SameNumber(a, a') && SameNumber(b, b')
    ensures Compare(op, a, b) == Compare(op, a', b')
  {
    LeqSame(a, b, a', b');
    LeqSame(b, a, b', a');
    assert Rank(a) == Rank(a') && Rank(b) == Rank(b') && (a == Null <==> a' == Null) && (b == Null <==> b' == Null);
    hide Leq, Rank, SameNumber;
  }

  lemma LeqSame(a: Value, b: Value, a': Value, b': Value)
    requires SameNumber(a, a') && SameNumber(b, b')
    ensures Leq(a, b) <==> Leq(a', b')
  {
  }

  lemma {:induction false} MemberSame(v: Value, list: seq<Value>, list': seq<Value>)
    requires |list| == |list'| && forall i :: 0 <= i < |list| ==> SameNumber(list[i], list'[i])
    ensures Member(v, list) == Member(v, list')
  {
    if list != [] {
      var n := |list| - 1;
      MemberSame(v, list[..n], list'[..n]);
      CompareSame(Eq, v, list[n], v, list'[n]);
      hide Compare, SameNumber;
    }
  }

  lemma WithinSame(v: Value, low: Value, high: Value, low': Value, high': Value)
    requires SameNumber(low, low') && SameNumber(high, high')
    ensures Within(v, low, high) == Within(v, low', high')
  {
    CompareSame(GtEq, v, low, v, low');
    CompareSame(LtEq, v, high, v, high');
    hide Compare, SameNumber;
  }

  /** The operands of an operator evaluate alike: to the same, or, in a comparison, to the same number. */
  ghost predicate OperandsAlike(ks: Kernels, op: BinaryOp, e: Expr, e': Expr, row: Row) {
    var v, v' := Eval(ks, e, row), Eval(ks, e', row);
    v == v' || (op.IsComparison() && v.Some? && v'.Some? && SameNumber(v.value, v'.value))
  }

  lemma BinaryAlike(ks: Kernels, e: Expr, e': Expr, row: Row)
    requires e.Binary? && e'.Binary? && e.op == e'.op
    requires OperandsAlike(ks, e.op, e.left, e'.left, row) && OperandsAlike(ks, e.op, e.right, e'.right, row)
    ensures Eval(ks, e, row) == Eval(ks, e', row)
  {
    var a, b := Eval(ks, e.left, row), Eval(ks, e.right, row);
    var a', b' := Eval(ks, e'.left, row), Eval(ks, e'.right, row);
    OperatorEval(ks, e, row);
    OperatorEval(ks, e', row);
    if e.op.IsComparison() && a.Some? && b.Some? && a'.Some? && b'.Some? {
      CompareSame(e.op, a.value, b.value, a'.value, b'.value);
      assert Operate(ks, e.op, a.value, b.value) == Lift(Compare(e.op, a.value, b.value));
      assert Operate(ks, e.op, a'.value, b'.value) == Lift(Compare(e.op, a'.value, b'.value));
    }
    hide Eval, Compare, Operate, SameNumber;
  }

  lemma OperatorEval(ks: Kernels, e: Expr, row: Row)
    requires e.Binary?
    ensures var (a, b) := (Eval(ks, e.left, row), Eval(ks, e.right, row));
            Eval(ks, e, row) == if a.Some? && b.Some? then Operate(ks, e.op, a.value, b.value) else None
  {
    hide Operate;
  }

  lemma LiteralAlike(ks: Kernels, t: Table, op: BinaryOp, ty: Option<DataType>, e: Expr, e': Expr, row: Row)
    requires e.Literal? && e'.Literal? && ReadAs(t, ty, e.value, e'.value) && PlainLiteral(op, ty, e.value)
    ensures OperandsAlike(ks, op, e, e', row)
  {
    StaysSame(t, ty, e.value, e'.value);
    assert Eval(ks, e, row) == Some(e.value) && Eval(ks, e', row) == Some(e'.value);
    hide ReadAs, Stays, StaysNumber, SameNumber;
  }

  /** A plain condition evaluates to the same, its literals being read as the types they meet. */
  lemma {:induction false} EvalFollows(ks: Kernels, t: Table, schema: seq<OutputColumn>, e: Expr, e': Expr, row: Row)
    requires CondFollows(t, schema, e, e') && PlainCond(schema, e)
    ensures Eval(ks, e, row) == Eval(ks, e', row)
    decreases e
  {
    hide ReadAs, TypeIn, StaysNumber, Stays;
    match e
    case Column(_) =>
    case Literal(_) =>
    case Not(inner) => EvalFollows(ks, t, schema, inner, e'.inner, row);
    case IsNull(inner) => EvalFollows(ks, t, schema, inner, e'.inner, row);
    case IsNotNull(inner) => EvalFollows(ks, t, schema, inner, e'.inner, row);
    case InList(inner, list, _) =>
      EvalFollows(ks, t, schema, inner, e'.expr, row);
      ListFollows(ks, t, TypeIn(schema, inner), e, e', row);
    case Between(inner, low, high, _) =>
      EvalFollows(ks, t, schema, inner, e'.expr, row);
      RangeFollows(ks, t, TypeIn(schema, inner), e, e', row);
    case Binary(op, left, right) =>
      if Coerces(op) && left.Literal? {
        LiteralAlike(ks, t, op, LeftType(schema, left, right), left, e'.left, row);
      } else {
        EvalFollows(ks, t, schema, left, e'.left, row);
      }
      if Coerces(op) && right.Literal? {
        LiteralAlike(ks, t, op, RightType(schema, left, right), right, e'.right, row);
      } else {
        EvalFollows(ks, t, schema, right, e'.right, row);
      }
      BinaryAlike(ks, e, e', row);
  }

  lemma ListFollows(ks: Kernels, t: Table, ty: Option<DataType>, e: Expr, e': Expr, row: Row)
    requires e.InList? && e'.InList? && e.negated == e'.negated && Eval(ks, e.expr, row) == Eval(ks, e'.expr, row)
    requires AllReadAs(t, ty, e.list, e'.list) && forall i :: 0 <= i < |e.list| ==> StaysNumber(ty, e.list[i])
    ensures Eval(ks, e, row) == Eval(ks, e', row)
  {
    forall i | 0 <= i < |e.list|
      ensures SameNumber(e.list[i], e'.list[i])
    {
      StaysSame(t, ty, e.list[i], e'.list[i]);
    }
    if Eval(ks, e.expr, row).Some? {
      MemberSame(Eval(ks, e.expr, row).value, e.list, e'.list);
    }
    hide ReadAs, StaysNumber, SameNumber, Member;
  }

  lemma RangeFollows(ks: Kernels, t: Table, ty: Option<DataType>, e: Expr, e': Expr, row: Row)
    requires e.Between? && e'.Between? && e.negated == e'.negated && Eval(ks, e.expr, row) == Eval(ks, e'.expr, row)
    requires ReadAs(t, ty, e.low, e'.low) && ReadAs(t, ty, e.high, e'.high)
    requires StaysNumber(ty, e.low) && StaysNumber(ty, e.high)
    ensures Eval(ks, e, row) == Eval(ks, e', row)
  {
    StaysSame(t, ty, e.low, e'.low);
    StaysSame(t, ty, e.high, e'.high);
    if Eval(ks, e.expr, row).Some? {
      WithinSame(Eval(ks, e.expr, row).value, e.low, e.high, e'.low, e'.high);
    }
    hide ReadAs, StaysNumber, SameNumber, Within;
  }

  lemma {:induction false} FilterFollows(ks: Kernels, t: Table, schema: seq<OutputColumn>, e: Expr, e': Expr,
                                         rows: seq<Row>)
    requires CondFollows(t, schema, e, e') && PlainCond(schema, e)
    ensures Filter(ks, e, rows) == Filter(ks, e', rows)
  {
    if rows != [] {
      FilterFollows(ks, t, schema, e, e', rows[..|rows| - 1]);
      EvalFollows(ks, t, schema, e, e', rows[|rows| - 1]);
      hide Eval, CondFollows, PlainCond;
    }
  }

  /** The plan a plain query asks for returns the rows of the query itself, its defaults spelt out. */
  lemma {:induction false} DenoteFollows(env: Env, t: Table, q: Query, v: Query, rows: seq<Row>)
    requires Follows(t, q, v) && Plain(t, q)
    ensures Denote(env, v, rows) == Denote(env, Spelled(t, q), rows)
    decreases q
  {
    if !q.Scan? {
      DenoteFollows(env, t, q.input, v.input, rows);
      if q.Where? {
        FilterFollows(env.kernels, t, SchemaOf(t, q.input), q.cond, v.cond, Denote(env, v.input, rows));
      }
      hide CondFollows, SchemaOf, Filter, RenameAll, AggregateRows, Window;
    }
  }
}
