/** The physical plan, what the executor's pipeline returns for it, and why that is what the logical plan means
    (crates/adb-planner/src/physical.rs; crates/adb-exec/src/lib.rs, sort.rs). */
module Physical {
  import opened Values
  import opened Expressions
  import opened Renamings
  import opened Labels
  import opened Quantities
  import opened Pruning
  import opened AggStates
  import opened Aggregation
  import opened Plans

  datatype PhysicalPlan = PhysicalPlan(
    projection: seq<string>,
    pruning: seq<PruneAtom>,
    filter: Option<Expr>,
    aggregate: Option<AggregateSpec>,
    rename: Option<Renaming>,
    sort: seq<SortExpr>,
    limit: Option<nat>,
    offset: nat,
    output: seq<OutputColumn>)
  {
    /** The executor can stop as soon as it has `limit + offset` rows. */
    predicate IsStreamingLimit() { limit.Some? && sort == [] && aggregate == None }

    /** Rows to materialize before applying the offset. */
    function FetchRows(): Option<nat> { if limit.Some? then Some(SaturatingAdd(limit.value, offset)) else None }
  }

  /** Without an aggregate, sort keys name output columns; these are the columns they come from, or
      nothing when the projection removes one. */
  function SortSources(rename: Option<Renaming>, keys: seq<SortExpr>): Option<set<string>> {
    if keys == [] then Some({})
    else
      var last := keys[|keys| - 1].column;
      match (SortSources(rename, keys[..|keys| - 1]), if rename.Some? then Source(rename.value, last) else Some(last))
      case (Some(before), Some(source)) => Some(before + {source})
      case _ => None
  }

  function SetOf(names: seq<string>): set<string> { set c | c in names }

  function RenameSources(m: Renaming): set<string> { set i | 0 <= i < |m| :: m[i].0 }

  /** The columns the pipeline touches. */
  function Needed(d: Draft): Option<set<string>> {
    var filtered := if d.filter.Some? then Columns(d.filter.value) else {};
    if d.aggregate.Some? then Some(filtered + SpecColumns(d.aggregate.value))
    else match SortSources(d.rename, d.sort)
      case Some(sorted) => Some(filtered + (if d.rename.Some? then RenameSources(d.rename.value) else SetOf(d.columns))
                                + sorted)
      case None => None
  }

  /** The columns that are needed, in table order. */
  function Keep(columns: seq<string>, needed: set<string>): seq<string> {
    if columns == [] then []
    else Keep(columns[..|columns| - 1], needed) + (if columns[|columns| - 1] in needed then [columns[|columns| - 1]]
                                                   else [])
  }

  /** Reads only what is needed, and one column when that is nothing. */
  function Projection(d: Draft, needed: set<string>): seq<string>
    requires d.columns != []
  {
    var kept := Keep(d.columns, needed);
    if kept == [] then [d.columns[0]] else kept
  }

  function PlanOf(d: Draft, output: seq<OutputColumn>): Option<PhysicalPlan>
    requires d.columns != []
  {
    match Needed(d)
    case None => None
    case Some(needed) =>
      var pruning := if d.filter.Some? then Atoms(d.filter.value) else [];
      Some(PhysicalPlan(Projection(d, needed), pruning, d.filter, d.aggregate, d.rename, d.sort, d.limit, d.offset,
                        output))
  }

  /** Lowers a validated plan, or rejects it when it does not fit the pipeline. */
  method Build(v: Validated) returns (r: Option<PhysicalPlan>)
    requires Resolved(v.query)
    ensures r == BuildOf(v)
  {
    var drawn := Draw(v.query);
    if drawn == None {
      return None;
    }
    DraftColumns(v.query, drawn.value);
    r := PlanOf(drawn.value, v.schema);
  }

  function BuildOf(v: Validated): Option<PhysicalPlan> {
    match DraftOf(v.query)
    case Some(d) => if d.columns == [] then None else PlanOf(d, v.schema)
    case None => None
  }

  lemma DraftFits(q: Query, d: Draft)
    requires Resolved(q) && DraftOf(q) == Some(d)
    ensures !q.Limited? ==> Fits(d, q)
    ensures q.Limited? ==> DraftOf(Below(q)).Some? && Fits(DraftOf(Below(q)).value, Below(q))
  {
    if q.Limited? {
      LimitDraft(q, d);
      CoreFits(Below(q), DraftOf(Below(q)).value);
    } else {
      CoreFits(q, d);
    }
  }

  lemma DraftColumns(q: Query, d: Draft)
    requires Resolved(q) && DraftOf(q) == Some(d)
    ensures d.columns != []
  {
    DraftFits(q, d);
    if q.Limited? {
      LimitDraft(q, d);
    }
  }

  // ---------------------------------------------------------------- what the pipeline returns

  function ProjectTypes(types: Types, columns: seq<string>): Types { map c | c in columns && c in types :: types[c] }

  /** What the filter keeps. */
  function Kept(env: Env, filter: Option<Expr>, rows: seq<Row>): seq<Row> {
    if filter.Some? then Filter(env.kernels, filter.value, rows) else rows
  }

  /** Scan of the projected columns and filter. */
  function Scanned(env: Env, p: PhysicalPlan, rows: seq<Row>): seq<Row> {
    Kept(env, p.filter, RestrictAll(rows, p.projection))
  }

  /** The batch the coordinator gets: the scanned rows, or the aggregation's result batch, labelled by the plan's
      output; nothing when that fails. */
  function Batch(env: Env, p: PhysicalPlan, rows: seq<Row>): Option<seq<Row>> {
    if p.aggregate == None then Some(Scanned(env, p, rows))
    else
      var spec := p.aggregate.value;
      ResultBatch(spec, p.output, Results(spec, ProjectTypes(env.types, p.projection), Scanned(env, p, rows)))
  }

  /** The names of the batch's columns. */
  function BatchNames(p: PhysicalPlan): seq<string> { if p.aggregate.Some? then NamesOf(p.output) else p.projection }

  /** Renames the batch; an empty one is left as it is, and a source the batch does not have is an error. */
  function ApplyRename(p: PhysicalPlan, rows: seq<Row>): Option<seq<Row>> {
    if p.rename == None || rows == [] then Some(rows)
    else if forall i :: 0 <= i < |p.rename.value| ==> p.rename.value[i].0 in BatchNames(p)
      then Some(RenameAll(p.rename.value, rows))
    else None
  }

  function FirstRows(rows: seq<Row>, n: nat): seq<Row> { if n < |rows| then rows[..n] else rows }

  /** Sorts, keeping at most `limit` rows. */
  function SortBatch(env: Env, keys: seq<SortExpr>, rows: seq<Row>, limit: Option<nat>): seq<Row> {
    var sorted := if keys == [] || rows == [] then rows else (env.sorter)(keys, rows);
    if limit.Some? then FirstRows(sorted, limit.value) else sorted
  }

  /** The offset and the limit, or the caller's row budget when there is none. */
  function OffsetLimit(p: PhysicalPlan, rows: seq<Row>, maxRows: nat): seq<Row> {
    Window(rows, p.offset, if p.limit.Some? then p.limit.value else maxRows)
  }

  /** Sorts, cuts and aligns the renamed rows. */
  function Arrange(env: Env, p: PhysicalPlan, renamed: seq<Row>, maxRows: nat): seq<Row> {
    RestrictAll(OffsetLimit(p, SortBatch(env, p.sort, renamed, p.FetchRows()), maxRows), NamesOf(p.output))
  }

  /** What the coordinator makes of the batch. */
  function Coordinate(env: Env, p: PhysicalPlan, batch: Option<seq<Row>>, maxRows: nat): Option<seq<Row>> {
    if batch == None || ApplyRename(p, batch.value) == None then None
    else Some(Arrange(env, p, ApplyRename(p, batch.value).value, maxRows))
  }

  /** When a projection of an aggregation is labelled right; this can be checked on the plan. */
  predicate LabelsRight(types: Types, p: PhysicalPlan) {
    p.aggregate.Some? && p.rename.Some? ==> AllRight(p.aggregate.value, types, p.output, p.rename.value)
  }

  // ---------------------------------------------------------------- projection pushdown

  lemma {:induction false} KeepMembers(columns: seq<string>, needed: set<string>)
    ensures forall c :: c in Keep(columns, needed) <==> c in columns && c in needed
  {
    if columns != [] {
      KeepMembers(columns[..|columns| - 1], needed);
      assert columns == columns[..|columns| - 1] + [columns[|columns| - 1]];
    }
  }

  /** What is read of the table: the columns that are needed and no others, or one column when none is. */
  lemma ProjectionCovers(d: Draft, needed: set<string>)
    requires d.columns != []
    ensures forall c :: c in needed && c in d.columns ==> c in Projection(d, needed)
    ensures forall c :: c in Projection(d, needed) ==> c in d.columns
    ensures (forall c :: c in Projection(d, needed) ==> c in needed) || Projection(d, needed) == [d.columns[0]]
  {
    KeepMembers(d.columns, needed);
  }

  lemma KeptRestrict(env: Env, filter: Option<Expr>, columns: seq<string>, rows: seq<Row>)
    requires filter.Some? ==> AllIn(Columns(filter.value), columns)
    ensures Kept(env, filter, RestrictAll(rows, columns)) == RestrictAll(Kept(env, filter, rows), columns)
  {
    if filter.Some? {
      FilterRestrict(env.kernels, filter.value, columns, rows);
    }
    hide Filter, RestrictAll;
  }

  lemma SpecRestrict(env: Env, spec: AggregateSpec, rows: seq<Row>, columns: seq<string>, columns': seq<string>)
    requires AllIn(SpecColumns(spec), columns) && AllIn(SpecColumns(spec), columns')
    ensures Results(spec, ProjectTypes(env.types, columns), RestrictAll(rows, columns)) ==
            Results(spec, env.types, RestrictAll(rows, columns'))
  {
    hide Results, SpecColumns;
    forall i, c | 0 <= i < |rows| && c in SpecColumns(spec)
      ensures Cell(RestrictAll(rows, columns)[i], c) == Cell(RestrictAll(rows, columns')[i], c)
    {
    }
    AggregateDepends(spec, ProjectTypes(env.types, columns), env.types, RestrictAll(rows, columns),
                     RestrictAll(rows, columns'));
  }

  /** The plan takes its stages from the draft, and reads at least what they need. */
  ghost predicate Lowers(d: Draft, p: PhysicalPlan) {
    && p.filter == d.filter && p.aggregate == d.aggregate && p.rename == d.rename && p.sort == d.sort
    && (d.filter.Some? ==> AllIn(Columns(d.filter.value), p.projection))
    && (d.aggregate.Some? ==> AllIn(SpecColumns(d.aggregate.value), p.projection))
    && (d.aggregate == None && d.rename.Some? ==> SourcesWithin(d.rename.value, p.projection))
    && (d.aggregate == None && d.rename == None ==> forall c :: c in d.columns <==> c in p.projection)
  }

  lemma PlanLowers(q: Query, d: Draft, p: PhysicalPlan)
    requires Fits(d, q) && PlanOf(d, p.output) == Some(p)
    ensures Lowers(d, p)
  {
    var needed := Needed(d).value;
    ProjectionCovers(d, needed);
    assert d.filter.Some? ==> forall c :: c in Columns(d.filter.value) ==> c in needed;
    assert d.aggregate.Some? ==> forall c :: c in SpecColumns(d.aggregate.value) ==> c in needed;
    if d.aggregate == None && d.rename.Some? {
      forall i | 0 <= i < |d.rename.value|
        ensures d.rename.value[i].0 in p.projection
      {
        assert d.rename.value[i].0 in RenameSources(d.rename.value);
      }
    }
    hide Projection, Columns, SpecColumns;
  }

  /** Every row of the table holds values of the columns' types. */
  ghost predicate TableTyped(types: Types, rows: seq<Row>) { RowsTyped(types, types.Keys, rows) }

  lemma {:induction false} FilterTyped(ks: Kernels, e: Expr, types: Types, columns: set<string>, rows: seq<Row>)
    requires RowsTyped(types, columns, rows)
    ensures RowsTyped(types, columns, Filter(ks, e, rows))
  {
    if rows != [] {
      FilterTyped(ks, e, types, columns, rows[..|rows| - 1]);
      hide RowTyped, Selects;
    }
  }

  /** The rows that reach an aggregation are typed. */
  lemma KeptTyped(env: Env, filter: Option<Expr>, columns: seq<string>, needed: set<string>, rows: seq<Row>)
    requires TableTyped(env.types, rows) && AllIn(needed, columns)
    requires forall i :: 0 <= i < |columns| ==> columns[i] in env.types
    ensures RowsTyped(env.types, needed, RestrictAll(Kept(env, filter, rows), columns))
  {
    var kept := Kept(env, filter, rows);
    if filter.Some? {
      FilterTyped(env.kernels, filter.value, env.types, env.types.Keys, rows);
    }
    hide Kept, Filter, TypedValue;
    forall i | 0 <= i < |kept|
      ensures RowTyped(env.types, needed, Restrict(kept[i], columns))
    {
      assert RowTyped(env.types, env.types.Keys, kept[i]);
    }
  }

  /** What a plan's output, labels and rows must be like for its batch to be right. */
  ghost predicate Sound(env: Env, q: Query, d: Draft, p: PhysicalPlan, rows: seq<Row>) {
    && Fits(d, q) && Lowers(d, p) && p.output == DraftOutput(env.types, d) && NoRepeats(Outputs(q)) && Outputs(q) != []
    && LabelsRight(env.types, p) && TableTyped(env.types, rows)
    && forall i :: 0 <= i < |d.columns| ==> d.columns[i] in env.types
  }

  /** Reading only the needed columns, the batch is the draft's rows before renaming, and renaming them succeeds. */
  lemma BatchShaped(env: Env, q: Query, d: Draft, p: PhysicalPlan, rows: seq<Row>)
    requires Sound(env, q, d, p, rows)
    ensures Batch(env, p, rows).Some? && ApplyRename(p, Batch(env, p, rows).value) == Some(Shaped(env, d, rows))
  {
    var kept := Kept(env, d.filter, rows);
    KeptRestrict(env, d.filter, p.projection, rows);
    KeptRestrict(env, d.filter, d.columns, rows);
    assert Filtered(env, d, rows) == RestrictAll(kept, d.columns);
    assert Scanned(env, p, rows) == RestrictAll(kept, p.projection);
    if d.aggregate.Some? {
      hide RestrictAll, Filter, Kept, Fits, Lowers, DraftOutput, LabelsRight, Scanned, Filtered;
      AggregateShaped(env, q, d, p, rows, kept);
    } else if d.rename.Some? {
      assert Middle(d) == d.columns;
      hide RestrictAll, Filter, RenameAll, Kept, Fits, Lowers, Scanned, Filtered;
      RenameRestrict(d.rename.value, kept, p.projection);
      RenameRestrict(d.rename.value, kept, d.columns);
      assert RenameAll(d.rename.value, []) == [];
    } else {
      hide RestrictAll, Filter, RenameAll, Kept, Fits, Scanned, Filtered;
      RestrictSame(kept, p.projection, d.columns);
    }
  }

  lemma NothingRenamed(m: Renaming)
    ensures RenameAll(m, []) == []
  {
  }

  lemma AggregateShaped(env: Env, q: Query, d: Draft, p: PhysicalPlan, rows: seq<Row>, kept: seq<Row>)
    requires Sound(env, q, d, p, rows) && d.aggregate.Some? && kept == Kept(env, d.filter, rows)
    requires Filtered(env, d, rows) == RestrictAll(kept, d.columns)
             && Scanned(env, p, rows) == RestrictAll(kept, p.projection)
    ensures Batch(env, p, rows).Some? && ApplyRename(p, Batch(env, p, rows).value) == Some(Shaped(env, d, rows))
  {
    var spec := d.aggregate.value;
    var computed, tuples := ResultColumns(spec, env.types), Results(spec, env.types, RestrictAll(kept, d.columns));
    SpecRestrict(env, spec, kept, p.projection, d.columns);
    KeptTyped(env, d.filter, d.columns, SpecColumns(spec), rows);
    ResultsTyped(spec, env.types, RestrictAll(kept, d.columns));
    assert Grouped(env, d, rows) == NameAll(NamesOf(computed), tuples);
    assert p.aggregate == Some(spec) && p.rename == d.rename;
    if d.rename == None {
      assert p.output == computed;
      OwnBatch(computed, tuples);
      hide Results, RestrictAll, Kept, Filtered, Scanned, ResultColumns, NameAll, LabelAll, Sound;
    } else {
      var m := d.rename.value;
      assert NamedRight(spec, env.types, p.output, m) && AllRight(spec, env.types, p.output, m);
      assert |p.output| == |computed|;
      RightTable(spec, env.types, p.output, m, RestrictAll(kept, d.columns));
      hide Results, RestrictAll, Kept, Filtered, Scanned, ResultColumns, NameAll, LabelAll, Sound, RenameAll, Relabel,
           Intended, AllRight, RowsTyped;
      RelabelledBatch(computed, p.output, m, tuples);
      NothingRenamed(m);
    }
  }

  // ---------------------------------------------------------------- the columns of a result

  ghost predicate HasColumns(rows: seq<Row>, names: seq<string>) {
    forall i :: 0 <= i < |rows| ==> rows[i].Keys == SetOf(names)
  }

  lemma AlignedSame(rows: seq<Row>, names: seq<string>)
    requires HasColumns(rows, names)
    ensures RestrictAll(rows, names) == rows
  {
    forall i | 0 <= i < |rows|
      ensures Restrict(rows[i], names) == rows[i]
    {
      assert rows[i].Keys == SetOf(names);
    }
  }

  lemma {:induction false} AssignKeys(row: Row, columns: seq<string>, values: seq<Value>)
    requires |columns| == |values|
    ensures Assign(row, columns, values).Keys == row.Keys + SetOf(columns)
    decreases |columns|
  {
    if columns != [] {
      AssignKeys(row[columns[0] := values[0]], columns[1..], values[1..]);
      assert columns == [columns[0]] + columns[1..];
      assert SetOf(columns) == {columns[0]} + SetOf(columns[1..]);
    }
  }

  lemma {:induction false} FirstKeysLength(cols: seq<string>, rows: seq<Row>)
    ensures forall i :: 0 <= i < |FirstKeys(cols, rows)| ==> |FirstKeys(cols, rows)[i]| == |cols|
  {
    if rows != [] {
      FirstKeysLength(cols, rows[..|rows| - 1]);
      KeyLength(cols, rows[|rows| - 1]);
    }
  }

  lemma TuplesLength(spec: AggregateSpec, types: Types, rows: seq<Row>)
    ensures forall i :: 0 <= i < |Results(spec, types, rows)| ==> |Results(spec, types, rows)[i]| == |ResultNames(spec)|
  {
    var g := GroupsOf(spec, types, rows);
    FirstKeysLength(spec.groupBy, rows);
    forall i | 0 <= i < |g.keys|
      ensures g.keys[i] in g.states && |Tuple(g.keys[i], g.states[g.keys[i]])| == |ResultNames(spec)|
    {
      GroupsAt(spec, types, rows, g.keys[i]);
      assert g.keys[i] in FirstKeys(spec.groupBy, rows);
      hide KeyRows, FirstKeys, GroupsOf;
    }
  }

  lemma AggregateColumns(spec: AggregateSpec, types: Types, rows: seq<Row>)
    ensures HasColumns(AggregateRows(spec, types, rows), ResultNames(spec))
  {
    var tuples := Results(spec, types, rows);
    TuplesLength(spec, types, rows);
    hide Results;
    forall i | 0 <= i < |tuples|
      ensures Assign(map[], ResultNames(spec), tuples[i]).Keys == SetOf(ResultNames(spec))
    {
      AssignKeys(map[], ResultNames(spec), tuples[i]);
    }
  }

  lemma RenamedColumns(m: Renaming, rows: seq<Row>)
    ensures HasColumns(RenameAll(m, rows), OutputNames(m))
  {
    forall a | a in OutputNames(m)
      ensures Source(m, a).Some?
    {
      SourceFirst(m, a);
    }
  }

  lemma {:induction false} FilterColumns(ks: Kernels, e: Expr, rows: seq<Row>, names: seq<string>)
    requires HasColumns(rows, names)
    ensures HasColumns(Filter(ks, e, rows), names)
  {
    if rows != [] {
      FilterColumns(ks, e, rows[..|rows| - 1], names);
      hide Selects;
    }
  }

  lemma SortedColumns(rows: seq<Row>, sorted: seq<Row>, names: seq<string>)
    requires HasColumns(rows, names) && multiset(sorted) == multiset(rows)
    ensures HasColumns(sorted, names)
  {
    forall i | 0 <= i < |sorted|
      ensures sorted[i].Keys == SetOf(names)
    {
      assert sorted[i] in multiset(rows);
    }
  }

  /** A plan's rows have exactly its columns. */
  lemma {:induction false} DenoteColumns(env: Env, q: Query, rows: seq<Row>)
    requires Resolved(q) && GoodEnv(env)
    ensures HasColumns(Denote(env, q, rows), Outputs(q))
    decreases q
  {
    if !q.Scan? {
      DenoteColumns(env, q.input, rows);
    }
    var input := if q.Scan? then [] else Denote(env, q.input, rows);
    match q
    case Scan(columns) =>
    case Where(_, cond) => FilterColumns(env.kernels, cond, input, Outputs(q));
    case Project(_, exprs) =>
      ProjectRenames(q);
      RenamedColumns(RenamingOf(exprs).value, input);
    case GroupBy(_, spec) => AggregateColumns(spec, env.types, input);
    case OrderBy(_, keys) => SortedColumns(input, (env.sorter)(keys, input), Outputs(q));
    case Limited(_, _, _) =>
  }

  lemma ProjectRenames(q: Query)
    requires q.Project? && Resolved(q)
    ensures RenamingOf(q.exprs).Some? && Outputs(q) == OutputNames(RenamingOf(q.exprs).value)
  {
    AllColumns(q.exprs);
    ProjectNames(q, RenamingOf(q.exprs).value);
  }

  // ---------------------------------------------------------------- the theorem

  lemma SortedAll(env: Env, keys: seq<SortExpr>, rows: seq<Row>)
    requires GoodEnv(env)
    ensures SortBatch(env, keys, rows, None) == if keys != [] then (env.sorter)(keys, rows) else rows
    ensures |(env.sorter)(keys, rows)| == |rows|
  {
    var sorted := (env.sorter)(keys, rows);
    assert |multiset(sorted)| == |sorted| && |multiset(rows)| == |rows|;
  }

  /** Fetching `limit + offset` rows is enough for the window. */
  lemma FetchedWindow(rows: seq<Row>, skip: nat, n: nat)
    requires |rows| <= USIZE_MAX
    ensures Window(FirstRows(rows, SaturatingAdd(n, skip)), skip, n) == Window(rows, skip, n)
  {
  }

  /** The coordinator sorts, cuts and aligns what the draft's body gives. */
  lemma ArrangeMeans(env: Env, p: PhysicalPlan, d: Draft, rows: seq<Row>, maxRows: nat)
    requires GoodEnv(env) && p.sort == d.sort
    requires |Ordered(env, d, rows)| <= USIZE_MAX && HasColumns(Ordered(env, d, rows), NamesOf(p.output))
    ensures Arrange(env, p, Shaped(env, d, rows), maxRows) ==
            Window(Ordered(env, d, rows), p.offset, if p.limit.Some? then p.limit.value else maxRows)
  {
    var shaped, all, names := Shaped(env, d, rows), Ordered(env, d, rows), NamesOf(p.output);
    var n := if p.limit.Some? then p.limit.value else maxRows;
    SortedAll(env, d.sort, shaped);
    assert SortBatch(env, p.sort, shaped, p.FetchRows()) ==
           if p.limit.Some? then FirstRows(all, SaturatingAdd(p.limit.value, p.offset)) else all;
    FetchedWindow(all, p.offset, n);
    WindowColumns(all, p.offset, n, names);
    AlignedSame(Window(all, p.offset, n), names);
    hide Window, Shaped, Ordered, RestrictAll, SortBatch, FirstRows, HasColumns;
  }

  lemma WindowColumns(rows: seq<Row>, skip: nat, n: nat, names: seq<string>)
    requires HasColumns(rows, names)
    ensures HasColumns(Window(rows, skip, n), names)
  {
  }

  /** A draft that differs from another only in its limits gives a plan that differs only in its limits. */
  lemma SamePlan(d: Draft, d0: Draft, p: PhysicalPlan)
    requires d.columns != [] && PlanOf(d, p.output) == Some(p)
    requires d == d0.(limit := d.limit, offset := d.offset, stage := d.stage)
    ensures var p0 := p.(limit := d0.limit, offset := d0.offset); PlanOf(d0, p0.output) == Some(p0)
  {
    assert Needed(d) == Needed(d0);
    hide Needed, Keep;
  }

  /** Plans that differ only in their limits give the same batch. */
  lemma SameBatch(env: Env, p: PhysicalPlan, p0: PhysicalPlan, rows: seq<Row>)
    requires p0 == p.(limit := p0.limit, offset := p0.offset)
    ensures Batch(env, p0, rows) == Batch(env, p, rows) && (LabelsRight(env.types, p0) <==> LabelsRight(env.types, p))
    ensures forall batch :: ApplyRename(p0, batch) == ApplyRename(p, batch)
  {
    assert BatchNames(p0) == BatchNames(p);
    hide Results, RestrictAll, Filter, ResultColumns, AllRight, ResultBatch, RenameAll, BatchNames;
  }

  lemma SamePlanBelow(d: Draft, d0: Draft, p: PhysicalPlan, env: Env, rows: seq<Row>)
    requires d.columns != [] && PlanOf(d, p.output) == Some(p)
    requires d == d0.(limit := d.limit, offset := d.offset, stage := d.stage)
    ensures var p0 := p.(limit := d0.limit, offset := d0.offset);
            && PlanOf(d0, p0.output) == Some(p0)
            && Batch(env, p0, rows) == Batch(env, p, rows)
            && (Batch(env, p, rows).Some? ==>
                  ApplyRename(p0, Batch(env, p, rows).value) == ApplyRename(p, Batch(env, p, rows).value))
            && DraftOutput(env.types, d) == DraftOutput(env.types, d0)
            && (LabelsRight(env.types, p0) <==> LabelsRight(env.types, p))
  {
    assert MiddleColumns(env.types, d) == MiddleColumns(env.types, d0);
    assert DraftOutput(env.types, d) == DraftOutput(env.types, d0);
    hide *;
    SamePlan(d, d0, p);
    SameBatch(env, p, p.(limit := d0.limit, offset := d0.offset), rows);
  }

  /** The rows of a plan's pipeline below its limits. */
  lemma PipelineMeans(env: Env, v: Validated, p: PhysicalPlan, rows: seq<Row>, maxRows: nat)
    requires Checked(env.types, v) && BuildOf(v) == Some(p) && GoodEnv(env)
    requires LabelsRight(env.types, p) && TableTyped(env.types, rows)
             && |Denote(env, Below(v.query), rows)| <= USIZE_MAX
    ensures !v.query.Limited? ==> p.limit == None && p.offset == 0
    ensures v.query.Limited? ==> p.limit == PipelineLimit(v.query) && p.offset == TotalSkip(v.query)
    ensures Coordinate(env, p, Batch(env, p, rows), maxRows) ==
            Some(Window(Denote(env, Below(v.query), rows), p.offset, if p.limit.Some? then p.limit.value else maxRows))
  {
    var q, d := v.query, DraftOf(v.query).value;
    var q0 := Below(q);
    BelowDraft(env.types, q, d);
    var d0 := DraftOf(q0).value;
    assert PlanOf(d, p.output) == Some(p) && d.columns != [] && p.limit == d.limit && p.offset == d.offset
           && p.sort == d.sort;
    assert p.output == OutputOf(env.types, q);
    var p0 := p.(limit := d0.limit, offset := d0.offset);
    hide *;
    SamePlanBelow(d, d0, p, env, rows);
    OutputFits(env.types, q, d);
    OutputNamed(env.types, q);
    CoreMeans(env, q0, d0, rows);
    PlanLowers(q0, d0, p0);
    IsSound(env, q0, d0, p0, rows);
    BatchShaped(env, q0, d0, p0, rows);
    DenoteColumns(env, q0, rows);
    ArrangeMeans(env, p, d0, rows, maxRows);
    CoordinateSpelt(env, p, Batch(env, p, rows), Shaped(env, d0, rows), maxRows);
  }

  lemma CoordinateSpelt(env: Env, p: PhysicalPlan, batch: Option<seq<Row>>, renamed: seq<Row>, maxRows: nat)
    requires batch.Some? && ApplyRename(p, batch.value) == Some(renamed)
    ensures Coordinate(env, p, batch, maxRows) == Some(Arrange(env, p, renamed, maxRows))
  {
  }

  lemma IsSound(env: Env, q: Query, d: Draft, p: PhysicalPlan, rows: seq<Row>)
    requires Fits(d, q) && Resolved(q) && Lowers(d, p) && p.output == DraftOutput(env.types, d)
    requires LabelsRight(env.types, p) && TableTyped(env.types, rows)
    requires forall i :: 0 <= i < |d.columns| ==> d.columns[i] in env.types
    ensures Sound(env, q, d, p, rows)
  {
  }

  /** The draft of a plan and that of the plan below its limits differ in the limits. */
  lemma BelowDraft(types: Types, q: Query, d: Draft)
    requires Resolved(q) && DraftOf(q) == Some(d)
    ensures Resolved(Below(q)) && !Below(q).Limited? && Outputs(q) == Outputs(Below(q)) && DraftOf(Below(q)).Some?
    ensures var d0 := DraftOf(Below(q)).value;
            && d0.limit == None && d == d0.(limit := d.limit, offset := d.offset, stage := d.stage)
    ensures d.limit == PipelineLimit(q) && d.offset == TotalSkip(q)
  {
    if q.Limited? {
      LimitDraft(q, d);
    } else {
      CoreStaged(q, d);
    }
  }

  /** Lowering preserves meaning. A limited plan's pipeline returns exactly the plan's rows, in order, when the
      tightest of its limits is what the limits amount to; a plan without limits, its rows up to the caller's row
      budget. A projection above an aggregation must be labelled right. */
  lemma LoweringPreservesMeaning(env: Env, v: Validated, p: PhysicalPlan, rows: seq<Row>, maxRows: nat)
    requires Checked(env.types, v) && BuildOf(v) == Some(p) && GoodEnv(env)
    requires LabelsRight(env.types, p) && TableTyped(env.types, rows)
             && |Denote(env, Below(v.query), rows)| <= USIZE_MAX
    requires LimitsAgree(v.query)
    ensures Coordinate(env, p, Batch(env, p, rows), maxRows) ==
            Some(if v.query.Limited? then Denote(env, v.query, rows)
                 else Window(Denote(env, v.query, rows), 0, maxRows))
  {
    assert !v.query.Limited? ==> Below(v.query) == v.query;
    hide *;
    PipelineMeans(env, v, p, rows, maxRows);
    if v.query.Limited? {
      LimitsMean(env, v.query, rows);
    }
  }

  /** Every offset on a limit above another limit is zero. */
  predicate OuterOffsetsZero(q: Query) {
    q.Limited? ==> (q.input.Limited? ==> q.skip == 0) && OuterOffsetsZero(q.input)
  }

  /** Then the tightest limit is what the limits amount to. */
  lemma {:induction false} ZeroOffsetsAgree(q: Query)
    requires OuterOffsetsZero(q)
    ensures TrueLimit(q) == PipelineLimit(q) && LimitsAgree(q)
    decreases q
  {
    if q.Limited? {
      ZeroOffsetsAgree(q.input);
    }
  }

  // ---------------------------------------------------------------- projections of aggregations

  /** The renamed batch of the given computed values. */
  function RenamedBatch(p: PhysicalPlan, spec: AggregateSpec, tuples: seq<seq<Value>>): Option<seq<Row>> {
    match ResultBatch(spec, p.output, tuples) case Some(batch) => ApplyRename(p, batch) case None => None
  }

  lemma PlanWellNamed(types: Types, v: Validated, p: PhysicalPlan)
    requires Checked(types, v) && BuildOf(v) == Some(p) && p.aggregate.Some? && p.rename.Some?
    ensures WellNamed(ResultColumns(p.aggregate.value, types), p.output, p.rename.value) && p.rename.value != []
  {
    var q, d := v.query, DraftOf(v.query).value;
    DraftFits(q, d);
    BelowDraft(types, q, d);
    OutputNamed(types, q);
    var d0 := DraftOf(Below(q)).value;
    assert Fits(d0, Below(q)) && d0.rename == p.rename && d0.aggregate == p.aggregate;
    hide ResultColumns, DraftOf, OutputOf;
  }

  /** Over these rows, the projection of the aggregation's batch is the projection of what it computes. */
  ghost predicate ProjectedRight(types: Types, p: PhysicalPlan, rows: seq<Row>)
    requires p.aggregate.Some? && p.rename.Some?
  {
    var spec := p.aggregate.value;
    var tuples := Results(spec, types, rows);
    RenamedBatch(p, spec, tuples) == Some(RenameAll(p.rename.value, NameAll(ResultNames(spec), tuples)))
  }

  /** Every tuple is projected to what it should be. */
  ghost predicate TuplesRight(computed: seq<OutputColumn>, output: seq<OutputColumn>, m: Renaming,
                              tuples: seq<seq<Value>>) {
    forall i :: 0 <= i < |tuples| ==> Relabel(output, m, tuples[i]) == Some(Intended(computed, m, tuples[i]))
  }

  /** For one or more tuples, that is the same as projecting the batch to what it should be. */
  lemma TuplesBatch(computed: seq<OutputColumn>, p: PhysicalPlan, spec: AggregateSpec, m: Renaming,
                    tuples: seq<seq<Value>>)
    requires p.aggregate.Some? && p.rename == Some(m) && NamesOf(computed) == ResultNames(spec)
    ensures |p.output| == |computed| && TuplesRight(computed, p.output, m, tuples) ==>
              RenamedBatch(p, spec, tuples) == Some(RenameAll(m, NameAll(ResultNames(spec), tuples)))
    ensures RenamedBatch(p, spec, tuples) == Some(RenameAll(m, NameAll(ResultNames(spec), tuples))) ==>
              TuplesRight(computed, p.output, m, tuples)
  {
    hide LabelAll, NameAll, RenameAll, Relabel, Intended, ResultNames;
    NothingRenamed(m);
    if |p.output| == |computed| && TuplesRight(computed, p.output, m, tuples) {
      RelabelledBatch(computed, p.output, m, tuples);
    } else if RenamedBatch(p, spec, tuples) == Some(RenameAll(m, NameAll(ResultNames(spec), tuples)))
              && tuples != [] {
      LabelledAt(p.output, tuples);
      RightRows(computed, p.output, m, tuples);
    }
  }

  lemma TableBatch(types: Types, p: PhysicalPlan, rows: seq<Row>)
    requires p.aggregate.Some? && p.rename.Some?
    ensures var spec := p.aggregate.value;
            && (|p.output| == |ResultNames(spec)| && ReadsRight(spec, types, p.output, p.rename.value, rows) ==>
                  ProjectedRight(types, p, rows))
            && (ProjectedRight(types, p, rows) ==> ReadsRight(spec, types, p.output, p.rename.value, rows))
  {
    var spec := p.aggregate.value;
    assert |ResultColumns(spec, types)| == |ResultNames(spec)|;
    hide Results, RenamedBatch, NameAll, RenameAll, Relabel, Intended, ResultNames, ResultColumns;
    TuplesBatch(ResultColumns(spec, types), p, spec, p.rename.value, Results(spec, types, rows));
  }

  /** A projection above an aggregation returns the right rows, for all rows that may reach the aggregation, exactly
      when it is labelled right. */
  lemma ProjectedBatchExact(types: Types, v: Validated, p: PhysicalPlan)
    requires Checked(types, v) && Meaningful(types, v.query)
    requires BuildOf(v) == Some(p) && p.aggregate.Some? && p.rename.Some?
    ensures (forall rows :: TableTyped(types, rows) ==> ProjectedRight(types, p, rows)) <==> LabelsRight(types, p)
  {
    var spec, m := p.aggregate.value, p.rename.value;
    PlanWellNamed(types, v, p);
    PlanSensible(types, v, p);
    hide ResultColumns, ReadsRight, ProjectedRight, AllRight, WellNamed, Sensible, RowsTyped, Checked;
    TablesExactly(spec, types, p.output, m);
    if AllRight(spec, types, p.output, m) {
      RightLength(spec, types, p.output, m);
      forall rows | TableTyped(types, rows)
        ensures ProjectedRight(types, p, rows)
      {
        TableBatch(types, p, rows);
      }
    } else if forall rows :: TableTyped(types, rows) ==> ProjectedRight(types, p, rows) {
      forall rows | RowsTyped(types, types.Keys, rows)
        ensures ReadsRight(spec, types, p.output, m, rows)
      {
        assert TableTyped(types, rows);
        TableBatch(types, p, rows);
      }
    }
  }

  lemma RightLength(spec: AggregateSpec, types: Types, output: seq<OutputColumn>, m: Renaming)
    requires AllRight(spec, types, output, m)
    ensures |output| == |ResultNames(spec)|
  {
    hide SourceRight, Accepts;
  }

  /** The aggregation of a validated plan is sensible. */
  lemma PlanSensible(types: Types, v: Validated, p: PhysicalPlan)
    requires Checked(types, v) && Meaningful(types, v.query) && BuildOf(v) == Some(p) && p.aggregate.Some?
    ensures Sensible(p.aggregate.value, types)
  {
    SpecApt(types, v.query, DraftOf(v.query).value);
    hide DraftOf, OutputOf, SpecColumns, Apt;
  }

  // A plan that is accepted and labelled wrong

  /** `select y, x from (select sum(a) as x, sum(b) as y)`. */
  function SwapPlan(): Query {
    Project(
      GroupBy(Scan(Some(["a", "b"])),
              AggregateSpec([], [AggregateExpr(SumOf, Some("a"), "x"), AggregateExpr(SumOf, Some("b"), "y")])),
      [(Column("y"), "y"), (Column("x"), "x")])
  }

  lemma TwoRenamed(e: seq<(Expr, string)>, x: string, y: string)
    requires e == [(Column(x), x), (Column(y), y)]
    ensures RenamingOf(e) == Some([(x, x), (y, y)])
  {
    var one := [(Column(x), x)];
    var none: Renaming := [];
    assert e[..|e| - 1] == one && one[..|one| - 1] == [];
    assert none + [(x, x)] == [(x, x)] && [(x, x)] + [(y, y)] == [(x, x), (y, y)];
    assert RenamingOf(one) == Some([(x, x)]);
  }

  lemma SwapNames()
    ensures var q := SwapPlan();
            && ResultNames(q.input.spec) == ["x", "y"] && Outputs(q) == ["y", "x"]
            && forall c :: c in SpecColumns(q.input.spec) ==> c in ["a", "b"]
  {
    assert Aliases(SwapPlan().input.spec) == ["x", "y"];
  }

  lemma SwapResolved()
    ensures Resolved(SwapPlan())
  {
    var q := SwapPlan();
    SwapNames();
    hide ResultNames, SpecColumns;
    assert Resolved(q.input.input);
    assert Outputs(q.input) == ["x", "y"] && "x" in ["x", "y"] && "y" in ["x", "y"];
    assert Resolved(q.input);
    assert q.exprs[0].0 == Column("y") && q.exprs[1].0 == Column("x");
  }

  lemma SwapDraft()
    ensures var q, m := SwapPlan(), [("y", "y"), ("x", "x")];
            DraftOf(q) ==
            Some(EMPTY_DRAFT.(columns := ["a", "b"], aggregate := Some(q.input.spec), rename := Some(m),
                              stage := AtRename))
  {
    var q := SwapPlan();
    TwoRenamed(q.exprs, "y", "x");
    hide RenamingOf;
    assert DraftOf(q.input.input) == Some(EMPTY_DRAFT.(columns := ["a", "b"]));
    assert DraftOf(q.input) ==
           Some(EMPTY_DRAFT.(columns := ["a", "b"], aggregate := Some(q.input.spec), stage := AtAggregate));
  }

  /** Two sums selected in the other order: the plan is resolved, the planner accepts it, and its columns are
      labelled wrong. */
  lemma SwapAccepted(types: Types)
    requires "a" in types && "b" in types
    ensures var v := Validated(SwapPlan(), OutputOf(types, SwapPlan()));
            Checked(types, v) && BuildOf(v).Some? && !LabelsRight(types, BuildOf(v).value)
  {
    var q := SwapPlan();
    assert Known(types, q.input.input) && Known(types, q.input) && Known(types, q);
    SwapNames();
    SwapResolved();
    SwapDraft();
    OutputNamed(types, q);
    hide RenamingOf, SpecColumns, OutputOf, ResultColumns, DraftOf, Resolved, Known, ResultNames, Outputs;
    SwapMislabelled(q.input.spec, types, OutputOf(types, q), [("y", "y"), ("x", "x")]);
  }

  lemma SwapMislabelled(spec: AggregateSpec, types: Types, output: seq<OutputColumn>, m: Renaming)
    requires spec == SwapPlan().input.spec && NamesOf(output) == ["y", "x"] && m == [("y", "y"), ("x", "x")]
    ensures !AllRight(spec, types, output, m)
  {
    SwapNames();
    assert QuantityAt(spec, types, 0) == Summed("a") && QuantityAt(spec, types, 1) == Summed("b");
    assert output[0].name == "y" && output[1].name == "x";
    hide ResultNames, ResultColumns, Preserves, Accepts, QuantityAt;
    assert m[0].0 == "y" && !SourceRight(spec, types, output, "y");
  }
}
