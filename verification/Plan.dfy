/** Logical plans, what they mean, and their lowering to the linear pipeline
    scan, filter, aggregate, rename, sort, limit
    (crates/adb-planner/src/ir.rs, physical.rs; crates/adb-exec/src/lib.rs, sort.rs). */
module Plans {
  import opened Values
  import opened Expressions
  import opened Renamings
  import opened Labels
  import opened Pruning
  import opened Aggregation

  datatype SortExpr = SortExpr(column: string, ascending: bool, nullsFirst: bool)

  /** A logical plan. A scan names its columns or takes the table's default ones; validation names them. */
  datatype Query =
    | Scan(columns: Option<seq<string>>)
    | Where(input: Query, cond: Expr)
    | Project(input: Query, exprs: seq<(Expr, string)>)
    | GroupBy(input: Query, spec: AggregateSpec)
    | OrderBy(input: Query, keys: seq<SortExpr>)
    | Limited(input: Query, limit: nat, skip: nat)
    | Join(left: Query, right: Query, condition: Expr)

  /** Library kernels: arithmetic and LIKE, and the lexicographic sort; and the table's column types. */
  datatype Env = Env(kernels: Kernels, types: Types, sorter: (seq<SortExpr>, seq<Row>) -> seq<Row>)

  /** Sorting rearranges rows. */
  ghost predicate GoodEnv(env: Env) {
    forall keys, rows :: multiset((env.sorter)(keys, rows)) == multiset(rows)
  }

  // ---------------------------------------------------------------- rows

  /** At most `n` rows, after skipping `skip`. */
  function Window(rows: seq<Row>, skip: nat, n: nat): seq<Row> {
    var from := Min(skip, |rows|);
    rows[from..from + Min(n, |rows| - from)]
  }

  // ---------------------------------------------------------------- what a plan means

  function Named(columns: Option<seq<string>>): seq<string> { if columns.Some? then columns.value else [] }

  /** The renaming a projection of plain columns is. */
  function RenamingOf(exprs: seq<(Expr, string)>): Option<Renaming> {
    if exprs == [] then Some([])
    else match RenamingOf(exprs[..|exprs| - 1])
      case Some(m) =>
        var (e, alias) := exprs[|exprs| - 1];
        if e.Column? then Some(m + [(e.name, alias)]) else None
      case None => None
  }

  /** The rows a plan returns over the rows of its table. */
  function Denote(env: Env, q: Query, rows: seq<Row>): seq<Row> {
    match q
    case Scan(columns) => RestrictAll(rows, Named(columns))
    case Where(input, cond) => Filter(env.kernels, cond, Denote(env, input, rows))
    case Project(input, exprs) =>
      (match RenamingOf(exprs) case Some(m) => RenameAll(m, Denote(env, input, rows)) case None => [])
    case GroupBy(input, spec) => AggregateRows(spec, env.types, Denote(env, input, rows))
    case OrderBy(input, keys) => (env.sorter)(keys, Denote(env, input, rows))
    case Limited(input, limit, skip) => Window(Denote(env, input, rows), skip, limit)
    case Join(_, _, _) => []
  }

  /** The columns of a plan's result. */
  function Outputs(q: Query): seq<string> {
    match q
    case Scan(columns) => Named(columns)
    case Where(input, _) => Outputs(input)
    case Project(_, exprs) => seq(|exprs|, i requires 0 <= i < |exprs| => exprs[i].1)
    case GroupBy(_, spec) => ResultNames(spec)
    case OrderBy(input, _) => Outputs(input)
    case Limited(input, _, _) => Outputs(input)
    case Join(_, _, _) => []
  }

  /** What validation guarantees about names: every reference resolves in the node's input, and no
      output name is used twice. */
  ghost predicate Resolved(q: Query) {
    NoRepeats(Outputs(q)) && Outputs(q) != [] &&
    match q
    case Scan(columns) => columns.Some?
    case Where(input, cond) => Resolved(input) && forall c :: c in Columns(cond) ==> c in Outputs(input)
    case Project(input, exprs) =>
      Resolved(input) && forall i :: 0 <= i < |exprs| ==> exprs[i].0.Column? && exprs[i].0.name in Outputs(input)
    case GroupBy(input, spec) => Resolved(input) && forall c :: c in SpecColumns(spec) ==> c in Outputs(input)
    case OrderBy(input, keys) =>
      Resolved(input) && keys != [] && forall i :: 0 <= i < |keys| ==> keys[i].column in Outputs(input)
    case Limited(input, _, _) => Resolved(input)
    case Join(_, _, _) => false
  }

  // ---------------------------------------------------------------- lowering

  datatype Stage = AtScan | AtFilter | AtAggregate | AtRename | AtSort | AtLimit

  function StageRank(s: Stage): nat {
    match s
    case AtScan => 0
    case AtFilter => 1
    case AtAggregate => 2
    case AtRename => 3
    case AtSort => 4
    case AtLimit => 5
  }

  function StageOf(q: Query): Stage {
    match q
    case Scan(_) => AtScan
    case Where(_, _) => AtFilter
    case Project(_, _) => AtRename
    case GroupBy(_, _) => AtAggregate
    case OrderBy(_, _) => AtSort
    case Limited(_, _, _) => AtLimit
    case Join(_, _, _) => AtScan
  }

  /** The pipeline as far as the nodes seen so far determine it. */
  datatype Draft = Draft(
    columns: seq<string>,
    filter: Option<Expr>,
    aggregate: Option<AggregateSpec>,
    rename: Option<Renaming>,
    sort: seq<SortExpr>,
    limit: Option<nat>,
    offset: nat,
    stage: Stage)

  const USIZE_MAX := 0xFFFF_FFFF_FFFF_FFFF

  function SaturatingAdd(a: nat, b: nat): nat { Min(a + b, USIZE_MAX) }

  /** Two orders the pipeline does not have but can express. */
  predicate Equivalent(d: Draft, node: Query) {
    d.stage == AtRename && ((node.Where? && d.aggregate == None) || node.GroupBy?)
  }

  function Conjoin(existing: Option<Expr>, p: Expr): Expr {
    if existing.Some? then Binary(And, existing.value, p) else p
  }

  function Later(a: Stage, b: Stage): Stage { if StageRank(a) < StageRank(b) then b else a }

  /** Takes in one more node; nothing when the plan does not fit the pipeline. */
  function AddNode(d: Draft, node: Query): Option<Draft> {
    if StageRank(StageOf(node)) < StageRank(d.stage) && !Equivalent(d, node) then None
    else
      var at := Later(d.stage, StageOf(node));
      match node
      case Scan(columns) => Some(d.(columns := Named(columns), stage := at))
      case Where(_, cond) =>
        (match (if d.rename.Some? then Rewrite(cond, Sources(d.rename.value)) else Some(cond))
         case Some(p) => Some(d.(filter := Some(Conjoin(d.filter, p)), stage := at))
         case None => None)
      case GroupBy(_, spec) =>
        if d.aggregate.Some? || (d.rename.Some? && !IsIdentity(d.rename.value)) then None
        else Some(d.(aggregate := Some(spec), rename := None, stage := at))
      case Project(_, exprs) =>
        (match RenamingOf(exprs)
         case Some(m) => Some(d.(rename := Some(if d.rename.Some? then Compose(d.rename.value, m) else m), stage := at))
         case None => None)
      case OrderBy(_, keys) => if d.sort != [] then None else Some(d.(sort := keys, stage := at))
      case Limited(_, n, skip) =>
        Some(d.(limit := Some(if d.limit.Some? then Min(d.limit.value, n) else n),
                offset := SaturatingAdd(d.offset, skip),
                stage := at))
      case Join(_, _, _) => None
  }

  const EMPTY_DRAFT := Draft([], None, None, None, [], None, 0, AtScan)

  /** The draft of a whole plan, bottom-up. */
  function DraftOf(q: Query): Option<Draft> {
    match q
    case Scan(_) => AddNode(EMPTY_DRAFT, q)
    case Join(_, _, _) => None
    case _ => (match DraftOf(q.input) case Some(d) => AddNode(d, q) case None => None)
  }

  /** The nodes of a plan, the scan first. */
  function Nodes(q: Query): seq<Query> {
    match q
    case Scan(_) => [q]
    case Join(_, _, _) => [q]
    case _ => Nodes(q.input) + [q]
  }

  /** Walks the nodes bottom-up. */
  method Draw(q: Query) returns (r: Option<Draft>)
    ensures r == DraftOf(q)
  {
    var nodes := Nodes(q);
    var d := EMPTY_DRAFT;
    FoldedIs(q);
    assert nodes[..|nodes|] == nodes && nodes[..0] == [] && Folded([]) == Some(d);
    hide *;
    for i := 0 to |nodes|
      invariant Folded(nodes[..i]) == Some(d)
    {
      FoldedNext(nodes, i);
      var next := AddNode(d, nodes[i]);
      if next == None {
        FoldedFails(nodes, i + 1);
        return None;
      }
      d := next.value;
    }
    r := Some(d);
  }

  function Folded(nodes: seq<Query>): Option<Draft> {
    if nodes == [] then Some(EMPTY_DRAFT)
    else match Folded(nodes[..|nodes| - 1]) case Some(d) => AddNode(d, nodes[|nodes| - 1]) case None => None
  }

  lemma FoldedNext(nodes: seq<Query>, i: nat)
    requires i < |nodes| && Folded(nodes[..i]).Some?
    ensures Folded(nodes[..i + 1]) == AddNode(Folded(nodes[..i]).value, nodes[i])
  {
    assert nodes[..i + 1][..i] == nodes[..i];
    hide AddNode;
  }

  lemma {:induction false} FoldedFails(nodes: seq<Query>, i: nat)
    requires i <= |nodes| && Folded(nodes[..i]) == None
    ensures Folded(nodes) == None
    decreases |nodes| - i
  {
    if i == |nodes| {
      assert nodes[..i] == nodes;
    } else {
      assert nodes[..i + 1][..i] == nodes[..i];
      FoldedFails(nodes, i + 1);
    }
  }

  lemma {:induction false} FoldedIs(q: Query)
    ensures Folded(Nodes(q)) == DraftOf(q)
  {
    match q
    case Scan(_) => FoldedOne(q);
    case Join(_, _, _) => FoldedOne(q);
    case _ =>
      FoldedIs(q.input);
      assert (Nodes(q.input) + [q])[..|Nodes(q.input)|] == Nodes(q.input);
      hide AddNode;
  }

  lemma FoldedOne(q: Query)
    ensures Folded([q]) == AddNode(EMPTY_DRAFT, q)
  {
    assert [q][..0] == [] && Folded([]) == Some(EMPTY_DRAFT);
    hide AddNode;
  }

  // ---------------------------------------------------------------- what a draft means

  function Filtered(env: Env, d: Draft, rows: seq<Row>): seq<Row> {
    var scanned := RestrictAll(rows, d.columns);
    if d.filter.Some? then Filter(env.kernels, d.filter.value, scanned) else scanned
  }

  function Grouped(env: Env, d: Draft, rows: seq<Row>): seq<Row> {
    if d.aggregate.Some? then AggregateRows(d.aggregate.value, env.types, Filtered(env, d, rows))
      else Filtered(env, d, rows)
  }

  function Shaped(env: Env, d: Draft, rows: seq<Row>): seq<Row> {
    if d.rename.Some? then RenameAll(d.rename.value, Grouped(env, d, rows)) else Grouped(env, d, rows)
  }

  function Ordered(env: Env, d: Draft, rows: seq<Row>): seq<Row> {
    if d.sort != [] then (env.sorter)(d.sort, Shaped(env, d, rows)) else Shaped(env, d, rows)
  }

  // ---------------------------------------------------------------- drafts of resolved plans

  /** The columns between aggregation and renaming. */
  function Middle(d: Draft): seq<string> {
    if d.aggregate.Some? then ResultNames(d.aggregate.value) else d.columns
  }

  /** Stages not reached yet are empty. */
  ghost predicate Staged(d: Draft) {
    && (StageRank(d.stage) < 2 ==> d.aggregate == None)
    && (StageRank(d.stage) < 3 ==> d.rename == None)
    && (StageRank(d.stage) < 4 ==> d.sort == [])
    && (StageRank(d.stage) < 5 ==> d.limit == None && d.offset == 0)
  }

  /** Every reference of a draft resolves where it is evaluated, and its columns are the plan's. */
  ghost predicate Fits(d: Draft, q: Query) {
    && Staged(d)
    && (d.filter.Some? ==> AllIn(Columns(d.filter.value), d.columns))
    && (d.aggregate.Some? ==>
          AllIn(SpecColumns(d.aggregate.value), d.columns) && NoRepeats(ResultNames(d.aggregate.value)))
    && (d.rename.Some? ==> SourcesWithin(d.rename.value, Middle(d)))
    && Outputs(q) == (if d.rename.Some? then OutputNames(d.rename.value) else Middle(d))
    && (forall i :: 0 <= i < |d.sort| ==> d.sort[i].column in Outputs(q))
    && d.columns != []
  }

  lemma ScanMeans(env: Env, q: Query, d: Draft, rows: seq<Row>)
    requires q.Scan? && Resolved(q) && AddNode(EMPTY_DRAFT, q) == Some(d)
    ensures Fits(d, q) && d.limit == None && Ordered(env, d, rows) == Denote(env, q, rows)
  {
    hide RestrictAll;
  }

  // Filters

  lemma RewriteWithin(p: Expr, m: Renaming, columns: seq<string>)
    requires Rewrite(p, Sources(m)).Some? && SourcesWithin(m, columns)
    ensures AllIn(Columns(Rewrite(p, Sources(m)).value), columns)
  {
    var ks := (_, _, _) => None;
    var row: Row := map[];
    forall c | c in Sources(m)
      ensures Cell(RenameRow(m, row), c) == Cell(row, Sources(m)[c]) && Sources(m)[c] in columns
    {
      RenamedCell(m, row, c);
      SourceFirst(m, c);
    }
    RewriteEval(ks, p, Sources(m), row, RenameRow(m, row));
  }

  lemma WhereFits(q: Query, d0: Draft, d: Draft)
    requires q.Where? && Resolved(q) && Fits(d0, q.input) && AddNode(d0, q) == Some(d)
    ensures Fits(d, q) && d0.limit == None && d.limit == None && d0.sort == [] && d0.aggregate == None
  {
    if d0.rename.Some? {
      RewriteWithin(q.cond, d0.rename.value, d0.columns);
      hide Rewrite;
    }
  }

  /** What one more filter does to the rows scanned so far. */
  lemma FilteredMore(env: Env, d: Draft, p: Expr, rows: seq<Row>)
    ensures Filtered(env, d.(filter := Some(Conjoin(d.filter, p))), rows)
            == Filter(env.kernels, p, Filtered(env, d, rows))
  {
    if d.filter.Some? {
      FilterConjoin(env.kernels, d.filter.value, p, RestrictAll(rows, d.columns));
    }
    hide Filter, RestrictAll;
  }

  lemma WhereMeans(env: Env, q: Query, d0: Draft, d: Draft, rows: seq<Row>)
    requires q.Where? && Resolved(q) && Fits(d0, q.input) && AddNode(d0, q) == Some(d)
    ensures Ordered(env, d, rows) == Filter(env.kernels, q.cond, Ordered(env, d0, rows))
  {
    WhereFits(q, d0, d);
    var base := Filtered(env, d0, rows);
    if d0.rename.Some? {
      var m := d0.rename.value;
      var p := Rewrite(q.cond, Sources(m)).value;
      assert d == d0.(filter := Some(Conjoin(d0.filter, p)), stage := d.stage);
      hide Filter, RestrictAll, Rewrite, RenameAll, Fits, Resolved, AddNode, Conjoin, AggregateRows;
      FilteredMore(env, d0, p, rows);
      FilterBelowRename(env.kernels, q.cond, m, base);
      assert Filtered(env, d, rows) == Filtered(env, d0.(filter := Some(Conjoin(d0.filter, p))), rows);
    } else {
      assert d == d0.(filter := Some(Conjoin(d0.filter, q.cond)), stage := d.stage);
      hide Filter, RestrictAll, Fits, Resolved, AddNode, Conjoin, AggregateRows;
      FilteredMore(env, d0, q.cond, rows);
      assert Filtered(env, d, rows) == Filtered(env, d0.(filter := Some(Conjoin(d0.filter, q.cond))), rows);
    }
  }

  // Projections

  lemma {:induction false} RenamingAt(exprs: seq<(Expr, string)>)
    requires RenamingOf(exprs).Some?
    ensures var m := RenamingOf(exprs).value;
            |m| == |exprs| && forall i :: 0 <= i < |m| ==> exprs[i].0 == Column(m[i].0) && m[i].1 == exprs[i].1
  {
    if exprs != [] {
      RenamingAt(exprs[..|exprs| - 1]);
    }
  }

  lemma ComposeWithin(existing: Renaming, m: Renaming, columns: seq<string>)
    requires SourcesWithin(existing, columns) && SourcesWithin(m, OutputNames(existing))
    ensures SourcesWithin(Compose(existing, m), columns)
  {
    forall i | 0 <= i < |m|
      ensures Compose(existing, m)[i].0 in columns
    {
      SourceFirst(existing, m[i].0);
    }
  }

  lemma ProjectNames(q: Query, m: Renaming)
    requires q.Project? && Resolved(q) && RenamingOf(q.exprs) == Some(m)
    ensures SourcesWithin(m, Outputs(q.input)) && Outputs(q) == OutputNames(m)
  {
    RenamingAt(q.exprs);
    hide RenamingOf;
    forall i | 0 <= i < |m|
      ensures m[i].0 in Outputs(q.input)
    {
      assert q.exprs[i].0.name in Outputs(q.input);
    }
    assert Outputs(q) == OutputNames(m);
  }

  lemma ProjectFits(q: Query, d0: Draft, d: Draft)
    requires q.Project? && Resolved(q) && Fits(d0, q.input) && AddNode(d0, q) == Some(d)
    ensures Fits(d, q) && d0.limit == None && d.limit == None && d0.sort == []
    ensures RenamingOf(q.exprs).Some? && SourcesWithin(RenamingOf(q.exprs).value, Outputs(q.input))
    ensures var m := RenamingOf(q.exprs).value;
            d == d0.(rename := Some(if d0.rename.Some? then Compose(d0.rename.value, m) else m), stage := d.stage)
  {
    var m := RenamingOf(q.exprs).value;
    ProjectNames(q, m);
    hide Resolved, RenamingOf, Outputs;
    if d0.rename.Some? {
      ComposeWithin(d0.rename.value, m, Middle(d0));
      assert OutputNames(Compose(d0.rename.value, m)) == OutputNames(m);
    }
  }

  lemma ProjectMeans(env: Env, q: Query, d0: Draft, d: Draft, rows: seq<Row>)
    requires q.Project? && Resolved(q) && Fits(d0, q.input) && AddNode(d0, q) == Some(d)
    ensures RenamingOf(q.exprs).Some?
    ensures Ordered(env, d, rows) == RenameAll(RenamingOf(q.exprs).value, Ordered(env, d0, rows))
  {
    ProjectFits(q, d0, d);
    var m := RenamingOf(q.exprs).value;
    var base := Grouped(env, d0, rows);
    assert Grouped(env, d, rows) == base;
    assert d0.rename.Some? ==> Outputs(q.input) == OutputNames(d0.rename.value);
    hide Grouped, Fits, Resolved, AddNode, RenameAll;
    if d0.rename.Some? {
      RenameAllCompose(d0.rename.value, m, base);
    }
  }

  // Aggregations

  lemma GroupFits(q: Query, d0: Draft, d: Draft)
    requires q.GroupBy? && Resolved(q) && Fits(d0, q.input) && AddNode(d0, q) == Some(d)
    ensures Fits(d, q) && d0.limit == None && d.limit == None && d0.sort == [] && d0.aggregate == None
    ensures d0.rename.Some? ==> IsIdentity(d0.rename.value)
    ensures d == d0.(aggregate := Some(q.spec), rename := None, stage := d.stage)
  {
    if d0.rename.Some? {
      var m := d0.rename.value;
      forall c | c in SpecColumns(q.spec)
        ensures c in d0.columns
      {
        var i :| 0 <= i < |m| && OutputNames(m)[i] == c;
        assert m[i].0 in Middle(d0);
      }
    }
  }

  lemma GroupMeans(env: Env, q: Query, d0: Draft, d: Draft, rows: seq<Row>)
    requires q.GroupBy? && Resolved(q) && Fits(d0, q.input) && AddNode(d0, q) == Some(d)
    ensures Ordered(env, d, rows) == AggregateRows(q.spec, env.types, Ordered(env, d0, rows))
  {
    GroupFits(q, d0, d);
    var base := Filtered(env, d0, rows);
    assert Filtered(env, d, rows) == base;
    assert d0.rename.Some? ==> AllIn(SpecColumns(q.spec), OutputNames(d0.rename.value));
    hide Filtered, Fits, Resolved, AddNode, AggregateRows;
    if d0.rename.Some? {
      var m := d0.rename.value;
      forall i, c | 0 <= i < |base| && c in SpecColumns(q.spec)
        ensures Cell(RenameAll(m, base)[i], c) == Cell(base[i], c)
      {
        IdentityCell(m, base[i], c);
      }
      AggregateDepends(q.spec, env.types, env.types, base, RenameAll(m, base));
    }
  }

  // Sorts

  lemma OrderMeans(env: Env, q: Query, d0: Draft, d: Draft, rows: seq<Row>)
    requires q.OrderBy? && Resolved(q) && Fits(d0, q.input) && AddNode(d0, q) == Some(d)
    ensures Fits(d, q) && d0.limit == None && d.limit == None
    ensures Ordered(env, d, rows) == (env.sorter)(q.keys, Ordered(env, d0, rows))
  {
    assert Shaped(env, d, rows) == Shaped(env, d0, rows) by {
      assert Filtered(env, d, rows) == Filtered(env, d0, rows);
      assert Grouped(env, d, rows) == Grouped(env, d0, rows);
    }
    hide Shaped;
  }

  /** A draft without limits means what its plan does. */
  lemma {:induction false} CoreMeans(env: Env, q: Query, d: Draft, rows: seq<Row>)
    requires Resolved(q) && DraftOf(q) == Some(d) && !q.Limited?
    ensures Fits(d, q) && d.limit == None && Ordered(env, d, rows) == Denote(env, q, rows)
    decreases q
  {
    if q.Scan? {
      ScanMeans(env, q, d, rows);
    } else {
      var d0 := DraftOf(q.input).value;
      NotLimited(q.input, d0, q, d);
      CoreMeans(env, q.input, d0, rows);
      hide Fits, Ordered, AddNode, Filter, RenameAll, AggregateRows;
      match q
      case Where(_, _) => WhereFits(q, d0, d); WhereMeans(env, q, d0, d, rows);
      case Project(_, _) => ProjectFits(q, d0, d); ProjectMeans(env, q, d0, d, rows);
      case GroupBy(_, _) => GroupFits(q, d0, d); GroupMeans(env, q, d0, d, rows);
      case OrderBy(_, _) => OrderMeans(env, q, d0, d, rows);
    }
  }

  /** Nothing but a limit fits above a limit. */
  lemma NotLimited(input: Query, d0: Draft, q: Query, d: Draft)
    requires DraftOf(input) == Some(d0) && AddNode(d0, q) == Some(d) && !q.Limited?
    ensures !input.Limited?
  {
  }

  // ---------------------------------------------------------------- the typed columns of a result

  /** The type of the first column of that name. */
  function TypeAt(output: seq<OutputColumn>, c: string): DataType {
    if output == [] then TUtf8 else if output[0].name == c then output[0].dataType else TypeAt(output[1..], c)
  }

  function TypesIn(output: seq<OutputColumn>): Types { map c | c in NamesOf(output) :: TypeAt(output, c) }

  function ScanOutput(types: Types, columns: seq<string>): (output: seq<OutputColumn>)
    ensures NamesOf(output) == columns
  {
    seq(|columns|, i requires 0 <= i < |columns| =>
      OutputColumn(columns[i], if columns[i] in types then types[columns[i]] else TUtf8))
  }

  function Projected(output: seq<OutputColumn>, m: Renaming): (r: seq<OutputColumn>)
    ensures NamesOf(r) == OutputNames(m)
  {
    seq(|m|, i requires 0 <= i < |m| => OutputColumn(m[i].1, TypeAt(output, m[i].0)))
  }

  /** The columns of a plan's result with their types, as validation computes them. */
  function OutputOf(types: Types, q: Query): seq<OutputColumn> {
    match q
    case Scan(columns) => ScanOutput(types, Named(columns))
    case Where(input, _) => OutputOf(types, input)
    case Project(input, exprs) =>
      (match RenamingOf(exprs) case Some(m) => Projected(OutputOf(types, input), m) case None => [])
    case GroupBy(input, spec) => ResultColumns(spec, TypesIn(OutputOf(types, input)))
    case OrderBy(input, _) => OutputOf(types, input)
    case Limited(input, _, _) => OutputOf(types, input)
    case Join(_, _, _) => []
  }

  lemma {:induction false} OutputNamed(types: Types, q: Query)
    requires Resolved(q)
    ensures NamesOf(OutputOf(types, q)) == Outputs(q)
  {
    match q
    case Scan(_) =>
    case Project(input, exprs) =>
      AllColumns(exprs);
      RenamingAt(exprs);
    case GroupBy(_, _) =>
    case Where(input, _) => OutputNamed(types, input);
    case OrderBy(input, _) => OutputNamed(types, input);
    case Limited(input, _, _) => OutputNamed(types, input);
    case Join(_, _, _) =>
  }

  lemma {:induction false} AllColumns(exprs: seq<(Expr, string)>)
    requires forall i :: 0 <= i < |exprs| ==> exprs[i].0.Column?
    ensures RenamingOf(exprs).Some?
  {
    if exprs != [] {
      AllColumns(exprs[..|exprs| - 1]);
    }
  }

  /** A validated plan: the plan, and the columns of its result. */
  datatype Validated = Validated(query: Query, schema: seq<OutputColumn>)

  /** What validation guarantees: references resolve, scans read the table's columns, and the schema is the
      plan's. */
  ghost predicate Checked(types: Types, v: Validated) {
    Resolved(v.query) && Known(types, v.query) && v.schema == OutputOf(types, v.query)
  }

  /** The scanned columns are the table's. */
  ghost predicate Known(types: Types, q: Query) {
    match q
    case Scan(columns) => forall i :: 0 <= i < |Named(columns)| ==> Named(columns)[i] in types
    case Join(_, _, _) => true
    case _ => Known(types, q.input)
  }

  function MiddleColumns(types: Types, d: Draft): seq<OutputColumn> {
    if d.aggregate.Some? then ResultColumns(d.aggregate.value, types) else ScanOutput(types, d.columns)
  }

  function DraftOutput(types: Types, d: Draft): seq<OutputColumn> {
    if d.rename.Some? then Projected(MiddleColumns(types, d), d.rename.value) else MiddleColumns(types, d)
  }

  lemma {:induction false} ProjectedType(output: seq<OutputColumn>, m: Renaming, c: string)
    requires c in OutputNames(m)
    ensures Source(m, c).Some? && TypeAt(Projected(output, m), c) == TypeAt(output, Source(m, c).value)
  {
    assert Projected(output, m)[1..] == Projected(output, m[1..]);
    if m[0].1 != c {
      assert OutputNames(m) == [m[0].1] + OutputNames(m[1..]);
      ProjectedType(output, m[1..], c);
    }
  }

  lemma ProjectedCompose(output: seq<OutputColumn>, existing: Renaming, m: Renaming)
    requires SourcesWithin(m, OutputNames(existing))
    ensures Projected(Projected(output, existing), m) == Projected(output, Compose(existing, m))
  {
    forall i | 0 <= i < |m|
      ensures Projected(Projected(output, existing), m)[i] == Projected(output, Compose(existing, m))[i]
    {
      ProjectedType(output, existing, m[i].0);
    }
  }

  lemma {:induction false} ScanType(types: Types, columns: seq<string>, c: string)
    requires c in columns && c in types
    ensures TypeAt(ScanOutput(types, columns), c) == types[c]
  {
    assert ScanOutput(types, columns)[1..] == ScanOutput(types, columns[1..]);
    if columns[0] != c {
      ScanType(types, columns[1..], c);
    }
  }

  /** Below an aggregation, the columns have the table's types. */
  lemma TypesBelow(types: Types, d: Draft, c: string)
    requires d.aggregate == None && (d.rename.Some? ==>
                                       IsIdentity(d.rename.value) && SourcesWithin(d.rename.value, d.columns))
    requires c in NamesOf(DraftOutput(types, d)) && forall i :: 0 <= i < |d.columns| ==> d.columns[i] in types
    ensures c in types && TypeAt(DraftOutput(types, d), c) == types[c]
  {
    if d.rename.Some? {
      var m := d.rename.value;
      ProjectedType(ScanOutput(types, d.columns), m, c);
      SourceFirst(m, c);
      var i :| 0 <= i < |m| && m[i] == (Source(m, c).value, c);
      ScanType(types, d.columns, c);
    } else {
      ScanType(types, d.columns, c);
    }
  }

  lemma ResultColumnsDepend(spec: AggregateSpec, types: Types, types': Types)
    requires SameTypes(SpecColumns(spec), types, types')
    ensures ResultColumns(spec, types) == ResultColumns(spec, types')
  {
    assert forall j :: 0 <= j < |spec.groupBy| ==> spec.groupBy[j] in SpecColumns(spec);
    forall j | 0 <= j < |spec.aggregates|
      ensures ArgumentType(types, spec.aggregates[j]) == ArgumentType(types', spec.aggregates[j])
    {
      assert spec.aggregates[j].column.Some? ==> spec.aggregates[j].column.value in SpecColumns(spec);
    }
    hide SpecColumns, OutputType, ArgumentType;
  }

  lemma GroupOutput(types: Types, q: Query, d0: Draft, d: Draft)
    requires q.GroupBy? && Resolved(q) && Fits(d0, q.input) && AddNode(d0, q) == Some(d)
    requires OutputOf(types, q.input) == DraftOutput(types, d0)
    requires forall i :: 0 <= i < |d0.columns| ==> d0.columns[i] in types
    ensures OutputOf(types, q) == DraftOutput(types, d)
  {
    GroupFits(q, d0, d);
    OutputNamed(types, q.input);
    var below := TypesIn(OutputOf(types, q.input));
    forall c | c in SpecColumns(q.spec)
      ensures c in below && c in types && below[c] == types[c]
    {
      TypesBelow(types, d0, c);
    }
    ResultColumnsDepend(q.spec, below, types);
    hide ResultColumns, SpecColumns;
  }

  /** The output columns of a plan are the draft's. */
  lemma {:induction false} OutputFits(types: Types, q: Query, d: Draft)
    requires Resolved(q) && DraftOf(q) == Some(d) && Known(types, q)
    ensures OutputOf(types, q) == DraftOutput(types, d) && forall i :: 0 <= i < |d.columns| ==> d.columns[i] in types
    decreases q
  {
    if !q.Scan? {
      var d0 := DraftOf(q.input).value;
      OutputFits(types, q.input, d0);
      if !q.Limited? {
        NotLimited(q.input, d0, q, d);
        CoreFits(q.input, d0);
      }
      hide ResultColumns, Fits, DraftOutput, Projected, OutputOf;
      match q
      case Project(_, exprs) => ProjectOutput(types, q, d0, d);
      case GroupBy(_, _) => GroupFits(q, d0, d); GroupOutput(types, q, d0, d);
      case _ => SameOutput(types, q, d0, d);
    }
  }

  /** What validation guarantees of every aggregation: it applies its functions to columns they are meant for. */
  predicate Meaningful(types: Types, q: Query) {
    match q
    case Scan(_) => true
    case Join(_, _, _) => true
    case GroupBy(input, spec) =>
      && Meaningful(types, input)
      && forall j :: 0 <= j < |spec.aggregates| ==> Apt(TypesIn(OutputOf(types, input)), spec.aggregates[j])
    case _ => Meaningful(types, q.input)
  }

  /** In the pipeline the functions meet the same types, those of the table. */
  lemma {:induction false} SpecApt(types: Types, q: Query, d: Draft)
    requires Resolved(q) && DraftOf(q) == Some(d) && Known(types, q) && Meaningful(types, q) && d.aggregate.Some?
    ensures (forall c :: c in SpecColumns(d.aggregate.value) ==> c in types)
            && forall j :: 0 <= j < |d.aggregate.value.aggregates| ==> Apt(types, d.aggregate.value.aggregates[j])
    decreases q
  {
    if !q.Scan? {
      var d0 := DraftOf(q.input).value;
      if !q.GroupBy? {
        SameAggregate(q, d0, d);
        SpecApt(types, q.input, d0);
      } else {
        NotLimited(q.input, d0, q, d);
        CoreFits(q.input, d0);
        OutputFits(types, q.input, d0);
        GroupApt(types, q, d0, d);
      }
    }
  }

  lemma SameAggregate(q: Query, d0: Draft, d: Draft)
    requires AddNode(d0, q) == Some(d) && !q.GroupBy? && !q.Scan?
    ensures d.aggregate == d0.aggregate
  {
    hide RenamingOf, Conjoin, Rewrite;
  }

  lemma GroupApt(types: Types, q: Query, d0: Draft, d: Draft)
    requires q.GroupBy? && Resolved(q) && Fits(d0, q.input) && AddNode(d0, q) == Some(d) && Meaningful(types, q)
    requires OutputOf(types, q.input) == DraftOutput(types, d0)
    requires forall i :: 0 <= i < |d0.columns| ==> d0.columns[i] in types
    ensures d.aggregate == Some(q.spec) && (forall c :: c in SpecColumns(q.spec) ==> c in types)
            && forall j :: 0 <= j < |q.spec.aggregates| ==> Apt(types, q.spec.aggregates[j])
  {
    GroupFits(q, d0, d);
    OutputNamed(types, q.input);
    var below := TypesIn(OutputOf(types, q.input));
    forall c | c in SpecColumns(q.spec)
      ensures c in below && c in types && below[c] == types[c]
    {
      TypesBelow(types, d0, c);
    }
    assert forall j :: 0 <= j < |q.spec.aggregates| && q.spec.aggregates[j].column.Some? ==>
             q.spec.aggregates[j].column.value in SpecColumns(q.spec);
    hide SpecColumns;
  }

  lemma CoreFits(q: Query, d: Draft)
    requires Resolved(q) && DraftOf(q) == Some(d) && !q.Limited?
    ensures Fits(d, q) && d.limit == None
  {
    var env := Env((_, _, _) => None, map[], (_, rows) => rows);
    hide Fits, Denote, Ordered;
    CoreMeans(env, q, d, []);
  }

  lemma ProjectOutput(types: Types, q: Query, d0: Draft, d: Draft)
    requires q.Project? && Resolved(q) && Fits(d0, q.input) && AddNode(d0, q) == Some(d)
    requires OutputOf(types, q.input) == DraftOutput(types, d0)
    ensures OutputOf(types, q) == DraftOutput(types, d) && d.columns == d0.columns
  {
    ProjectFits(q, d0, d);
    var m := RenamingOf(q.exprs).value;
    OutputNamed(types, q.input);
    assert d0.rename.Some? ==> Outputs(q.input) == OutputNames(d0.rename.value);
    assert MiddleColumns(types, d) == MiddleColumns(types, d0);
    hide Fits, Resolved, AddNode, Projected, MiddleColumns;
    if d0.rename.Some? {
      ProjectedCompose(MiddleColumns(types, d0), d0.rename.value, m);
    }
  }

  lemma SameOutput(types: Types, q: Query, d0: Draft, d: Draft)
    requires q.Where? || q.OrderBy? || q.Limited?
    requires AddNode(d0, q) == Some(d) && OutputOf(types, q.input) == DraftOutput(types, d0)
    ensures OutputOf(types, q) == DraftOutput(types, d) && d.columns == d0.columns
  {
    hide Projected, ResultColumns, Rewrite;
  }

  // ---------------------------------------------------------------- limits

  /** The plan below the limits on top of it. */
  function Below(q: Query): Query { if q.Limited? then Below(q.input) else q }

  /** How many rows nested limits let through: each applies to what the one below it leaves. */
  function TrueLimit(q: Query): Option<nat> {
    if !q.Limited? then None
    else match TrueLimit(q.input)
      case None => Some(q.limit)
      case Some(n) => Some(Min(if q.skip < n then n - q.skip else 0, q.limit))
  }

  /** How many rows the pipeline lets through: the tightest limit. */
  function PipelineLimit(q: Query): Option<nat> {
    if !q.Limited? then None
    else match PipelineLimit(q.input) case None => Some(q.limit) case Some(n) => Some(Min(n, q.limit))
  }

  /** The rows nested limits let through of what is below them. */
  function Windows(q: Query, base: seq<Row>): seq<Row> {
    if q.Limited? then Window(Windows(q.input, base), q.skip, q.limit) else base
  }

  /** How many rows of an addressable result a window can show. */
  function Reach(skip: nat, n: nat): nat { Min(n, if skip < USIZE_MAX then USIZE_MAX - skip else 0) }

  /** The limits amount to the tightest of them. */
  predicate LimitsAgree(q: Query) {
    q.Limited? ==> Reach(TotalSkip(q), TrueLimit(q).value) == Reach(TotalSkip(q), PipelineLimit(q).value)
  }

  function TotalSkip(q: Query): nat { if q.Limited? then SaturatingAdd(TotalSkip(q.input), q.skip) else 0 }

  lemma WindowTwice(rows: seq<Row>, o1: nat, n1: nat, o2: nat, n2: nat)
    ensures Window(Window(rows, o1, n1), o2, n2) == Window(rows, o1 + o2, Min(if o2 < n1 then n1 - o2 else 0, n2))
  {
    var n := Min(if o2 < n1 then n1 - o2 else 0, n2);
    WindowAt(rows, o1, n1);
    WindowAt(Window(rows, o1, n1), o2, n2);
    WindowAt(rows, o1 + o2, n);
    hide Window;
    assert |Window(Window(rows, o1, n1), o2, n2)| == |Window(rows, o1 + o2, n)|;
  }

  lemma WindowAt(rows: seq<Row>, skip: nat, n: nat)
    ensures |Window(rows, skip, n)| == Min(n, if skip < |rows| then |rows| - skip else 0)
    ensures forall i :: 0 <= i < |Window(rows, skip, n)| ==> Window(rows, skip, n)[i] == rows[skip + i]
  {
  }

  lemma WindowSize(rows: seq<Row>, skip: nat, n: nat)
    requires skip + n <= |rows|
    ensures |Window(rows, skip, n)| == n
  {
  }

  lemma WindowSaturates(rows: seq<Row>, skip: nat, n: nat)
    requires |rows| <= USIZE_MAX
    ensures Window(rows, Min(skip, USIZE_MAX), n) == Window(rows, skip, n)
  {
  }

  lemma StackedWindow(rows: seq<Row>, o1: nat, n1: nat, o2: nat, n2: nat)
    requires |rows| <= USIZE_MAX
    ensures Window(Window(rows, o1, n1), o2, n2) == Window(rows, SaturatingAdd(o1, o2),
                                                           Min(if o2 < n1 then n1 - o2 else 0, n2))
  {
    hide Window;
    WindowTwice(rows, o1, n1, o2, n2);
    WindowSaturates(rows, o1 + o2, Min(if o2 < n1 then n1 - o2 else 0, n2));
  }

  /** Nested limits mean one window over what is below them. */
  lemma {:induction false} WindowsAreOne(q: Query, base: seq<Row>)
    requires q.Limited? && |base| <= USIZE_MAX
    ensures Windows(q, base) == Window(base, TotalSkip(q), TrueLimit(q).value)
    decreases q
  {
    if q.input.Limited? {
      WindowsAreOne(q.input, base);
      StackedWindow(base, TotalSkip(q.input), TrueLimit(q.input).value, q.skip, q.limit);
    } else {
      assert Windows(q, base) == Window(base, q.skip, q.limit);
      WindowSaturates(base, q.skip, q.limit);
    }
    hide Window, Min;
  }

  lemma {:induction false} DenoteWindows(env: Env, q: Query, rows: seq<Row>)
    ensures Denote(env, q, rows) == Windows(q, Denote(env, Below(q), rows))
    decreases q
  {
    if q.Limited? {
      DenoteWindows(env, q.input, rows);
    }
    hide Window;
  }

  lemma LimitsMean(env: Env, q: Query, rows: seq<Row>)
    requires q.Limited? && |Denote(env, Below(q), rows)| <= USIZE_MAX
    ensures Denote(env, q, rows) == Window(Denote(env, Below(q), rows), TotalSkip(q), TrueLimit(q).value)
    ensures LimitsAgree(q) ==>
              Denote(env, q, rows) == Window(Denote(env, Below(q), rows), TotalSkip(q), PipelineLimit(q).value)
  {
    hide *;
    var base := Denote(env, Below(q), rows);
    DenoteWindows(env, q, rows);
    WindowsAreOne(q, base);
    AgreeReach(q);
    SameReach(base, TotalSkip(q), TrueLimit(q).value, PipelineLimit(q).value);
  }

  lemma AgreeReach(q: Query)
    requires q.Limited?
    ensures TrueLimit(q).Some? && PipelineLimit(q).Some? && TotalSkip(q) <= USIZE_MAX
    ensures LimitsAgree(q) <==> Reach(TotalSkip(q), TrueLimit(q).value) == Reach(TotalSkip(q), PipelineLimit(q).value)
  {
  }

  /** Windows show the same rows of everything addressable exactly when they reach equally far. */
  lemma SameReach(base: seq<Row>, skip: nat, n: nat, m: nat)
    requires |base| <= USIZE_MAX
    ensures Reach(skip, n) == Reach(skip, m) ==> Window(base, skip, n) == Window(base, skip, m)
  {
  }

  lemma OtherReach(skip: nat, n: nat, m: nat)
    requires Reach(skip, n) != Reach(skip, m)
    ensures var row: Row := map[];
            var base := seq(USIZE_MAX, _ => row);
            Window(base, skip, n) != Window(base, skip, m)
  {
    var row: Row := map[];
    var base := seq(USIZE_MAX, _ => row);
    assert |Window(base, skip, n)| == Reach(skip, n) && |Window(base, skip, m)| == Reach(skip, m);
  }

  /** However many limits are nested, the tightest of them with the offsets added up shows what they show, of
      every addressable result, exactly when the limits agree. */
  lemma LimitsExact(q: Query)
    requires q.Limited?
    ensures (forall base :: |base| <= USIZE_MAX ==>
               Windows(q, base) == Window(base, TotalSkip(q), PipelineLimit(q).value)) <==>
            LimitsAgree(q)
  {
    var skip, n, m := TotalSkip(q), TrueLimit(q).value, PipelineLimit(q).value;
    AgreeReach(q);
    hide Windows, Window, Reach, LimitsAgree, TrueLimit, PipelineLimit, TotalSkip;
    if LimitsAgree(q) {
      forall base: seq<Row> | |base| <= USIZE_MAX
        ensures Windows(q, base) == Window(base, skip, m)
      {
        WindowsAreOne(q, base);
        SameReach(base, skip, n, m);
      }
    } else {
      var row: Row := map[];
      var base := seq(USIZE_MAX, _ => row);
      OtherReach(skip, n, m);
      WindowsAreOne(q, base);
      assert |base| <= USIZE_MAX && Windows(q, base) != Window(base, skip, m);
    }
  }

  /** The draft of a limited plan is the draft below the limits with one limit and one offset. */
  lemma {:induction false} LimitDraft(q: Query, d: Draft)
    requires q.Limited? && DraftOf(q) == Some(d) && Resolved(q)
    ensures DraftOf(Below(q)).Some? && Resolved(Below(q)) && !Below(q).Limited? && Outputs(q) == Outputs(Below(q))
    ensures var d0 := DraftOf(Below(q)).value;
            d0.limit == None && d == d0.(limit := PipelineLimit(q), offset := TotalSkip(q), stage := AtLimit)
    decreases q
  {
    var d0 := DraftOf(q.input).value;
    if q.input.Limited? {
      LimitDraft(q.input, d0);
    } else {
      CoreStaged(q.input, d0);
    }
  }

  lemma CoreStaged(q: Query, d: Draft)
    requires Resolved(q) && DraftOf(q) == Some(d) && !q.Limited?
    ensures d.limit == None && d.offset == 0 && StageRank(d.stage) < 5
  {
    var env := Env((_, _, _) => None, map[], (_, rows) => rows);
    LimitStage(q, d);
    assert StageRank(d.stage) < 5;
    hide Ordered, Denote, DraftOf, Resolved, Outputs, AllIn, SourcesWithin, Middle, Aliases;
    CoreMeans(env, q, d, []);
  }

  /** The limit stage is reached by limits only. */
  lemma {:induction false} LimitStage(q: Query, d: Draft)
    requires DraftOf(q) == Some(d) && !q.Limited?
    ensures d.stage != AtLimit
  {
  }

  /** Two limits in a row mean what the pipeline makes of them exactly when the outer one skips
      nothing, ends within the inner one, or one of them lets nothing through. */
  lemma NestedLimitsExact(n1: nat, o1: nat, n2: nat, o2: nat)
    ensures (forall rows :: Window(Window(rows, o1, n1), o2, n2) == Window(rows, o1 + o2, Min(n1, n2))) <==>
            o2 == 0 || o2 + n2 <= n1 || n1 == 0 || n2 == 0
  {
    var seen := Min(if o2 < n1 then n1 - o2 else 0, n2);
    if o2 == 0 || o2 + n2 <= n1 || n1 == 0 || n2 == 0 {
      forall rows
        ensures Window(Window(rows, o1, n1), o2, n2) == Window(rows, o1 + o2, Min(n1, n2))
      {
        WindowTwice(rows, o1, n1, o2, n2);
      }
    } else {
      var row: Row := map[];
      var rows := seq(o1 + o2 + n1, _ => row);
      WindowTwice(rows, o1, n1, o2, n2);
      WindowSize(rows, o1 + o2, seen);
      WindowSize(rows, o1 + o2, Min(n1, n2));
      hide Window;
    }
  }
}
