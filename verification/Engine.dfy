/** A query as the engine runs it: validated, lowered and executed over the partitions' snapshots
    (crates/adb-engine/src/engine.rs: run_plan). */
module Engine {
  import opened Values
  import opened Pruning
  import opened Snapshots
  import opened Plans
  import opened Physical
  import opened Execution
  import opened Renamings
  import opened Pipelines
  import opened Requests
  import opened RequestedPlans
  import Validation

  /** The plan that validation makes of a query, with its schema. */
  function Accepted(t: Validation.Table, q: Query): Option<Validated> {
    match Validation.Validate(t, q) case Some(c) => Some(Validated(c.query, c.schema)) case None => None
  }

  /** What execution needs of the data, for the plan a query becomes: accurate metadata and statistics, sums that
      may be computed in parts, and row counts that fit a machine word. */
  ghost predicate DataFits(env: Env, fs: Filters, schema: seq<ColumnSchema>, v: Validated, snapshots: seq<Snapshot>) {
    && |Denote(env, Below(v.query), AllVisible(snapshots))| <= USIZE_MAX
    && (BuildOf(v).Some? ==>
          Runnable(env, fs, BuildOf(v).value, snapshots) && AllPrunable(fs, schema, BuildOf(v).value, snapshots))
  }

  lemma SameColumns(d: Draft, node: Query)
    requires AddNode(d, node).Some? && !node.Scan?
    ensures AddNode(d, node).value.columns == d.columns
  {
    hide RenamingOf, Conjoin, Equivalent;
  }

  /** A plan over a default projection that is empty has nothing to read. */
  lemma {:induction false} NothingToRead(t: Validation.Table, q: Query)
    requires Validation.Walk(t, q).Some? && !Validation.NamesColumns(t, q)
    ensures var d := DraftOf(Validation.Walk(t, q).value.query); d.Some? ==> d.value.columns == []
    decreases q
  {
    var v := Validation.Walk(t, q).value.query;
    if !q.Scan? {
      NothingToRead(t, q.input);
      assert v.input == Validation.Walk(t, q.input).value.query && !v.Scan? && !v.Join?;
      hide AddNode, Validation.Walk;
      if DraftOf(v).Some? {
        SameColumns(DraftOf(v.input).value, v);
      }
    }
  }

  /** The planner rejects such a plan. */
  lemma BuiltNamesColumns(t: Validation.Table, q: Query)
    requires Accepted(t, q).Some? && BuildOf(Accepted(t, q).value).Some?
    ensures Validation.NamesColumns(t, q)
  {
    if !Validation.NamesColumns(t, q) {
      NothingToRead(t, q);
    }
  }

  // ---------------------------------------------------------------- which queries run

  /** The plans have the same nodes, up to conditions and limits. */
  ghost predicate SameShape(a: Query, b: Query) {
    match a
    case Scan(_) => b == a
    case Where(input, _) => b.Where? && SameShape(input, b.input)
    case Project(input, exprs) => b.Project? && SameShape(input, b.input) && b.exprs == exprs
    case GroupBy(input, spec) => b.GroupBy? && SameShape(input, b.input) && b.spec == spec
    case OrderBy(input, keys) => b.OrderBy? && SameShape(input, b.input) && b.keys == keys
    case Limited(input, _, _) => b.Limited? && SameShape(input, b.input)
    case Join(_, _, _) => b == a
  }

  lemma {:induction false} FollowsShape(t: Validation.Table, q: Query, v: Query)
    requires Follows(t, q, v)
    ensures SameShape(v, Spelled(t, q))
    decreases q
  {
    if !q.Scan? {
      FollowsShape(t, q.input, v.input);
      hide CondFollows, SchemaOf;
    }
  }

  /** Nodes of one kind. */
  predicate SameNode(a: Query, b: Query) {
    match a
    case Scan(_) => b.Scan?
    case Where(_, _) => b.Where?
    case Project(_, _) => b.Project?
    case GroupBy(_, _) => b.GroupBy?
    case OrderBy(_, _) => b.OrderBy?
    case Limited(_, _, _) => b.Limited?
    case Join(_, _, _) => b.Join?
  }

  lemma {:induction false} ShapeNodes(a: Query, b: Query)
    requires SameShape(a, b)
    ensures SameNode(a, b) && |Nodes(a)| == |Nodes(b)|
    ensures forall i :: 0 <= i < |Nodes(a)| ==> SameNode(Nodes(a)[i], Nodes(b)[i])
    ensures Outputs(a) == Outputs(b)
    decreases a
  {
    if !a.Scan? && !a.Join? {
      ShapeNodes(a.input, b.input);
    }
  }

  lemma {:induction false} ShapeOrigin(a: Query, b: Query, c: string)
    requires SameShape(a, b)
    ensures Origin(a, c) == Origin(b, c)
    decreases a
  {
    if a.Project? {
      var m := RenamingOf(a.exprs);
      if m.Some? {
        ShapeOrigin(a.input, b.input, if Source(m.value, c).Some? then Source(m.value, c).value else c);
      }
    } else if !a.Scan? && !a.Join? {
      ShapeOrigin(a.input, b.input, c);
    }
  }

  lemma ShapeRenames(a: Query, b: Query)
    requires SameShape(a, b)
    ensures RenamesNothing(a) <==> RenamesNothing(b)
  {
    ShapeNodes(a, b);
    forall c
      ensures Origin(a, c) == Origin(b, c)
    {
      ShapeOrigin(a, b, c);
    }
    hide Origin, Outputs, SameShape, Nodes;
  }

  lemma ShapeCaps(a: seq<Query>, b: seq<Query>, node: Query, node': Query)
    requires |a| == |b| && SameNode(node, node') && forall i :: 0 <= i < |a| ==> SameNode(a[i], b[i])
    ensures MayCap(a, node) <==> MayCap(b, node')
  {
    forall i | 0 <= i < |a|
      ensures MayFollow(a[i], node) <==> MayFollow(b[i], node')
    {
    }
    hide MayFollow, SameNode;
  }

  /** Plans of one shape fit the pipeline alike. */
  lemma {:induction false} ShapeFits(a: Query, b: Query)
    requires SameShape(a, b)
    ensures FitsPipeline(a) <==> FitsPipeline(b)
    decreases a
  {
    if !a.Scan? && !a.Join? {
      ShapeFits(a.input, b.input);
      ShapeNodes(a, b);
      ShapeNodes(a.input, b.input);
      ShapeRenames(a.input, b.input);
      hide FitsPipeline, Nodes, MayCap, RenamesNothing, Outputs;
      FitsNode(a);
      FitsNode(b);
      ShapeCaps(Nodes(a.input), Nodes(b.input), a, b);
    }
  }

  /** The query makes sense, has a column, names what it scans and fits the pipeline. */
  ghost predicate CanRun(t: Validation.Table, q: Query) {
    && Sensible(t, q) && SchemaOf(t, q) != [] && Validation.NamesColumns(t, q) && FitsPipeline(Spelled(t, q))
  }

  /** Validation and the planner accept exactly the queries that can run. */
  lemma AcceptedExactly(t: Validation.Table, q: Query)
    ensures CanRun(t, q) <==> Accepted(t, q).Some? && BuildOf(Accepted(t, q).value).Some?
    ensures Accepted(t, q).Some? ==> Follows(t, q, Accepted(t, q).value.query)
  {
    ValidateExactly(t, q);
    if Accepted(t, q).Some? {
      var v := Accepted(t, q).value;
      if BuildOf(v).Some? {
        BuiltNamesColumns(t, q);
      }
      if Validation.NamesColumns(t, q) {
        Validation.ValidateSound(t, q);
        BuiltExactly(Validation.TypesOf(t.columns), v);
        FollowsShape(t, q, v.query);
        ShapeFits(v.query, Spelled(t, q));
      }
    }
    hide Validation.Validate, Validation.NamesColumns, Checked, BuildOf, FitsPipeline, Follows, Sensible, SchemaOf;
  }

  /** The plan that is made of the query is trustworthy. */
  predicate Trusted(schema: seq<ColumnSchema>, t: Validation.Table, q: Query) {
    match Accepted(t, q)
    case Some(v) =>
      BuildOf(v).Some? && Trustworthy(schema, Validation.TypesOf(t.columns), v.query, BuildOf(v).value, t.maxRows)
    case None => false
  }

  /** The meaning of the plan a query asks for, and of the query itself if it is plain. */
  lemma AskedMeaning(env: Env, t: Validation.Table, q: Query, v: Query, rows: seq<Row>)
    requires Follows(t, q, v)
    ensures forall v' :: Follows(t, q, v') ==> Meaning(env, v', rows, t.maxRows) == Meaning(env, v, rows, t.maxRows)
    ensures Plain(t, q) ==> Meaning(env, Spelled(t, q), rows, t.maxRows) == Meaning(env, v, rows, t.maxRows)
  {
    forall v' | Follows(t, q, v')
      ensures v' == v
    {
      OnePlan(t, q, v, v');
    }
    if Plain(t, q) {
      DenoteFollows(env, t, q, v, rows);
      FollowsShape(t, q, v);
    }
    hide Denote, Follows, Plain;
  }

  /** Runs any query at all over a table. A query that can run is answered with what the plan it asks for means, and
      a plain one with the query's own rows, if its plan is trustworthy, which does not depend on the data. */
  method RunPlan(env: Env, fs: Filters, ghost schema: seq<ColumnSchema>, t: Validation.Table, q: Query,
                 snapshots: seq<Snapshot>)
    returns (r: Reply)
    requires env.types == Validation.TypesOf(t.columns) && GoodEnv(env)
    requires TableTyped(env.types, AllVisible(snapshots))
    requires Accepted(t, q).Some? ==> DataFits(env, fs, schema, Accepted(t, q).value, snapshots)
    ensures r == Rejected <==> !CanRun(t, q)
    ensures CanRun(t, q) && Trusted(schema, t, q) ==>
              && (forall v :: Follows(t, q, v) ==> r == Answered(Meaning(env, v, AllVisible(snapshots), t.maxRows)))
              && (Plain(t, q) ==> r == Answered(Meaning(env, Spelled(t, q), AllVisible(snapshots), t.maxRows)))
  {
    AcceptedExactly(t, q);
    var checked := Validation.Validate(t, q);
    if checked == None {
      return Rejected;
    }
    var v := Validated(checked.value.query, checked.value.schema);
    assert Accepted(t, q) == Some(v);
    if BuildOf(v) == None {
      return Rejected;
    }
    BuiltNamesColumns(t, q);
    Validation.ValidateSound(t, q);
    AskedMeaning(env, t, q, v.query, AllVisible(snapshots));
    hide Validation.Validate, Accepted, Checked, Runnable, BuildOf, Denote, AllVisible, TableTyped, GoodEnv,
         Trustworthy, Meaning, CanRun, Follows, Plain;
    r := Answer(env, fs, schema, v, snapshots, t.maxRows);
  }
}
