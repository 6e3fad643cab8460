/** Which plans fit the pipeline, node by node, and that the planner accepts exactly those
    (crates/adb-planner/src/physical.rs: build). */
module Pipelines {
  import opened Values
  import opened Expressions
  import opened Renamings
  import opened Labels
  import opened Pruning
  import opened AggStates
  import opened Aggregation
  import opened Plans
  import opened Physical

  // ---------------------------------------------------------------- the condition

  /** Whether a node may stand somewhere above another: limits above everything, sorts and projections below limits
      and the one sort, and filters and the one aggregation above scans, filters and projections only. */
  predicate MayFollow(below: Query, node: Query) {
    match node
    case Limited(_, _, _) => true
    case OrderBy(_, _) => !below.OrderBy? && !below.Limited?
    case Project(_, _) => !below.OrderBy? && !below.Limited?
    case GroupBy(_, _) => below.Scan? || below.Where? || below.Project?
    case Where(_, _) => below.Scan? || below.Where? || below.Project?
    case Scan(_) => false
    case Join(_, _, _) => false
  }

  /** The name that a column has below the projections. */
  function Origin(q: Query, c: string): string {
    match q
    case Scan(_) => c
    case Join(_, _, _) => c
    case Project(input, exprs) =>
      (match RenamingOf(exprs)
       case Some(m) => Origin(input, if Source(m, c).Some? then Source(m, c).value else c)
       case None => c)
    case _ => Origin(q.input, c)
  }

  /** The projections, taken together, give every column its own name back. */
  predicate RenamesNothing(q: Query) { forall i :: 0 <= i < |Outputs(q)| ==> Origin(q, Outputs(q)[i]) == Outputs(q)[i] }

  ghost predicate MayCap(nodes: seq<Query>, node: Query) { forall i :: 0 <= i < |nodes| ==> MayFollow(nodes[i], node) }

  /** The plan fits the pipeline: every node may follow those below it, and below the aggregation nothing is renamed. */
  ghost predicate FitsPipeline(q: Query) {
    AllFollow(Nodes(q)) && AllSuited(Nodes(q))
  }

  ghost predicate AllFollow(nodes: seq<Query>) {
    forall i, j :: 0 <= i < j < |nodes| ==> MayFollow(nodes[i], nodes[j])
  }

  ghost predicate AllSuited(nodes: seq<Query>) {
    forall j :: 0 <= j < |nodes| ==> !nodes[j].Join? && (nodes[j].GroupBy? ==> RenamesNothing(nodes[j].input))
  }

  lemma FitsNode(q: Query)
    requires !q.Scan? && !q.Join?
    ensures FitsPipeline(q) <==>
            FitsPipeline(q.input) && MayCap(Nodes(q.input), q) && (q.GroupBy? ==> RenamesNothing(q.input))
  {
    assert Nodes(q) == Nodes(q.input) + [q];
    hide *;
    OrderedWith(Nodes(q.input), q);
    AloneWith(Nodes(q.input), q);
    FitsSpelt(q);
    FitsSpelt(q.input);
  }

  lemma FitsSpelt(q: Query)
    ensures FitsPipeline(q) <==> AllFollow(Nodes(q)) && AllSuited(Nodes(q))
  {
    hide Nodes, MayFollow, RenamesNothing;
  }

  lemma OrderedWith(below: seq<Query>, q: Query)
    ensures AllFollow(below + [q]) <==> AllFollow(below) && MayCap(below, q)
  {
    var nodes := below + [q];
    hide MayFollow;
    assert nodes[|below|] == q;
    assert forall i :: 0 <= i < |below| ==> nodes[i] == below[i];
    if AllFollow(nodes) {
      forall i | 0 <= i < |below|
        ensures MayFollow(below[i], q)
      {
        assert MayFollow(nodes[i], nodes[|below|]);
      }
      forall i, j | 0 <= i < j < |below|
        ensures MayFollow(below[i], below[j])
      {
        assert MayFollow(nodes[i], nodes[j]);
      }
    }
  }

  lemma AloneWith(below: seq<Query>, q: Query)
    ensures AllSuited(below + [q]) <==> AllSuited(below) && !q.Join? && (q.GroupBy? ==> RenamesNothing(q.input))
  {
    var nodes := below + [q];
    assert nodes[|below|] == q;
    assert forall i :: 0 <= i < |below| ==> nodes[i] == below[i];
    hide RenamesNothing;
  }

  // ---------------------------------------------------------------- the stages reached

  /** The plan has a node of the stage. */
  predicate Reaches(q: Query, s: Stage) {
    StageOf(q) == s || (!q.Scan? && !q.Join? && Reaches(q.input, s))
  }

  /** A node may stand on a plan according to the stages it reaches. */
  predicate MayStand(q: Query, node: Query) {
    match node
    case Limited(_, _, _) => true
    case OrderBy(_, _) => !Reaches(q, AtSort) && !Reaches(q, AtLimit)
    case Project(_, _) => !Reaches(q, AtSort) && !Reaches(q, AtLimit)
    case GroupBy(_, _) => !Reaches(q, AtAggregate) && !Reaches(q, AtSort) && !Reaches(q, AtLimit)
    case Where(_, _) => !Reaches(q, AtAggregate) && !Reaches(q, AtSort) && !Reaches(q, AtLimit)
    case Scan(_) => false
    case Join(_, _, _) => false
  }

  lemma CapConcat(nodes: seq<Query>, q: Query, node: Query)
    ensures MayCap(nodes + [q], node) <==> MayCap(nodes, node) && MayFollow(q, node)
  {
    assert (nodes + [q])[|nodes|] == q;
    assert forall i :: 0 <= i < |nodes| ==> (nodes + [q])[i] == nodes[i];
    hide MayFollow;
  }

  lemma {:induction false} CapsReached(q: Query, node: Query)
    requires Resolved(q)
    ensures MayCap(Nodes(q), node) <==> MayStand(q, node)
    decreases q
  {
    if q.Scan? {
      assert Nodes(q) == [q] && [q][0] == q;
    } else {
      CapsReached(q.input, node);
      CapConcat(Nodes(q.input), q, node);
      StandsOn(q, node);
      hide MayCap, MayFollow, MayStand, Nodes, Outputs;
      assert Nodes(q) == Nodes(q.input) + [q] by {
        NodesAre(q);
      }
    }
  }

  lemma NodesAre(q: Query)
    requires !q.Scan? && !q.Join?
    ensures Nodes(q) == Nodes(q.input) + [q]
  {
  }

  lemma StandsOn(q: Query, node: Query)
    requires !q.Scan? && !q.Join?
    ensures MayStand(q, node) <==> MayStand(q.input, node) && MayFollow(q, node)
  {
  }

  /** What a draft remembers of the stages of its plan. */
  ghost predicate Tracks(q: Query, d: Draft) {
    && (d.aggregate.Some? <==> Reaches(q, AtAggregate)) && (d.sort != [] <==> Reaches(q, AtSort))
    && Reaches(q, d.stage) && forall s :: Reaches(q, s) ==> StageRank(s) <= StageRank(d.stage)
  }

  /** The planner's test of the stages. */
  predicate InOrder(d: Draft, node: Query) {
    && !(StageRank(StageOf(node)) < StageRank(d.stage) && !Equivalent(d, node))
    && (node.GroupBy? ==> d.aggregate == None) && (node.OrderBy? ==> d.sort == [])
  }

  /** It lets through the nodes that may stand on the plan. */
  lemma InOrderExactly(q: Query, d: Draft, node: Query)
    requires Tracks(q, d) && !node.Scan? && !node.Join?
    ensures InOrder(d, node) <==> MayStand(q, node)
  {
    assert Reaches(q, AtAggregate) ==> StageRank(AtAggregate) <= StageRank(d.stage);
    assert Reaches(q, AtSort) ==> StageRank(AtSort) <= StageRank(d.stage);
    assert Reaches(q, AtLimit) ==> StageRank(AtLimit) <= StageRank(d.stage);
    hide Reaches;
  }

  lemma NodeTracks(q: Query, d0: Draft, d: Draft)
    requires !q.Scan? && !q.Join? && Tracks(q.input, d0) && AddNode(d0, q) == Some(d) && (q.OrderBy? ==> q.keys != [])
    ensures Tracks(q, d)
  {
    ReachedBy(q);
    NodeAdded(q, d0, d);
    hide AddNode, Reaches;
  }

  lemma ReachedBy(q: Query)
    requires !q.Scan? && !q.Join?
    ensures forall s :: Reaches(q, s) <==> s == StageOf(q) || Reaches(q.input, s)
  {
  }

  lemma NodeAdded(q: Query, d0: Draft, d: Draft)
    requires !q.Scan? && !q.Join? && AddNode(d0, q) == Some(d)
    ensures d.stage == Later(d0.stage, StageOf(q)) && d.columns == d0.columns
    ensures d.aggregate == if q.GroupBy? then Some(q.spec) else d0.aggregate
    ensures d.sort == if q.OrderBy? then q.keys else d0.sort
  {
    hide Rewrite, RenamingOf, Compose, IsIdentity;
  }

  // ---------------------------------------------------------------- names below the aggregation

  /** What a draft without an aggregation remembers of the names. */
  ghost predicate Traces(q: Query, d: Draft) {
    d.aggregate == None ==>
      && (d.rename == None ==> RenamesNothing(q))
      && (d.rename.Some? ==>
            var m := d.rename.value;
            && OutputNames(m) == Outputs(q) && NoRepeats(OutputNames(m))
            && forall i :: 0 <= i < |m| ==> Origin(q, m[i].1) == m[i].0)
  }

  lemma IdentityExactly(q: Query, d: Draft)
    requires Traces(q, d) && d.aggregate == None
    ensures (d.rename.Some? ==> IsIdentity(d.rename.value)) <==> RenamesNothing(q)
  {
    if d.rename.Some? {
      var m := d.rename.value;
      assert forall i :: 0 <= i < |m| ==> Outputs(q)[i] == m[i].1;
    }
    hide Origin;
  }

  lemma ProjectTraces(q: Query, d0: Draft, d: Draft)
    requires q.Project? && Resolved(q) && Traces(q.input, d0) && AddNode(d0, q) == Some(d)
    ensures Traces(q, d)
  {
    AllColumns(q.exprs);
    var m := RenamingOf(q.exprs).value;
    ProjectNames(q, m);
    if d0.aggregate == None {
      assert NoRepeats(OutputNames(m));
      hide Resolved, RenamingOf, RenamesNothing, NoRepeats;
      assert OutputNames(d.rename.value) == OutputNames(m);
      forall i | 0 <= i < |m|
        ensures Origin(q, m[i].1) == d.rename.value[i].0
      {
        ProjectedOrigin(q, m, d0, i);
      }
    }
  }

  lemma ProjectedOrigin(q: Query, m: Renaming, d0: Draft, i: nat)
    requires q.Project? && RenamingOf(q.exprs) == Some(m) && NoRepeats(OutputNames(m)) && i < |m|
    requires d0.aggregate == None && Traces(q.input, d0) && SourcesWithin(m, Outputs(q.input))
    ensures d0.rename == None ==> Origin(q, m[i].1) == m[i].0
    ensures d0.rename.Some? ==> Origin(q, m[i].1) == Compose(d0.rename.value, m)[i].0
  {
    SourceAt(m, i);
    assert Origin(q, m[i].1) == Origin(q.input, m[i].0);
    assert m[i].0 in Outputs(q.input);
    if d0.rename.Some? {
      var e := d0.rename.value;
      var k :| 0 <= k < |e| && OutputNames(e)[k] == m[i].0;
      SourceAt(e, k);
      assert Origin(q.input, e[k].1) == e[k].0;
    } else {
      var k :| 0 <= k < |Outputs(q.input)| && Outputs(q.input)[k] == m[i].0;
    }
    hide Origin, RenamingOf, Source, NoRepeats;
  }

  lemma PlainTraces(q: Query, d0: Draft, d: Draft)
    requires (q.Where? || q.OrderBy? || q.Limited?) && Traces(q.input, d0) && AddNode(d0, q) == Some(d)
    ensures Traces(q, d)
  {
    assert d.rename == d0.rename && d.aggregate == d0.aggregate;
    assert Outputs(q) == Outputs(q.input) && forall c :: Origin(q, c) == Origin(q.input, c);
    hide AddNode, Origin, Outputs;
  }

  lemma NodeTraces(q: Query, d0: Draft, d: Draft)
    requires !q.Scan? && Resolved(q) && Traces(q.input, d0) && AddNode(d0, q) == Some(d)
    ensures Traces(q, d)
  {
    if q.Project? {
      ProjectTraces(q, d0, d);
    } else if q.GroupBy? {
      NodeAdded(q, d0, d);
    } else {
      PlainTraces(q, d0, d);
    }
    hide Traces, AddNode, Resolved;
  }

  // ---------------------------------------------------------------- acceptance is exact

  /** A condition on output names can be pushed below the renaming. */
  lemma {:induction false} Rewritable(e: Expr, m: map<string, string>)
    requires forall c :: c in Columns(e) ==> c in m
    ensures Rewrite(e, m).Some?
  {
    match e
    case Column(_) =>
    case Literal(_) =>
    case Binary(_, left, right) => Rewritable(left, m); Rewritable(right, m);
    case Not(inner) => Rewritable(inner, m);
    case IsNull(inner) => Rewritable(inner, m);
    case IsNotNull(inner) => Rewritable(inner, m);
    case InList(inner, _, _) => Rewritable(inner, m);
    case Between(inner, _, _, _) => Rewritable(inner, m);
  }

  lemma WhereAdded(q: Query, d0: Draft)
    requires q.Where? && Resolved(q) && Traces(q.input, d0) && InOrder(d0, q) && d0.aggregate == None
    ensures AddNode(d0, q).Some?
  {
    if d0.rename.Some? {
      var m := d0.rename.value;
      forall c | c in Columns(q.cond)
        ensures c in Sources(m)
      {
        assert c in Outputs(q.input);
        SourceFirst(m, c);
      }
      Rewritable(q.cond, Sources(m));
    }
  }

  lemma Added(q: Query, d0: Draft)
    requires !q.Scan? && Resolved(q) && Tracks(q.input, d0) && Traces(q.input, d0)
    ensures AddNode(d0, q).Some? <==>
            MayCap(Nodes(q.input), q) && (q.GroupBy? ==> RenamesNothing(q.input))
  {
    assert Resolved(q.input) && !q.Join?;
    CapsReached(q.input, q);
    InOrderExactly(q.input, d0, q);
    if InOrder(d0, q) {
      match q
      case Where(_, _) =>
        assert d0.aggregate == None;
        WhereAdded(q, d0);
      case GroupBy(_, _) => IdentityExactly(q.input, d0);
      case Project(_, exprs) => AllColumns(exprs);
      case _ =>
    }
    hide MayCap, RenamesNothing, Traces, Resolved, Nodes, IsIdentity, Rewrite, RenamingOf, Compose;
  }

  /** The planner can draw a resolved plan exactly when it fits the pipeline. */
  lemma {:induction false} DrawnExactly(q: Query)
    requires Resolved(q)
    ensures DraftOf(q).Some? <==> FitsPipeline(q)
    ensures DraftOf(q).Some? ==> Tracks(q, DraftOf(q).value) && Traces(q, DraftOf(q).value)
    decreases q
  {
    if q.Scan? {
      ScanDrawn(q);
    } else {
      assert !q.Join? && (q.OrderBy? ==> q.keys != []);
      DrawnExactly(q.input);
      FitsNode(q);
      DraftNode(q);
      hide FitsPipeline, AddNode, Resolved, DraftOf;
      if DraftOf(q.input).Some? {
        var d0 := DraftOf(q.input).value;
        Added(q, d0);
        if DraftOf(q).Some? {
          NodeTracks(q, d0, DraftOf(q).value);
          NodeTraces(q, d0, DraftOf(q).value);
        }
      }
      hide Tracks, Traces, MayCap, RenamesNothing, Nodes;
    }
  }

  lemma DraftNode(q: Query)
    requires !q.Scan? && !q.Join?
    ensures DraftOf(q) == match DraftOf(q.input) case Some(d) => AddNode(d, q) case None => None
  {
    hide AddNode;
  }

  lemma ScanDrawn(q: Query)
    requires q.Scan?
    ensures FitsPipeline(q) && DraftOf(q).Some? && Tracks(q, DraftOf(q).value) && Traces(q, DraftOf(q).value)
  {
    assert Nodes(q) == [q];
  }

  lemma {:induction false} SortSourced(m: Option<Renaming>, keys: seq<SortExpr>)
    requires m.Some? ==> forall i :: 0 <= i < |keys| ==> keys[i].column in OutputNames(m.value)
    ensures SortSources(m, keys).Some?
  {
    if keys != [] {
      SortSourced(m, keys[..|keys| - 1]);
      if m.Some? {
        SourceFirst(m.value, keys[|keys| - 1].column);
      }
    }
  }

  /** The planner accepts a validated plan exactly when it fits the pipeline. */
  lemma BuiltExactly(types: Types, v: Validated)
    requires Checked(types, v)
    ensures BuildOf(v).Some? <==> FitsPipeline(v.query)
  {
    DrawnExactly(v.query);
    if DraftOf(v.query).Some? {
      var d := DraftOf(v.query).value;
      DraftColumns(v.query, d);
      SortKept(v.query, d);
    }
    hide DraftOf, FitsPipeline, Resolved, Known, OutputOf, Keep, Columns, SpecColumns;
  }

  lemma SortKept(q: Query, d: Draft)
    requires Resolved(q) && DraftOf(q) == Some(d)
    ensures SortSources(d.rename, d.sort).Some?
  {
    BelowKept(q, d);
    CoreFits(Below(q), DraftOf(Below(q)).value);
    SortSourced(d.rename, d.sort);
    hide DraftOf, Resolved, SortSources, Outputs;
  }

  lemma BelowKept(q: Query, d: Draft)
    requires Resolved(q) && DraftOf(q) == Some(d)
    ensures Resolved(Below(q)) && !Below(q).Limited? && DraftOf(Below(q)).Some?
    ensures DraftOf(Below(q)).value.rename == d.rename && DraftOf(Below(q)).value.sort == d.sort
  {
    if q.Limited? {
      LimitDraft(q, d);
    }
  }
}
