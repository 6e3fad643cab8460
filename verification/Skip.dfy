/** Which segments are skipped: exactly those that the kept minimum, maximum, null count and filter of a compared
    column rule out (crates/adb-exec/src/prune.rs; crates/adb-planner/src/optimize.rs). */
module Skipping {
  import opened Values
  import opened ValueOrder
  import opened Bloom
  import opened Expressions
  import opened Pruning
  import opened Selections

  // ---------------------------------------------------------------- what the statistics keep

  lemma {:induction false} MinAttained(values: seq<Value>)
    ensures MinOf(values) == None <==> forall i :: 0 <= i < |values| ==> values[i] == Null
    ensures MinOf(values).Some? ==>
              exists i :: 0 <= i < |values| && values[i] != Null && values[i] == MinOf(values).value
  {
    if values != [] {
      var n := |values| - 1;
      MinAttained(values[..n]);
      assert forall i :: 0 <= i < n ==> values[..n][i] == values[i];
      hide Leq;
      if MinOf(values[..n]).Some? {
        var i :| 0 <= i < n && values[..n][i] != Null && values[..n][i] == MinOf(values[..n]).value;
        assert values[i] == MinOf(values[..n]).value;
      }
    }
  }

  lemma {:induction false} MaxAttained(values: seq<Value>)
    ensures MaxOf(values) == None <==> forall i :: 0 <= i < |values| ==> values[i] == Null
    ensures MaxOf(values).Some? ==>
              exists i :: 0 <= i < |values| && values[i] != Null && values[i] == MaxOf(values).value
  {
    if values != [] {
      var n := |values| - 1;
      MaxAttained(values[..n]);
      assert forall i :: 0 <= i < n ==> values[..n][i] == values[i];
      hide Leq;
      if MaxOf(values[..n]).Some? {
        var i :| 0 <= i < n && values[..n][i] != Null && values[..n][i] == MaxOf(values[..n]).value;
        assert values[i] == MaxOf(values[..n]).value;
      }
    }
  }

  lemma {:induction false} NullsCounted(values: seq<Value>)
    ensures NullCount(values) <= |values|
    ensures NullCount(values) == 0 <==> forall i :: 0 <= i < |values| ==> values[i] != Null
    ensures NullCount(values) == |values| <==> forall i :: 0 <= i < |values| ==> values[i] == Null
  {
    if values != [] {
      var n := |values| - 1;
      NullsCounted(values[..n]);
      assert forall i :: 0 <= i < n ==> values[..n][i] == values[i];
    }
  }

  // ---------------------------------------------------------------- what they rule out

  /** No value is in the relation with `w`. */
  ghost predicate NoneInRelation(op: BinaryOp, values: seq<Value>, w: Value)
    requires op.IsComparison()
  {
    forall i :: 0 <= i < |values| && values[i] != Null ==> !InRelation(op, values[i], w)
  }

  /** The segment's filter, if it has one, does not report the value. */
  ghost predicate FilteredOut(fs: Filters, col: ColumnSchema, values: seq<Value>, w: Value) {
    && col.wantsBloom && IsFilterable(col.dataType) && values != []
    && !Contains(fs.hash, BuildBits(fs.hash, values, 64 * Words(fs, |values|), (fs.probes)(|values|)), w)
  }

  /** All values are on one side of `w`, or the filter does not report it. */
  ghost predicate RuledOut(fs: Filters, col: ColumnSchema, values: seq<Value>, w: Value) {
    NoneInRelation(LtEq, values, w) || NoneInRelation(GtEq, values, w) || FilteredOut(fs, col, values, w)
  }

  lemma BelowMin(values: seq<Value>, w: Value)
    requires MinOf(values).Some?
    ensures Leq(w, MinOf(values).value) <==> NoneInRelation(Lt, values, w)
    ensures Less(w, MinOf(values).value) <==> NoneInRelation(LtEq, values, w)
  {
    var min := MinOf(values).value;
    MinAttained(values);
    forall i | 0 <= i < |values| && values[i] != Null
      ensures Leq(min, values[i])
      ensures Leq(w, min) ==> !InRelation(Lt, values[i], w)
      ensures Less(w, min) ==> !InRelation(LtEq, values[i], w)
    {
      MinBelow(values, i);
      if Leq(w, min) {
        LeqTransitive(w, min, values[i]);
      }
      if Less(w, min) {
        LessLeq(w, min, values[i]);
      }
    }
    var i :| 0 <= i < |values| && values[i] != Null && values[i] == min;
    LeqTotal(w, min);
    assert NoneInRelation(Lt, values, w) ==> !InRelation(Lt, values[i], w);
    assert NoneInRelation(LtEq, values, w) ==> !InRelation(LtEq, values[i], w);
    hide Leq, MinOf;
  }

  lemma AboveMax(values: seq<Value>, w: Value)
    requires MaxOf(values).Some?
    ensures Leq(MaxOf(values).value, w) <==> NoneInRelation(Gt, values, w)
    ensures Less(MaxOf(values).value, w) <==> NoneInRelation(GtEq, values, w)
  {
    var max := MaxOf(values).value;
    MaxAttained(values);
    forall i | 0 <= i < |values| && values[i] != Null
      ensures Leq(values[i], max)
      ensures Leq(max, w) ==> !InRelation(Gt, values[i], w)
      ensures Less(max, w) ==> !InRelation(GtEq, values[i], w)
    {
      MaxAbove(values, i);
      if Leq(max, w) {
        LeqTransitive(values[i], max, w);
      }
      if Less(max, w) {
        LessLeq(values[i], max, w);
      }
    }
    var i :| 0 <= i < |values| && values[i] != Null && values[i] == max;
    LeqTotal(w, max);
    assert NoneInRelation(Gt, values, w) ==> !InRelation(Gt, values[i], w);
    assert NoneInRelation(GtEq, values, w) ==> !InRelation(GtEq, values[i], w);
    hide Leq, MaxOf;
  }

  lemma FilterAllows(fs: Filters, col: ColumnSchema, values: seq<Value>, w: Value)
    ensures !BloomAllows(fs, StatsOf(fs, col, values), w) <==> FilteredOut(fs, col, values, w)
  {
    hide Contains, MinOf, MaxOf, NullCount;
  }

  /** The range operator of an atom. */
  function RangeOp(op: PruneOp): Option<BinaryOp> {
    match op
    case PLt => Some(Lt)
    case PLtEq => Some(LtEq)
    case PGt => Some(Gt)
    case PGtEq => Some(GtEq)
    case _ => None
  }

  /** The statistics of a column of these values exclude the atom. */
  predicate Out(fs: Filters, col: ColumnSchema, values: seq<Value>, atom: PruneAtom) {
    Excludes(fs, StatsOf(fs, col, values), |values|, atom)
  }

  lemma AllNullRulesOut(values: seq<Value>)
    requires forall i :: 0 <= i < |values| ==> values[i] == Null
    ensures forall op: BinaryOp, w :: op.IsComparison() ==> NoneInRelation(op, values, w)
  {
  }

  lemma AbsentExactly(fs: Filters, col: ColumnSchema, values: seq<Value>, w: Value)
    requires MinOf(values).Some? && MaxOf(values).Some?
    ensures Absent(fs, StatsOf(fs, col, values), MinOf(values).value, MaxOf(values).value, w) <==>
            RuledOut(fs, col, values, w)
  {
    BelowMin(values, w);
    AboveMax(values, w);
    FilterAllows(fs, col, values, w);
    hide NoneInRelation, FilteredOut, BloomAllows, Leq, MinOf, MaxOf, StatsOf;
  }

  /** What a column's statistics exclude. */
  lemma OutExactly(fs: Filters, col: ColumnSchema, values: seq<Value>, atom: PruneAtom)
    requires !atom.op.OnNulls() && !col.dataType.TJson? && atom.values != []
    ensures RangeOp(atom.op).Some? ==>
              Out(fs, col, values, atom) == NoneInRelation(RangeOp(atom.op).value, values, atom.values[0])
    ensures atom.op == PEq ==> Out(fs, col, values, atom) == RuledOut(fs, col, values, atom.values[0])
    ensures atom.op == PIn ==>
              Out(fs, col, values, atom) ==
              forall j :: 0 <= j < |atom.values| ==> RuledOut(fs, col, values, atom.values[j])
  {
    MinAttained(values);
    MaxAttained(values);
    if MinOf(values) == None {
      AllNullRulesOut(values);
    } else {
      forall j | 0 <= j < |atom.values|
        ensures Absent(fs, StatsOf(fs, col, values), MinOf(values).value, MaxOf(values).value, atom.values[j]) <==>
                RuledOut(fs, col, values, atom.values[j])
      {
        AbsentExactly(fs, col, values, atom.values[j]);
      }
      BelowMin(values, atom.values[0]);
      AboveMax(values, atom.values[0]);
    }
    hide NoneInRelation, FilteredOut, BloomAllows, Leq, MinOf, MaxOf, NullCount, Absent;
  }

  lemma NullsOut(fs: Filters, col: ColumnSchema, values: seq<Value>, c: string)
    ensures Out(fs, col, values, PruneAtom(c, PIsNull, [])) == forall i :: 0 <= i < |values| ==> values[i] != Null
    ensures Out(fs, col, values, PruneAtom(c, PIsNotNull, [])) == forall i :: 0 <= i < |values| ==> values[i] == Null
  {
    NullsCounted(values);
    hide MinOf, MaxOf, NullCount;
  }

  // ---------------------------------------------------------------- conditions

  /** Over the rows of the segment, its statistics rule the condition out. */
  predicate Skips(fs: Filters, schema: seq<ColumnSchema>, rows: seq<Row>, e: Expr) {
    CanSkip(fs, MetaOf(fs, schema, rows), Atoms(e))
  }

  lemma OneConjunct(e: Expr)
    requires !(e.Binary? && e.op == And)
    ensures Atoms(e) == AtomsOf(e)
  {
    assert Conjuncts(e) == [e] && [e][..0] == [];
    assert AllAtoms([e]) == [] + AtomsOf(e);
  }

  /** The atoms of one column skip a segment when there is no row, or the statistics exclude one of them. */
  lemma SkipsBy(fs: Filters, schema: seq<ColumnSchema>, rows: seq<Row>, e: Expr, col: ColumnSchema,
                atoms: seq<PruneAtom>)
    requires !(e.Binary? && e.op == And) && AtomsOf(e) == atoms && Find(schema, col.name) == Some(col)
    requires forall i :: 0 <= i < |atoms| ==> atoms[i].column == col.name
    ensures Skips(fs, schema, rows, e) <==>
            rows == [] || exists i :: 0 <= i < |atoms| && Out(fs, col, ColumnValues(rows, col.name), atoms[i])
  {
    OneConjunct(e);
    StatsFound(fs, schema, rows, col.name);
    hide Excludes, StatsOf, ColumnsOf, Find, Atoms, AtomsOf;
  }

  lemma NothingThere(fs: Filters, col: ColumnSchema, rows: seq<Row>, c: string)
    requires rows == []
    ensures forall op: BinaryOp, w :: op.IsComparison() ==> NoneInRelation(op, ColumnValues(rows, c), w)
    ensures forall w :: RuledOut(fs, col, ColumnValues(rows, c), w)
  {
  }

  lemma ComparisonAtoms(op: BinaryOp, c: string, w: Value)
    requires op.IsComparison() && op != NotEq && w != Null
    ensures PruneOpOf(op).Some? && op.Flipped().Some?
    ensures AtomsOf(Binary(op, Column(c), Literal(w))) == [PruneAtom(c, PruneOpOf(op).value, [w])]
    ensures AtomsOf(Binary(op.Flipped().value, Literal(w), Column(c))) == [PruneAtom(c, PruneOpOf(op).value, [w])]
    ensures var p := PruneOpOf(op).value;
            !p.OnNulls() && if op == Eq then p == PEq else RangeOp(p) == Some(op)
  {
  }

  /** A comparison of a column with a literal, on either side, skips exactly the segments in which no value is in
      the relation; an equality, those whose values are all on one side or whose filter does not report it. */
  lemma ComparisonSkips(fs: Filters, schema: seq<ColumnSchema>, rows: seq<Row>, op: BinaryOp, col: ColumnSchema,
                        w: Value)
    requires op.IsComparison() && op != NotEq && w != Null
    requires Find(schema, col.name) == Some(col) && !col.dataType.TJson?
    ensures Skips(fs, schema, rows, Binary(op, Column(col.name), Literal(w))) <==>
            if op == Eq then RuledOut(fs, col, ColumnValues(rows, col.name), w)
            else NoneInRelation(op, ColumnValues(rows, col.name), w)
    ensures op.Flipped().Some?
    ensures Skips(fs, schema, rows, Binary(op.Flipped().value, Literal(w), Column(col.name))) <==>
            Skips(fs, schema, rows, Binary(op, Column(col.name), Literal(w)))
  {
    ComparisonAtoms(op, col.name, w);
    var atom := PruneAtom(col.name, PruneOpOf(op).value, [w]);
    assert [atom][0] == atom && atom.values[0] == w && op.Flipped().value != And;
    hide *;
    SkipsBy(fs, schema, rows, Binary(op, Column(col.name), Literal(w)), col, [atom]);
    SkipsBy(fs, schema, rows, Binary(op.Flipped().value, Literal(w), Column(col.name)), col, [atom]);
    OutExactly(fs, col, ColumnValues(rows, col.name), atom);
    if rows == [] {
      NothingThere(fs, col, rows, col.name);
    }
  }

  /** A BETWEEN skips the segments whose values are all below or all above its bounds. */
  lemma BetweenSkips(fs: Filters, schema: seq<ColumnSchema>, rows: seq<Row>, col: ColumnSchema, low: Value, high: Value)
    requires Find(schema, col.name) == Some(col) && !col.dataType.TJson?
    ensures Skips(fs, schema, rows, Between(Column(col.name), low, high, false)) <==>
            NoneInRelation(GtEq, ColumnValues(rows, col.name), low)
            || NoneInRelation(LtEq, ColumnValues(rows, col.name), high)
  {
    var a, b := PruneAtom(col.name, PGtEq, [low]), PruneAtom(col.name, PLtEq, [high]);
    assert AtomsOf(Between(Column(col.name), low, high, false)) == [a, b];
    assert [a, b][0] == a && [a, b][1] == b && RangeOp(PGtEq) == Some(GtEq) && RangeOp(PLtEq) == Some(LtEq);
    assert a.values[0] == low && b.values[0] == high && !a.op.OnNulls() && !b.op.OnNulls();
    assert GtEq.IsComparison() && LtEq.IsComparison();
    hide *;
    SkipsBy(fs, schema, rows, Between(Column(col.name), low, high, false), col, [a, b]);
    OutExactly(fs, col, ColumnValues(rows, col.name), a);
    OutExactly(fs, col, ColumnValues(rows, col.name), b);
    if rows == [] {
      NothingThere(fs, col, rows, col.name);
    }
  }

  /** An IN skips the segments that rule every listed value out. */
  lemma ListSkips(fs: Filters, schema: seq<ColumnSchema>, rows: seq<Row>, col: ColumnSchema, list: seq<Value>)
    requires Find(schema, col.name) == Some(col) && !col.dataType.TJson? && list != [] && Null !in list
    ensures Skips(fs, schema, rows, InList(Column(col.name), list, false)) <==>
            forall j :: 0 <= j < |list| ==> RuledOut(fs, col, ColumnValues(rows, col.name), list[j])
  {
    var atom := PruneAtom(col.name, PIn, list);
    assert AtomsOf(InList(Column(col.name), list, false)) == [atom];
    assert [atom][0] == atom && !atom.op.OnNulls();
    hide *;
    SkipsBy(fs, schema, rows, InList(Column(col.name), list, false), col, [atom]);
    OutExactly(fs, col, ColumnValues(rows, col.name), atom);
    if rows == [] {
      NothingThere(fs, col, rows, col.name);
    }
  }

  /** IS NULL skips the segments without a null, and IS NOT NULL those without anything else; of JSON columns too. */
  lemma NullSkips(fs: Filters, schema: seq<ColumnSchema>, rows: seq<Row>, col: ColumnSchema)
    requires Find(schema, col.name) == Some(col)
    ensures Skips(fs, schema, rows, IsNull(Column(col.name))) <==>
            forall r :: 0 <= r < |rows| ==> Cell(rows[r], col.name) != Null
    ensures Skips(fs, schema, rows, IsNotNull(Column(col.name))) <==>
            forall r :: 0 <= r < |rows| ==> Cell(rows[r], col.name) == Null
  {
    var a, b := PruneAtom(col.name, PIsNull, []), PruneAtom(col.name, PIsNotNull, []);
    assert AtomsOf(IsNull(Column(col.name))) == [a] && AtomsOf(IsNotNull(Column(col.name))) == [b];
    assert [a][0] == a && [b][0] == b;
    hide *;
    SkipsBy(fs, schema, rows, IsNull(Column(col.name)), col, [a]);
    SkipsBy(fs, schema, rows, IsNotNull(Column(col.name)), col, [b]);
    NullsOut(fs, col, ColumnValues(rows, col.name), col.name);
  }

  lemma {:induction false} AtomsConcat(a: seq<Expr>, b: seq<Expr>)
    ensures AllAtoms(a + b) == AllAtoms(a) + AllAtoms(b)
  {
    if b == [] {
      assert a + b == a;
    } else {
      var n := |b| - 1;
      assert (a + b)[..|a + b| - 1] == a + b[..n] && (a + b)[|a + b| - 1] == b[n];
      AtomsConcat(a, b[..n]);
      AllAtomsLast(a + b);
      AllAtomsLast(b);
      hide AllAtoms;
    }
  }

  lemma AllAtomsLast(cs: seq<Expr>)
    requires cs != []
    ensures AllAtoms(cs) == AllAtoms(cs[..|cs| - 1]) + AtomsOf(cs[|cs| - 1])
  {
    hide AtomsOf;
  }

  /** A conjunction skips what either side skips. */
  lemma BothSkip(fs: Filters, schema: seq<ColumnSchema>, rows: seq<Row>, a: Expr, b: Expr)
    ensures Skips(fs, schema, rows, Binary(And, a, b)) <==>
            Skips(fs, schema, rows, a) || Skips(fs, schema, rows, b)
  {
    var e := Binary(And, a, b);
    assert Conjuncts(e) == Conjuncts(a) + Conjuncts(b);
    AtomsConcat(Conjuncts(a), Conjuncts(b));
    SkipConcat(fs, MetaOf(fs, schema, rows), Atoms(a), Atoms(b));
    hide CanSkip, MetaOf, Conjuncts, AllAtoms;
  }

  lemma SkipConcat(fs: Filters, meta: SegmentMeta, x: seq<PruneAtom>, y: seq<PruneAtom>)
    ensures CanSkip(fs, meta, x + y) <==> CanSkip(fs, meta, x) || CanSkip(fs, meta, y)
  {
    assert forall i :: 0 <= i < |x| ==> (x + y)[i] == x[i];
    assert forall i :: 0 <= i < |y| ==> (x + y)[|x| + i] == y[i];
    hide Excludes;
  }
}
