/** Segment pruning from column statistics (crates/adb-storage/src/segment.rs: compute_stats;
    crates/adb-planner/src/optimize.rs; crates/adb-exec/src/prune.rs). */
module Pruning {
  import opened Values
  import opened ValueOrder
  import opened Bloom
  import opened Expressions

  datatype DataType = TBool | TInt64 | TFloat64 | TUtf8 | TUuid | TTimestamp | TDate | TJson

  datatype ColumnSchema = ColumnSchema(name: string, dataType: DataType, wantsBloom: bool)

  datatype ColumnStats = ColumnStats(min: Option<Value>, max: Option<Value>, nullCount: nat, bloom: Option<Bits>)
  {
    /** No minimum was kept, read as: no non-null value is present. */
    predicate AllNull() { min == None }
  }

  datatype SegmentMeta = SegmentMeta(rowCount: nat, columns: map<string, ColumnStats>)

  datatype PruneOp = PEq | PLt | PLtEq | PGt | PGtEq | PIn | PIsNull | PIsNotNull
  {
    predicate OnNulls() { PIsNull? || PIsNotNull? }
  }

  datatype PruneAtom = PruneAtom(column: string, op: PruneOp, values: seq<Value>)

  /** The hash, and how many words and probes a filter for `n` values gets. */
  datatype Filters = Filters(hash: Hasher, words: nat -> nat, probes: nat -> nat)

  // ---------------------------------------------------------------- statistics

  function NullCount(values: seq<Value>): nat {
    if values == [] then 0 else NullCount(values[..|values| - 1]) + (if values[|values| - 1] == Null then 1 else 0)
  }

  /** The first smallest of the non-null values. */
  function MinOf(values: seq<Value>): Option<Value> {
    if values == [] then None
    else
      var before, v := MinOf(values[..|values| - 1]), values[|values| - 1];
      if v == Null || (before.Some? && Leq(before.value, v)) then before else Some(v)
  }

  function MaxOf(values: seq<Value>): Option<Value> {
    if values == [] then None
    else
      var before, v := MaxOf(values[..|values| - 1]), values[|values| - 1];
      if v == Null || (before.Some? && Leq(v, before.value)) then before else Some(v)
  }

  predicate IsFilterable(t: DataType) { t.TInt64? || t.TUtf8? || t.TUuid? || t.TTimestamp? || t.TDate? || t.TBool? }

  function Words(fs: Filters, n: nat): (words: nat)
    ensures words > 0
  {
    Max(1, (fs.words)(n))
  }

  function StatsOf(fs: Filters, col: ColumnSchema, values: seq<Value>): ColumnStats {
    var json := col.dataType.TJson?;
    var bloom :=
      if col.wantsBloom && IsFilterable(col.dataType) && values != []
      then Some(BuildBits(fs.hash, values, 64 * Words(fs, |values|), (fs.probes)(|values|))) else None;
    ColumnStats(if json then None else MinOf(values), if json then None else MaxOf(values), NullCount(values), bloom)
  }

  /** One pass over a column. JSON values have no useful order: only their nulls are counted. */
  method ComputeColumn(fs: Filters, col: ColumnSchema, values: seq<Value>) returns (stats: ColumnStats)
    ensures stats == StatsOf(fs, col, values)
  {
    stats := ColumnStats(None, None, 0, None);
    var json := col.dataType.TJson?;
    for i := 0 to |values|
      invariant stats.bloom == None && stats.nullCount == NullCount(values[..i])
      invariant stats.min == (if json then None else MinOf(values[..i]))
      invariant stats.max == (if json then None else MaxOf(values[..i]))
    {
      assert values[..i + 1][..i] == values[..i];
      var v := values[i];
      if v == Null {
        stats := stats.(nullCount := stats.nullCount + 1);
        continue;
      }
      if json {
        continue;
      }
      if !(stats.min.Some? && Leq(stats.min.value, v)) {
        stats := stats.(min := Some(v));
      }
      if !(stats.max.Some? && Leq(v, stats.max.value)) {
        stats := stats.(max := Some(v));
      }
    }
    assert values[..|values|] == values;
    if col.wantsBloom && IsFilterable(col.dataType) {
      var filter := Build(fs.hash, values, Words(fs, |values|), (fs.probes)(|values|));
      if filter != null {
        stats := stats.(bloom := Some(Bits(filter.bits[..], filter.k)));
      }
    }
  }

  function ColumnValues(rows: seq<Row>, column: string): (values: seq<Value>)
    ensures |values| == |rows| && forall i :: 0 <= i < |rows| ==> values[i] == Cell(rows[i], column)
  {
    seq(|rows|, i requires 0 <= i < |rows| => Cell(rows[i], column))
  }

  function ColumnsOf(fs: Filters, schema: seq<ColumnSchema>, rows: seq<Row>): map<string, ColumnStats> {
    if schema == [] then map[]
    else
      var col := schema[|schema| - 1];
      ColumnsOf(fs, schema[..|schema| - 1], rows)[col.name := StatsOf(fs, col, ColumnValues(rows, col.name))]
  }

  function MetaOf(fs: Filters, schema: seq<ColumnSchema>, rows: seq<Row>): SegmentMeta {
    SegmentMeta(|rows|, ColumnsOf(fs, schema, rows))
  }

  method ComputeStats(fs: Filters, schema: seq<ColumnSchema>, rows: seq<Row>) returns (meta: SegmentMeta)
    ensures meta == MetaOf(fs, schema, rows)
  {
    var columns: map<string, ColumnStats> := map[];
    for idx := 0 to |schema|
      invariant columns == ColumnsOf(fs, schema[..idx], rows)
    {
      var stats := ComputeColumn(fs, schema[idx], ColumnValues(rows, schema[idx].name));
      assert schema[..idx + 1][..idx] == schema[..idx];
      columns := columns[schema[idx].name := stats];
    }
    assert schema[..|schema|] == schema;
    meta := SegmentMeta(|rows|, columns);
  }

  // ---------------------------------------------------------------- extracting atoms

  function PruneOpOf(op: BinaryOp): Option<PruneOp> {
    match op
    case Eq => Some(PEq)
    case Lt => Some(PLt)
    case LtEq => Some(PLtEq)
    case Gt => Some(PGt)
    case GtEq => Some(PGtEq)
    case _ => None
  }

  function AtomFor(column: string, op: Option<BinaryOp>, value: Value): seq<PruneAtom> {
    if value == Null || op == None || PruneOpOf(op.value) == None then []
    else [PruneAtom(column, PruneOpOf(op.value).value, [value])]
  }

  /** The constraints on single columns one conjunct implies. */
  function AtomsOf(c: Expr): seq<PruneAtom> {
    match c
    case Binary(op, left, right) =>
      if !op.IsComparison() then []
      else if left.Column? && right.Literal? then AtomFor(left.name, Some(op), right.value)
      else if left.Literal? && right.Column? then AtomFor(right.name, op.Flipped(), left.value)
      else []
    case Between(inner, low, high, negated) =>
      if inner.Column? && !negated then [PruneAtom(inner.name, PGtEq, [low]), PruneAtom(inner.name, PLtEq, [high])]
        else []
    case InList(inner, list, negated) =>
      if inner.Column? && !negated && list != [] && Null !in list then [PruneAtom(inner.name, PIn, list)] else []
    case IsNull(inner) => if inner.Column? then [PruneAtom(inner.name, PIsNull, [])] else []
    case IsNotNull(inner) => if inner.Column? then [PruneAtom(inner.name, PIsNotNull, [])] else []
    case _ => []
  }

  function AllAtoms(cs: seq<Expr>): seq<PruneAtom> {
    if cs == [] then [] else AllAtoms(cs[..|cs| - 1]) + AtomsOf(cs[|cs| - 1])
  }

  function Atoms(e: Expr): seq<PruneAtom> { AllAtoms(Conjuncts(e)) }

  method ExtractPruneAtoms(e: Expr) returns (out: seq<PruneAtom>)
    ensures out == Atoms(e)
  {
    out := [];
    var cs := Conjuncts(e);
    for i := 0 to |cs|
      invariant out == AllAtoms(cs[..i])
    {
      assert cs[..i + 1][..i] == cs[..i];
      out := out + AtomsOf(cs[i]);
    }
    assert cs[..|cs|] == cs;
  }

  // ---------------------------------------------------------------- skipping

  predicate BloomAllows(fs: Filters, stats: ColumnStats, v: Value) {
    stats.bloom == None || stats.bloom.value.bits == [] || Contains(fs.hash, stats.bloom.value, v)
  }

  /** No value in the range, or in the filter. */
  predicate Absent(fs: Filters, stats: ColumnStats, min: Value, max: Value, v: Value) {
    Less(v, min) || Less(max, v) || !BloomAllows(fs, stats, v)
  }

  predicate Excludes(fs: Filters, stats: ColumnStats, rowCount: nat, atom: PruneAtom) {
    if atom.op == PIsNull then stats.nullCount == 0
    else if atom.op == PIsNotNull then stats.nullCount == rowCount
    else if stats.AllNull() then true
    else if stats.min == None || stats.max == None || atom.values == [] then false
    else
      var min, max, v := stats.min.value, stats.max.value, atom.values[0];
      match atom.op
      case PEq => Absent(fs, stats, min, max, v)
      case PLt => Leq(v, min)
      case PLtEq => Less(v, min)
      case PGt => Leq(max, v)
      case PGtEq => Less(max, v)
      case PIn => forall i :: 0 <= i < |atom.values| ==> Absent(fs, stats, min, max, atom.values[i])
      case _ => false
  }

  /** Whether a segment's statistics rule out every row. */
  predicate CanSkip(fs: Filters, meta: SegmentMeta, atoms: seq<PruneAtom>) {
    meta.rowCount == 0 ||
    exists i :: 0 <= i < |atoms| && atoms[i].column in meta.columns &&
                Excludes(fs, meta.columns[atoms[i].column], meta.rowCount, atoms[i])
  }

  // ---------------------------------------------------------------- what an atom means

  /** A column value that satisfies an atom. */
  predicate Meets(atom: PruneAtom, v: Value) {
    if atom.op == PIsNull then v == Null
    else if atom.op == PIsNotNull then v != Null
    else
      && v != Null && atom.values != []
      && var w := atom.values[0];
         match atom.op
         case PEq => Same(v, w)
         case PLt => Less(v, w)
         case PLtEq => Leq(v, w)
         case PGt => Less(w, v)
         case PGtEq => Leq(w, v)
         case PIn => exists i :: 0 <= i < |atom.values| && Same(v, atom.values[i])
         case _ => false
  }

  lemma {:induction false} MemberFound(v: Value, list: seq<Value>)
    requires Member(v, list) == Some(True)
    ensures v != Null && exists i :: 0 <= i < |list| && Same(v, list[i])
  {
    var n := |list| - 1;
    if Compare(Eq, v, list[n]) == Some(True) {
      assert Same(v, list[n]);
    } else {
      MemberFound(v, list[..n]);
      var i :| 0 <= i < n && Same(v, list[..n][i]);
      assert list[i] == list[..n][i];
    }
  }

  lemma ComparisonMeets(op: BinaryOp, column: string, v: Value, w: Value)
    requires op.IsComparison() && Compare(op, v, w) == Some(True)
    ensures forall i :: 0 <= i < |AtomFor(column, Some(op), w)| ==> Meets(AtomFor(column, Some(op), w)[i], v)
  {
  }

  /** A selected row meets every atom of a conjunct. */
  lemma ConjunctMeets(ks: Kernels, c: Expr, row: Row, i: nat)
    requires Selects(ks, c, row) && i < |AtomsOf(c)|
    ensures Meets(AtomsOf(c)[i], Cell(row, AtomsOf(c)[i].column))
  {
    match c
    case Binary(op, left, right) =>
      BinaryMeets(ks, op, left, right, row, i);
    case Between(inner, low, high, negated) =>
      var v := Cell(row, inner.name);
      assert Eval(ks, c, row) == Lift(Negate(Within(v, low, high), negated));
      assert Within(v, low, high) == Some(True);
      assert Compare(GtEq, v, low) == Some(True) && Compare(LtEq, v, high) == Some(True);
    case InList(inner, list, negated) =>
      var v := Cell(row, inner.name);
      assert Eval(ks, c, row) == Lift(Negate(Member(v, list), negated));
      MemberFound(v, list);
    case IsNull(inner) => assert Eval(ks, c, row) == Some(Bool(Cell(row, inner.name) == Null));
    case IsNotNull(inner) => assert Eval(ks, c, row) == Some(Bool(Cell(row, inner.name) != Null));
    case _ =>
  }

  lemma BinaryMeets(ks: Kernels, op: BinaryOp, left: Expr, right: Expr, row: Row, i: nat)
    requires var c := Binary(op, left, right); Selects(ks, c, row) && i < |AtomsOf(c)|
    ensures var atom := AtomsOf(Binary(op, left, right))[i]; Meets(atom, Cell(row, atom.column))
  {
    var a, b := Eval(ks, left, row).value, Eval(ks, right, row).value;
    assert Operate(ks, op, a, b) == Some(Bool(true));
    assert Compare(op, a, b) == Some(True);
    if left.Column? {
      ComparisonMeets(op, left.name, a, b);
    } else {
      FlippedMeans(op, a, b);
      ComparisonMeets(op.Flipped().value, right.name, b, a);
    }
  }

  lemma {:induction false} AllAtomsFrom(cs: seq<Expr>, i: nat) returns (c: nat, j: nat)
    requires i < |AllAtoms(cs)|
    ensures c < |cs| && j < |AtomsOf(cs[c])| && AllAtoms(cs)[i] == AtomsOf(cs[c])[j]
  {
    var n := |cs| - 1;
    var before := |AllAtoms(cs[..n])|;
    if i < before {
      c, j := AllAtomsFrom(cs[..n], i);
    } else {
      c, j := n, i - before;
    }
  }

  /** Every atom is a necessary condition of the predicate. */
  lemma AtomsNecessary(ks: Kernels, e: Expr, row: Row, i: nat)
    requires Selects(ks, e, row) && i < |Atoms(e)|
    ensures Meets(Atoms(e)[i], Cell(row, Atoms(e)[i].column))
  {
    var cs := Conjuncts(e);
    ConjunctsSelect(ks, e, row);
    var c, j := AllAtomsFrom(cs, i);
    hide Selects;
    assert Selects(ks, cs[c], row);
    ConjunctMeets(ks, cs[c], row, j);
  }

  // ---------------------------------------------------------------- what statistics say

  lemma {:induction false} NullCounts(values: seq<Value>, i: nat)
    requires i < |values|
    ensures NullCount(values) <= |values|
    ensures NullCount(values) == 0 ==> values[i] != Null
    ensures NullCount(values) == |values| ==> values[i] == Null
  {
    var n := |values| - 1;
    if i < n {
      NullCounts(values[..n], i);
    } else if n > 0 {
      NullCounts(values[..n], 0);
    }
  }

  lemma {:induction false} MinBelow(values: seq<Value>, i: nat)
    requires i < |values| && values[i] != Null
    ensures MinOf(values).Some? && Leq(MinOf(values).value, values[i])
  {
    var n := |values| - 1;
    LeqTotal(values[n], values[n]);
    if i < n {
      MinBelow(values[..n], i);
      var before := MinOf(values[..n]).value;
      LeqTotal(before, values[n]);
      if !Leq(before, values[n]) {
        LeqTransitive(values[n], before, values[i]);
      }
    }
  }

  lemma {:induction false} MaxAbove(values: seq<Value>, i: nat)
    requires i < |values| && values[i] != Null
    ensures MaxOf(values).Some? && Leq(values[i], MaxOf(values).value)
  {
    var n := |values| - 1;
    LeqTotal(values[n], values[n]);
    if i < n {
      MaxAbove(values[..n], i);
      var before := MaxOf(values[..n]).value;
      LeqTotal(before, values[n]);
      if !Leq(values[n], before) {
        LeqTransitive(values[i], before, values[n]);
      }
    }
  }

  ghost predicate AllRanged(values: seq<Value>) { forall i :: 0 <= i < |values| ==> Ranged(values[i]) }

  lemma PresentIsNotAbsent(fs: Filters, col: ColumnSchema, values: seq<Value>, i: nat, v: Value)
    requires i < |values| && values[i] != Null && Same(values[i], v) && AllRanged(values) && Ranged(v)
    requires !col.dataType.TJson?
    ensures var s := StatsOf(fs, col, values);
            s.min.Some? && s.max.Some? && !Absent(fs, s, s.min.value, s.max.value, v)
  {
    MinBelow(values, i);
    MaxAbove(values, i);
    LeqTransitive(MinOf(values).value, values[i], v);
    LeqTransitive(v, values[i], MaxOf(values).value);
    NoFalseNegatives(fs.hash, values, 64 * Words(fs, |values|), (fs.probes)(|values|), i, v);
  }

  /** Statistics exclude no atom that a row meets, JSON comparisons aside. */
  lemma ExcludesSound(fs: Filters, col: ColumnSchema, values: seq<Value>, atom: PruneAtom, i: nat)
    requires i < |values| && AllRanged(values) && AllRanged(atom.values) && Meets(atom, values[i])
    requires atom.op.OnNulls() || !col.dataType.TJson?
    ensures !Excludes(fs, StatsOf(fs, col, values), |values|, atom)
  {
    NullCounts(values, i);
    if !atom.op.OnNulls() {
      var s, v, w := StatsOf(fs, col, values), values[i], atom.values[0];
      MinBelow(values, i);
      MaxAbove(values, i);
      match atom.op
      case PEq => PresentIsNotAbsent(fs, col, values, i, w);
      case PIn =>
        var j :| 0 <= j < |atom.values| && Same(v, atom.values[j]);
        PresentIsNotAbsent(fs, col, values, i, atom.values[j]);
      case PLt => LessLeq(s.min.value, v, w);
      case PLtEq => LeqTransitive(s.min.value, v, w);
      case PGt => LessLeq(w, v, s.max.value);
      case PGtEq => LeqTransitive(w, v, s.max.value);
    }
  }

  // ---------------------------------------------------------------- the theorem

  /** The last column of that name in the schema, whose statistics count. */
  function Find(schema: seq<ColumnSchema>, name: string): Option<ColumnSchema> {
    if schema == [] then None
    else if schema[|schema| - 1].name == name then Some(schema[|schema| - 1])
    else Find(schema[..|schema| - 1], name)
  }

  lemma {:induction false} StatsFound(fs: Filters, schema: seq<ColumnSchema>, rows: seq<Row>, name: string)
    ensures name in ColumnsOf(fs, schema, rows) <==> Find(schema, name).Some?
    ensures Find(schema, name).Some? ==>
              ColumnsOf(fs, schema, rows)[name] == StatsOf(fs, Find(schema, name).value, ColumnValues(rows, name))
  {
    if schema != [] {
      StatsFound(fs, schema[..|schema| - 1], rows, name);
    }
  }

  ghost predicate RowsRanged(rows: seq<Row>) { forall i, c :: 0 <= i < |rows| ==> Ranged(Cell(rows[i], c)) }

  /** No JSON column is compared; testing one for NULL is fine. */
  predicate JsonFree(schema: seq<ColumnSchema>, atoms: seq<PruneAtom>) {
    forall i :: 0 <= i < |atoms| && !atoms[i].op.OnNulls() ==>
      Find(schema, atoms[i].column) == None || !Find(schema, atoms[i].column).value.dataType.TJson?
  }

  ghost predicate AtomsRanged(atoms: seq<PruneAtom>) { forall i :: 0 <= i < |atoms| ==> AllRanged(atoms[i].values) }

  lemma NoMatchInSkipped(fs: Filters, ks: Kernels, schema: seq<ColumnSchema>, rows: seq<Row>, e: Expr, r: nat)
    requires RowsRanged(rows) && AtomsRanged(Atoms(e)) && JsonFree(schema, Atoms(e)) && r < |rows|
    requires CanSkip(fs, MetaOf(fs, schema, rows), Atoms(e))
    ensures !Selects(ks, e, rows[r])
  {
    var atoms, meta := Atoms(e), MetaOf(fs, schema, rows);
    var i :| 0 <= i < |atoms| && atoms[i].column in meta.columns &&
             Excludes(fs, meta.columns[atoms[i].column], meta.rowCount, atoms[i]);
    StatsFound(fs, schema, rows, atoms[i].column);
    if Selects(ks, e, rows[r]) {
      AtomsNecessary(ks, e, rows[r], i);
      var values := ColumnValues(rows, atoms[i].column);
      assert AllRanged(values);
      ExcludesSound(fs, Find(schema, atoms[i].column).value, values, atoms[i], r);
    }
  }

  /** Pruning never changes an answer: a segment that can be skipped holds no row the filter keeps. */
  lemma {:induction false} PruningSound(fs: Filters, ks: Kernels, schema: seq<ColumnSchema>, rows: seq<Row>, e: Expr)
    requires RowsRanged(rows) && AtomsRanged(Atoms(e)) && JsonFree(schema, Atoms(e))
    requires CanSkip(fs, MetaOf(fs, schema, rows), Atoms(e))
    ensures forall r :: 0 <= r < |rows| ==> !Selects(ks, e, rows[r])
    ensures Filter(ks, e, rows) == []
  {
    forall r | 0 <= r < |rows|
      ensures !Selects(ks, e, rows[r])
    {
      NoMatchInSkipped(fs, ks, schema, rows, e, r);
    }
    FilterNone(ks, e, rows);
  }

  lemma {:induction false} FilterNone(ks: Kernels, e: Expr, rows: seq<Row>)
    requires forall r :: 0 <= r < |rows| ==> !Selects(ks, e, rows[r])
    ensures Filter(ks, e, rows) == []
  {
    if rows != [] {
      FilterNone(ks, e, rows[..|rows| - 1]);
    }
  }

  // ---------------------------------------------------------------- JSON columns

  /** Statistics never rule out a matching row of a table with this schema. */
  ghost predicate SafeToPrune(fs: Filters, ks: Kernels, schema: seq<ColumnSchema>, e: Expr) {
    forall rows :: RowsRanged(rows) && CanSkip(fs, MetaOf(fs, schema, rows), Atoms(e)) ==> Filter(ks, e, rows) == []
  }

  ghost predicate RowRanged(row: Row) { forall c :: Ranged(Cell(row, c)) }

  ghost predicate NeverSelects(ks: Kernels, e: Expr) { forall row :: RowRanged(row) ==> !Selects(ks, e, row) }

  /** A comparison with a JSON column, which keeps no minimum, reads as a column without values: every segment is
      skipped. */
  lemma JsonAlwaysSkipped(fs: Filters, schema: seq<ColumnSchema>, rows: seq<Row>, atoms: seq<PruneAtom>)
    requires !JsonFree(schema, atoms)
    ensures CanSkip(fs, MetaOf(fs, schema, rows), atoms)
  {
    var i :| 0 <= i < |atoms| && !atoms[i].op.OnNulls() && Find(schema, atoms[i].column).Some?
             && Find(schema, atoms[i].column).value.dataType.TJson?;
    StatsFound(fs, schema, rows, atoms[i].column);
  }

  /** Pruning by a filter is safe, for every table of a schema, exactly when the filter compares no JSON column in a
      conjunct that is pruned by, or selects nothing anyway. */
  lemma PruneExactly(fs: Filters, ks: Kernels, schema: seq<ColumnSchema>, e: Expr)
    requires AtomsRanged(Atoms(e))
    ensures SafeToPrune(fs, ks, schema, e) <==> JsonFree(schema, Atoms(e)) || NeverSelects(ks, e)
  {
    if JsonFree(schema, Atoms(e)) {
      forall rows | RowsRanged(rows) && CanSkip(fs, MetaOf(fs, schema, rows), Atoms(e))
        ensures Filter(ks, e, rows) == []
      {
        PruningSound(fs, ks, schema, rows, e);
      }
    } else if NeverSelects(ks, e) {
      forall rows | RowsRanged(rows)
        ensures Filter(ks, e, rows) == []
      {
        assert forall i :: 0 <= i < |rows| ==> RowRanged(rows[i]);
        FilterNone(ks, e, rows);
      }
    } else {
      var row :| RowRanged(row) && Selects(ks, e, row);
      JsonAlwaysSkipped(fs, schema, [row], Atoms(e));
      assert [row][..0] == [] && Filter(ks, e, [row]) == [row];
      assert RowsRanged([row]);
    }
  }

  /** An equality on a column is safe to prune by exactly when the column is not JSON: JSON columns
      keep no minimum, which reads as having no value at all. */
  lemma JsonEqualityUnsafe(fs: Filters, ks: Kernels, col: ColumnSchema, s: string)
    ensures SafeToPrune(fs, ks, [col], Binary(Eq, Column(col.name), Literal(Str(s)))) <==> !col.dataType.TJson?
  {
    var e := Binary(Eq, Column(col.name), Literal(Str(s)));
    var atom := PruneAtom(col.name, PEq, [Str(s)]);
    OneAtom(col.name, s);
    assert [col][..0] == [] && Find([col], col.name) == Some(col);
    if col.dataType.TJson? {
      var row: Row := map[col.name := Str(s)];
      JsonSkipped(fs, ks, col, s);
      assert RowsRanged([row]);
    } else {
      forall rows | RowsRanged(rows) && CanSkip(fs, MetaOf(fs, [col], rows), Atoms(e))
        ensures Filter(ks, e, rows) == []
      {
        PruningSound(fs, ks, [col], rows, e);
      }
    }
  }

  lemma OneAtom(column: string, s: string)
    ensures Atoms(Binary(Eq, Column(column), Literal(Str(s)))) == [PruneAtom(column, PEq, [Str(s)])]
  {
    var e := Binary(Eq, Column(column), Literal(Str(s)));
    assert Conjuncts(e) == [e] && [e][..0] == [] && AllAtoms([]) == [];
    assert AtomFor(column, Some(Eq), Str(s)) == [PruneAtom(column, PEq, [Str(s)])];
    assert AtomsOf(e) == AtomFor(column, Some(Eq), Str(s));
    assert AllAtoms([e]) == AllAtoms([e][..0]) + AtomsOf(e);
  }

  lemma JsonSkipped(fs: Filters, ks: Kernels, col: ColumnSchema, s: string)
    requires col.dataType.TJson?
    ensures var row: Row := map[col.name := Str(s)];
            var e := Binary(Eq, Column(col.name), Literal(Str(s)));
            && CanSkip(fs, MetaOf(fs, [col], [row]), [PruneAtom(col.name, PEq, [Str(s)])])
            && Filter(ks, e, [row]) == [row]
  {
    var row: Row := map[col.name := Str(s)];
    var e := Binary(Eq, Column(col.name), Literal(Str(s)));
    StatsFound(fs, [col], [row], col.name);
    assert [col][..0] == [] && [row][..0] == [];
    assert Find([col], col.name) == Some(col);
    LeqTotal(Str(s), Str(s));
    assert Eval(ks, e, row) == Operate(ks, Eq, Str(s), Str(s));
    assert Selects(ks, e, row);
    assert [PruneAtom(col.name, PEq, [Str(s)])][0].column in MetaOf(fs, [col], [row]).columns;
  }
}
