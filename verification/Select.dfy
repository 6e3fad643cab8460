/** Which rows a condition selects, operator by operator, in terms of the values compared
    (crates/adb-exec/src/eval.rs; crates/adb-core/src/types.rs: Ord for Value). */
module Selections {
  import opened Values
  import opened ValueOrder
  import opened Expressions

  // ---------------------------------------------------------------- the order of values

  /** Values of one kind; an integer and a float are. */
  predicate Alike(a: Value, b: Value) {
    match a
    case Null => b.Null?
    case Bool(_) => b.Bool?
    case Int(_) => b.Int? || b.Float?
    case Float(_) => b.Int? || b.Float?
    case Str(_) => b.Str?
    case Timestamp(_) => b.Timestamp?
    case Date(_) => b.Date?
  }

  /** The strings agree up to `k`, where the first one ends or has the smaller character. */
  predicate DecidedAt(s: string, t: string, k: nat) {
    k <= |s| && k <= |t| && s[..k] == t[..k] && (k == |s| || (k < |t| && s[k] < t[k]))
  }

  lemma {:induction false} StringOrder(s: string, t: string)
    ensures StrLeq(s, t) <==> exists k :: DecidedAt(s, t, k)
  {
    if s == [] {
      assert DecidedAt(s, t, 0);
    } else if t != [] && s[0] == t[0] {
      StringOrder(s[1..], t[1..]);
      if StrLeq(s[1..], t[1..]) {
        var k :| DecidedAt(s[1..], t[1..], k);
        OneLater(s, t, k);
      } else {
        forall k
          ensures !DecidedAt(s, t, k)
        {
          if DecidedAt(s, t, k) && k > 0 {
            OneEarlier(s, t, k);
          }
        }
      }
    } else if t != [] && s[0] < t[0] {
      assert DecidedAt(s, t, 0);
    }
  }

  lemma OneLater(s: string, t: string, k: nat)
    requires s != [] && t != [] && s[0] == t[0] && DecidedAt(s[1..], t[1..], k)
    ensures DecidedAt(s, t, k + 1)
  {
    assert s[..k + 1] == [s[0]] + s[1..][..k] && t[..k + 1] == [t[0]] + t[1..][..k];
  }

  lemma OneEarlier(s: string, t: string, k: nat)
    requires s != [] && t != [] && k > 0 && DecidedAt(s, t, k)
    ensures DecidedAt(s[1..], t[1..], k - 1)
  {
    assert s[1..][..k - 1] == s[..k][1..] && t[1..][..k - 1] == t[..k][1..];
  }

  /** Numbers, times and dates are ordered as numbers, false is before true, and strings are ordered by the first
      character that differs, a prefix first. */
  lemma OrderMeans(a: Value, b: Value)
    requires Alike(a, b)
    ensures a.Bool? ==> (Leq(a, b) <==> (a.b ==> b.b))
    ensures a.Int? && b.Int? ==> (Leq(a, b) <==> a.i <= b.i)
    ensures a.Int? && b.Float? ==> (Leq(a, b) <==> a.i as real <= b.f)
    ensures a.Float? && b.Int? ==> (Leq(a, b) <==> a.f <= b.i as real)
    ensures a.Float? && b.Float? ==> (Leq(a, b) <==> a.f <= b.f)
    ensures a.Str? ==> (Leq(a, b) <==> exists k :: DecidedAt(a.s, b.s, k))
    ensures a.Timestamp? ==> (Leq(a, b) <==> a.micros <= b.micros)
    ensures a.Date? ==> (Leq(a, b) <==> a.days <= b.days)
  {
    if a.Str? {
      StringOrder(a.s, b.s);
    }
  }

  // ---------------------------------------------------------------- comparisons

  /** Two values that can be compared. */
  predicate Comparable(a: Value, b: Value) { a != Null && b != Null && Alike(a, b) }

  /** What a comparison asks of two values. */
  predicate InRelation(op: BinaryOp, a: Value, b: Value)
    requires op.IsComparison()
  {
    match op
    case Eq => Leq(a, b) && Leq(b, a)
    case NotEq => !Leq(a, b) || !Leq(b, a)
    case Lt => Leq(a, b) && !Leq(b, a)
    case LtEq => Leq(a, b)
    case Gt => Leq(b, a) && !Leq(a, b)
    case GtEq => Leq(b, a)
  }

  /** The condition is false of the row. */
  predicate Denies(ks: Kernels, e: Expr, row: Row) { Eval(ks, e, row) == Some(Bool(false)) }

  /** The condition is true, false or unknown of the row. */
  predicate Decides(ks: Kernels, e: Expr, row: Row) {
    Eval(ks, e, row).Some? && (Eval(ks, e, row).value.Bool? || Eval(ks, e, row).value.Null?)
  }

  /** A comparison selects exactly the rows on which both sides have values of one kind, not null, and in the
      relation; it denies those on which they are not in the relation. */
  lemma ComparisonSelects(ks: Kernels, op: BinaryOp, left: Expr, right: Expr, row: Row)
    requires op.IsComparison()
    ensures var (a, b) := (Eval(ks, left, row), Eval(ks, right, row));
            && (Selects(ks, Binary(op, left, right), row) <==>
                a.Some? && b.Some? && Comparable(a.value, b.value) && InRelation(op, a.value, b.value))
            && (Denies(ks, Binary(op, left, right), row) <==>
                a.Some? && b.Some? && Comparable(a.value, b.value) && !InRelation(op, a.value, b.value))
  {
    var a, b := Eval(ks, left, row), Eval(ks, right, row);
    ComparisonEval(ks, op, left, right, row);
    if a.Some? && b.Some? {
      CompareMeans(op, a.value, b.value);
    }
    hide Eval, Compare, Comparable, InRelation;
  }

  lemma ComparisonEval(ks: Kernels, op: BinaryOp, left: Expr, right: Expr, row: Row)
    requires op.IsComparison()
    ensures var (a, b) := (Eval(ks, left, row), Eval(ks, right, row));
            Eval(ks, Binary(op, left, right), row) ==
            if a.Some? && b.Some? then Lift(Compare(op, a.value, b.value)) else None
  {
    var e := Binary(op, left, right);
    assert e.op == op && e.left == left && e.right == right && !op.IsLogical();
    hide Compare;
  }

  lemma CompareMeans(op: BinaryOp, a: Value, b: Value)
    requires op.IsComparison()
    ensures Compare(op, a, b) == Some(True) <==> Comparable(a, b) && InRelation(op, a, b)
    ensures Compare(op, a, b) == Some(False) <==> Comparable(a, b) && !InRelation(op, a, b)
  {
    LeqTotal(a, b);
    RankAlike(a, b);
    hide Leq, Rank, Alike;
  }

  lemma RankAlike(a: Value, b: Value)
    ensures Rank(a) == Rank(b) <==> Alike(a, b)
  {
  }

  /** A column compared with a literal. */
  lemma ColumnSelects(ks: Kernels, op: BinaryOp, c: string, w: Value, row: Row)
    requires op.IsComparison()
    ensures Selects(ks, Binary(op, Column(c), Literal(w)), row) <==>
            Comparable(Cell(row, c), w) && InRelation(op, Cell(row, c), w)
  {
    ComparisonSelects(ks, op, Column(c), Literal(w), row);
    assert Eval(ks, Column(c), row) == Some(Cell(row, c)) && Eval(ks, Literal(w), row) == Some(w);
    hide Selects, Cell, Comparable, InRelation;
  }

  /** `!=` selects exactly where `=` is false, and the other way round. */
  lemma UnequalSelects(ks: Kernels, left: Expr, right: Expr, row: Row)
    ensures Selects(ks, Binary(NotEq, left, right), row) <==> Denies(ks, Binary(Eq, left, right), row)
    ensures Denies(ks, Binary(NotEq, left, right), row) <==> Selects(ks, Binary(Eq, left, right), row)
  {
    ComparisonSelects(ks, NotEq, left, right, row);
    ComparisonSelects(ks, Eq, left, right, row);
    hide Selects, Denies, Comparable, Eval;
  }

  // ---------------------------------------------------------------- connectives

  lemma NotSelects(ks: Kernels, inner: Expr, row: Row)
    ensures Selects(ks, Not(inner), row) <==> Denies(ks, inner, row)
    ensures Denies(ks, Not(inner), row) <==> Selects(ks, inner, row)
    ensures Decides(ks, Not(inner), row) <==> Decides(ks, inner, row)
  {
    var e := Not(inner);
    assert e.Not? && e.inner == inner;
  }

  lemma OrSelects(ks: Kernels, left: Expr, right: Expr, row: Row)
    ensures var e := Binary(Or, left, right);
            && (Decides(ks, e, row) <==> Decides(ks, left, row) && Decides(ks, right, row))
            && (Selects(ks, e, row) <==>
                Decides(ks, e, row) && (Selects(ks, left, row) || Selects(ks, right, row)))
            && (Denies(ks, e, row) <==> Denies(ks, left, row) && Denies(ks, right, row))
  {
    ConnectiveEval(ks, Or, left, right, row);
    hide Eval;
  }

  lemma AndSelects(ks: Kernels, left: Expr, right: Expr, row: Row)
    ensures var e := Binary(And, left, right);
            && (Decides(ks, e, row) <==> Decides(ks, left, row) && Decides(ks, right, row))
            && (Selects(ks, e, row) <==> Selects(ks, left, row) && Selects(ks, right, row))
            && (Denies(ks, e, row) <==>
                Decides(ks, e, row) && (Denies(ks, left, row) || Denies(ks, right, row)))
  {
    ConnectiveEval(ks, And, left, right, row);
    hide Eval;
  }

  lemma ConnectiveEval(ks: Kernels, op: BinaryOp, left: Expr, right: Expr, row: Row)
    requires op.IsLogical()
    ensures var (a, b) := (Eval(ks, left, row), Eval(ks, right, row));
            Eval(ks, Binary(op, left, right), row) ==
            if a.Some? && b.Some? then Operate(ks, op, a.value, b.value) else None
  {
    var e := Binary(op, left, right);
    assert e.op == op && e.left == left && e.right == right;
  }

  /** IS NULL and IS NOT NULL select by whether the value is null, and are never unknown. */
  lemma NullSelects(ks: Kernels, inner: Expr, row: Row)
    ensures var v := Eval(ks, inner, row);
            && (Selects(ks, IsNull(inner), row) <==> v == Some(Null))
            && (Denies(ks, IsNull(inner), row) <==> v.Some? && v != Some(Null))
            && (Selects(ks, IsNotNull(inner), row) <==> v.Some? && v != Some(Null))
            && (Denies(ks, IsNotNull(inner), row) <==> v == Some(Null))
  {
    var e, f := IsNull(inner), IsNotNull(inner);
    assert e.IsNull? && e.inner == inner && f.IsNotNull? && f.inner == inner;
  }

  // ---------------------------------------------------------------- BETWEEN and IN

  /** The two comparisons a BETWEEN stands for. */
  function Bounds(inner: Expr, low: Value, high: Value): Expr {
    Binary(And, Binary(GtEq, inner, Literal(low)), Binary(LtEq, inner, Literal(high)))
  }

  /** BETWEEN is its two comparisons, and NOT BETWEEN their negation. */
  lemma BetweenIsBounds(ks: Kernels, inner: Expr, low: Value, high: Value, row: Row)
    ensures Eval(ks, Between(inner, low, high, false), row) == Eval(ks, Bounds(inner, low, high), row)
    ensures Eval(ks, Between(inner, low, high, true), row) == Eval(ks, Not(Bounds(inner, low, high)), row)
  {
    hide *;
    BetweenEval(ks, inner, low, high, row);
    BoundsEval(ks, inner, low, high, row);
    NotEval(ks, Bounds(inner, low, high), row);
    if Eval(ks, inner, row).Some? {
      NegatedTwice(Within(Eval(ks, inner, row).value, low, high));
    }
  }

  lemma BoundsEval(ks: Kernels, inner: Expr, low: Value, high: Value, row: Row)
    ensures var v := Eval(ks, inner, row);
            Eval(ks, Bounds(inner, low, high), row) ==
            if v.Some? then Lift(Within(v.value, low, high)) else None
  {
    ComparisonEval(ks, GtEq, inner, Literal(low), row);
    ComparisonEval(ks, LtEq, inner, Literal(high), row);
    assert Eval(ks, Literal(low), row) == Some(low) && Eval(ks, Literal(high), row) == Some(high);
    ConnectiveEval(ks, And, Binary(GtEq, inner, Literal(low)), Binary(LtEq, inner, Literal(high)), row);
    if Eval(ks, inner, row).Some? {
      var v := Eval(ks, inner, row).value;
      BothLifted(ks, Compare(GtEq, v, low), Compare(LtEq, v, high));
    }
    hide Eval, Compare, Operate, Lift, Both;
  }

  lemma BothLifted(ks: Kernels, a: Option<Truth>, b: Option<Truth>)
    ensures Lift(Both(AndKleene, a, b)) ==
            if Lift(a).Some? && Lift(b).Some? then Operate(ks, And, Lift(a).value, Lift(b).value) else None
  {
  }

  lemma NegatedTwice(t: Option<Truth>)
    ensures Lift(Negate(t, false)) == Lift(t)
    ensures Lift(Negate(t, true)) ==
            match Lift(t)
            case Some(v) => (match AsTruth(v) case Some(u) => Some(OfTruth(NotKleene(u))) case None => None)
            case None => None
  {
  }

  lemma NotEval(ks: Kernels, inner: Expr, row: Row)
    ensures var v := Eval(ks, inner, row);
            Eval(ks, Not(inner), row) ==
            match v
            case Some(w) => (match AsTruth(w) case Some(u) => Some(OfTruth(NotKleene(u))) case None => None)
            case None => None
  {
    var e := Not(inner);
    assert e.Not? && e.inner == inner;
  }

  lemma BetweenEval(ks: Kernels, inner: Expr, low: Value, high: Value, row: Row)
    ensures var v := Eval(ks, inner, row);
            forall negated :: Eval(ks, Between(inner, low, high, negated), row) ==
                              if v.Some? then Lift(Negate(Within(v.value, low, high), negated)) else None
  {
    forall negated
      ensures var v := Eval(ks, inner, row);
              Eval(ks, Between(inner, low, high, negated), row) ==
              if v.Some? then Lift(Negate(Within(v.value, low, high), negated)) else None
    {
      var e := Between(inner, low, high, negated);
      assert e.Between? && e.expr == inner;
      hide Within;
    }
  }

  /** IN selects the rows whose value is in the list, and NOT IN those whose value differs from all of it, none of
      them null; a list that is empty or has a value of another kind selects nothing. */
  lemma ListSelects(ks: Kernels, inner: Expr, list: seq<Value>, row: Row)
    ensures var v := Eval(ks, inner, row);
            && (Selects(ks, InList(inner, list, false), row) <==>
                v.Some? && list != [] && !Mismatched(v.value, list) && IsMember(v.value, list))
            && (Selects(ks, InList(inner, list, true), row) <==>
                v.Some? && list != [] && !Mismatched(v.value, list) && IsNotMember(v.value, list))
  {
    var e, f := InList(inner, list, false), InList(inner, list, true);
    assert e.InList? && e.expr == inner && f.InList? && f.expr == inner;
    if Eval(ks, inner, row).Some? {
      MemberMeans(Eval(ks, inner, row).value, list);
    }
    hide Member, Mismatched, IsMember, IsNotMember;
  }

  // ---------------------------------------------------------------- filters

  /** A filter keeps the rows it selects, each as often as it occurs; `FilterAppend` says that it keeps their order. */
  lemma {:induction false} FilterKeeps(ks: Kernels, e: Expr, rows: seq<Row>, row: Row)
    ensures multiset(Filter(ks, e, rows))[row] == if Selects(ks, e, row) then multiset(rows)[row] else 0
  {
    if rows != [] {
      var init := rows[..|rows| - 1];
      FilterKeeps(ks, e, init, row);
      assert rows == init + [rows[|rows| - 1]];
      hide Selects;
    }
  }
}
