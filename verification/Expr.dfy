/** Scalar expressions and their three-valued evaluation on one row
    (crates/adb-planner/src/expr.rs; crates/adb-exec/src/eval.rs).

    Arithmetic and LIKE are library kernels and stay parameters. Evaluation can fail: on mismatched
    types, an empty IN list, or whatever a kernel reports. */
module Expressions {
  import opened Values
  import opened ValueOrder

  datatype BinaryOp = Eq | NotEq | Lt | LtEq | Gt | GtEq | And | Or | Add | Sub | Mul | Div | Like
  {
    predicate IsComparison() { Eq? || NotEq? || Lt? || LtEq? || Gt? || GtEq? }

    predicate IsLogical() { And? || Or? }

    predicate IsArithmetic() { Add? || Sub? || Mul? || Div? }

    /** The operator that means the same with the operands swapped. */
    function Flipped(): Option<BinaryOp> {
      match this
      case Eq => Some(Eq)
      case NotEq => Some(NotEq)
      case Lt => Some(Gt)
      case LtEq => Some(GtEq)
      case Gt => Some(Lt)
      case GtEq => Some(LtEq)
      case _ => None
    }
  }

  datatype Expr =
    | Column(name: string)
    | Literal(value: Value)
    | Binary(op: BinaryOp, left: Expr, right: Expr)
    | Not(inner: Expr)
    | IsNull(inner: Expr)
    | IsNotNull(inner: Expr)
    | InList(expr: Expr, list: seq<Value>, negated: bool)
    | Between(expr: Expr, low: Value, high: Value, negated: bool)

  /** Arithmetic and LIKE on two non-null values; nothing when the kernel reports an error. */
  type Kernels = (BinaryOp, Value, Value) -> Option<Value>

  // ---------------------------------------------------------------- three-valued logic

  datatype Truth = True | False | Unknown

  function AndKleene(a: Truth, b: Truth): Truth {
    if a == False || b == False then False else if a == True && b == True then True else Unknown
  }

  function OrKleene(a: Truth, b: Truth): Truth {
    if a == True || b == True then True else if a == False && b == False then False else Unknown
  }

  function NotKleene(a: Truth): Truth {
    match a case True => False case False => True case Unknown => Unknown
  }

  function OfBool(b: bool): Truth { if b then True else False }

  function OfTruth(t: Truth): Value {
    match t case True => Bool(true) case False => Bool(false) case Unknown => Null
  }

  /** A boolean result; other values are not predicates. */
  function AsTruth(v: Value): Option<Truth> {
    match v case Bool(b) => Some(OfBool(b)) case Null => Some(Unknown) case _ => None
  }

  /** A comparison of two values: unknown on NULL, an error on different types. */
  function Compare(op: BinaryOp, a: Value, b: Value): Option<Truth>
    requires op.IsComparison()
  {
    if a == Null || b == Null then Some(Unknown)
    else if Rank(a) != Rank(b) then None
    else
      Some(OfBool(match op
        case Eq => Same(a, b)
        case NotEq => !Same(a, b)
        case Lt => Less(a, b)
        case LtEq => Leq(a, b)
        case Gt => Less(b, a)
        case GtEq => Leq(b, a)))
  }

  function Both(f: (Truth, Truth) -> Truth, a: Option<Truth>, b: Option<Truth>): Option<Truth> {
    if a.Some? && b.Some? then Some(f(a.value, b.value)) else None
  }

  /** Membership as the mask the loop over the list builds; an empty list is an error. */
  function Member(v: Value, list: seq<Value>): Option<Truth> {
    if list == [] then None
    else
      var last := Compare(Eq, v, list[|list| - 1]);
      if |list| == 1 then last else Both(OrKleene, Member(v, list[..|list| - 1]), last)
  }

  function Within(v: Value, low: Value, high: Value): Option<Truth> {
    Both(AndKleene, Compare(GtEq, v, low), Compare(LtEq, v, high))
  }

  function Negate(t: Option<Truth>, negated: bool): Option<Truth> {
    if t.Some? && negated then Some(NotKleene(t.value)) else t
  }

  function Lift(t: Option<Truth>): Option<Value> { if t.Some? then Some(OfTruth(t.value)) else None }

  function Logical(op: BinaryOp, a: Truth, b: Truth): Truth { if op == And then AndKleene(a, b) else OrKleene(a, b) }

  function Operate(ks: Kernels, op: BinaryOp, a: Value, b: Value): Option<Value> {
    if op.IsLogical() then
      match (AsTruth(a), AsTruth(b))
      case (Some(x), Some(y)) => Some(OfTruth(Logical(op, x, y)))
      case _ => None
    else if op.IsComparison() then Lift(Compare(op, a, b))
    else if a == Null || b == Null then Some(Null)
    else ks(op, a, b)
  }

  /** The value of an expression on a row, or nothing when evaluation fails. */
  function Eval(ks: Kernels, e: Expr, row: Row): Option<Value> {
    match e
    case Column(name) => Some(Cell(row, name))
    case Literal(v) => Some(v)
    case Binary(op, left, right) =>
      (match (Eval(ks, left, row), Eval(ks, right, row))
       case (Some(a), Some(b)) => Operate(ks, op, a, b)
       case _ => None)
    case Not(inner) =>
      (match Eval(ks, inner, row)
       case Some(v) => (match AsTruth(v) case Some(t) => Some(OfTruth(NotKleene(t))) case None => None)
       case None => None)
    case IsNull(inner) => (match Eval(ks, inner, row) case Some(v) => Some(Bool(v == Null)) case None => None)
    case IsNotNull(inner) => (match Eval(ks, inner, row) case Some(v) => Some(Bool(v != Null)) case None => None)
    case InList(inner, list, negated) =>
      (match Eval(ks, inner, row) case Some(v) => Lift(Negate(Member(v, list), negated)) case None => None)
    case Between(inner, low, high, negated) =>
      (match Eval(ks, inner, row) case Some(v) => Lift(Negate(Within(v, low, high), negated)) case None => None)
  }

  /** The filter mask: a row whose predicate is unknown is not returned. */
  predicate Selects(ks: Kernels, e: Expr, row: Row) { Eval(ks, e, row) == Some(Bool(true)) }

  /** The rows a filter keeps. */
  function Filter(ks: Kernels, e: Expr, rows: seq<Row>): seq<Row> {
    if rows == [] then []
    else
      var last := rows[|rows| - 1];
      Filter(ks, e, rows[..|rows| - 1]) + (if Selects(ks, e, last) then [last] else [])
  }

  /** The value cannot be compared with one of the list. */
  predicate Mismatched(v: Value, list: seq<Value>) {
    v != Null && exists i :: 0 <= i < |list| && list[i] != Null && Rank(list[i]) != Rank(v)
  }

  /** The value is in the list. */
  predicate IsMember(v: Value, list: seq<Value>) {
    v != Null && exists i :: 0 <= i < |list| && list[i] != Null && Same(v, list[i])
  }

  /** The value is not in the list, and no null leaves that open. */
  predicate IsNotMember(v: Value, list: seq<Value>) {
    v != Null && forall i :: 0 <= i < |list| ==> list[i] != Null && !Same(v, list[i])
  }

  lemma MemberSnoc(v: Value, list: seq<Value>)
    requires list != []
    ensures var init, w := list[..|list| - 1], list[|list| - 1];
            && (Mismatched(v, list) <==> Mismatched(v, init) || Compare(Eq, v, w) == None)
            && (IsMember(v, list) <==> IsMember(v, init) || (v != Null && w != Null && Same(v, w)))
            && (IsNotMember(v, list) <==> IsNotMember(v, init) && (v != Null && w != Null && !Same(v, w)))
  {
    var init := list[..|list| - 1];
    assert forall i :: 0 <= i < |init| ==> init[i] == list[i];
    hide Rank, Same;
  }

  /** SQL membership: an error on an empty list or values of another type; otherwise true if the value is in the
      list, false if it is not and no null is involved, and unknown if that hinges on a null. */
  lemma {:induction false} MemberMeans(v: Value, list: seq<Value>)
    ensures Member(v, list) == None <==> list == [] || Mismatched(v, list)
    ensures Member(v, list).Some? ==>
              && (Member(v, list) == Some(True) <==> IsMember(v, list))
              && (Member(v, list) == Some(False) <==> IsNotMember(v, list))
  {
    if list != [] {
      MemberSnoc(v, list);
      var init, w := list[..|list| - 1], list[|list| - 1];
      if init != [] {
        MemberMeans(v, init);
      }
      hide Rank, Same, Mismatched, IsMember, IsNotMember;
      if init == [] {
        NothingMember(v);
      }
    }
  }

  lemma NothingMember(v: Value)
    ensures !Mismatched(v, []) && !IsMember(v, []) && (IsNotMember(v, []) <==> v != Null)
  {
  }

  /** The IN-list mask, built value by value. */
  method MemberMask(v: Value, list: seq<Value>) returns (mask: Option<Truth>)
    ensures mask == Member(v, list)
    ensures mask == None <==> list == [] || Mismatched(v, list)
    ensures mask.Some? ==> (mask == Some(True) <==> IsMember(v, list))
    ensures mask.Some? ==> (mask == Some(False) <==> IsNotMember(v, list))
  {
    if list == [] {
      return None;
    }
    MemberMeans(v, list);
    hide Mismatched, IsMember, IsNotMember, Compare;
    mask := Compare(Eq, v, list[0]);
    for i := 1 to |list|
      invariant mask == Member(v, list[..i])
    {
      assert list[..i + 1][..i] == list[..i];
      mask := Both(OrKleene, mask, Compare(Eq, v, list[i]));
    }
    assert list[..|list|] == list;
  }

  // ---------------------------------------------------------------- conjuncts

  function Conjuncts(e: Expr): (cs: seq<Expr>)
    ensures cs != []
  {
    if e.Binary? && e.op == And then Conjuncts(e.left) + Conjuncts(e.right) else [e]
  }

  ghost predicate AllSelect(ks: Kernels, cs: seq<Expr>, row: Row) {
    forall i :: 0 <= i < |cs| ==> Selects(ks, cs[i], row)
  }

  /** A predicate selects a row exactly when all its conjuncts do. */
  lemma {:induction false} ConjunctsSelect(ks: Kernels, e: Expr, row: Row)
    ensures Selects(ks, e, row) <==> AllSelect(ks, Conjuncts(e), row)
  {
    if e.Binary? && e.op == And {
      ConjunctsSelect(ks, e.left, row);
      ConjunctsSelect(ks, e.right, row);
      BothSelect(ks, e.left, e.right, row);
      AllSelectConcat(ks, Conjuncts(e.left), Conjuncts(e.right), row);
      hide Selects, AllSelect;
    } else {
      assert Conjuncts(e) == [e] && [e][0] == e;
      OneSelects(ks, e, row);
    }
  }

  lemma OneSelects(ks: Kernels, e: Expr, row: Row)
    ensures AllSelect(ks, [e], row) <==> Selects(ks, e, row)
  {
    assert [e][0] == e;
  }

  lemma AllSelectConcat(ks: Kernels, a: seq<Expr>, b: seq<Expr>, row: Row)
    ensures AllSelect(ks, a + b, row) <==> AllSelect(ks, a, row) && AllSelect(ks, b, row)
  {
    hide Selects;
    assert forall i :: 0 <= i < |a| ==> (a + b)[i] == a[i];
    assert forall i :: 0 <= i < |b| ==> (a + b)[|a| + i] == b[i];
  }

  lemma BothSelect(ks: Kernels, a: Expr, b: Expr, row: Row)
    ensures Selects(ks, Binary(And, a, b), row) <==> Selects(ks, a, row) && Selects(ks, b, row)
  {
    var x, y := Eval(ks, a, row), Eval(ks, b, row);
    var both := Binary(And, a, b);
    assert both.op == And && both.left == a && both.right == b;
    if x.Some? && y.Some? {
      assert Eval(ks, both, row) == Operate(ks, And, x.value, y.value);
      assert And.IsLogical();
    } else {
      assert Eval(ks, both, row) == None;
    }
  }

  /** A flipped operator means the same with the operands swapped. */
  lemma FlippedMeans(op: BinaryOp, a: Value, b: Value)
    requires op.IsComparison()
    ensures op.Flipped().Some? && op.Flipped().value.IsComparison()
    ensures Compare(op.Flipped().value, b, a) == Compare(op, a, b)
  {
  }

  // ---------------------------------------------------------------- columns

  function Columns(e: Expr): set<string> {
    match e
    case Column(name) => {name}
    case Literal(_) => {}
    case Binary(_, left, right) => Columns(left) + Columns(right)
    case Not(inner) => Columns(inner)
    case IsNull(inner) => Columns(inner)
    case IsNotNull(inner) => Columns(inner)
    case InList(inner, _, _) => Columns(inner)
    case Between(inner, _, _, _) => Columns(inner)
  }

  /** Replaces column references through `m`; a reference outside it is an error. */
  function Rewrite(e: Expr, m: map<string, string>): Option<Expr> {
    match e
    case Column(name) => if name in m then Some(Column(m[name])) else None
    case Literal(v) => Some(e)
    case Binary(op, left, right) =>
      (match (Rewrite(left, m), Rewrite(right, m)) case (Some(a), Some(b)) => Some(Binary(op, a, b)) case _ => None)
    case Not(inner) => (match Rewrite(inner, m) case Some(i) => Some(Not(i)) case None => None)
    case IsNull(inner) => (match Rewrite(inner, m) case Some(i) => Some(IsNull(i)) case None => None)
    case IsNotNull(inner) => (match Rewrite(inner, m) case Some(i) => Some(IsNotNull(i)) case None => None)
    case InList(inner, list, negated) =>
      (match Rewrite(inner, m) case Some(i) => Some(InList(i, list, negated)) case None => None)
    case Between(inner, low, high, negated) =>
      (match Rewrite(inner, m) case Some(i) => Some(Between(i, low, high, negated)) case None => None)
  }

  /** Evaluation depends on the referenced columns only. */
  lemma {:induction false} EvalDepends(ks: Kernels, e: Expr, row: Row, row': Row)
    requires forall c :: c in Columns(e) ==> Cell(row, c) == Cell(row', c)
    ensures Eval(ks, e, row) == Eval(ks, e, row')
  {
    match e
    case Column(name) =>
    case Literal(_) =>
    case Binary(_, left, right) =>
      EvalDepends(ks, left, row, row');
      EvalDepends(ks, right, row, row');
    case Not(inner) => EvalDepends(ks, inner, row, row');
    case IsNull(inner) => EvalDepends(ks, inner, row, row');
    case IsNotNull(inner) => EvalDepends(ks, inner, row, row');
    case InList(inner, _, _) => EvalDepends(ks, inner, row, row');
    case Between(inner, _, _, _) => EvalDepends(ks, inner, row, row');
  }

  /** A rewritten expression evaluates on a row as the original does on the renamed row. */
  lemma {:induction false} RewriteEval(ks: Kernels, e: Expr, m: map<string, string>, row: Row, renamed: Row)
    requires Rewrite(e, m).Some?
    requires forall c :: c in m ==> Cell(renamed, c) == Cell(row, m[c])
    ensures Eval(ks, Rewrite(e, m).value, row) == Eval(ks, e, renamed)
    ensures forall c :: c in Columns(Rewrite(e, m).value) ==> exists d :: d in Columns(e) && d in m && m[d] == c
  {
    match e
    case Column(name) =>
    case Literal(_) =>
    case Binary(_, left, right) =>
      RewriteEval(ks, left, m, row, renamed);
      RewriteEval(ks, right, m, row, renamed);
    case Not(inner) => RewriteEval(ks, inner, m, row, renamed);
    case IsNull(inner) => RewriteEval(ks, inner, m, row, renamed);
    case IsNotNull(inner) => RewriteEval(ks, inner, m, row, renamed);
    case InList(inner, _, _) => RewriteEval(ks, inner, m, row, renamed);
    case Between(inner, _, _, _) => RewriteEval(ks, inner, m, row, renamed);
  }
}
