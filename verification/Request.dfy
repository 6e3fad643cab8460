/** What a query asks for, said node by node, and that validation accepts exactly the queries that make sense and
    asks for the same (crates/adb-planner/src/validate.rs; expr.rs: coerce_literal). */
module Requests {
  import opened Values
  import opened ValueOrder
  import opened Expressions
  import opened Renamings
  import opened Pruning
  import opened AggStates
  import opened Aggregation
  import opened Labels
  import opened Plans
  import opened Validation

  // ---------------------------------------------------------------- literals

  /** The value is of the type as it stands. */
  predicate OfType(ty: DataType, v: Value) {
    match ty
    case TBool => v.Bool?
    case TInt64 => v.Int?
    case TFloat64 => v.Float?
    case TUtf8 => v.Str?
    case TUuid => v.Str?
    case TJson => v.Str?
    case TTimestamp => v.Timestamp?
    case TDate => v.Date?
  }

  /** Microseconds since the epoch, given as seconds, milliseconds or microseconds. */
  predicate EpochOf(i: int, micros: int) {
    if -100_000_000_000 < i < 100_000_000_000 then micros == 1_000_000 * i
    else if -100_000_000_000_000 < i < 100_000_000_000_000 then micros == 1_000 * i
    else micros == i
  }

  /** The value that a literal stands for where a value of the type is expected. One of the type stays itself, a
      number stays the same number, and times and dates can be given as strings or numbers. */
  ghost predicate ReadAs(t: Table, ty: Option<DataType>, w: Value, w': Value) {
    if ty == None || w == Null || OfType(ty.value, w) then w' == w
    else match ty.value
      case TInt64 =>
        w.Float? && w'.Int? && w.f.Floor as real == w.f &&
        (if w.f > MAX64 as real then w'.i == MAX64 else if w.f < MIN64 as real then w'.i == MIN64
         else w'.i as real == w.f)
      case TFloat64 => w.Int? && w' == Float(w.i as real)
      case TTimestamp =>
        && w'.Timestamp? && (w.Str? || w.Int?)
        && (w.Str? ==> (t.timestamp)(w.s) == Some(w'.micros)) && (w.Int? ==> EpochOf(w.i, w'.micros))
      case TDate =>
        && w'.Date? && (w.Str? || w.Int?) && (w.Str? ==> (t.date)(w.s) == Some(w'.days))
        && (w.Int? ==> w'.days == w.i && -0x8000_0000 <= w.i < 0x8000_0000)
      case _ => false
  }

  ghost predicate Readable(t: Table, ty: Option<DataType>, w: Value) { exists w' :: ReadAs(t, ty, w, w') }

  lemma EpochMeans(i: int)
    ensures EpochOf(i, EpochMicros(i))
  {
  }

  lemma CoerceReads(t: Table, w: Value, ty: DataType)
    ensures Coerce(t, w, ty).Some? ==> ReadAs(t, Some(ty), w, Coerce(t, w, ty).value)
    ensures forall w' :: ReadAs(t, Some(ty), w, w') ==> Coerce(t, w, ty) == Some(w')
  {
    if w.Int? {
      EpochMeans(w.i);
    }
    forall w' | ReadAs(t, Some(ty), w, w')
      ensures Coerce(t, w, ty) == Some(w')
    {
      if ty.TInt64? && w.Float? {
        IntegerOf(w.f, w'.i);
      }
    }
    if ty.TInt64? && w.Float? && w.f.Floor as real == w.f {
      Rounded(w.f);
    }
    hide EpochMicros;
  }

  lemma Rounded(f: real)
    requires f.Floor as real == f
    ensures f > MAX64 as real ==> Saturate(f.Floor) == MAX64
    ensures f < MIN64 as real ==> Saturate(f.Floor) == MIN64
    ensures MIN64 as real <= f <= MAX64 as real ==> Saturate(f.Floor) as real == f
  {
  }

  lemma IntegerOf(f: real, i: int)
    requires f.Floor as real == f
    requires if f > MAX64 as real then i == MAX64 else if f < MIN64 as real then i == MIN64 else i as real == f
    ensures i == Saturate(f.Floor)
  {
  }

  // ---------------------------------------------------------------- conditions

  /** The type of an expression over the columns; an untyped NULL has none. */
  function TypeIn(schema: seq<OutputColumn>, e: Expr): Option<DataType> {
    match e
    case Column(name) => Some(TypeAt(schema, name))
    case Literal(v) => TypeOf(v)
    case Binary(op, left, right) =>
      var l, r := TypeIn(schema, left), TypeIn(schema, right);
      var floats := LeftOf(left, right, l, r) == Some(TFloat64) || RightOf(right, l, r) == Some(TFloat64);
      Some(if !op.IsArithmetic() then TBool else if floats then TFloat64 else TInt64)
    case _ => Some(TBool)
  }

  /** The type that the left operand is read as: a literal takes that of the other side, unless that is one too. */
  function LeftOf(left: Expr, right: Expr, l: Option<DataType>, r: Option<DataType>): Option<DataType> {
    if left.Literal? && r.Some? && !(right.Literal? && l.Some?) then r else l
  }

  function RightOf(right: Expr, l: Option<DataType>, r: Option<DataType>): Option<DataType> {
    if right.Literal? && l.Some? then l else r
  }

  function LeftType(schema: seq<OutputColumn>, left: Expr, right: Expr): Option<DataType> {
    LeftOf(left, right, TypeIn(schema, left), TypeIn(schema, right))
  }

  function RightType(schema: seq<OutputColumn>, left: Expr, right: Expr): Option<DataType> {
    RightOf(right, TypeIn(schema, left), TypeIn(schema, right))
  }

  /** The operator reads a literal operand as the type of the other side. */
  predicate Coerces(op: BinaryOp) { op.IsComparison() || op.IsArithmetic() }

  /** The second condition asks what the first one does: the same operators, columns and negations, and literals
      that are read as the type they meet. */
  ghost predicate CondFollows(t: Table, schema: seq<OutputColumn>, e: Expr, e': Expr) {
    match e
    case Column(_) => e' == e
    case Literal(_) => e' == e
    case Not(inner) => e'.Not? && CondFollows(t, schema, inner, e'.inner)
    case IsNull(inner) => e'.IsNull? && CondFollows(t, schema, inner, e'.inner)
    case IsNotNull(inner) => e'.IsNotNull? && CondFollows(t, schema, inner, e'.inner)
    case InList(inner, list, negated) =>
      && e'.InList? && e'.negated == negated && CondFollows(t, schema, inner, e'.expr)
      && AllReadAs(t, TypeIn(schema, inner), list, e'.list)
    case Between(inner, low, high, negated) =>
      && e'.Between? && e'.negated == negated && CondFollows(t, schema, inner, e'.expr)
      && ReadAs(t, TypeIn(schema, inner), low, e'.low) && ReadAs(t, TypeIn(schema, inner), high, e'.high)
    case Binary(op, left, right) =>
      && e'.Binary? && e'.op == op
      && (if Coerces(op) && left.Literal?
          then e'.left.Literal? && ReadAs(t, LeftType(schema, left, right), left.value, e'.left.value)
          else CondFollows(t, schema, left, e'.left))
      && (if Coerces(op) && right.Literal?
          then e'.right.Literal? && ReadAs(t, RightType(schema, left, right), right.value, e'.right.value)
          else CondFollows(t, schema, right, e'.right))
  }

  ghost predicate AllReadAs(t: Table, ty: Option<DataType>, list: seq<Value>, list': seq<Value>) {
    |list'| == |list| && forall i :: 0 <= i < |list| ==> ReadAs(t, ty, list[i], list'[i])
  }

  predicate Boolean(ty: Option<DataType>) { ty == None || ty == Some(TBool) }

  predicate Numeric(ty: Option<DataType>) { ty == Some(TInt64) || ty == Some(TFloat64) }

  /** The operand types that a comparison or an arithmetic operator takes. */
  predicate Compatible(op: BinaryOp, l: Option<DataType>, r: Option<DataType>) {
    if op.IsArithmetic() then Numeric(l) && Numeric(r)
    else l.Some? && r.Some? ==> (l == r || (Numeric(l) && Numeric(r))) && (l == Some(TJson) ==> op == Eq || op == NotEq)
  }

  /** The condition makes sense over the columns. */
  ghost predicate TypeChecks(t: Table, schema: seq<OutputColumn>, e: Expr) {
    match e
    case Column(name) => name in NamesOf(schema)
    case Literal(_) => true
    case Not(inner) => TypeChecks(t, schema, inner) && Boolean(TypeIn(schema, inner))
    case IsNull(inner) => TypeChecks(t, schema, inner)
    case IsNotNull(inner) => TypeChecks(t, schema, inner)
    case InList(inner, list, _) =>
      && TypeChecks(t, schema, inner) && list != []
      && forall i :: 0 <= i < |list| ==> Readable(t, TypeIn(schema, inner), list[i])
    case Between(inner, low, high, _) =>
      TypeChecks(t, schema, inner) && InRange(t, TypeIn(schema, inner), low, high)
    case Binary(op, left, right) =>
      && TypeChecks(t, schema, left) && TypeChecks(t, schema, right)
      && (op.IsLogical() ==> Boolean(TypeIn(schema, left)) && Boolean(TypeIn(schema, right)))
      && (op == Like ==>
            && TypeIn(schema, left) in {None, Some(TUtf8), Some(TUuid)} && right.Literal? && right.value.Str?)
      && (Coerces(op) ==>
            && (left.Literal? ==> Readable(t, LeftType(schema, left, right), left.value))
            && (right.Literal? ==> Readable(t, RightType(schema, left, right), right.value))
            && Compatible(op, LeftType(schema, left, right), RightType(schema, left, right)))
  }

  /** The bounds of a BETWEEN can be read and are in order. */
  ghost predicate InRange(t: Table, ty: Option<DataType>, low: Value, high: Value) {
    exists low', high' :: ReadAs(t, ty, low, low') && ReadAs(t, ty, high, high') && Leq(low', high')
  }

  // ---------------------------------------------------------------- validation of conditions is exact

  function CoerceTo(t: Table, ty: Option<DataType>, w: Value): Option<Value> {
    if ty.Some? then Coerce(t, w, ty.value) else Some(w)
  }

  lemma ReadsExactly(t: Table, ty: Option<DataType>, w: Value)
    ensures Readable(t, ty, w) <==> CoerceTo(t, ty, w).Some?
    ensures forall w' :: ReadAs(t, ty, w, w') <==> CoerceTo(t, ty, w) == Some(w')
  {
    if ty.Some? {
      CoerceReads(t, w, ty.value);
    }
    if CoerceTo(t, ty, w).Some? {
      assert ReadAs(t, ty, w, CoerceTo(t, ty, w).value);
    }
    hide ReadAs, Coerce;
  }

  /** A literal is of its own type. */
  lemma OwnType(t: Table, w: Value)
    ensures CoerceTo(t, TypeOf(w), w) == Some(w)
  {
  }

  lemma {:induction false} ListReads(t: Table, ty: Option<DataType>, list: seq<Value>)
    ensures var c := if ty.Some? then CoerceAll(t, list, ty.value) else Some(list);
            && (c.Some? <==> forall i :: 0 <= i < |list| ==> Readable(t, ty, list[i]))
            && (c.Some? ==> AllReadAs(t, ty, list, c.value))
  {
    if list != [] {
      var n := |list| - 1;
      ListReads(t, ty, list[..n]);
      ReadsExactly(t, ty, list[n]);
      assert forall i :: 0 <= i < n ==> list[..n][i] == list[i];
      hide ReadAs, Coerce, Readable;
      if ty == None {
        forall i | 0 <= i < |list|
          ensures Readable(t, ty, list[i]) && ReadAs(t, ty, list[i], list[i])
        {
          ReadsExactly(t, ty, list[i]);
        }
      }
    }
  }

  lemma BoundsRead(t: Table, ty: Option<DataType>, low: Value, high: Value)
    ensures var (l, h) := (CoerceTo(t, ty, low), CoerceTo(t, ty, high));
            && (InRange(t, ty, low, high) <==> l.Some? && h.Some? && !Less(h.value, l.value))
            && (l.Some? && h.Some? ==> ReadAs(t, ty, low, l.value) && ReadAs(t, ty, high, h.value))
  {
    ReadsExactly(t, ty, low);
    ReadsExactly(t, ty, high);
    hide ReadAs, CoerceTo, Leq;
  }

  /** What checking says of an expression: whether it makes sense, its type, and that its result asks the same. */
  ghost predicate CheckedExactly(t: Table, schema: seq<OutputColumn>, e: Expr) {
    var c := CheckExpr(t, schema, e);
    && (c.Some? <==> TypeChecks(t, schema, e))
    && (c.Some? ==>
          && c.value.ty == TypeIn(schema, e) && CondFollows(t, schema, e, c.value.expr)
          && (e.Literal? ==> c.value.expr == e) && (c.value.expr.Literal? ==> e.Literal?))
  }

  lemma AdoptExactly(t: Table, schema: seq<OutputColumn>, left: Expr, right: Expr, l: Typed, r: Typed)
    requires l.ty == TypeIn(schema, left) && (left.Literal? ==> l.expr == left) && (l.expr.Literal? ==> left.Literal?)
    requires r.ty == TypeIn(schema, right) && (right.Literal? ==> r.expr == right)
    requires r.expr.Literal? ==> right.Literal?
    ensures var (lt, rt) := (LeftType(schema, left, right), RightType(schema, left, right));
            && (Adopt(t, l, r).Some? <==>
                && (left.Literal? ==> Readable(t, lt, left.value)) && (right.Literal? ==> Readable(t, rt, right.value)))
            && (Adopt(t, l, r).Some? ==>
                  var (l', r') := Adopt(t, l, r).value;
                  && l'.ty == lt && r'.ty == rt
                  && (if left.Literal? then l'.expr.Literal? && ReadAs(t, lt, left.value, l'.expr.value)
                      else l'.expr == l.expr)
                  && (if right.Literal? then r'.expr.Literal? && ReadAs(t, rt, right.value, r'.expr.value)
                      else r'.expr == r.expr))
  {
    if left.Literal? {
      ReadsExactly(t, LeftType(schema, left, right), left.value);
      OwnType(t, left.value);
    }
    if right.Literal? {
      ReadsExactly(t, RightType(schema, left, right), right.value);
      OwnType(t, right.value);
    }
    hide ReadAs, Readable, Coerce, TypeOf;
  }

  lemma ResultExactly(op: BinaryOp, l: Option<DataType>, r: Option<DataType>)
    requires Coerces(op)
    ensures ResultType(op, l, r).Some? <==> Compatible(op, l, r)
    ensures ResultType(op, l, r).Some? ==>
              ResultType(op, l, r).value ==
              if op.IsArithmetic() then (if l == Some(TFloat64) || r == Some(TFloat64) then TFloat64 else TInt64)
              else TBool
  {
  }

  lemma BinaryExactly(t: Table, schema: seq<OutputColumn>, e: Expr)
    requires e.Binary? && CheckedExactly(t, schema, e.left) && CheckedExactly(t, schema, e.right)
    ensures CheckedExactly(t, schema, e)
  {
    var cl, cr := CheckExpr(t, schema, e.left), CheckExpr(t, schema, e.right);
    assert CheckExpr(t, schema, e) ==
           if cl.Some? && cr.Some? then CheckBinary(t, e.op, cl.value, cr.value) else None;
    if cl.Some? && cr.Some? && Coerces(e.op) {
      AdoptExactly(t, schema, e.left, e.right, cl.value, cr.value);
      ResultExactly(e.op, LeftType(schema, e.left, e.right), RightType(schema, e.left, e.right));
      hide CheckExpr, ReadAs, Readable, ResultType, Compatible, Adopt, LeftOf, RightOf;
    } else {
      hide CheckExpr, ReadAs, Readable, ResultType, Compatible, Adopt, LeftOf, RightOf;
    }
  }

  /** Checking accepts exactly the conditions that make sense, gives them their type, and changes nothing but the
      literals, which it reads as the types they meet. */
  lemma {:induction false} CheckExactly(t: Table, schema: seq<OutputColumn>, e: Expr)
    ensures CheckedExactly(t, schema, e)
    decreases e
  {
    match e
    case Column(name) => FoundOutput(schema, name);
    case Literal(_) =>
    case Not(inner) => CheckExactly(t, schema, inner);
    case IsNull(inner) => CheckExactly(t, schema, inner);
    case IsNotNull(inner) => CheckExactly(t, schema, inner);
    case InList(inner, list, _) =>
      CheckExactly(t, schema, inner);
      ListReads(t, TypeIn(schema, inner), list);
      hide ReadAs, Readable, CoerceAll;
    case Between(inner, low, high, _) =>
      CheckExactly(t, schema, inner);
      BoundsRead(t, TypeIn(schema, inner), low, high);
      hide ReadAs, InRange, Coerce, Less;
    case Binary(_, left, right) =>
      CheckExactly(t, schema, left);
      CheckExactly(t, schema, right);
      BinaryExactly(t, schema, e);
  }
}
