/** The total preorder on values behind statistics, sorting and equality
    (crates/adb-core/src/types.rs: Ord for Value). */
module ValueOrder {
  import opened Values

  function Rank(v: Value): nat {
    match v
    case Null => 0
    case Bool(_) => 1
    case Int(_) => 2
    case Float(_) => 2
    case Str(_) => 3
    case Timestamp(_) => 4
    case Date(_) => 5
  }

  predicate StrLeq(a: string, b: string) {
    a == [] || (b != [] && (a[0] < b[0] || (a[0] == b[0] && StrLeq(a[1..], b[1..]))))
  }

  /** Integers and floats compare as numbers. */
  function Number(v: Value): real
    requires v.Int? || v.Float?
  {
    match v case Int(i) => i as real case Float(f) => f
  }

  predicate Leq(a: Value, b: Value) {
    if Rank(a) != Rank(b) then Rank(a) < Rank(b)
    else match a
      case Null => true
      case Bool(x) => !x || b.b
      case Int(_) => Number(a) <= Number(b)
      case Float(_) => Number(a) <= Number(b)
      case Str(s) => StrLeq(s, b.s)
      case Timestamp(m) => m <= b.micros
      case Date(d) => d <= b.days
  }

  predicate Less(a: Value, b: Value) { !Leq(b, a) }

  /** Equality of values: an integer equals the float of the same number. */
  predicate Same(a: Value, b: Value) { Leq(a, b) && Leq(b, a) }

  lemma {:induction false} StrTotal(a: string, b: string)
    ensures StrLeq(a, b) || StrLeq(b, a)
    ensures StrLeq(a, b) && StrLeq(b, a) ==> a == b
  {
    if a != [] && b != [] {
      StrTotal(a[1..], b[1..]);
      assert a == [a[0]] + a[1..] && b == [b[0]] + b[1..];
    }
  }

  lemma {:induction false} StrReflexive(a: string)
    ensures StrLeq(a, a)
  {
    if a != [] {
      StrReflexive(a[1..]);
    }
  }

  lemma {:induction false} StrTransitive(a: string, b: string, c: string)
    requires StrLeq(a, b) && StrLeq(b, c)
    ensures StrLeq(a, c)
  {
    if a != [] && a[0] == b[0] == c[0] {
      StrTransitive(a[1..], b[1..], c[1..]);
    }
  }

  lemma LeqTotal(a: Value, b: Value)
    ensures Leq(a, b) || Leq(b, a)
    ensures Leq(a, a)
  {
    if a.Str? {
      StrTotal(a.s, if b.Str? then b.s else a.s);
      StrReflexive(a.s);
    }
  }

  lemma LeqTransitive(a: Value, b: Value, c: Value)
    requires Leq(a, b) && Leq(b, c)
    ensures Leq(a, c)
  {
    if a.Str? && b.Str? && c.Str? {
      StrTransitive(a.s, b.s, c.s);
    }
  }

  /** Values of the same kind that are the same are identical, numbers excepted. */
  lemma SameIdentical(a: Value, b: Value)
    requires Same(a, b)
    ensures Rank(a) == Rank(b)
    ensures (a.Int? && b.Float?) || (a.Float? && b.Int?) || a == b
  {
    if a.Str? {
      StrTotal(a.s, b.s);
    }
  }

  lemma LessLeq(a: Value, b: Value, c: Value)
    requires (Less(a, b) && Leq(b, c)) || (Leq(a, b) && Less(b, c))
    ensures Less(a, c)
  {
    if Leq(c, a) && Leq(b, c) {
      LeqTransitive(b, c, a);
    }
    if Leq(c, a) && Leq(a, b) {
      LeqTransitive(c, a, b);
    }
  }
}
