/** The accumulators behind count, sum, avg, min and max, and why merging two of them is the same
    as one pass (crates/adb-exec/src/aggregate.rs: AggState, accumulate_column).

    Integer sums saturate at 64 bits; floats are idealised as reals. */
module AggStates {
  import opened Values
  import opened ValueOrder
  import opened Pruning

  datatype AggregateFunc = CountOf | SumOf | AvgOf | MinFunc | MaxFunc

  datatype AggState =
    | Count(n: nat)
    | SumInt(acc: int, any: bool)
    | SumFloat(sum: real, any: bool)
    | Avg(sum: real, count: nat)
    | Smallest(value: Option<Value>)
    | Largest(value: Option<Value>)

  const MAX64 := 0x7FFF_FFFF_FFFF_FFFF

  const MIN64 := -0x8000_0000_0000_0000

  /** `saturating_add` of two 64-bit integers. */
  function Saturate(x: int): int { if x > MAX64 then MAX64 else if x < MIN64 then MIN64 else x }

  /** The wrap-around of 64-bit addition, in the vectorized kernel. */
  function Wrap(x: int): int { (x - MIN64) % 0x1_0000_0000_0000_0000 + MIN64 }

  function AsInt(v: Value): Option<int> {
    match v case Int(i) => Some(i) case Timestamp(m) => Some(m) case Date(d) => Some(d) case _ => None
  }

  function AsReal(v: Value): Option<real> {
    match v case Int(i) => Some(i as real) case Float(f) => Some(f) case _ => None
  }

  function New(func: AggregateFunc, ty: Option<DataType>): AggState {
    match func
    case CountOf => Count(0)
    case SumOf => if ty == Some(TInt64) then SumInt(0, false) else SumFloat(0.0, false)
    case AvgOf => Avg(0.0, 0)
    case MinFunc => Smallest(None)
    case MaxFunc => Largest(None)
  }

  /** Takes in one row's value; no value stands for `count(*)`. */
  function Update(s: AggState, value: Option<Value>): AggState {
    match s
    case Count(n) => if value == Some(Null) then s else Count(n + 1)
    case SumInt(acc, any) =>
      if value.Some? && AsInt(value.value).Some? then SumInt(Saturate(acc + AsInt(value.value).value), true) else s
    case SumFloat(sum, any) =>
      if value.Some? && AsReal(value.value).Some? then SumFloat(sum + AsReal(value.value).value, true) else s
    case Avg(sum, count) =>
      if value.Some? && AsReal(value.value).Some? then Avg(sum + AsReal(value.value).value, count + 1) else s
    case Smallest(current) =>
      if value.Some? && value.value != Null && (current == None || Less(value.value, current.value))
        then Smallest(value) else s
    case Largest(current) =>
      if value.Some? && value.value != Null && (current == None || Less(current.value, value.value)) then Largest(value)
        else s
  }

  function Fold(s: AggState, values: seq<Option<Value>>): AggState {
    if values == [] then s else Update(Fold(s, values[..|values| - 1]), values[|values| - 1])
  }

  /** Two states of one aggregate. */
  predicate SameKind(s: AggState, t: AggState) {
    match s
    case Count(_) => t.Count?
    case SumInt(_, _) => t.SumInt?
    case SumFloat(_, _) => t.SumFloat?
    case Avg(_, _) => t.Avg?
    case Smallest(_) => t.Smallest?
    case Largest(_) => t.Largest?
  }

  /** Takes in another state; states of different aggregates cannot be merged. */
  function Merge(s: AggState, t: AggState): Option<AggState> {
    match (s, t)
    case (Count(a), Count(b)) => Some(Count(a + b))
    case (SumInt(a, any), SumInt(b, more)) => Some(SumInt(Saturate(a + b), any || more))
    case (SumFloat(a, any), SumFloat(b, more)) => Some(SumFloat(a + b, any || more))
    case (Avg(a, n), Avg(b, m)) => Some(Avg(a + b, n + m))
    case (Smallest(a), Smallest(b)) => Some(if b.Some? && (a == None || Less(b.value, a.value)) then t else s)
    case (Largest(a), Largest(b)) => Some(if b.Some? && (a == None || Less(a.value, b.value)) then t else s)
    case _ => None
  }

  function Finish(s: AggState): Value {
    match s
    case Count(n) => Int(n)
    case SumInt(acc, any) => if any then Int(acc) else Null
    case SumFloat(sum, any) => if any then Float(sum) else Null
    case Avg(sum, count) => if count == 0 then Null else Float(sum / count as real)
    case Smallest(v) => if v.Some? then v.value else Null
    case Largest(v) => if v.Some? then v.value else Null
  }

  // ---------------------------------------------------------------- bounds

  function Abs(x: int): nat { if x < 0 then -x else x }

  /** The integer of an input, zero when there is none. */
  function IntOf(value: Option<Value>): int {
    if value.Some? && AsInt(value.value).Some? then AsInt(value.value).value else 0
  }

  /** The sum of the positive integers. */
  function PosSum(values: seq<Option<Value>>): nat {
    if values == [] then 0
    else PosSum(values[..|values| - 1]) + (var x := IntOf(values[|values| - 1]); if x > 0 then x else 0)
  }

  /** The sum of the negative integers, without its sign. */
  function NegSum(values: seq<Option<Value>>): nat {
    if values == [] then 0
    else NegSum(values[..|values| - 1]) + (var x := IntOf(values[|values| - 1]); if x < 0 then -x else 0)
  }

  predicate HasInt(values: seq<Option<Value>>) {
    exists i :: 0 <= i < |values| && values[i].Some? && AsInt(values[i].value).Some?
  }

  /** Positive and negative integers each sum within 64 bits. */
  predicate InWord(p: nat, n: nat) { p <= MAX64 && n <= -MIN64 }

  /** The integers are of one sign, or sum within 64 bits on either side. */
  predicate Splittable(p: nat, n: nat) { p == 0 || n == 0 || InWord(p, n) }

  lemma {:induction false} SumsConcat(a: seq<Option<Value>>, b: seq<Option<Value>>)
    ensures PosSum(a + b) == PosSum(a) + PosSum(b) && NegSum(a + b) == NegSum(a) + NegSum(b)
    ensures HasInt(a + b) <==> HasInt(a) || HasInt(b)
  {
    if b == [] {
      assert a + b == a;
    } else {
      var n := |b| - 1;
      assert (a + b)[..|a + b| - 1] == a + b[..n];
      SumsConcat(a, b[..n]);
      HasIntLast(a + b);
      HasIntLast(b);
    }
  }

  lemma HasIntLast(values: seq<Option<Value>>)
    requires values != []
    ensures var last := values[|values| - 1];
            HasInt(values) <==> HasInt(values[..|values| - 1]) || (last.Some? && AsInt(last.value).Some?)
  {
    var init := values[..|values| - 1];
    assert forall i :: 0 <= i < |init| ==> init[i] == values[i];
    hide AsInt;
  }

  lemma {:induction false} FoldKind(s: AggState, values: seq<Option<Value>>)
    ensures SameKind(s, Fold(s, values)) && SameKind(Fold(s, values), s)
  {
    if values != [] {
      FoldKind(s, values[..|values| - 1]);
    }
  }

  /** Integers of one sign saturate once and for all; integers within the word do not saturate. */
  lemma {:induction false} SumFolds(acc: int, any: bool, values: seq<Option<Value>>)
    requires MIN64 <= acc <= MAX64
    requires PosSum(values) == 0 || NegSum(values) == 0
             || (acc + PosSum(values) <= MAX64 && MIN64 <= acc - NegSum(values))
    ensures Fold(SumInt(acc, any), values) ==
            SumInt(Saturate(acc + PosSum(values) - NegSum(values)), any || HasInt(values))
  {
    if values != [] {
      SumFolds(acc, any, values[..|values| - 1]);
      HasIntLast(values);
      hide AsInt, HasInt;
    }
  }

  // ---------------------------------------------------------------- merging is one pass

  /** A value may be taken in before or after merging. */
  lemma MergeUpdate(s: AggState, t: AggState, v: Option<Value>)
    requires SameKind(s, t) && !s.SumInt?
    ensures Merge(s, t).Some? && Merge(s, Update(t, v)) == Some(Update(Merge(s, t).value, v))
  {
    match s
    case Count(_) =>
    case SumFloat(_, _) =>
    case Avg(_, _) =>
    case Smallest(_) => MergeUpdateMin(s, t, v);
    case Largest(_) => MergeUpdateMax(s, t, v);
  }

  lemma MergeUpdateMin(s: AggState, t: AggState, v: Option<Value>)
    requires s.Smallest? && t.Smallest?
    ensures Merge(s, Update(t, v)) == Some(Update(Merge(s, t).value, v))
  {
    if s.value.Some? && t.value.Some? && v.Some? {
      Trichotomy(v.value, t.value.value, s.value.value);
    }
  }

  lemma MergeUpdateMax(s: AggState, t: AggState, v: Option<Value>)
    requires s.Largest? && t.Largest?
    ensures Merge(s, Update(t, v)) == Some(Update(Merge(s, t).value, v))
  {
    if s.value.Some? && t.value.Some? && v.Some? {
      Trichotomy(s.value.value, t.value.value, v.value);
    }
  }

  /** The comparisons of three values are consistent. */
  lemma Trichotomy(x: Value, y: Value, z: Value)
    ensures Less(x, y) && Less(y, z) ==> Less(x, z)
    ensures !Less(x, y) && !Less(y, z) ==> !Less(x, z)
  {
    LeqTotal(x, y);
    LeqTotal(y, z);
    if Less(x, y) && Less(y, z) {
      LessLeq(x, y, z);
    }
    if !Less(x, y) && !Less(y, z) {
      LeqTransitive(z, y, x);
    }
  }

  lemma MergeNew(func: AggregateFunc, ty: Option<DataType>, s: AggState)
    requires SameKind(New(func, ty), s) && !s.SumInt?
    ensures Merge(s, New(func, ty)) == Some(s)
  {
  }

  /** Merging the states of two stretches of rows is folding both in one pass, as long as the integers of a sum
      are of one sign or sum within 64 bits on either side. */
  lemma MergeIsOnePass(func: AggregateFunc, ty: Option<DataType>, a: seq<Option<Value>>, b: seq<Option<Value>>)
    requires New(func, ty).SumInt? ==> Splittable(PosSum(a) + PosSum(b), NegSum(a) + NegSum(b))
    ensures Merge(Fold(New(func, ty), a), Fold(New(func, ty), b)) == Some(Fold(New(func, ty), a + b))
  {
    if New(func, ty).SumInt? {
      assert New(func, ty) == SumInt(0, false);
      hide *;
      SumsConcat(a, b);
      MergeSums(a, b);
    } else {
      MergeOthers(func, ty, a, b);
    }
  }

  lemma MergeSums(a: seq<Option<Value>>, b: seq<Option<Value>>)
    requires Splittable(PosSum(a) + PosSum(b), NegSum(a) + NegSum(b))
    ensures Merge(Fold(SumInt(0, false), a), Fold(SumInt(0, false), b)) == Some(Fold(SumInt(0, false), a + b))
  {
    hide Fold, PosSum, NegSum, HasInt;
    SumsConcat(a, b);
    SumFolds(0, false, a);
    SumFolds(0, false, b);
    SumFolds(0, false, a + b);
    SaturatedSum(PosSum(a), NegSum(a), PosSum(b), NegSum(b));
  }

  lemma SaturatedSum(p: nat, n: nat, q: nat, m: nat)
    requires Splittable(p + q, n + m)
    ensures Saturate(Saturate(p - n) + Saturate(q - m)) == Saturate(p + q - n - m)
  {
  }

  lemma {:induction false} MergeOthers(func: AggregateFunc, ty: Option<DataType>, a: seq<Option<Value>>,
                                       b: seq<Option<Value>>)
    requires !New(func, ty).SumInt?
    ensures Merge(Fold(New(func, ty), a), Fold(New(func, ty), b)) == Some(Fold(New(func, ty), a + b))
  {
    var start := New(func, ty);
    FoldKind(start, a);
    if b == [] {
      assert a + b == a;
      MergeNew(func, ty, Fold(start, a));
    } else {
      var n := |b| - 1;
      MergeOthers(func, ty, a, b[..n]);
      FoldKind(start, b[..n]);
      assert (a + b)[..|a + b| - 1] == a + b[..n];
      assert Fold(start, a + b) == Update(Fold(start, a + b[..n]), b[n]);
      assert Fold(start, b) == Update(Fold(start, b[..n]), b[n]);
      hide Fold, Update, Merge, New;
      MergeUpdate(Fold(start, a), Fold(start, b[..n]), b[n]);
    }
  }

  /** An integer sum does not depend on whether the rows are split here. */
  predicate SplitsHere(a: seq<Option<Value>>, b: seq<Option<Value>>) {
    var start := New(SumOf, Some(TInt64));
    Merge(Fold(start, a), Fold(start, b)) == Some(Fold(start, a + b))
  }

  /** Rows whose positive integers sum to at most `p` and whose negative ones to at most `n` can be split anywhere
      exactly when one of the two is zero or both are within 64 bits. */
  lemma SplitExactly(p: nat, n: nat)
    ensures (forall a, b :: PosSum(a) + PosSum(b) <= p && NegSum(a) + NegSum(b) <= n ==> SplitsHere(a, b)) <==>
            Splittable(p, n)
  {
    if Splittable(p, n) {
      forall a, b | PosSum(a) + PosSum(b) <= p && NegSum(a) + NegSum(b) <= n
        ensures SplitsHere(a, b)
      {
        MergeIsOnePass(SumOf, Some(TInt64), a, b);
      }
    } else if p > MAX64 {
      TopSplit();
    } else {
      BottomSplit();
    }
  }

  lemma TwoInts(x: int, y: int)
    ensures var xs := [Some(Int(x)), Some(Int(y))];
            && xs[..1] == [Some(Int(x))]
            && PosSum(xs) == PosSum([Some(Int(x))]) + PosSum([Some(Int(y))])
            && NegSum(xs) == NegSum([Some(Int(x))]) + NegSum([Some(Int(y))])
            && forall s :: Fold(s, xs) == Update(Update(s, Some(Int(x))), Some(Int(y)))
  {
    var xs := [Some(Int(x)), Some(Int(y))];
    assert xs[..1] == [Some(Int(x))];
    OneInt(x);
    OneInt(y);
    assert forall s :: Fold(s, xs) == Update(Fold(s, xs[..1]), xs[1]);
  }

  lemma OneInt(x: int)
    ensures var xs := [Some(Int(x))];
            && PosSum(xs) == (if x > 0 then x else 0) && NegSum(xs) == (if x < 0 then -x else 0)
            && forall s :: Fold(s, xs) == Update(s, Some(Int(x)))
  {
    var xs := [Some(Int(x))];
    assert xs[..0] == [];
    assert forall s :: Fold(s, xs) == Update(Fold(s, xs[..0]), xs[0]);
  }

  /** Saturating at the top before a negative integer comes. */
  lemma TopSplit()
    ensures var a, b := [Some(Int(MAX64))], [Some(Int(1)), Some(Int(-1))];
            PosSum(a) + PosSum(b) == MAX64 + 1 && NegSum(a) + NegSum(b) == 1 && !SplitsHere(a, b)
  {
    var a, b := [Some(Int(MAX64))], [Some(Int(1)), Some(Int(-1))];
    OneInt(MAX64);
    OneInt(1);
    OneInt(-1);
    TwoInts(1, -1);
    FoldConcat(New(SumOf, Some(TInt64)), a, b);
    hide Fold, PosSum, NegSum;
  }

  /** Saturating at the bottom before a positive integer comes. */
  lemma BottomSplit()
    ensures var a, b := [Some(Int(MIN64))], [Some(Int(-1)), Some(Int(1))];
            PosSum(a) + PosSum(b) == 1 && NegSum(a) + NegSum(b) == 1 - MIN64 && !SplitsHere(a, b)
  {
    var a, b := [Some(Int(MIN64))], [Some(Int(-1)), Some(Int(1))];
    OneInt(MIN64);
    OneInt(1);
    OneInt(-1);
    TwoInts(-1, 1);
    FoldConcat(New(SumOf, Some(TInt64)), a, b);
    hide Fold, PosSum, NegSum;
  }

  lemma {:induction false} FoldConcat(s: AggState, a: seq<Option<Value>>, b: seq<Option<Value>>)
    ensures Fold(s, a + b) == Fold(Fold(s, a), b)
  {
    if b == [] {
      assert a + b == a;
    } else {
      assert (a + b)[..|a + b| - 1] == a + b[..|b| - 1];
      FoldConcat(s, a, b[..|b| - 1]);
    }
  }

  // ---------------------------------------------------------------- the vectorized path

  /** A column's values are of its type. */
  ghost predicate Typed(ty: DataType, values: seq<Value>) {
    forall i :: 0 <= i < |values| ==>
      && (ty.TInt64? ==> values[i].Null? || values[i].Int?)
      && (ty.TFloat64? ==> values[i].Null? || values[i].Float?)
  }

  function Inputs(values: seq<Value>): (inputs: seq<Option<Value>>)
    ensures |inputs| == |values| && forall i :: 0 <= i < |values| ==> inputs[i] == Some(values[i])
  {
    seq(|values|, i requires 0 <= i < |values| => Some(values[i]))
  }

  /** `count(*)` looks at no column. */
  function Stars(n: nat): (inputs: seq<Option<Value>>)
    ensures |inputs| == n && forall i :: 0 <= i < n ==> inputs[i] == None
  {
    seq(n, _ => None)
  }

  function IntSum(values: seq<Value>): int {
    if values == [] then 0
    else IntSum(values[..|values| - 1]) + (if values[|values| - 1].Int? then values[|values| - 1].i else 0)
  }

  function RealSum(values: seq<Value>): real {
    if values == [] then 0.0
    else RealSum(values[..|values| - 1]) + (if values[|values| - 1].Float? then values[|values| - 1].f else 0.0)
  }

  /** The vectorized sum of an integer column; nothing when all of it is NULL. */
  function IntKernel(values: seq<Value>): Option<int> {
    if NullCount(values) == |values| then None else Some(Wrap(IntSum(values)))
  }

  function RealKernel(values: seq<Value>): Option<real> {
    if NullCount(values) == |values| then None else Some(RealSum(values))
  }

  /** Takes a whole column in at once where a kernel can, and row by row where none can. */
  function Kernel(state: AggState, ty: DataType, values: seq<Value>): AggState {
    var count := |values| - NullCount(values);
    match state
    case Count(n) => Count(if count > 0 then n + count else n)
    case SumInt(acc, _) =>
      if ty != TInt64 then Fold(state, Inputs(values))
      else (match IntKernel(values) case Some(sum) => SumInt(Saturate(acc + sum), true) case None => state)
    case SumFloat(acc, _) =>
      if ty != TFloat64 then Fold(state, Inputs(values))
      else (match RealKernel(values) case Some(sum) => SumFloat(acc + sum, true) case None => state)
    case Avg(acc, n) =>
      var n' := if count > 0 then n + count else n;
      if ty == TFloat64 then Avg(if RealKernel(values).Some? then acc + RealKernel(values).value else acc, n')
      else if ty == TInt64 then Avg(if IntKernel(values).Some? then acc + IntKernel(values).value as real else acc, n')
      else Fold(state, Inputs(values))
    case Smallest(_) => Fold(state, Inputs(values))
    case Largest(_) => Fold(state, Inputs(values))
  }

  /** Accumulates a column, or `count(*)` rows. */
  method AccumulateColumn(state: AggState, ty: DataType, column: Option<seq<Value>>, rows: nat) returns (s: AggState)
    requires column.Some? ==> |column.value| == rows && Typed(ty, column.value)
    ensures column == None ==> s == Fold(state, Stars(rows))
    ensures column.Some? ==> s == Kernel(state, ty, column.value)
    ensures column.Some? && KernelFits(state, Inputs(column.value)) ==> s == Fold(state, Inputs(column.value))
  {
    if column == None {
      StarsFold(state, rows);
      return if state.Count? then Count(state.n + rows) else state;
    }
    var values := column.value;
    NullBound(values);
    if KernelFits(state, Inputs(values)) {
      KernelIsFold(state, ty, values);
    }
    match state
    case Count(n) => s := Count(n + (|values| - NullCount(values)));
    case SumInt(acc, any) =>
      if ty != TInt64 {
        s := FallbackRows(state, values);
        return;
      }
      var sum := IntKernel(values);
      s := if sum.Some? then SumInt(Saturate(acc + sum.value), true) else state;
    case SumFloat(acc, any) =>
      if ty != TFloat64 {
        s := FallbackRows(state, values);
        return;
      }
      var sum := RealKernel(values);
      s := if sum.Some? then SumFloat(acc + sum.value, true) else state;
    case Avg(acc, count) =>
      if ty == TFloat64 {
        var sum := RealKernel(values);
        s := Avg(if sum.Some? then acc + sum.value else acc, count + (|values| - NullCount(values)));
      } else if ty == TInt64 {
        var sum := IntKernel(values);
        s := Avg(if sum.Some? then acc + sum.value as real else acc, count + (|values| - NullCount(values)));
      } else {
        s := FallbackRows(state, values);
      }
    case Smallest(_) => s := FallbackRows(state, values);
    case Largest(_) => s := FallbackRows(state, values);
  }

  /** The integers the kernel adds up stay within 64 bits. */
  predicate KernelFits(state: AggState, inputs: seq<Option<Value>>) {
    && (state.SumInt? ==> state.acc + PosSum(inputs) <= MAX64 && MIN64 <= state.acc - NegSum(inputs))
    && (state.SumInt? || state.Avg? ==> InWord(PosSum(inputs), NegSum(inputs)))
  }

  /** Then a column at once is the same as row by row. */
  lemma KernelIsFold(state: AggState, ty: DataType, values: seq<Value>)
    requires Typed(ty, values) && KernelFits(state, Inputs(values))
    ensures Kernel(state, ty, values) == Fold(state, Inputs(values))
  {
    NullBound(values);
    match state
    case Count(n) => CountFold(n, values);
    case SumInt(acc, any) =>
      if ty == TInt64 {
        SumKernel(acc, any, values);
      }
    case SumFloat(acc, any) =>
      if ty == TFloat64 {
        RealFold(acc, any, values);
      }
    case Avg(acc, n) =>
      if ty == TFloat64 {
        AvgRealFold(acc, n, values);
      } else if ty == TInt64 {
        AvgKernel(acc, n, values);
      }
    case Smallest(_) =>
    case Largest(_) =>
  }

  lemma SumKernel(acc: int, any: bool, values: seq<Value>)
    requires Typed(TInt64, values) && KernelFits(SumInt(acc, any), Inputs(values))
    ensures Kernel(SumInt(acc, any), TInt64, values) == Fold(SumInt(acc, any), Inputs(values))
  {
    NullBound(values);
    hide Fold, PosSum, NegSum, HasInt, Wrap, IntSum, NullCount, Typed, Inputs;
    IntSums(values);
    SumFolds(acc, any, Inputs(values));
    WrapWithin(IntSum(values));
    assert Saturate(acc) == acc;
  }

  lemma AvgKernel(acc: real, n: nat, values: seq<Value>)
    requires Typed(TInt64, values) && KernelFits(Avg(acc, n), Inputs(values))
    ensures Kernel(Avg(acc, n), TInt64, values) == Fold(Avg(acc, n), Inputs(values))
  {
    NullBound(values);
    hide Fold, PosSum, NegSum, HasInt, Wrap, IntSum, NullCount, Typed, Inputs;
    IntSums(values);
    AvgIntFold(acc, n, values);
    WrapWithin(IntSum(values));
  }

  predicate KernelAdds(values: seq<Value>) {
    Kernel(SumInt(0, false), TInt64, values) == Fold(SumInt(0, false), Inputs(values))
  }

  predicate KernelAverages(values: seq<Value>) {
    Kernel(Avg(0.0, 0), TInt64, values) == Fold(Avg(0.0, 0), Inputs(values))
  }

  /** An integer column and its range. */
  ghost predicate IntColumn(values: seq<Value>, p: nat, n: nat) {
    Typed(TInt64, values) && PosSum(Inputs(values)) <= p && NegSum(Inputs(values)) <= n
  }

  /** The kernel wraps around: a column at once is the same as row by row, for sums and for averages, exactly when
      positive and negative integers are each within 64 bits. */
  lemma KernelExactly(p: nat, n: nat)
    ensures (forall values :: IntColumn(values, p, n) ==> KernelAdds(values)) <==> InWord(p, n)
    ensures (forall values :: IntColumn(values, p, n) ==> KernelAverages(values)) <==> InWord(p, n)
  {
    if InWord(p, n) {
      forall values | IntColumn(values, p, n)
        ensures KernelAdds(values) && KernelAverages(values)
      {
        KernelIsFold(SumInt(0, false), TInt64, values);
        KernelIsFold(Avg(0.0, 0), TInt64, values);
      }
    } else if p > MAX64 {
      WrapsAround(MAX64, 1);
      assert IntColumn([Int(MAX64), Int(1)], p, n);
    } else {
      WrapsAround(MIN64, -1);
      assert IntColumn([Int(MIN64), Int(-1)], p, n);
    }
    hide KernelAdds, KernelAverages;
  }

  lemma WrapsAround(x: int, y: int)
    requires (x == MAX64 && y == 1) || (x == MIN64 && y == -1)
    ensures var values := [Int(x), Int(y)];
            && Typed(TInt64, values) && !KernelAdds(values) && !KernelAverages(values)
            && PosSum(Inputs(values)) == (if x > 0 then x + y else 0)
            && NegSum(Inputs(values)) == (if x > 0 then 0 else -x - y)
  {
    var values := [Int(x), Int(y)];
    assert Inputs(values) == [Some(Int(x)), Some(Int(y))];
    assert Typed(TInt64, values);
    OneInt(x);
    OneInt(y);
    TwoInts(x, y);
    TwoFolds(x, y);
    hide *;
    WrongKernel(x, y, values);
  }

  lemma TwoFolds(x: int, y: int)
    requires (x == MAX64 && y == 1) || (x == MIN64 && y == -1)
    ensures Fold(SumInt(0, false), [Some(Int(x)), Some(Int(y))]) == SumInt(x, true)
    ensures Fold(Avg(0.0, 0), [Some(Int(x)), Some(Int(y))]) == Avg(0.0 + x as real + y as real, 2)
  {
    TwoInts(x, y);
    hide Fold, PosSum, NegSum;
  }

  lemma WrongKernel(x: int, y: int, values: seq<Value>)
    requires values == [Int(x), Int(y)] && ((x == MAX64 && y == 1) || (x == MIN64 && y == -1))
    requires Inputs(values) == [Some(Int(x)), Some(Int(y))]
    ensures !KernelAdds(values) && !KernelAverages(values)
  {
    hide Fold, PosSum, NegSum, NullCount, IntSum, Wrap, Inputs, IntKernel;
    TwoFolds(x, y);
    TwoKernel(x, y);
  }

  lemma WrapsOver(x: int)
    ensures x == MAX64 + 1 ==> Wrap(x) == MIN64
    ensures x == MIN64 - 1 ==> Wrap(x) == MAX64
  {
  }

  lemma TwoKernel(x: int, y: int)
    requires (x == MAX64 && y == 1) || (x == MIN64 && y == -1)
    ensures var values := [Int(x), Int(y)]; IntKernel(values) == Some(if x > 0 then MIN64 else MAX64)
  {
    WrapsOver(x + y);
    hide Wrap;
    var one, values := [Int(x)], [Int(x), Int(y)];
    assert values[..|values| - 1] == one && one[..|one| - 1] == [];
    assert NullCount(one) == 0 && IntSum(one) == x;
  }

  method FallbackRows(state: AggState, values: seq<Value>) returns (s: AggState)
    ensures s == Fold(state, Inputs(values))
  {
    s := state;
    for i := 0 to |values|
      invariant s == Fold(state, Inputs(values)[..i])
    {
      assert Inputs(values)[..i + 1][..i] == Inputs(values)[..i];
      s := Update(s, Some(values[i]));
    }
    assert Inputs(values)[..|values|] == Inputs(values);
  }

  lemma {:induction false} NullBound(values: seq<Value>)
    ensures NullCount(values) <= |values|
  {
    if values != [] {
      NullBound(values[..|values| - 1]);
    }
  }

  lemma {:induction false} StarsFold(s: AggState, n: nat)
    ensures Fold(s, Stars(n)) == if s.Count? then Count(s.n + n) else s
  {
    if n > 0 {
      StarsFold(s, n - 1);
      assert Stars(n)[..n - 1] == Stars(n - 1);
    }
  }

  lemma InputsLast(values: seq<Value>)
    requires values != []
    ensures Inputs(values)[..|values| - 1] == Inputs(values[..|values| - 1])
  {
  }

  lemma {:induction false} CountFold(n: nat, values: seq<Value>)
    ensures NullCount(values) <= |values|
    ensures Fold(Count(n), Inputs(values)) == Count(n + (|values| - NullCount(values)))
  {
    if values != [] {
      InputsLast(values);
      CountFold(n, values[..|values| - 1]);
    }
  }

  lemma WrapWithin(x: int)
    requires MIN64 <= x <= MAX64
    ensures Wrap(x) == x
  {
  }

  lemma {:induction false} IntSums(values: seq<Value>)
    requires Typed(TInt64, values)
    ensures IntSum(values) == PosSum(Inputs(values)) - NegSum(Inputs(values))
    ensures NullCount(values) == |values| <==> !HasInt(Inputs(values))
    ensures NullCount(values) <= |values| && (NullCount(values) == |values| ==> IntSum(values) == 0)
  {
    if values != [] {
      InputsLast(values);
      IntSums(values[..|values| - 1]);
      HasIntLast(Inputs(values));
      hide HasInt;
    }
  }

  lemma {:induction false} RealFold(acc: real, any: bool, values: seq<Value>)
    requires Typed(TFloat64, values)
    ensures NullCount(values) <= |values| && (NullCount(values) == |values| ==> RealSum(values) == 0.0)
    ensures Fold(SumFloat(acc, any), Inputs(values)) ==
            SumFloat(acc + RealSum(values), any || NullCount(values) < |values|)
  {
    if values != [] {
      InputsLast(values);
      RealFold(acc, any, values[..|values| - 1]);
    }
  }

  lemma {:induction false} AvgRealFold(acc: real, count: nat, values: seq<Value>)
    requires Typed(TFloat64, values)
    ensures NullCount(values) <= |values| && (NullCount(values) == |values| ==> RealSum(values) == 0.0)
    ensures Fold(Avg(acc, count), Inputs(values)) == Avg(acc + RealSum(values), count + (|values| - NullCount(values)))
  {
    if values != [] {
      InputsLast(values);
      AvgRealFold(acc, count, values[..|values| - 1]);
    }
  }

  lemma {:induction false} AvgIntFold(acc: real, count: nat, values: seq<Value>)
    requires Typed(TInt64, values)
    ensures NullCount(values) <= |values| && (NullCount(values) == |values| ==> IntSum(values) == 0)
    ensures Fold(Avg(acc, count), Inputs(values)) ==
            Avg(acc + IntSum(values) as real, count + (|values| - NullCount(values)))
  {
    if values != [] {
      InputsLast(values);
      AvgIntFold(acc, count, values[..|values| - 1]);
    }
  }
}
