/** What the finished aggregates are, over all rows of a group: how many values, their sum and average, the least and
    the greatest (crates/adb-exec/src/aggregate.rs: AggState, finish). */
module Summaries {
  import opened Values
  import opened ValueOrder
  import opened Pruning
  import opened AggStates
  import opened Aggregation
  import opened Quantities

  // ---------------------------------------------------------------- the closed forms

  /** A value that an aggregate takes in; an input without one stands for `count(*)`. */
  predicate Present(input: Option<Value>) { input.Some? && input.value != Null }

  predicate NothingPresent(inputs: seq<Option<Value>>) { forall i :: 0 <= i < |inputs| ==> !Present(inputs[i]) }

  /** The value at `i` is the least; of equal ones, it is the first. */
  predicate LeastAt(inputs: seq<Option<Value>>, i: nat) {
    && i < |inputs| && Present(inputs[i])
    && (forall k :: 0 <= k < i && Present(inputs[k]) ==> Less(inputs[i].value, inputs[k].value))
    && (forall k :: i <= k < |inputs| && Present(inputs[k]) ==> Leq(inputs[i].value, inputs[k].value))
  }

  /** The value at `i` is the greatest; of equal ones, it is the first. */
  predicate GreatestAt(inputs: seq<Option<Value>>, i: nat) {
    && i < |inputs| && Present(inputs[i])
    && (forall k :: 0 <= k < i && Present(inputs[k]) ==> Less(inputs[k].value, inputs[i].value))
    && (forall k :: i <= k < |inputs| && Present(inputs[k]) ==> Leq(inputs[k].value, inputs[i].value))
  }

  function Numbers(inputs: seq<Option<Value>>): set<nat> {
    set i: nat | i < |inputs| && inputs[i].Some? && AsReal(inputs[i].value).Some?
  }

  /** The sum of the integers, without a bound. */
  function Total(inputs: seq<Option<Value>>): int {
    if inputs == [] then 0 else IntOf(inputs[0]) + Total(inputs[1..])
  }

  function RealOf(input: Option<Value>): real {
    if input.Some? && AsReal(input.value).Some? then AsReal(input.value).value else 0.0
  }

  function RealTotal(inputs: seq<Option<Value>>): real {
    if inputs == [] then 0.0 else RealOf(inputs[0]) + RealTotal(inputs[1..])
  }

  /** What an aggregate's value says about its inputs. An integer sum is exact within 64 bits, and otherwise the bound
      it passed, when its integers are of one sign or sum within 64 bits on either side. */
  ghost predicate Summarizes(func: AggregateFunc, ty: Option<DataType>, inputs: seq<Option<Value>>, v: Value) {
    match func
    case CountOf => v == Int(|set i: nat | i < |inputs| && inputs[i] != Some(Null)|)
    case SumOf =>
      if ty == Some(TInt64) then
        if !HasInt(inputs) then v == Null
        else Splittable(PosSum(inputs), NegSum(inputs)) ==> v == Int(Saturate(Total(inputs)))
      else v == if Numbers(inputs) == {} then Null else Float(RealTotal(inputs))
    case AvgOf =>
      v == if Numbers(inputs) == {} then Null else Float(RealTotal(inputs) / |Numbers(inputs)| as real)
    case MinFunc =>
      if NothingPresent(inputs) then v == Null else exists i: nat :: LeastAt(inputs, i) && v == inputs[i].value
    case MaxFunc =>
      if NothingPresent(inputs) then v == Null else exists i: nat :: GreatestAt(inputs, i) && v == inputs[i].value
  }

  // ---------------------------------------------------------------- minimum and maximum

  ghost predicate IsLeast(inputs: seq<Option<Value>>, v: Option<Value>) {
    if NothingPresent(inputs) then v == None else exists i: nat :: LeastAt(inputs, i) && v == inputs[i]
  }

  ghost predicate IsGreatest(inputs: seq<Option<Value>>, v: Option<Value>) {
    if NothingPresent(inputs) then v == None else exists i: nat :: GreatestAt(inputs, i) && v == inputs[i]
  }

  lemma NothingMore(inputs: seq<Option<Value>>, x: Option<Value>)
    ensures NothingPresent(inputs + [x]) <==> NothingPresent(inputs) && !Present(x)
  {
    assert (inputs + [x])[|inputs|] == x;
    assert forall i :: 0 <= i < |inputs| ==> (inputs + [x])[i] == inputs[i];
  }

  lemma LeastStays(inputs: seq<Option<Value>>, i: nat, x: Option<Value>)
    requires LeastAt(inputs, i) && (Present(x) ==> !Less(x.value, inputs[i].value))
    ensures LeastAt(inputs + [x], i)
  {
  }

  lemma LeastMoves(inputs: seq<Option<Value>>, i: nat, x: Option<Value>)
    requires LeastAt(inputs, i) && Present(x) && Less(x.value, inputs[i].value)
    ensures LeastAt(inputs + [x], |inputs|)
  {
    var more, n := inputs + [x], |inputs|;
    LeqTotal(x.value, x.value);
    assert more[n] == x && more[i] == inputs[i];
    forall k | 0 <= k < n && Present(more[k])
      ensures Less(x.value, more[k].value)
    {
      assert more[k] == inputs[k];
      LeqTotal(inputs[i].value, inputs[k].value);
      LessLeq(x.value, inputs[i].value, inputs[k].value);
    }
    hide Leq;
  }

  /** The minimum with one more input. */
  function Lesser(v: Option<Value>, x: Option<Value>): Option<Value> {
    if Present(x) && (v == None || Less(x.value, v.value)) then x else v
  }

  lemma LeastStep(inputs: seq<Option<Value>>, v: Option<Value>, x: Option<Value>)
    requires IsLeast(inputs, v)
    ensures IsLeast(inputs + [x], Lesser(v, x))
  {
    NothingMore(inputs, x);
    if NothingPresent(inputs) {
      if Present(x) {
        OnlyLeast(inputs, x);
        assert (inputs + [x])[|inputs|] == x;
      }
    } else {
      var i: nat :| LeastAt(inputs, i) && v == inputs[i];
      var moves := Present(x) && Less(x.value, inputs[i].value);
      assert v != None && (inputs + [x])[i] == inputs[i] && (inputs + [x])[|inputs|] == x;
      if moves {
        LeastMoves(inputs, i, x);
      } else {
        LeastStays(inputs, i, x);
      }
    }
    hide Less, Present, NothingPresent, LeastAt;
  }

  lemma {:induction false} FoldsLeast(inputs: seq<Option<Value>>)
    ensures Fold(Smallest(None), inputs).Smallest? && IsLeast(inputs, Fold(Smallest(None), inputs).value)
  {
    if inputs != [] {
      var init, x := inputs[..|inputs| - 1], inputs[|inputs| - 1];
      assert inputs == init + [x];
      FoldsLeast(init);
      LeastStep(init, Fold(Smallest(None), init).value, x);
      hide Less, IsLeast;
    }
  }

  lemma OnlyLeast(inputs: seq<Option<Value>>, x: Option<Value>)
    requires NothingPresent(inputs) && Present(x)
    ensures LeastAt(inputs + [x], |inputs|) && GreatestAt(inputs + [x], |inputs|)
  {
    LeqTotal(x.value, x.value);
    assert (inputs + [x])[|inputs|] == x;
    assert forall i :: 0 <= i < |inputs| ==> (inputs + [x])[i] == inputs[i];
    hide Leq;
  }

  lemma GreatestStays(inputs: seq<Option<Value>>, i: nat, x: Option<Value>)
    requires GreatestAt(inputs, i) && (Present(x) ==> !Less(inputs[i].value, x.value))
    ensures GreatestAt(inputs + [x], i)
  {
  }

  lemma GreatestMoves(inputs: seq<Option<Value>>, i: nat, x: Option<Value>)
    requires GreatestAt(inputs, i) && Present(x) && Less(inputs[i].value, x.value)
    ensures GreatestAt(inputs + [x], |inputs|)
  {
    var more, n := inputs + [x], |inputs|;
    LeqTotal(x.value, x.value);
    assert more[n] == x && more[i] == inputs[i];
    forall k | 0 <= k < n && Present(more[k])
      ensures Less(more[k].value, x.value)
    {
      assert more[k] == inputs[k];
      LeqTotal(inputs[k].value, inputs[i].value);
      LessLeq(inputs[k].value, inputs[i].value, x.value);
    }
    hide Leq;
  }

  /** The maximum with one more input. */
  function Greater(v: Option<Value>, x: Option<Value>): Option<Value> {
    if Present(x) && (v == None || Less(v.value, x.value)) then x else v
  }

  lemma GreatestStep(inputs: seq<Option<Value>>, v: Option<Value>, x: Option<Value>)
    requires IsGreatest(inputs, v)
    ensures IsGreatest(inputs + [x], Greater(v, x))
  {
    NothingMore(inputs, x);
    if NothingPresent(inputs) {
      if Present(x) {
        OnlyLeast(inputs, x);
        assert (inputs + [x])[|inputs|] == x;
      }
    } else {
      var i: nat :| GreatestAt(inputs, i) && v == inputs[i];
      var moves := Present(x) && Less(inputs[i].value, x.value);
      assert v != None && (inputs + [x])[i] == inputs[i] && (inputs + [x])[|inputs|] == x;
      if moves {
        GreatestMoves(inputs, i, x);
      } else {
        GreatestStays(inputs, i, x);
      }
    }
    hide Less, Present, NothingPresent, GreatestAt;
  }

  lemma {:induction false} FoldsGreatest(inputs: seq<Option<Value>>)
    ensures Fold(Largest(None), inputs).Largest? && IsGreatest(inputs, Fold(Largest(None), inputs).value)
  {
    if inputs != [] {
      var init, x := inputs[..|inputs| - 1], inputs[|inputs| - 1];
      assert inputs == init + [x];
      FoldsGreatest(init);
      GreatestStep(init, Fold(Largest(None), init).value, x);
      hide Less, IsGreatest;
    }
  }

  // ---------------------------------------------------------------- counts, sums and averages

  function Counted(inputs: seq<Option<Value>>): set<nat> { set i: nat | i < |inputs| && inputs[i] != Some(Null) }

  lemma OneMoreIn(s: set<nat>, t: set<nat>, n: nat, more: bool)
    requires t == if more then s + {n} else s
    requires n !in s
    ensures |t| == |s| + if more then 1 else 0
  {
  }

  lemma {:induction false} FoldsCount(inputs: seq<Option<Value>>)
    ensures Fold(Count(0), inputs) == Count(|Counted(inputs)|)
  {
    if inputs == [] {
      assert Counted(inputs) == {};
    } else {
      var n := |inputs| - 1;
      var init := inputs[..n];
      FoldsCount(init);
      assert Counted(inputs) == if inputs[n] != Some(Null) then Counted(init) + {n} else Counted(init);
      OneMoreIn(Counted(init), Counted(inputs), n, inputs[n] != Some(Null));
    }
  }

  lemma {:induction false} TotalLast(inputs: seq<Option<Value>>)
    requires inputs != []
    ensures Total(inputs) == Total(inputs[..|inputs| - 1]) + IntOf(inputs[|inputs| - 1])
    ensures RealTotal(inputs) == RealTotal(inputs[..|inputs| - 1]) + RealOf(inputs[|inputs| - 1])
  {
    if |inputs| > 1 {
      TotalLast(inputs[1..]);
      assert inputs[1..][..|inputs| - 2] == inputs[..|inputs| - 1][1..];
    }
    hide IntOf, RealOf;
  }

  lemma {:induction false} TotalSigned(inputs: seq<Option<Value>>)
    ensures Total(inputs) == PosSum(inputs) - NegSum(inputs)
  {
    if inputs != [] {
      TotalSigned(inputs[..|inputs| - 1]);
      TotalLast(inputs);
    }
  }

  lemma NumbersLast(inputs: seq<Option<Value>>)
    requires inputs != []
    ensures var n := |inputs| - 1;
            var more := inputs[n].Some? && AsReal(inputs[n].value).Some?;
            && Numbers(inputs) == (if more then Numbers(inputs[..n]) + {n} else Numbers(inputs[..n]))
            && n !in Numbers(inputs[..n])
            && |Numbers(inputs)| == |Numbers(inputs[..n])| + if more then 1 else 0
  {
    var n := |inputs| - 1;
    var more := inputs[n].Some? && AsReal(inputs[n].value).Some?;
    assert Numbers(inputs) == if more then Numbers(inputs[..n]) + {n} else Numbers(inputs[..n]);
    OneMoreIn(Numbers(inputs[..n]), Numbers(inputs), n, more);
  }

  lemma RealUpdates(x: Option<Value>, sum: real, any: bool, n: nat)
    ensures var more := x.Some? && AsReal(x.value).Some?;
            && Update(SumFloat(sum, any), x) == SumFloat(sum + RealOf(x), any || more)
            && Update(Avg(sum, n), x) == Avg(sum + RealOf(x), n + if more then 1 else 0)
  {
  }

  lemma {:induction false} FoldsReals(inputs: seq<Option<Value>>)
    ensures Fold(SumFloat(0.0, false), inputs) == SumFloat(RealTotal(inputs), Numbers(inputs) != {})
    ensures Fold(Avg(0.0, 0), inputs) == Avg(RealTotal(inputs), |Numbers(inputs)|)
  {
    if inputs == [] {
      assert Numbers(inputs) == {};
    } else {
      var n := |inputs| - 1;
      FoldsReals(inputs[..n]);
      TotalLast(inputs);
      NumbersLast(inputs);
      RealUpdates(inputs[n], RealTotal(inputs[..n]), Numbers(inputs[..n]) != {}, |Numbers(inputs[..n])|);
      hide Numbers, RealTotal, AsReal, Update, RealOf;
    }
  }

  // ---------------------------------------------------------------- every aggregate

  /** Every finished aggregate is what its function stands for, over all inputs. */
  lemma FinishedMeans(func: AggregateFunc, ty: Option<DataType>, inputs: seq<Option<Value>>)
    ensures Summarizes(func, ty, inputs, AggStates.Finish(Fold(New(func, ty), inputs)))
  {
    match func
    case CountOf =>
      FoldsCount(inputs);
      assert Counted(inputs) == set i: nat | i < |inputs| && inputs[i] != Some(Null);
    case SumOf =>
      if ty == Some(TInt64) {
        IntegerSum(inputs);
      } else {
        FoldsReals(inputs);
      }
    case AvgOf =>
      FoldsReals(inputs);
      NoneEmpty(Numbers(inputs));
    case MinFunc => LeastMeans(inputs);
    case MaxFunc => GreatestMeans(inputs);
  }

  lemma NoneEmpty(s: set<nat>)
    ensures |s| == 0 <==> s == {}
  {
  }

  lemma LeastMeans(inputs: seq<Option<Value>>)
    ensures Summarizes(MinFunc, None, inputs, AggStates.Finish(Fold(Smallest(None), inputs)))
  {
    FoldsLeast(inputs);
    hide Fold, NothingPresent, Less, Leq;
  }

  lemma GreatestMeans(inputs: seq<Option<Value>>)
    ensures Summarizes(MaxFunc, None, inputs, AggStates.Finish(Fold(Largest(None), inputs)))
  {
    FoldsGreatest(inputs);
    hide Fold, NothingPresent, Less, Leq;
  }

  lemma IntegerSum(inputs: seq<Option<Value>>)
    ensures Summarizes(SumOf, Some(TInt64), inputs, AggStates.Finish(Fold(SumInt(0, false), inputs)))
  {
    hide HasInt, PosSum, NegSum, Total;
    TotalSigned(inputs);
    AnyInt(inputs);
    if Splittable(PosSum(inputs), NegSum(inputs)) {
      SumFolds(0, false, inputs);
    }
  }

  lemma {:induction false} AnyInt(inputs: seq<Option<Value>>)
    ensures var s := Fold(SumInt(0, false), inputs); s.SumInt? && s.any == HasInt(inputs)
  {
    if inputs != [] {
      AnyInt(inputs[..|inputs| - 1]);
      HasIntLast(inputs);
      hide HasInt, AsInt;
    }
  }

  // ---------------------------------------------------------------- the groups of a table

  /** The keys are those of the rows, each once, in the order in which they first appear. */
  ghost predicate KeysInOrder(cols: seq<string>, rows: seq<Row>, keys: seq<RowKey>) {
    && (forall i, j :: 0 <= i < j < |keys| ==> keys[i] != keys[j])
    && (forall r :: 0 <= r < |rows| ==> KeyAt(cols, rows[r]) in keys)
    && (forall i :: 0 <= i < |keys| ==> Appears(cols, rows, keys, i))
  }

  /** The key at `i` is some row's, and the rows above the first such row have the keys before it. */
  ghost predicate Appears(cols: seq<string>, rows: seq<Row>, keys: seq<RowKey>, i: nat)
    requires i < |keys|
  {
    exists r: nat :: FirstOf(cols, rows, keys, i, r)
  }

  ghost predicate FirstOf(cols: seq<string>, rows: seq<Row>, keys: seq<RowKey>, i: nat, r: nat)
    requires i < |keys|
  {
    r < |rows| && KeyAt(cols, rows[r]) == keys[i] && forall q :: 0 <= q < r ==> KeyAt(cols, rows[q]) in keys[..i]
  }

  lemma {:induction false} FirstKeysInOrder(cols: seq<string>, rows: seq<Row>)
    ensures KeysInOrder(cols, rows, FirstKeys(cols, rows))
  {
    if rows != [] {
      var n := |rows| - 1;
      var keys, before, k := FirstKeys(cols, rows), FirstKeys(cols, rows[..n]), KeyAt(cols, rows[n]);
      FirstKeysInOrder(cols, rows[..n]);
      assert keys == if k in before then before else before + [k];
      hide KeyAt, FirstKeys;
      assert forall r :: 0 <= r < n ==> rows[..n][r] == rows[r];
      forall i | 0 <= i < |keys|
        ensures Appears(cols, rows, keys, i)
      {
        if i < |before| {
          assert Appears(cols, rows[..n], before, i);
          var r: nat :| FirstOf(cols, rows[..n], before, i, r);
          assert keys[..i] == before[..i];
          assert FirstOf(cols, rows, keys, i, r);
        } else {
          assert keys[..i] == before;
          assert FirstOf(cols, rows, keys, i, n);
        }
      }
    }
  }

  /** A group has the rows of its key, in order. */
  lemma {:induction false} KeyRowsExactly(cols: seq<string>, rows: seq<Row>, k: RowKey, row: Row)
    ensures multiset(KeyRows(cols, rows, k))[row] == if KeyAt(cols, row) == k then multiset(rows)[row] else 0
  {
    if rows != [] {
      var init := rows[..|rows| - 1];
      KeyRowsExactly(cols, init, k, row);
      assert rows == init + [rows[|rows| - 1]];
      hide KeyAt;
    }
  }

  /** A result row: the group's key, and every aggregate over the group's rows. */
  ghost predicate SummaryOf(spec: AggregateSpec, types: Types, key: RowKey, group: seq<Row>, values: seq<Value>) {
    && |values| == |key| + |spec.aggregates| && values[..|key|] == key
    && forall j :: 0 <= j < |spec.aggregates| ==>
         Summarizes(spec.aggregates[j].func, ArgumentType(types, spec.aggregates[j]),
                    InputsOf(spec.aggregates[j], group), values[|key| + j])
  }

  lemma TupleSummary(spec: AggregateSpec, types: Types, key: RowKey, group: seq<Row>)
    ensures SummaryOf(spec, types, key, group, Tuple(key, FoldRows(spec, types, group)))
  {
    var values := Tuple(key, FoldRows(spec, types, group));
    forall j | 0 <= j < |spec.aggregates|
      ensures Summarizes(spec.aggregates[j].func, ArgumentType(types, spec.aggregates[j]),
                         InputsOf(spec.aggregates[j], group), values[|key| + j])
    {
      FinishedMeans(spec.aggregates[j].func, ArgumentType(types, spec.aggregates[j]),
                    InputsOf(spec.aggregates[j], group));
    }
    hide Summarizes, Fold;
  }

  /** The result of an aggregation has one row for every key, in order of first appearance, and it has the key and
      every aggregate over the rows with that key; without grouping columns it has one row, over all rows. */
  lemma ResultsMean(spec: AggregateSpec, types: Types, rows: seq<Row>)
    ensures spec.groupBy == [] ==>
              |Results(spec, types, rows)| == 1 && SummaryOf(spec, types, [], rows, Results(spec, types, rows)[0])
    ensures spec.groupBy != [] ==>
              var keys, results := FirstKeys(spec.groupBy, rows), Results(spec, types, rows);
              && KeysInOrder(spec.groupBy, rows, keys) && |results| == |keys|
              && forall i :: 0 <= i < |keys| ==>
                   SummaryOf(spec, types, keys[i], KeyRows(spec.groupBy, rows, keys[i]), results[i])
  {
    var g := GroupsOf(spec, types, rows);
    if spec.groupBy == [] {
      OnlyGroup(spec, types, rows);
      TupleSummary(spec, types, [], rows);
      if rows == [] {
        FoldRowsNext(spec, types, [], map[]);
      }
      hide SummaryOf, FoldRows, Tuple;
    } else {
      FirstKeysInOrder(spec.groupBy, rows);
      forall i | 0 <= i < |g.keys|
        ensures SummaryOf(spec, types, g.keys[i], KeyRows(spec.groupBy, rows, g.keys[i]), Results(spec, types, rows)[i])
      {
        GroupsAt(spec, types, rows, g.keys[i]);
        TupleSummary(spec, types, g.keys[i], KeyRows(spec.groupBy, rows, g.keys[i]));
        hide SummaryOf, FoldRows, Tuple, KeyRows, FirstKeys;
      }
      hide SummaryOf, FoldRows, Tuple, KeyRows, FirstKeys, KeysInOrder;
    }
  }
}
