/** The compaction policy, and why repeated compaction comes to rest
    (crates/adb-storage/src/compaction.rs). Ratios are idealised as reals. */
module Compaction {
  import opened Values

  datatype Policy = Policy(minSegments: nat, maxInputBytes: nat, suppressedRatio: real, maxInputs: nat)

  datatype Facts = Facts(id: nat, rows: nat, bytes: nat, suppressed: nat)

  function DeadRatio(f: Facts): real {
    if f.rows == 0 then 1.0 else f.suppressed as real / f.rows as real
  }

  predicate IsDead(f: Facts, p: Policy) { DeadRatio(f) >= p.suppressedRatio }

  /** Sort keys: the id, or the size and then the id. */
  datatype Order = ById | BySize

  predicate Before(o: Order, a: Facts, b: Facts) {
    if o == ById || a.bytes == b.bytes then a.id <= b.id else a.bytes < b.bytes
  }

  function Insert(o: Order, x: Facts, sorted: seq<Facts>): seq<Facts> {
    if sorted == [] || Before(o, x, sorted[0]) then [x] + sorted else [sorted[0]] + Insert(o, x, sorted[1..])
  }

  function Sort(o: Order, fs: seq<Facts>): seq<Facts> {
    if fs == [] then [] else Insert(o, fs[0], Sort(o, fs[1..]))
  }

  ghost predicate Sorted(o: Order, fs: seq<Facts>) {
    forall i, j :: 0 <= i < j < |fs| ==> Before(o, fs[i], fs[j])
  }

  function Dead(fs: seq<Facts>, p: Policy): seq<Facts> {
    if fs == [] then [] else Dead(fs[..|fs| - 1], p) + (if IsDead(fs[|fs| - 1], p) then [fs[|fs| - 1]] else [])
  }

  /** The longest prefix within the input cap and the byte budget. */
  function Affordable(fs: seq<Facts>, inputs: nat, budget: nat): seq<Facts> {
    if fs == [] || inputs == 0 || fs[0].bytes > budget then []
    else [fs[0]] + Affordable(fs[1..], inputs - 1, budget - fs[0].bytes)
  }

  /** The segments to merge, in ascending id order. */
  function Chosen(fs: seq<Facts>, p: Policy): seq<Facts> {
    var dead := Affordable(Sort(ById, Dead(fs, p)), p.maxInputs, p.maxInputBytes);
    if dead != [] then dead
    else if |fs| < p.minSegments then []
    else
      var small := Affordable(Sort(BySize, fs), p.maxInputs, p.maxInputBytes);
      if |small| < 2 then [] else Sort(ById, small)
  }

  /** Takes segments in order while the caps allow. */
  method Take(fs: seq<Facts>, p: Policy) returns (out: seq<Facts>)
    ensures out == Affordable(fs, p.maxInputs, p.maxInputBytes)
  {
    out := [];
    var budget: nat := p.maxInputBytes;
    var i := 0;
    while i < |fs|
      invariant i <= |fs| && |out| == i <= p.maxInputs
      invariant Affordable(fs, p.maxInputs, p.maxInputBytes) == out + Affordable(fs[i..], p.maxInputs - |out|, budget)
    {
      if |out| >= p.maxInputs || fs[i].bytes > budget {
        break;
      }
      assert fs[i..][1..] == fs[i + 1..];
      budget := budget - fs[i].bytes;
      out := out + [fs[i]];
      i := i + 1;
    }
  }

  method Select(fs: seq<Facts>, p: Policy) returns (chosen: seq<Facts>)
    ensures chosen == Chosen(fs, p)
  {
    var dead: seq<Facts> := [];
    for i := 0 to |fs|
      invariant dead == Dead(fs[..i], p)
    {
      assert fs[..i + 1][..i] == fs[..i];
      if IsDead(fs[i], p) { dead := dead + [fs[i]]; }
    }
    assert fs[..|fs|] == fs;
    if dead != [] {
      var out := Take(Sort(ById, dead), p);
      if out != [] {
        return out;
      }
    }
    if |fs| < p.minSegments {
      return [];
    }
    var small := Take(Sort(BySize, fs), p);
    if |small| < 2 {
      return [];
    }
    chosen := Sort(ById, small);
  }

  // ---------------------------------------------------------------- what is chosen

  lemma {:induction false} InsertPermutes(o: Order, x: Facts, sorted: seq<Facts>)
    ensures multiset(Insert(o, x, sorted)) == multiset(sorted) + multiset{x}
  {
    if sorted != [] && !Before(o, x, sorted[0]) {
      InsertPermutes(o, x, sorted[1..]);
      assert sorted == [sorted[0]] + sorted[1..];
    }
  }

  lemma {:induction false} InsertSorted(o: Order, x: Facts, sorted: seq<Facts>)
    requires Sorted(o, sorted)
    ensures Sorted(o, Insert(o, x, sorted))
  {
    if sorted != [] && !Before(o, x, sorted[0]) {
      InsertSorted(o, x, sorted[1..]);
      InsertPermutes(o, x, sorted[1..]);
      var rest := Insert(o, x, sorted[1..]);
      forall j | 0 <= j < |rest|
        ensures Before(o, sorted[0], rest[j])
      {
        assert rest[j] in multiset(rest);
      }
    }
  }

  lemma {:induction false} SortSorted(o: Order, fs: seq<Facts>)
    ensures Sorted(o, Sort(o, fs)) && multiset(Sort(o, fs)) == multiset(fs)
  {
    if fs != [] {
      SortSorted(o, fs[1..]);
      InsertSorted(o, fs[0], Sort(o, fs[1..]));
      InsertPermutes(o, fs[0], Sort(o, fs[1..]));
      assert fs == [fs[0]] + fs[1..];
    }
  }

  function TotalBytes(fs: seq<Facts>): nat { if fs == [] then 0 else fs[0].bytes + TotalBytes(fs[1..]) }

  lemma {:induction false} AffordableWithin(fs: seq<Facts>, inputs: nat, budget: nat)
    ensures var a := Affordable(fs, inputs, budget);
            && a <= fs && |a| <= inputs && TotalBytes(a) <= budget
            && (|a| < |fs| ==> |a| + 1 > inputs || TotalBytes(a + [fs[|a|]]) > budget)
  {
    if !(fs == [] || inputs == 0 || fs[0].bytes > budget) {
      AffordableWithin(fs[1..], inputs - 1, budget - fs[0].bytes);
      var a := Affordable(fs[1..], inputs - 1, budget - fs[0].bytes);
      assert fs == [fs[0]] + fs[1..];
      if |a| < |fs[1..]| {
        assert ([fs[0]] + a + [fs[1..][|a|]])[1..] == a + [fs[1..][|a|]];
      }
    } else if fs != [] {
      assert [] + [fs[0]] == [fs[0]] && [fs[0]][1..] == [];
    }
  }

  lemma {:induction false} DeadMembers(fs: seq<Facts>, p: Policy)
    ensures multiset(Dead(fs, p)) <= multiset(fs)
    ensures forall f :: f in Dead(fs, p) ==> IsDead(f, p)
  {
    if fs != [] {
      var init := fs[..|fs| - 1];
      DeadMembers(init, p);
      assert fs == init + [fs[|fs| - 1]];
    }
  }

  lemma {:induction false} InsertBytes(o: Order, x: Facts, sorted: seq<Facts>)
    ensures TotalBytes(Insert(o, x, sorted)) == x.bytes + TotalBytes(sorted)
    ensures |Insert(o, x, sorted)| == |sorted| + 1
  {
    if sorted != [] && !Before(o, x, sorted[0]) {
      InsertBytes(o, x, sorted[1..]);
    }
  }

  lemma {:induction false} SortBytes(o: Order, fs: seq<Facts>)
    ensures TotalBytes(Sort(o, fs)) == TotalBytes(fs) && |Sort(o, fs)| == |fs|
  {
    if fs != [] {
      SortBytes(o, fs[1..]);
      InsertBytes(o, fs[0], Sort(o, fs[1..]));
    }
  }

  lemma PrefixMembers<T>(a: seq<T>, b: seq<T>)
    requires a <= b
    ensures multiset(a) <= multiset(b)
  {
    assert b == a + b[|a|..];
  }

  /** A part of a sorted sequence that is within the caps. */
  lemma PartWithin(o: Order, fs: seq<Facts>, p: Policy)
    ensures var part := Affordable(Sort(o, fs), p.maxInputs, p.maxInputBytes);
            && multiset(part) <= multiset(fs) && |part| <= p.maxInputs && TotalBytes(part) <= p.maxInputBytes
            && part <= Sort(o, fs) && Sorted(o, Sort(o, fs))
  {
    hide *;
    SortSorted(o, fs);
    AffordableWithin(Sort(o, fs), p.maxInputs, p.maxInputBytes);
    PrefixMembers(Affordable(Sort(o, fs), p.maxInputs, p.maxInputBytes), Sort(o, fs));
  }

  lemma PrefixSorted(o: Order, a: seq<Facts>, b: seq<Facts>)
    requires a <= b && Sorted(o, b)
    ensures Sorted(o, a)
  {
  }

  /** Every selection is in ascending id order, drawn from the given segments, and within the caps;
      it is all dead weight or at least two segments. */
  lemma ChosenWithin(fs: seq<Facts>, p: Policy)
    ensures var c := Chosen(fs, p);
            && Sorted(ById, c) && multiset(c) <= multiset(fs)
            && |c| <= p.maxInputs && TotalBytes(c) <= p.maxInputBytes
            && ((forall f :: f in c ==> IsDead(f, p)) || |c| >= 2)
  {
    var byId := Sort(ById, Dead(fs, p));
    var dead := Affordable(byId, p.maxInputs, p.maxInputBytes);
    assert Sorted(ById, []) && TotalBytes([]) == 0;
    hide Sort, Affordable, TotalBytes, Sorted, Dead, IsDead;
    if dead != [] {
      DeadMembers(fs, p);
      PartWithin(ById, Dead(fs, p), p);
      PrefixSorted(ById, dead, byId);
      forall f | f in dead
        ensures IsDead(f, p)
      {
        assert f in multiset(dead) && f in multiset(Dead(fs, p));
      }
    } else {
      var small := Affordable(Sort(BySize, fs), p.maxInputs, p.maxInputBytes);
      PartWithin(BySize, fs, p);
      SortSorted(ById, small);
      SortBytes(ById, small);
    }
  }

  // ---------------------------------------------------------------- which segments are chosen

  /** Older, or smaller and of equal ones older. */
  predicate Precedes(o: Order, a: Facts, b: Facts) {
    match o
    case ById => a.id <= b.id
    case BySize => a.bytes < b.bytes || (a.bytes == b.bytes && a.id <= b.id)
  }

  ghost predicate InOrder(o: Order, fs: seq<Facts>) {
    forall i, j :: 0 <= i < j < |fs| ==> Precedes(o, fs[i], fs[j])
  }

  ghost predicate WithinCaps(fs: seq<Facts>, p: Policy) { |fs| <= p.maxInputs && TotalBytes(fs) <= p.maxInputBytes }

  /** The first segments of the pool, in that order, as many as the caps allow. */
  ghost predicate Front(o: Order, pool: seq<Facts>, part: seq<Facts>, p: Policy) {
    exists rest :: Divides(o, pool, part, rest, p)
  }

  ghost predicate Divides(o: Order, pool: seq<Facts>, part: seq<Facts>, rest: seq<Facts>, p: Policy) {
    && multiset(part + rest) == multiset(pool)
    && InOrder(o, part + rest)
    && WithinCaps(part, p) && (rest != [] ==> !WithinCaps(part + [rest[0]], p))
  }

  lemma FrontOf(o: Order, pool: seq<Facts>, p: Policy)
    ensures Front(o, pool, Affordable(Sort(o, pool), p.maxInputs, p.maxInputBytes), p)
  {
    var sorted := Sort(o, pool);
    hide *;
    SortSorted(o, pool);
    AffordableWithin(sorted, p.maxInputs, p.maxInputBytes);
    SortedDivides(o, pool, sorted, Affordable(sorted, p.maxInputs, p.maxInputBytes), p);
  }

  lemma SortedDivides(o: Order, pool: seq<Facts>, sorted: seq<Facts>, part: seq<Facts>, p: Policy)
    requires Sorted(o, sorted) && multiset(sorted) == multiset(pool) && part <= sorted
    requires |part| <= p.maxInputs && TotalBytes(part) <= p.maxInputBytes
    requires |part| < |sorted| ==>
               |part| + 1 > p.maxInputs || TotalBytes(part + [sorted[|part|]]) > p.maxInputBytes
    ensures Front(o, pool, part, p)
  {
    var rest := sorted[|part|..];
    assert part + rest == sorted;
    SortedPrecedes(o, sorted);
    hide TotalBytes, InOrder, Sorted;
    assert Divides(o, pool, part, rest, p);
  }

  lemma SortedPrecedes(o: Order, sorted: seq<Facts>)
    requires Sorted(o, sorted)
    ensures InOrder(o, sorted)
  {
  }

  /** Dead segments go first, oldest first; only if none of them can be taken, and there are enough segments, the
      smallest are taken, at least two. Both times as many as the caps allow, and they are merged oldest first. */
  lemma ChosenExactly(fs: seq<Facts>, p: Policy)
    ensures exists dead, small ::
              && Front(ById, Dead(fs, p), dead, p) && Front(BySize, fs, small, p)
              && if dead != [] then Chosen(fs, p) == dead
                 else if |fs| < p.minSegments || |small| < 2 then Chosen(fs, p) == []
                 else multiset(Chosen(fs, p)) == multiset(small) && Oldest(Chosen(fs, p))
  {
    var dead := Affordable(Sort(ById, Dead(fs, p)), p.maxInputs, p.maxInputBytes);
    var small := Affordable(Sort(BySize, fs), p.maxInputs, p.maxInputBytes);
    FrontOf(ById, Dead(fs, p), p);
    FrontOf(BySize, fs, p);
    SortSorted(ById, small);
    hide Sort, Affordable, Front, Dead;
  }

  ghost predicate Oldest(fs: seq<Facts>) { forall i, j :: 0 <= i < j < |fs| ==> fs[i].id <= fs[j].id }

  /** A segment is dead weight when it is empty and the ratio at most one, or when its suppressed rows reach the
      ratio. */
  lemma DeadExactly(fs: seq<Facts>, p: Policy, f: Facts)
    ensures multiset(Dead(fs, p))[f] ==
            if (f.rows == 0 && p.suppressedRatio <= 1.0)
               || (f.rows > 0 && f.suppressed as real >= p.suppressedRatio * f.rows as real)
            then multiset(fs)[f] else 0
  {
    DeadCount(fs, p, f);
    DeadMeans(f, p);
    hide Dead, IsDead;
  }

  lemma DeadMeans(f: Facts, p: Policy)
    ensures IsDead(f, p) <==>
            (f.rows == 0 && p.suppressedRatio <= 1.0)
            || (f.rows > 0 && f.suppressed as real >= p.suppressedRatio * f.rows as real)
  {
    if f.rows > 0 {
      Quotient(f.suppressed as real, f.rows as real, p.suppressedRatio);
    }
  }

  lemma Quotient(x: real, y: real, r: real)
    requires y > 0.0
    ensures x / y >= r <==> x >= r * y
  {
    var q := x / y;
    assert q * y == x;
    if q >= r {
      Product(q, r, y);
    } else {
      StrictProduct(r, q, y);
    }
  }

  lemma Product(q: real, r: real, y: real)
    requires q >= r && y > 0.0
    ensures q * y >= r * y
  {
  }

  lemma StrictProduct(q: real, r: real, y: real)
    requires q > r && y > 0.0
    ensures q * y > r * y
  {
  }

  // ---------------------------------------------------------------- convergence

  /** Replacing the chosen segments by at most one freshly written, non-empty segment. */
  ghost predicate Rewrites(fs: seq<Facts>, fs': seq<Facts>, chosen: seq<Facts>, merged: seq<Facts>) {
    && multiset(fs') + multiset(chosen) == multiset(fs) + multiset(merged)
    && |merged| <= 1 && forall i :: 0 <= i < |merged| ==> merged[i].rows > 0 && merged[i].suppressed == 0
  }

  /** Segments plus dead segments. */
  function Weight(fs: seq<Facts>, p: Policy): nat { |fs| + |Dead(fs, p)| }

  lemma {:induction false} DeadCount(fs: seq<Facts>, p: Policy, f: Facts)
    ensures multiset(Dead(fs, p))[f] == if IsDead(f, p) then multiset(fs)[f] else 0
  {
    if fs != [] {
      var init := fs[..|fs| - 1];
      DeadCount(init, p, f);
      assert fs == init + [fs[|fs| - 1]];
    }
  }

  lemma {:induction false} DeadConcat(a: seq<Facts>, b: seq<Facts>, p: Policy)
    ensures Dead(a + b, p) == Dead(a, p) + Dead(b, p)
  {
    if b == [] {
      assert a + b == a;
    } else {
      var n := |b| - 1;
      assert (a + b)[..|a + b| - 1] == a + b[..n];
      DeadConcat(a, b[..n], p);
    }
  }

  lemma SameDead(a: seq<Facts>, b: seq<Facts>, p: Policy)
    requires multiset(a) == multiset(b)
    ensures |a| == |b| && |Dead(a, p)| == |Dead(b, p)|
  {
    forall f: Facts
      ensures multiset(Dead(a, p))[f] == multiset(Dead(b, p))[f]
    {
      DeadCount(a, p, f);
      DeadCount(b, p, f);
    }
    assert multiset(Dead(a, p)) == multiset(Dead(b, p));
    assert |multiset(a)| == |a| && |multiset(b)| == |b|;
    assert |multiset(Dead(a, p))| == |Dead(a, p)| && |multiset(Dead(b, p))| == |Dead(b, p)|;
  }

  lemma {:induction false} AllDead(fs: seq<Facts>, p: Policy)
    requires forall f :: f in fs ==> IsDead(f, p)
    ensures Dead(fs, p) == fs
  {
    if fs != [] {
      AllDead(fs[..|fs| - 1], p);
      assert fs[|fs| - 1] in fs;
    }
  }

  /** With a positive ratio, every selection that is carried out lowers the weight. */
  lemma CompactionLowersWeight(fs: seq<Facts>, fs': seq<Facts>, merged: seq<Facts>, p: Policy)
    requires p.suppressedRatio > 0.0 && Chosen(fs, p) != [] && Rewrites(fs, fs', Chosen(fs, p), merged)
    ensures Weight(fs', p) < Weight(fs, p)
  {
    var c := Chosen(fs, p);
    ChosenWithin(fs, p);
    SameDead(fs' + c, fs + merged, p);
    DeadConcat(fs', c, p);
    DeadConcat(fs, merged, p);
    assert Dead(merged, p) == [];
    if forall f :: f in c ==> IsDead(f, p) {
      AllDead(c, p);
    }
  }

  /** The partition after each of a series of compactions, with no writes in between. */
  ghost predicate Series(states: seq<seq<Facts>>, merged: seq<seq<Facts>>, p: Policy) {
    && |states| == |merged| + 1
    && forall i :: 0 <= i < |merged| ==>
         Chosen(states[i], p) != [] && Rewrites(states[i], states[i + 1], Chosen(states[i], p), merged[i])
  }

  /** Repeated compaction comes to rest: no series is longer than the initial weight. */
  lemma {:induction false} CompactionConverges(states: seq<seq<Facts>>, merged: seq<seq<Facts>>, p: Policy)
    requires p.suppressedRatio > 0.0 && Series(states, merged, p)
    ensures |merged| + Weight(states[|merged|], p) <= Weight(states[0], p)
    decreases |merged|
  {
    if merged != [] {
      var n := |merged| - 1;
      CompactionConverges(states[..n + 1], merged[..n], p);
      CompactionLowersWeight(states[n], states[n + 1], merged[n], p);
    }
  }

  lemma NothingDeadRatio(f: Facts)
    requires f.suppressed == 0 < f.rows
    ensures DeadRatio(f) == 0.0
  {
  }

  /** Without a positive ratio, a single live segment is rewritten for ever. */
  lemma ZeroRatioNeverRests(f: Facts, p: Policy)
    requires p.suppressedRatio <= 0.0 && p.maxInputs > 0 && f.bytes <= p.maxInputBytes && f.suppressed == 0 < f.rows
    ensures Chosen([f], p) == [f] && Rewrites([f], [f], Chosen([f], p), [f])
  {
    NothingDeadRatio(f);
    hide DeadRatio;
    assert [f][..0] == [] && Dead([], p) == [] && Dead([f], p) == [f];
    assert [f][1..] == [] && Sort(ById, [f]) == [f];
    assert Affordable([f], p.maxInputs, p.maxInputBytes)
           == [f] + Affordable([], p.maxInputs - 1, p.maxInputBytes - f.bytes);
  }

  /** No series of compactions from `fs` is longer than `bound`. */
  ghost predicate RestsWithin(fs: seq<Facts>, p: Policy, bound: nat) {
    forall states, merged :: Series(states, merged, p) && states[0] == fs ==> |merged| <= bound
  }

  ghost predicate RestsFrom(fs: seq<Facts>, p: Policy) { exists bound: nat :: RestsWithin(fs, p, bound) }

  ghost predicate AlwaysRests(p: Policy) { forall fs :: RestsFrom(fs, p) }

  lemma NothingAffordable(fs: seq<Facts>, p: Policy)
    requires p.maxInputs == 0
    ensures Chosen(fs, p) == []
  {
  }

  function Repeat(f: Facts, n: nat): seq<seq<Facts>> { seq(n, _ => [f]) }

  lemma LiveSegmentSpins(f: Facts, p: Policy, n: nat)
    requires p.suppressedRatio <= 0.0 && p.maxInputs > 0 && f.bytes <= p.maxInputBytes && f.suppressed == 0 < f.rows
    ensures Series(Repeat(f, n + 1), Repeat(f, n), p) && Repeat(f, n + 1)[0] == [f] && |Repeat(f, n)| == n
  {
    ZeroRatioNeverRests(f, p);
    hide Chosen, Rewrites;
  }

  /** A policy lets compaction come to rest, whatever the partition, exactly when its ratio is positive or it
      merges nothing at all. */
  lemma RestsExactly(p: Policy)
    ensures AlwaysRests(p) <==> p.suppressedRatio > 0.0 || p.maxInputs == 0
  {
    if p.suppressedRatio > 0.0 {
      forall fs
        ensures RestsFrom(fs, p)
      {
        forall states, merged | Series(states, merged, p) && states[0] == fs
          ensures |merged| <= Weight(fs, p)
        {
          CompactionConverges(states, merged, p);
        }
        assert RestsWithin(fs, p, Weight(fs, p));
      }
    } else if p.maxInputs == 0 {
      forall fs
        ensures RestsFrom(fs, p)
      {
        NothingAffordable(fs, p);
        assert RestsWithin(fs, p, 0);
      }
    } else {
      var f := Facts(0, 1, 0, 0);
      if RestsFrom([f], p) {
        var bound: nat :| RestsWithin([f], p, bound);
        LiveSegmentSpins(f, p, bound + 1);
      }
    }
    hide Series, Chosen, Weight;
  }
}
