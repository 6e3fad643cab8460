/** Stable sorting by an integer key, the library sort behind `sort_by_key`. */
module Sorting {

  function Place<T>(key: T -> int, x: T, sorted: seq<T>): seq<T> {
    if sorted == [] || key(x) <= key(sorted[0]) then [x] + sorted else [sorted[0]] + Place(key, x, sorted[1..])
  }

  function SortBy<T>(key: T -> int, xs: seq<T>): seq<T> {
    if xs == [] then [] else Place(key, xs[0], SortBy(key, xs[1..]))
  }

  ghost predicate Ascends<T>(key: T -> int, xs: seq<T>) {
    forall i, j :: 0 <= i < j < |xs| ==> key(xs[i]) <= key(xs[j])
  }

  ghost predicate StrictlyAscends<T>(key: T -> int, xs: seq<T>) {
    forall i, j :: 0 <= i < j < |xs| ==> key(xs[i]) < key(xs[j])
  }

  function Mapped<T, U>(f: T -> U, xs: seq<T>): (ys: seq<U>)
    ensures |ys| == |xs| && forall i :: 0 <= i < |xs| ==> ys[i] == f(xs[i])
  {
    seq(|xs|, i requires 0 <= i < |xs| => f(xs[i]))
  }

  lemma {:induction false} PlacePermutes<T>(key: T -> int, x: T, sorted: seq<T>)
    ensures multiset(Place(key, x, sorted)) == multiset{x} + multiset(sorted)
  {
    if sorted != [] && key(x) > key(sorted[0]) {
      PlacePermutes(key, x, sorted[1..]);
      assert sorted == [sorted[0]] + sorted[1..];
    }
  }

  lemma {:induction false} PlaceAscends<T>(key: T -> int, x: T, sorted: seq<T>)
    requires Ascends(key, sorted)
    ensures Ascends(key, Place(key, x, sorted))
  {
    if sorted != [] && key(x) > key(sorted[0]) {
      PlaceAscends(key, x, sorted[1..]);
      PlacePermutes(key, x, sorted[1..]);
      var rest := Place(key, x, sorted[1..]);
      forall j | 0 <= j < |rest|
        ensures key(sorted[0]) <= key(rest[j])
      {
        assert rest[j] in multiset(rest);
      }
    }
  }

  lemma {:induction false} SortAscends<T>(key: T -> int, xs: seq<T>)
    ensures Ascends(key, SortBy(key, xs)) && multiset(SortBy(key, xs)) == multiset(xs)
  {
    if xs != [] {
      SortAscends(key, xs[1..]);
      PlaceAscends(key, xs[0], SortBy(key, xs[1..]));
      PlacePermutes(key, xs[0], SortBy(key, xs[1..]));
      assert xs == [xs[0]] + xs[1..];
    }
  }

  lemma {:induction false} PlaceApply<T, U>(key: U -> int, k: T -> int, f: T -> U, x: T, sorted: seq<T>)
    requires k(x) == key(f(x)) && forall i :: 0 <= i < |sorted| ==> k(sorted[i]) == key(f(sorted[i]))
    ensures Mapped(f, Place(k, x, sorted)) == Place(key, f(x), Mapped(f, sorted))
  {
    if sorted != [] && k(x) > k(sorted[0]) {
      PlaceApply(key, k, f, x, sorted[1..]);
      assert Mapped(f, sorted)[1..] == Mapped(f, sorted[1..]);
    }
  }

  /** Sorting before or after a map that keeps the keys is the same. */
  lemma {:induction false} SortApply<T, U>(key: U -> int, k: T -> int, f: T -> U, xs: seq<T>)
    requires forall i :: 0 <= i < |xs| ==> k(xs[i]) == key(f(xs[i]))
    ensures Mapped(f, SortBy(k, xs)) == SortBy(key, Mapped(f, xs))
  {
    if xs != [] {
      SortApply(key, k, f, xs[1..]);
      var rest := SortBy(k, xs[1..]);
      SortAscends(k, xs[1..]);
      forall i | 0 <= i < |rest|
        ensures k(rest[i]) == key(f(rest[i]))
      {
        assert rest[i] in multiset(xs[1..]);
      }
      PlaceApply(key, k, f, xs[0], rest);
      assert Mapped(f, xs)[1..] == Mapped(f, xs[1..]);
    }
  }

  lemma HeadsAgree<T>(key: T -> int, s: seq<T>, t: seq<T>)
    requires Ascends(key, s) && StrictlyAscends(key, t) && multiset(s) == multiset(t) && t != []
    ensures s != [] && s[0] == t[0]
  {
    assert t[0] in multiset(s) && s != [];
    assert s[0] in multiset(t);
    var i :| 0 <= i < |s| && s[i] == t[0];
    var j :| 0 <= j < |t| && t[j] == s[0];
  }

  lemma TailMembers<T>(s: seq<T>)
    requires s != []
    ensures s == [s[0]] + s[1..] && multiset(s[1..]) == multiset(s) - multiset{s[0]}
  {
    assert s == [s[0]] + s[1..];
  }

  lemma TailAscends<T>(key: T -> int, s: seq<T>)
    requires s != []
    ensures Ascends(key, s) ==> Ascends(key, s[1..])
    ensures StrictlyAscends(key, s) ==> StrictlyAscends(key, s[1..])
  {
  }

  /** A strictly ascending sequence is the only ascending arrangement of its elements. */
  lemma {:induction false} AscendingUnique<T>(key: T -> int, s: seq<T>, t: seq<T>)
    requires Ascends(key, s) && StrictlyAscends(key, t) && multiset(s) == multiset(t)
    ensures s == t
  {
    hide *;
    assert |multiset(s)| == |s| && |multiset(t)| == |t|;
    if t != [] {
      HeadsAgree(key, s, t);
      TailMembers(s);
      TailMembers(t);
      TailAscends(key, s);
      TailAscends(key, t);
      AscendingUnique(key, s[1..], t[1..]);
    }
  }

  /** Sorting any arrangement of a strictly ascending sequence restores it. */
  lemma SortRestores<T>(key: T -> int, order: seq<T>, t: seq<T>)
    requires StrictlyAscends(key, t) && multiset(order) == multiset(t)
    ensures SortBy(key, order) == t
  {
    SortAscends(key, order);
    AscendingUnique(key, SortBy(key, order), t);
  }
}
