/** Reading located rows source by source and putting them back in request order
    (crates/adb-storage/src/table.rs: TableStore::get). */
module Lookups {
  import opened Values
  import opened PartitionState
  import opened Sorting

  /** Where a row is kept: which partition, and which source in it. */
  datatype Place = Place(part: nat, source: Source)

  /** A requested key that was found. */
  datatype Hit = Hit(request: nat, part: nat, loc: Locator)

  function PlaceOf(h: Hit): Place { Place(h.part, h.loc.source) }

  /** The rows of the requested keys that exist, in request order. */
  function Found(v: map<RowKey, Row>, keys: seq<RowKey>): seq<Row> {
    if keys == [] then []
    else Found(v, keys[..|keys| - 1]) + (if keys[|keys| - 1] in v then [v[keys[|keys| - 1]]] else [])
  }

  /** The hits in one place, in request order. */
  function HitsIn(hits: seq<Hit>, at: Place): seq<Hit> {
    if hits == [] then []
    else HitsIn(hits[..|hits| - 1], at) + (if PlaceOf(hits[|hits| - 1]) == at then [hits[|hits| - 1]] else [])
  }

  function PlacesOf(hits: seq<Hit>): set<Place> { set i | 0 <= i < |hits| :: PlaceOf(hits[i]) }

  lemma {:induction false} HitCount(hits: seq<Hit>, at: Place, h: Hit)
    ensures multiset(HitsIn(hits, at))[h] == if PlaceOf(h) == at then multiset(hits)[h] else 0
  {
    if hits != [] {
      HitCount(hits[..|hits| - 1], at, h);
      assert hits == hits[..|hits| - 1] + [hits[|hits| - 1]];
    }
  }

  /** Groups hits by place, so that each source is opened once. */
  method GroupHits(hits: seq<Hit>) returns (groups: map<Place, seq<Hit>>)
    ensures groups.Keys == PlacesOf(hits) && forall at :: at in groups ==> groups[at] == HitsIn(hits, at)
  {
    groups := map[];
    for i := 0 to |hits|
      invariant groups.Keys == PlacesOf(hits[..i])
      invariant forall at :: at in groups ==> groups[at] == HitsIn(hits[..i], at)
    {
      var at := PlaceOf(hits[i]);
      NoHitsElsewhere(hits[..i], at);
      assert hits[..i + 1][..i] == hits[..i];
      assert PlacesOf(hits[..i + 1]) == PlacesOf(hits[..i]) + {at};
      groups := groups[at := (if at in groups then groups[at] else []) + [hits[i]]];
    }
    assert hits[..|hits|] == hits;
  }

  lemma {:induction false} NoHitsElsewhere(hits: seq<Hit>, at: Place)
    ensures at !in PlacesOf(hits) ==> HitsIn(hits, at) == []
  {
    if hits != [] {
      NoHitsElsewhere(hits[..|hits| - 1], at);
      assert forall i :: 0 <= i < |hits| - 1 ==> hits[..|hits| - 1][i] == hits[i];
      assert PlaceOf(hits[|hits| - 1]) in PlacesOf(hits);
      assert PlacesOf(hits[..|hits| - 1]) <= PlacesOf(hits);
    }
  }

  /** `order` arranges the hits outside the places in `rest`. */
  ghost predicate Arranges(order: seq<Hit>, hits: seq<Hit>, rest: set<Place>) {
    forall h :: multiset(order)[h] == if PlaceOf(h) in rest then 0 else multiset(hits)[h]
  }

  lemma NothingArranged(hits: seq<Hit>)
    ensures Arranges([], hits, PlacesOf(hits))
  {
    forall h: Hit
      ensures PlaceOf(h) !in PlacesOf(hits) ==> multiset(hits)[h] == 0
    {
      if h in multiset(hits) {
        var i :| 0 <= i < |hits| && hits[i] == h;
        assert PlaceOf(hits[i]) in PlacesOf(hits);
      }
    }
  }

  /** Whatever place comes next, its hits are added once, in whatever order they are taken. */
  lemma ArrangesNext(order: seq<Hit>, hits: seq<Hit>, rest: set<Place>, at: Place, wanted: seq<Hit>)
    requires Arranges(order, hits, rest) && at in rest && multiset(wanted) == multiset(HitsIn(hits, at))
    ensures Arranges(order + wanted, hits, rest - {at})
  {
    forall h: Hit
      ensures multiset(order + wanted)[h] == if PlaceOf(h) in rest - {at} then 0 else multiset(hits)[h]
    {
      HitCount(hits, at, h);
      CountConcat(order, wanted, h);
    }
  }

  lemma CountConcat(a: seq<Hit>, b: seq<Hit>, h: Hit)
    ensures multiset(a + b)[h] == multiset(a)[h] + multiset(b)[h]
  {
  }

  lemma AllArranged(order: seq<Hit>, hits: seq<Hit>)
    requires Arranges(order, hits, {})
    ensures multiset(order) == multiset(hits)
  {
  }

  function Request(h: Hit): int { h.request }

  function Ordinal(h: Hit): int { h.loc.ordinal }

  function First(p: (nat, nat)): int { p.0 }

  /** Takes the rows in the order of their requests, from the order they were read in. */
  method Restore(order: seq<Hit>, combined: seq<Row>, ghost row: Hit -> Row) returns (rows: seq<Row>)
    requires combined == Mapped(row, order)
    ensures rows == Mapped(row, SortBy(Request, order))
  {
    var pairs: seq<(nat, nat)> := [];
    for position := 0 to |order|
      invariant |pairs| == position && forall p :: 0 <= p < position ==> pairs[p] == (order[p].request, p)
    {
      pairs := pairs + [(order[position].request, position)];
    }
    var permutation := SortBy(First, pairs);
    RestoredOrder(order, pairs);
    PairsInRange(pairs, |order|);
    rows := [];
    for j := 0 to |permutation|
      invariant |rows| == j
      invariant forall p :: 0 <= p < j ==> rows[p] == row(SortBy(Request, order)[p])
    {
      rows := rows + [combined[permutation[j].1]];
    }
  }

  lemma PairsInRange(pairs: seq<(nat, nat)>, n: nat)
    requires forall p :: 0 <= p < |pairs| ==> pairs[p].1 < n
    ensures var sorted := SortBy(First, pairs); forall j :: 0 <= j < |sorted| ==> sorted[j].1 < n
  {
    var sorted := SortBy(First, pairs);
    SortAscends(First, pairs);
    forall j | 0 <= j < |sorted|
      ensures sorted[j].1 < n
    {
      assert sorted[j] in multiset(pairs);
    }
  }

  /** Sorting positions by request sorts what is at them. */
  lemma RestoredOrder(order: seq<Hit>, pairs: seq<(nat, nat)>)
    requires |pairs| == |order| && forall p :: 0 <= p < |order| ==> pairs[p] == (order[p].request, p)
    ensures var sorted := SortBy(First, pairs);
            && |sorted| == |SortBy(Request, order)|
            && forall j :: 0 <= j < |sorted| ==>
                 sorted[j].1 < |order| && order[sorted[j].1] == SortBy(Request, order)[j]
  {
    var f := (p: (nat, nat)) => if p.1 < |order| then order[p.1] else Hit(0, 0, Locator(Memtable, 0));
    SortApply(Request, First, f, pairs);
    assert Mapped(f, pairs) == order;
    PairsInRange(pairs, |order|);
  }
}
