/** Ranking stores by distance from the requester (app.py,
    find_nearest_stores, the loop over the stores and the sort). A store is
    kept only when both its latitude and its longitude are truthy; the kept
    stores are sorted by distance with Python's stable `list.sort`.
    `distance` stands for the rounded great-circle distance from the
    requester's position to a store's coordinates. */
module NearestStores {
  import opened OrderedDicts
  import opened Models

  /** One element of `stores_with_distance`. */
  datatype RankedStore = RankedStore(
    id: int,
    name: string,
    address: string,
    postcode: string,
    distance: real,
    prices: Dict<string, real>)

  /** Python truthiness of a nullable float: `None` and `0.0` are false. */
  predicate Truthy(x: Option<real>)
  {
    x.Some? && x.value != 0.0
  }

  predicate HasCoordinates(s: Store)
  {
    Truthy(s.latitude) && Truthy(s.longitude)
  }

  function Rank(s: Store, distance: (real, real) -> real): RankedStore
    requires HasCoordinates(s)
  {
    RankedStore(s.id, s.name, s.address, s.zipCode, distance(s.latitude.value, s.longitude.value), s.prices)
  }

  /** `stores_with_distance` after the loop: the stores with coordinates, in
      their original order. */
  function Candidates(stores: seq<Store>, distance: (real, real) -> real): seq<RankedStore>
  {
    if stores == [] then []
    else
      var last := stores[|stores| - 1];
      Candidates(stores[..|stores| - 1], distance) + (if HasCoordinates(last) then [Rank(last, distance)] else [])
  }

  predicate SortedByDistance(s: seq<RankedStore>)
  {
    forall i, j :: 0 <= i < j < |s| ==> s[i].distance <= s[j].distance
  }

  /** The elements of `s` at distance `d`, in their order in `s`. */
  function AtDistance(s: seq<RankedStore>, d: real): seq<RankedStore>
  {
    if s == [] then []
    else (if s[0].distance == d then [s[0]] else []) + AtDistance(s[1..], d)
  }

  /** Insert `x` into the sorted `t` before the first element that is not
      nearer than `x`. */
  function Insert(x: RankedStore, t: seq<RankedStore>): seq<RankedStore>
  {
    if t == [] || x.distance <= t[0].distance then [x] + t
    else [t[0]] + Insert(x, t[1..])
  }

  /** A stable sort by distance (what `list.sort(key=...)` returns): earlier
      elements are inserted in front of later ones at the same distance. */
  function SortByDistance(s: seq<RankedStore>): seq<RankedStore>
  {
    if s == [] then [] else Insert(s[0], SortByDistance(s[1..]))
  }

  lemma {:induction false} InsertPermutes(x: RankedStore, t: seq<RankedStore>)
    ensures multiset(Insert(x, t)) == multiset(t) + multiset{x}
  {
    if !(t == [] || x.distance <= t[0].distance) {
      InsertPermutes(x, t[1..]);
      assert t == [t[0]] + t[1..];
    }
  }

  /** Every element of `Insert(x, t)` is at least as far as `bound` when `x`
      and every element of `t` are. */
  lemma {:induction false} InsertLowerBound(x: RankedStore, t: seq<RankedStore>, bound: real)
    requires bound <= x.distance
    requires forall k :: 0 <= k < |t| ==> bound <= t[k].distance
    ensures |Insert(x, t)| == |t| + 1
    ensures forall k :: 0 <= k < |Insert(x, t)| ==> bound <= Insert(x, t)[k].distance
  {
    if !(t == [] || x.distance <= t[0].distance) {
      InsertLowerBound(x, t[1..], bound);
    }
  }

  /** A sorted sequence stays sorted when an element no farther than all of
      it is put in front. */
  lemma ConsSorted(a: RankedStore, t: seq<RankedStore>)
    requires SortedByDistance(t)
    requires forall k :: 0 <= k < |t| ==> a.distance <= t[k].distance
    ensures SortedByDistance([a] + t)
  {
    var r := [a] + t;
    forall i, j | 0 <= i < j < |r| ensures r[i].distance <= r[j].distance {
      if i == 0 {
        assert r[j] == t[j - 1];
      } else {
        assert r[i] == t[i - 1] && r[j] == t[j - 1];
      }
    }
  }

  lemma {:induction false} InsertSorted(x: RankedStore, t: seq<RankedStore>)
    requires SortedByDistance(t)
    ensures SortedByDistance(Insert(x, t))
  {
    if t == [] || x.distance <= t[0].distance {
      ConsSorted(x, t);
    } else {
      var tail := t[1..];
      assert SortedByDistance(tail);
      InsertSorted(x, tail);
      InsertLowerBound(x, tail, t[0].distance);
      ConsSorted(t[0], Insert(x, tail));
    }
  }

  lemma {:induction false} InsertAtDistance(x: RankedStore, t: seq<RankedStore>, d: real)
    ensures AtDistance(Insert(x, t), d) == AtDistance([x], d) + AtDistance(t, d)
  {
    if t == [] || x.distance <= t[0].distance {
      assert ([x] + t)[1..] == t;
    } else {
      var rest := Insert(x, t[1..]);
      InsertAtDistance(x, t[1..], d);
      assert ([t[0]] + rest)[1..] == rest;
      assert x.distance != d || t[0].distance != d;
    }
  }

  lemma AtDistanceSingleton(x: RankedStore, d: real)
    ensures AtDistance([x], d) == if x.distance == d then [x] else []
  {
    assert [x][1..] == [];
  }

  /** The sort returns the input's elements. */
  lemma {:induction false} SortPermutes(s: seq<RankedStore>)
    ensures multiset(SortByDistance(s)) == multiset(s)
  {
    if s != [] {
      SortPermutes(s[1..]);
      InsertPermutes(s[0], SortByDistance(s[1..]));
      assert s == [s[0]] + s[1..];
    }
  }

  /** The sort orders its result by distance. */
  lemma {:induction false} SortSorts(s: seq<RankedStore>)
    ensures SortedByDistance(SortByDistance(s))
  {
    if s != [] {
      SortSorts(s[1..]);
      InsertSorted(s[0], SortByDistance(s[1..]));
    }
  }

  /** The sort is stable: among elements at the same distance it keeps the
      input order. */
  lemma {:induction false} SortStable(s: seq<RankedStore>, d: real)
    ensures AtDistance(SortByDistance(s), d) == AtDistance(s, d)
  {
    if s != [] {
      SortStable(s[1..], d);
      InsertAtDistance(s[0], SortByDistance(s[1..]), d);
      AtDistanceSingleton(s[0], d);
    }
  }

  /** A store is a candidate exactly when it has both coordinates. */
  lemma {:induction false} CandidatesSpec(stores: seq<Store>, distance: (real, real) -> real)
    ensures forall c :: c in Candidates(stores, distance) <==>
      exists i :: 0 <= i < |stores| && HasCoordinates(stores[i]) && c == Rank(stores[i], distance)
  {
    if stores != [] {
      var p := stores[..|stores| - 1];
      CandidatesSpec(p, distance);
      assert forall i :: 0 <= i < |p| ==> stores[i] == p[i];
      forall c | exists i :: 0 <= i < |stores| && HasCoordinates(stores[i]) && c == Rank(stores[i], distance)
        ensures c in Candidates(stores, distance)
      {
        var i :| 0 <= i < |stores| && HasCoordinates(stores[i]) && c == Rank(stores[i], distance);
        if i < |p| {
          assert c in Candidates(p, distance);
        }
      }
    }
  }

  /** The distance loop and the sort of find_nearest_stores. */
  method FindNearestStores(stores: seq<Store>, distance: (real, real) -> real) returns (ranked: seq<RankedStore>)
    ensures ranked == SortByDistance(Candidates(stores, distance))
    ensures forall c :: c in ranked <==>
      exists i :: 0 <= i < |stores| && HasCoordinates(stores[i]) && c == Rank(stores[i], distance)
    ensures multiset(ranked) == multiset(Candidates(stores, distance))
    ensures SortedByDistance(ranked)
    ensures forall d :: AtDistance(ranked, d) == AtDistance(Candidates(stores, distance), d)
  {
    var withDistance: seq<RankedStore> := [];
    for i := 0 to |stores|
      invariant withDistance == Candidates(stores[..i], distance)
    {
      var store := stores[i];
      if store.latitude.Some? && store.latitude.value != 0.0 && store.longitude.Some? && store.longitude.value != 0.0 {
        var d := distance(store.latitude.value, store.longitude.value);
        withDistance := withDistance + [RankedStore(store.id, store.name, store.address, store.zipCode, d, store.prices)];
      }
      assert stores[..i + 1][..i] == stores[..i];
    }
    assert stores[..|stores|] == stores;
    ranked := SortByDistance(withDistance);
    SortPermutes(withDistance);
    SortSorts(withDistance);
    forall d ensures AtDistance(ranked, d) == AtDistance(withDistance, d) {
      SortStable(withDistance, d);
    }
    CandidatesSpec(stores, distance);
    forall c ensures c in ranked <==> c in withDistance {
      assert c in ranked <==> c in multiset(ranked);
    }
  }
}
