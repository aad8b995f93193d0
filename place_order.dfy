/**
 * The `sortedPlaces` memo of the restaurant list
 * (app/components/RestaurantList.tsx:31-45): with a user location, every
 * place is paired with its distance from that location and the pairs are
 * sorted by distance with `Array.prototype.sort`, which ECMA-262 requires to
 * be stable. The great-circle formula itself is a parameter here.
 */
module PlaceOrder {
  import opened Wrappers
  import opened Places

  /** The user's coordinates, the origin every distance is measured from. */
  datatype Origin = Origin(lat: real, lng: real)

  /** The distance formula `calculateDistance(lat1, lon1, lat2, lon2)`. */
  type Metric = (real, real, real, real) -> real

  /** `{ ...place, distance }`: a place with its computed distance. */
  datatype Ranked = Ranked(place: PlaceResult, distance: real)

  /** What the memo yields: the input list as it came when there is no user
      location, else the places ranked by distance. */
  datatype Listing = AsGiven(places: seq<PlaceResult>) | ByDistance(ranked: seq<Ranked>)

  /** JavaScript truthiness of a coordinate: present and not zero. */
  predicate TruthyCoord(c: Option<real>) {
    c.Some? && c.value != 0.0
  }

  /** Both coordinates pass the `lat && lng` test. */
  predicate HasCoords(p: PlaceResult) {
    TruthyCoord(p.lat) && TruthyCoord(p.lng)
  }

  /** The distance the memo attaches to a place: the metric when both
      coordinates are truthy, else 0. */
  function DistanceTo(origin: Origin, p: PlaceResult, metric: Metric): real {
    if HasCoords(p) then metric(origin.lat, origin.lng, p.lat.value, p.lng.value) else 0.0
  }

  /** The `map` step: each place with its distance, in input order. */
  function Rank(origin: Origin, places: seq<PlaceResult>, metric: Metric): (r: seq<Ranked>)
    ensures |r| == |places|
  {
    if places == [] then []
    else [Ranked(places[0], DistanceTo(origin, places[0], metric))] + Rank(origin, places[1..], metric)
  }

  /** Inserts `x` in front of the first entry that is not closer than it, so
      that `x` stays ahead of every entry at the same distance. */
  function Insert(x: Ranked, s: seq<Ranked>): (r: seq<Ranked>)
    ensures |r| == |s| + 1
  {
    if s == [] || x.distance <= s[0].distance then [x] + s
    else [s[0]] + Insert(x, s[1..])
  }

  /** The `sort` step: a stable sort by distance. Since a stable sort's
      output is fixed by the comparator, any engine's stable sort agrees. */
  function SortByDistance(s: seq<Ranked>): (r: seq<Ranked>)
    ensures |r| == |s|
  {
    if s == [] then [] else Insert(s[0], SortByDistance(s[1..]))
  }

  /** The memo `sortedPlaces`. */
  function SortedPlaces(places: seq<PlaceResult>, user: Option<Origin>, metric: Metric): (r: Listing)
    ensures user.None? <==> r.AsGiven?
    ensures user.None? ==> r == AsGiven(places)
    ensures user.Some? ==> |r.ranked| == |places|
  {
    match user
    case None => AsGiven(places)
    case Some(origin) => ByDistance(SortByDistance(Rank(origin, places, metric)))
  }

  /** Non-decreasing by distance. */
  ghost predicate NonDecreasing(s: seq<Ranked>) {
    forall i, j :: 0 <= i < j < |s| ==> s[i].distance <= s[j].distance
  }

  /** The entries at exactly distance `d`, in their order in `s`. */
  function AtDistance(s: seq<Ranked>, d: real): (r: seq<Ranked>)
    ensures |r| <= |s|
  {
    if s == [] then []
    else (if s[0].distance == d then [s[0]] else []) + AtDistance(s[1..], d)
  }

  /** Stability: for every distance, the entries at that distance appear in
      the same relative order in `r` as in `s`. */
  ghost predicate SameTies(r: seq<Ranked>, s: seq<Ranked>) {
    forall d :: AtDistance(r, d) == AtDistance(s, d)
  }

  lemma {:induction false} InsertPermutes(x: Ranked, s: seq<Ranked>)
    ensures multiset(Insert(x, s)) == multiset(s) + multiset{x}
  {
    if s != [] && x.distance > s[0].distance {
      InsertPermutes(x, s[1..]);
      assert s == [s[0]] + s[1..];
    }
  }

  /** A lower bound on every entry of `s` and on `x` bounds `Insert(x, s)`. */
  lemma {:induction false} InsertKeepsLowerBound(x: Ranked, s: seq<Ranked>, m: real)
    requires m <= x.distance
    requires forall k :: 0 <= k < |s| ==> m <= s[k].distance
    ensures forall k :: 0 <= k < |Insert(x, s)| ==> m <= Insert(x, s)[k].distance
  {
    if s != [] && x.distance > s[0].distance {
      InsertKeepsLowerBound(x, s[1..], m);
      var r := Insert(x, s);
      assert r == [s[0]] + Insert(x, s[1..]);
      forall k | 1 <= k < |r| ensures m <= r[k].distance {
        assert r[k] == Insert(x, s[1..])[k - 1];
      }
    }
  }

  lemma {:induction false} InsertSorts(x: Ranked, s: seq<Ranked>)
    requires NonDecreasing(s)
    ensures NonDecreasing(Insert(x, s))
  {
    var r := Insert(x, s);
    if s == [] || x.distance <= s[0].distance {
      forall i, j | 0 <= i < j < |r| ensures r[i].distance <= r[j].distance {
        if i == 0 { assert r[j] == s[j - 1]; } else { assert r[i] == s[i - 1] && r[j] == s[j - 1]; }
      }
    } else {
      var t := Insert(x, s[1..]);
      assert NonDecreasing(s[1..]);
      InsertSorts(x, s[1..]);
      InsertKeepsLowerBound(x, s[1..], s[0].distance);
      forall i, j | 0 <= i < j < |r| ensures r[i].distance <= r[j].distance {
        if i == 0 { assert r[j] == t[j - 1]; } else { assert r[i] == t[i - 1] && r[j] == t[j - 1]; }
      }
    }
  }

  /** Filtering a list with one more entry at its front. */
  lemma AtDistanceCons(y: Ranked, t: seq<Ranked>, d: real)
    ensures AtDistance([y] + t, d) == (if y.distance == d then [y] else []) + AtDistance(t, d)
  {
    assert ([y] + t)[1..] == t;
  }

  lemma {:induction false} InsertKeepsTies(x: Ranked, s: seq<Ranked>, d: real)
    ensures AtDistance(Insert(x, s), d) == (if x.distance == d then [x] else []) + AtDistance(s, d)
  {
    if s == [] || x.distance <= s[0].distance {
      AtDistanceCons(x, s, d);
    } else {
      var y, t := s[0], Insert(x, s[1..]);
      InsertKeepsTies(x, s[1..], d);
      AtDistanceCons(y, t, d);
      assert s == [y] + s[1..];
      AtDistanceCons(y, s[1..], d);
      if y.distance == d {
        assert x.distance != d;
      }
    }
  }

  /** The sort yields a permutation of its input, ordered by distance, with
      ties in input order. */
  lemma {:induction false} SortByDistanceCorrect(s: seq<Ranked>)
    ensures multiset(SortByDistance(s)) == multiset(s)
    ensures NonDecreasing(SortByDistance(s))
    ensures SameTies(SortByDistance(s), s)
  {
    if s != [] {
      var rest := SortByDistance(s[1..]);
      SortByDistanceCorrect(s[1..]);
      InsertPermutes(s[0], rest);
      InsertSorts(s[0], rest);
      assert s == [s[0]] + s[1..];
      forall d ensures AtDistance(SortByDistance(s), d) == AtDistance(s, d) {
        InsertKeepsTies(s[0], rest, d);
        assert AtDistance(s, d) == (if s[0].distance == d then [s[0]] else []) + AtDistance(s[1..], d);
      }
    }
  }

  lemma {:induction false} AtDistanceMembers(s: seq<Ranked>, d: real, x: Ranked)
    requires x in AtDistance(s, d)
    ensures x in s && x.distance == d
    decreases |s|
  {
    if s[0] != x || s[0].distance != d {
      AtDistanceMembers(s[1..], d, x);
    }
  }

  /** Lists with the same tie groups are empty together. */
  lemma SameTiesEmpty(r1: seq<Ranked>, r2: seq<Ranked>)
    requires SameTies(r1, r2)
    ensures r1 == [] <==> r2 == []
  {
    if r1 != [] {
      assert AtDistance(r1, r1[0].distance) != [];
      assert AtDistance(r2, r1[0].distance) != [];
    }
    if r2 != [] {
      assert AtDistance(r2, r2[0].distance) != [];
      assert AtDistance(r1, r2[0].distance) != [];
    }
  }

  /** Two orders that are both non-decreasing by distance and agree on the
      order within every distance are the same order: a stable sort's output
      is fixed by its input, whatever algorithm the engine runs. */
  lemma {:induction false} StableOrderIsUnique(r1: seq<Ranked>, r2: seq<Ranked>)
    requires NonDecreasing(r1) && NonDecreasing(r2)
    requires SameTies(r1, r2)
    ensures r1 == r2
    decreases |r1|
  {
    SameTiesEmpty(r1, r2);
    if r1 != [] {
      var m1, m2 := r1[0].distance, r2[0].distance;
      AtDistanceMembers(r2, m1, AtDistance(r1, m1)[0]);
      AtDistanceMembers(r1, m2, AtDistance(r2, m2)[0]);
      assert m1 == m2;
      assert r1[0] == r2[0] by {
        assert AtDistance(r1, m1)[0] == r1[0];
        assert AtDistance(r2, m1)[0] == r2[0];
      }
      assert NonDecreasing(r1[1..]) && NonDecreasing(r2[1..]);
      forall d ensures AtDistance(r1[1..], d) == AtDistance(r2[1..], d) {
        assert AtDistance(r1, d) == (if m1 == d then [r1[0]] else []) + AtDistance(r1[1..], d);
        assert AtDistance(r2, d) == (if m1 == d then [r2[0]] else []) + AtDistance(r2[1..], d);
        assert AtDistance(r1, d) == AtDistance(r2, d);
        if m1 == d {
          assert AtDistance(r1[1..], d) == AtDistance(r1, d)[1..];
          assert AtDistance(r2[1..], d) == AtDistance(r2, d)[1..];
        } else {
          assert AtDistance(r1[1..], d) == AtDistance(r1, d);
          assert AtDistance(r2[1..], d) == AtDistance(r2, d);
        }
      }
      StableOrderIsUnique(r1[1..], r2[1..]);
      assert r1 == [r1[0]] + r1[1..] && r2 == [r2[0]] + r2[1..];
    }
  }

  /** Ranking keeps the places in input order and gives a place without two
      truthy coordinates the distance 0. */
  lemma {:induction false} RankAttachesDistances(origin: Origin, places: seq<PlaceResult>, metric: Metric)
    ensures forall i :: 0 <= i < |places| ==> Rank(origin, places, metric)[i].place == places[i]
    ensures forall i :: 0 <= i < |places| && !HasCoords(places[i]) ==> Rank(origin, places, metric)[i].distance == 0.0
    ensures forall i :: 0 <= i < |places| && HasCoords(places[i]) ==>
              Rank(origin, places, metric)[i].distance
              == metric(origin.lat, origin.lng, places[i].lat.value, places[i].lng.value)
  {
    if places != [] {
      RankAttachesDistances(origin, places[1..], metric);
      var r := Rank(origin, places, metric);
      assert r[1..] == Rank(origin, places[1..], metric);
      forall i | 1 <= i < |places| ensures r[i] == Rank(origin, places[1..], metric)[i - 1] && places[i] == places[1..][i - 1] { }
    }
  }

  /** The memo's contract: without a user location the list is returned
      as it came; with one, the result is a permutation of the ranked input,
      non-decreasing by distance, with equal distances in input order, and a
      place missing a truthy coordinate sits at distance 0. */
  lemma SortedPlacesSpec(places: seq<PlaceResult>, user: Option<Origin>, metric: Metric)
    ensures user.None? ==> SortedPlaces(places, user, metric) == AsGiven(places)
    ensures user.Some? ==>
      var ranked := Rank(user.value, places, metric);
      var r := SortedPlaces(places, user, metric);
      && r.ByDistance?
      && multiset(r.ranked) == multiset(ranked)
      && NonDecreasing(r.ranked)
      && SameTies(r.ranked, ranked)
      && (forall i :: 0 <= i < |places| ==> ranked[i].place == places[i])
      && (forall i :: 0 <= i < |places| && !HasCoords(places[i]) ==> ranked[i].distance == 0.0)
  {
    if user.Some? {
      SortByDistanceCorrect(Rank(user.value, places, metric));
      RankAttachesDistances(user.value, places, metric);
    }
  }

  /** Any list that is ordered by distance and keeps ties in input order is
      exactly the memo's list. */
  lemma SortedPlacesIsTheStableSort(places: seq<PlaceResult>, origin: Origin, metric: Metric, r: seq<Ranked>)
    requires NonDecreasing(r) && SameTies(r, Rank(origin, places, metric))
    ensures SortedPlaces(places, Some(origin), metric) == ByDistance(r)
  {
    var ranked := Rank(origin, places, metric);
    SortByDistanceCorrect(ranked);
    var sorted := SortByDistance(ranked);
    forall d ensures AtDistance(r, d) == AtDistance(sorted, d) {
      assert AtDistance(r, d) == AtDistance(ranked, d);
      assert AtDistance(sorted, d) == AtDistance(ranked, d);
    }
    StableOrderIsUnique(r, sorted);
  }
}
