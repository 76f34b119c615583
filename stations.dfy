/** The choice of the spotthestation location closest to the user
    (App.js:132-149): every station of the table is given its location key and
    its distance from the user, the list is sorted by distance with the
    comparator `a.dist - b.dist`, and the first entry's key is taken. */
module Stations {
  import opened Wrappers
  import opened JsStrings
  import opened Seqs

  /** One row of the sighting-locations table. */
  datatype Station = Station(country: string, state: string, city: string, lat: real, lng: real)

  /** `{lat, lng, coordSightingLoc}`: a station's position and the key its
      feed file is named by. */
  datatype Coord = Coord(lat: real, lng: real, locationKey: string)

  /** `{coord, dist}`: a station with its distance from the user. */
  datatype Ranked = Ranked(coord: Coord, dist: int)

  /** Reading `.coord` of the first entry of an empty list throws. */
  datatype LocationError = NoReferencePoints

  /** `Country + '_' + State + '_' + City`. */
  function LocationKey(station: Station): string
  {
    station.country + "_" + station.state + "_" + station.city
  }

  /** Names without `_` are read back from the key by splitting it at `_`. */
  lemma {:induction false} LocationKeySplits(station: Station)
    requires !Includes(station.country, "_") && !Includes(station.state, "_") && !Includes(station.city, "_")
    ensures Split(LocationKey(station), "_") == [station.country, station.state, station.city]
  {
    var parts := [station.country, station.state, station.city];
    assert parts[1..][1..] == [station.city];
    assert Join(parts[1..], "_") == station.state + "_" + station.city;
    assert Join(parts, "_") == station.country + "_" + (station.state + "_" + station.city);
    assert Join(parts, "_") == LocationKey(station);
    SplitJoin(parts, "_");
  }

  /** Stations whose names hold no `_` share a key, and so a feed file,
      exactly when they have the same country, state and city. */
  lemma LocationKeyDistinguishes(a: Station, b: Station)
    requires !Includes(a.country, "_") && !Includes(a.state, "_") && !Includes(a.city, "_")
    requires !Includes(b.country, "_") && !Includes(b.state, "_") && !Includes(b.city, "_")
    ensures LocationKey(a) == LocationKey(b) <==> (a.country, a.state, a.city) == (b.country, b.state, b.city)
  {
    LocationKeySplits(a);
    LocationKeySplits(b);
  }

  function CoordOf(station: Station): (coord: Coord)
    ensures coord.lat == station.lat && coord.lng == station.lng
    ensures coord.locationKey == LocationKey(station)
  {
    Coord(station.lat, station.lng, LocationKey(station))
  }

  /** The `map` step: each station ranked by `distance`, which stands for
      `geolib.getDistance` from the user's position. */
  function Rank(stations: seq<Station>, distance: Coord -> int): (ranked: seq<Ranked>)
    ensures |ranked| == |stations|
    ensures forall k :: 0 <= k < |stations| ==>
      ranked[k].coord == CoordOf(stations[k]) && ranked[k].dist == distance(CoordOf(stations[k]))
  {
    Map((station: Station) => Ranked(CoordOf(station), distance(CoordOf(station))), stations)
  }

  /** Ordered by distance, nearest first. */
  predicate SortedByDist(s: seq<Ranked>)
  {
    forall i, j :: 0 <= i < j < |s| ==> s[i].dist <= s[j].dist
  }

  /** Places `x` in front of the first entry it does not come after: before
      every entry at least as far, and after every nearer one. */
  function Insert(x: Ranked, s: seq<Ranked>): (r: seq<Ranked>)
    ensures |r| == |s| + 1
  {
    if s == [] || x.dist <= s[0].dist then [x] + s
    else [s[0]] + Insert(x, s[1..])
  }

  /** `sort((a, b) => a.dist - b.dist)`: a stable sort, as the language
      requires of `Array.prototype.sort`; an entry moves ahead of an earlier
      one only when it is strictly nearer. */
  function SortByDist(s: seq<Ranked>): (r: seq<Ranked>)
    ensures |r| == |s|
  {
    if s == [] then [] else Insert(s[0], SortByDist(s[1..]))
  }

  /** Insertion adds exactly the one entry. */
  lemma {:induction false} InsertPermutes(x: Ranked, s: seq<Ranked>)
    ensures multiset(Insert(x, s)) == multiset(s) + multiset{x}
  {
    if s != [] && x.dist > s[0].dist {
      InsertPermutes(x, s[1..]);
      assert s == [s[0]] + s[1..];
    }
  }

  /** The sort rearranges its input and neither adds nor loses an entry. */
  lemma {:induction false} SortPermutes(s: seq<Ranked>)
    ensures multiset(SortByDist(s)) == multiset(s)
  {
    if s != [] {
      SortPermutes(s[1..]);
      InsertPermutes(s[0], SortByDist(s[1..]));
      assert s == [s[0]] + s[1..];
    }
  }

  lemma {:induction false} InsertSorted(x: Ranked, s: seq<Ranked>)
    requires SortedByDist(s)
    ensures SortedByDist(Insert(x, s))
  {
    if s != [] && x.dist > s[0].dist {
      InsertSorted(x, s[1..]);
      var r := Insert(x, s[1..]);
      assert r[0] == x || r[0] == s[1] by {
        if s[1..] != [] && x.dist > s[1].dist {
          assert r[0] == s[1..][0];
        }
      }
    }
  }

  /** The sort orders the entries by distance. */
  lemma {:induction false} SortSorted(s: seq<Ranked>)
    ensures SortedByDist(SortByDist(s))
  {
    if s != [] {
      SortSorted(s[1..]);
      InsertSorted(s[0], SortByDist(s[1..]));
    }
  }

  /** Where the inserted entry lands relative to the old head. */
  lemma InsertHead(x: Ranked, s: seq<Ranked>)
    ensures Insert(x, s)[0] == if s == [] || x.dist <= s[0].dist then x else s[0]
  {
  }

  /** The first entry of the sorted list is the first entry of the input at
      the nearest distance. */
  lemma {:induction false} SortHeadIsFirstNearest(s: seq<Ranked>) returns (i: nat)
    requires s != []
    ensures i < |s| && SortByDist(s)[0] == s[i]
    ensures forall k :: 0 <= k < |s| ==> s[i].dist <= s[k].dist
    ensures forall k :: 0 <= k < i ==> s[i].dist < s[k].dist
  {
    if |s| == 1 {
      i := 0;
    } else {
      var tail := s[1..];
      var j := SortHeadIsFirstNearest(tail);
      var sorted := SortByDist(tail);
      InsertHead(s[0], sorted);
      if s[0].dist <= tail[j].dist {
        i := 0;
        forall k | 1 <= k < |s|
          ensures s[0].dist <= s[k].dist
        {
          assert s[k] == tail[k - 1];
        }
      } else {
        i := j + 1;
        assert s[i] == tail[j];
        forall k | 1 <= k < |s|
          ensures s[i].dist <= s[k].dist
          ensures k < i ==> s[i].dist < s[k].dist
        {
          assert s[k] == tail[k - 1];
        }
      }
    }
  }

  /** `.sort(...)[0].coord.coordSightingLoc`: the key of the nearest station,
      or the error of indexing an empty list. */
  function NearestLocation(stations: seq<Station>, distance: Coord -> int): (r: Result<string, LocationError>)
    ensures r.Failure? <==> stations == []
  {
    var sorted := SortByDist(Rank(stations, distance));
    if sorted == [] then Failure(NoReferencePoints) else Success(sorted[0].coord.locationKey)
  }

  /** The location chosen is that of the first station in the table at the
      smallest distance from the user. */
  lemma NearestIsFirstClosest(stations: seq<Station>, distance: Coord -> int) returns (i: nat)
    requires stations != []
    ensures i < |stations|
    ensures NearestLocation(stations, distance) == Success(LocationKey(stations[i]))
    ensures forall k :: 0 <= k < |stations| ==> distance(CoordOf(stations[i])) <= distance(CoordOf(stations[k]))
    ensures forall k :: 0 <= k < i ==> distance(CoordOf(stations[i])) < distance(CoordOf(stations[k]))
  {
    var ranked := Rank(stations, distance);
    i := SortHeadIsFirstNearest(ranked);
    forall k | 0 <= k < |stations|
      ensures distance(CoordOf(stations[i])) <= distance(CoordOf(stations[k]))
      ensures k < i ==> distance(CoordOf(stations[i])) < distance(CoordOf(stations[k]))
    {
      assert ranked[k].dist == distance(CoordOf(stations[k]));
    }
  }

  /** A station strictly nearer than every other is the one chosen. */
  lemma UniqueNearestChosen(stations: seq<Station>, distance: Coord -> int, j: nat)
    requires j < |stations|
    requires forall k :: 0 <= k < |stations| && k != j ==>
      distance(CoordOf(stations[j])) < distance(CoordOf(stations[k]))
    ensures NearestLocation(stations, distance) == Success(LocationKey(stations[j]))
  {
    var i := NearestIsFirstClosest(stations, distance);
  }
}
