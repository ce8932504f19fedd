/**
 * `findNearbyOffices` of lib/services/maps.ts: annotate each office with its
 * distance from the user, keep those within the radius, and sort them by
 * distance with a stable sort. The Haversine `calculateDistance` is a
 * parameter of the model, so nothing here depends on what it computes.
 */
module Maps {

  /** The input office `{ ...office, distance }`: all its fields, plus the distance in km. */
  datatype NearbyOffice<T> = NearbyOffice(office: T, distance: real)

  /** How to read the `latitude` and `longitude` fields of an office of type T. */
  datatype Coordinates<!T> = Coordinates(latitude: T -> real, longitude: T -> real)

  /** The annotation step: `offices.map(office => ({ ...office, distance: ... }))`. */
  function Annotate<T>(
    userLat: real, userLon: real, offices: seq<T>, coords: Coordinates<T>,
    calculateDistance: (real, real, real, real) -> real): (annotated: seq<NearbyOffice<T>>)
    ensures |annotated| == |offices|
    ensures forall i :: 0 <= i < |offices| ==>
      annotated[i] == NearbyOffice(offices[i], calculateDistance(userLat, userLon, coords.latitude(offices[i]), coords.longitude(offices[i])))
  {
    if offices == [] then []
    else
      var o := offices[0];
      [NearbyOffice(o, calculateDistance(userLat, userLon, coords.latitude(o), coords.longitude(o)))]
        + Annotate(userLat, userLon, offices[1..], coords, calculateDistance)
  }

  /** The filter step: `.filter(office => office.distance <= radiusKm)`. */
  function WithinRadius<T>(annotated: seq<NearbyOffice<T>>, radiusKm: real): (kept: seq<NearbyOffice<T>>)
    ensures |kept| <= |annotated|
  {
    if annotated == [] then []
    else (if annotated[0].distance <= radiusKm then [annotated[0]] else []) + WithinRadius(annotated[1..], radiusKm)
  }

  /** The radius filter keeps each office within the radius, with its multiplicity, and nothing else. */
  lemma {:induction false} WithinRadiusMultiset<T>(annotated: seq<NearbyOffice<T>>, radiusKm: real)
    ensures forall o ::
      multiset(WithinRadius(annotated, radiusKm))[o] == if o.distance <= radiusKm then multiset(annotated)[o] else 0
  {
    if annotated != [] {
      WithinRadiusMultiset(annotated[1..], radiusKm);
      assert annotated == [annotated[0]] + annotated[1..];
    }
  }

  /** Distances never decrease along the sequence. */
  ghost predicate SortedByDistance<T>(s: seq<NearbyOffice<T>>) {
    forall i, j :: 0 <= i < j < |s| ==> s[i].distance <= s[j].distance
  }

  /** The subsequence of offices at exactly distance `d`, in their order. */
  function AtDistance<T>(s: seq<NearbyOffice<T>>, d: real): seq<NearbyOffice<T>> {
    if s == [] then []
    else (if s[0].distance == d then [s[0]] else []) + AtDistance(s[1..], d)
  }

  /**
   * Puts `x` before the first element that is not nearer than it, so that
   * `x` stays ahead of the elements at its own distance.
   */
  function InsertByDistance<T>(x: NearbyOffice<T>, s: seq<NearbyOffice<T>>): (r: seq<NearbyOffice<T>>)
    ensures multiset(r) == multiset{x} + multiset(s)
  {
    if s == [] || x.distance <= s[0].distance then [x] + s
    else
      assert s == [s[0]] + s[1..];
      [s[0]] + InsertByDistance(x, s[1..])
  }

  /** A bound below `x` and every element of `s` is a bound below every element after insertion. */
  lemma {:induction false} InsertByDistanceLowerBound<T>(x: NearbyOffice<T>, s: seq<NearbyOffice<T>>, lo: real)
    requires lo <= x.distance
    requires forall i :: 0 <= i < |s| ==> lo <= s[i].distance
    ensures forall i :: 0 <= i < |InsertByDistance(x, s)| ==> lo <= InsertByDistance(x, s)[i].distance
  {
    if s != [] && x.distance > s[0].distance {
      InsertByDistanceLowerBound(x, s[1..], lo);
      var rest := InsertByDistance(x, s[1..]);
      var r := [s[0]] + rest;
      assert r == InsertByDistance(x, s);
      forall i | 0 <= i < |r| ensures lo <= r[i].distance {
        if i > 0 {
          assert r[i] == rest[i - 1];
        } else {
          assert r[i] == s[0];
        }
      }
    }
  }

  /** Inserting into a sorted sequence keeps it sorted. */
  lemma {:induction false} InsertByDistanceSorted<T>(x: NearbyOffice<T>, s: seq<NearbyOffice<T>>)
    requires SortedByDistance(s)
    ensures SortedByDistance(InsertByDistance(x, s))
  {
    if s == [] || x.distance <= s[0].distance {
      var r := [x] + s;
      forall i, j | 0 <= i < j < |r| ensures r[i].distance <= r[j].distance {
        if i > 0 {
          assert r[i] == s[i - 1] && r[j] == s[j - 1];
        } else {
          assert r[j] == s[j - 1];
        }
      }
    } else {
      var tail := s[1..];
      assert SortedByDistance(tail) by {
        forall i, j | 0 <= i < j < |tail| ensures tail[i].distance <= tail[j].distance {
          assert tail[i] == s[i + 1] && tail[j] == s[j + 1];
        }
      }
      InsertByDistanceSorted(x, tail);
      assert forall i :: 0 <= i < |tail| ==> s[0].distance <= tail[i].distance by {
        forall i | 0 <= i < |tail| ensures s[0].distance <= tail[i].distance {
          assert tail[i] == s[i + 1];
        }
      }
      InsertByDistanceLowerBound(x, tail, s[0].distance);
      var rest := InsertByDistance(x, tail);
      var r := [s[0]] + rest;
      assert r == InsertByDistance(x, s);
      forall i, j | 0 <= i < j < |r| ensures r[i].distance <= r[j].distance {
        assert r[j] == rest[j - 1];
        assert s[0].distance <= rest[j - 1].distance;
        if i > 0 {
          assert r[i] == rest[i - 1];
        } else {
          assert r[i] == s[0];
        }
      }
    }
  }

  /**
   * `.sort((a, b) => a.distance - b.distance)`: ECMAScript's sort is stable,
   * modelled here as insertion sort.
   */
  function SortByDistance<T>(s: seq<NearbyOffice<T>>): (r: seq<NearbyOffice<T>>)
    ensures multiset(r) == multiset(s)
    ensures SortedByDistance(r)
  {
    if s == [] then []
    else
      assert s == [s[0]] + s[1..];
      InsertByDistanceSorted(s[0], SortByDistance(s[1..]));
      InsertByDistance(s[0], SortByDistance(s[1..]))
  }

  lemma {:induction false} AtDistanceAppend<T>(a: seq<NearbyOffice<T>>, b: seq<NearbyOffice<T>>, d: real)
    ensures AtDistance(a + b, d) == AtDistance(a, d) + AtDistance(b, d)
  {
    if a == [] {
      assert a + b == b;
    } else {
      assert (a + b)[0] == a[0];
      assert (a + b)[1..] == a[1..] + b;
      AtDistanceAppend(a[1..], b, d);
      var ax := if a[0].distance == d then [a[0]] else [];
      assert AtDistance(a + b, d) == ax + AtDistance(a[1..] + b, d);
      assert AtDistance(a, d) == ax + AtDistance(a[1..], d);
    }
  }

  /** Inserting `x` puts it ahead of every element at its own distance. */
  lemma {:induction false} InsertByDistanceStable<T>(x: NearbyOffice<T>, s: seq<NearbyOffice<T>>, d: real)
    ensures AtDistance(InsertByDistance(x, s), d) == AtDistance([x], d) + AtDistance(s, d)
  {
    AtDistanceAppend([x], s, d);
    if s != [] && x.distance > s[0].distance {
      InsertByDistanceStable(x, s[1..], d);
      var rest := InsertByDistance(x, s[1..]);
      AtDistanceAppend([s[0]], rest, d);
      AtDistanceAppend([s[0]], s[1..], d);
      assert [s[0]] + s[1..] == s;
      assert [x][1..] == [] && [s[0]][1..] == [];
    }
  }

  /** The sort is stable: the offices at any one distance keep their input order. */
  lemma {:induction false} SortByDistanceStable<T>(s: seq<NearbyOffice<T>>, d: real)
    ensures AtDistance(SortByDistance(s), d) == AtDistance(s, d)
  {
    if s != [] {
      SortByDistanceStable(s[1..], d);
      InsertByDistanceStable(s[0], SortByDistance(s[1..]), d);
      AtDistanceAppend([s[0]], s[1..], d);
      assert [s[0]] + s[1..] == s;
    }
  }

  /** Filtering by radius keeps the offices at a distance within the radius, in order. */
  lemma {:induction false} AtDistanceWithinRadius<T>(annotated: seq<NearbyOffice<T>>, radiusKm: real, d: real)
    ensures AtDistance(WithinRadius(annotated, radiusKm), d) == if d <= radiusKm then AtDistance(annotated, d) else []
  {
    if annotated != [] {
      AtDistanceWithinRadius(annotated[1..], radiusKm, d);
      var x := annotated[0];
      var kx := if x.distance <= radiusKm then [x] else [];
      AtDistanceAppend(kx, WithinRadius(annotated[1..], radiusKm), d);
      assert [x][1..] == [];
    }
  }

  /** `o` occurs in `s` exactly when it occurs in its multiset. */
  lemma InSeqInMultiset<T>(o: NearbyOffice<T>, s: seq<NearbyOffice<T>>)
    ensures o in s <==> o in multiset(s)
  {
  }

  /** The radius filter keeps only entries of its input within the radius, and all of them. */
  lemma {:induction false} WithinRadiusMembers<T>(annotated: seq<NearbyOffice<T>>, radiusKm: real)
    ensures var kept := WithinRadius(annotated, radiusKm);
      forall i :: 0 <= i < |kept| ==> kept[i] in annotated && kept[i].distance <= radiusKm
    ensures var kept := WithinRadius(annotated, radiusKm);
      forall i :: 0 <= i < |annotated| && annotated[i].distance <= radiusKm ==> annotated[i] in kept
  {
    if annotated != [] {
      var tail := annotated[1..];
      WithinRadiusMembers(tail, radiusKm);
      var x := annotated[0];
      var kx := if x.distance <= radiusKm then [x] else [];
      var rest := WithinRadius(tail, radiusKm);
      var kept := WithinRadius(annotated, radiusKm);
      assert kept == kx + rest;
      forall i | 0 <= i < |kept| ensures kept[i] in annotated && kept[i].distance <= radiusKm {
        if i < |kx| {
          assert kept[i] == x == annotated[0];
        } else {
          assert kept[i] == rest[i - |kx|];
          var j :| 0 <= j < |tail| && tail[j] == kept[i];
          assert annotated[j + 1] == kept[i];
        }
      }
      forall i | 0 <= i < |annotated| && annotated[i].distance <= radiusKm ensures annotated[i] in kept {
        if i == 0 {
          assert kept[0] == x;
        } else {
          assert annotated[i] == tail[i - 1];
          var j :| 0 <= j < |rest| && rest[j] == annotated[i];
          assert kept[|kx| + j] == annotated[i];
        }
      }
    }
  }

  /** Sorting keeps exactly the same members. */
  lemma {:induction false} SortByDistanceMembers<T>(s: seq<NearbyOffice<T>>)
    ensures |SortByDistance(s)| == |s|
    ensures forall i :: 0 <= i < |SortByDistance(s)| ==> SortByDistance(s)[i] in s
    ensures forall i :: 0 <= i < |s| ==> s[i] in SortByDistance(s)
  {
    var r := SortByDistance(s);
    assert |r| == |multiset(r)| == |multiset(s)| == |s|;
    forall i | 0 <= i < |r| ensures r[i] in s {
      InSeqInMultiset(r[i], r);
      InSeqInMultiset(r[i], s);
    }
    forall i | 0 <= i < |s| ensures s[i] in r {
      InSeqInMultiset(s[i], r);
      InSeqInMultiset(s[i], s);
    }
  }

  /** `findNearbyOffices(userLat, userLon, offices, radiusKm)`. */
  function FindNearbyOffices<T>(
    userLat: real, userLon: real, offices: seq<T>, radiusKm: real, coords: Coordinates<T>,
    calculateDistance: (real, real, real, real) -> real): (nearby: seq<NearbyOffice<T>>)
    ensures SortedByDistance(nearby)
    ensures multiset(nearby) == multiset(WithinRadius(Annotate(userLat, userLon, offices, coords, calculateDistance), radiusKm))
  {
    SortByDistance(WithinRadius(Annotate(userLat, userLon, offices, coords, calculateDistance), radiusKm))
  }

  /**
   * Filtering and sorting any annotation of `offices` keeps exactly its
   * offices within the radius, each with its computed distance.
   */
  lemma {:induction false} NearbyMembers<T>(
    userLat: real, userLon: real, offices: seq<T>, radiusKm: real, coords: Coordinates<T>,
    calculateDistance: (real, real, real, real) -> real, annotated: seq<NearbyOffice<T>>)
    requires |annotated| == |offices|
    requires forall i :: 0 <= i < |offices| ==>
      annotated[i] == NearbyOffice(offices[i], calculateDistance(userLat, userLon, coords.latitude(offices[i]), coords.longitude(offices[i])))
    ensures var nearby := SortByDistance(WithinRadius(annotated, radiusKm));
      && |nearby| <= |offices|
      && (forall i :: 0 <= i < |nearby| ==>
        && nearby[i].distance <= radiusKm
        && nearby[i].office in offices
        && nearby[i].distance == calculateDistance(userLat, userLon, coords.latitude(nearby[i].office), coords.longitude(nearby[i].office)))
      && (forall i :: 0 <= i < |offices| ==>
        var d := calculateDistance(userLat, userLon, coords.latitude(offices[i]), coords.longitude(offices[i]));
        d <= radiusKm ==> NearbyOffice(offices[i], d) in nearby)
  {
    var kept := WithinRadius(annotated, radiusKm);
    var nearby := SortByDistance(kept);
    WithinRadiusMembers(annotated, radiusKm);
    SortByDistanceMembers(kept);
    forall i | 0 <= i < |nearby|
      ensures nearby[i].distance <= radiusKm && nearby[i].office in offices
      ensures nearby[i].distance == calculateDistance(userLat, userLon, coords.latitude(nearby[i].office), coords.longitude(nearby[i].office))
    {
      var o := nearby[i];
      assert o in kept;
      var j :| 0 <= j < |kept| && kept[j] == o;
      assert o in annotated;
      var k :| 0 <= k < |annotated| && annotated[k] == o;
      assert o.office == offices[k];
    }
    forall i | 0 <= i < |offices|
      ensures annotated[i].distance <= radiusKm ==> annotated[i] in nearby
    {
      if annotated[i].distance <= radiusKm {
        assert annotated[i] in kept;
        var j :| 0 <= j < |kept| && kept[j] == annotated[i];
      }
    }
  }

  /**
   * The output of `findNearbyOffices` holds exactly the input offices
   * within the radius, each with its computed distance, and is no longer
   * than the input.
   */
  lemma FindNearbyOfficesMembers<T>(
    userLat: real, userLon: real, offices: seq<T>, radiusKm: real, coords: Coordinates<T>,
    calculateDistance: (real, real, real, real) -> real)
    ensures var nearby := FindNearbyOffices(userLat, userLon, offices, radiusKm, coords, calculateDistance);
      && |nearby| <= |offices|
      && (forall i :: 0 <= i < |nearby| ==>
        && nearby[i].distance <= radiusKm
        && nearby[i].office in offices
        && nearby[i].distance == calculateDistance(userLat, userLon, coords.latitude(nearby[i].office), coords.longitude(nearby[i].office)))
      && (forall i :: 0 <= i < |offices| ==>
        var d := calculateDistance(userLat, userLon, coords.latitude(offices[i]), coords.longitude(offices[i]));
        d <= radiusKm ==> NearbyOffice(offices[i], d) in nearby)
  {
    NearbyMembers(userLat, userLon, offices, radiusKm, coords, calculateDistance,
      Annotate(userLat, userLon, offices, coords, calculateDistance));
  }

  /**
   * Offices at an equal distance within the radius appear in the output in
   * their input order; no office appears at a distance beyond the radius.
   */
  lemma FindNearbyOfficesStable<T>(
    userLat: real, userLon: real, offices: seq<T>, radiusKm: real, coords: Coordinates<T>,
    calculateDistance: (real, real, real, real) -> real, d: real)
    ensures AtDistance(FindNearbyOffices(userLat, userLon, offices, radiusKm, coords, calculateDistance), d)
         == if d <= radiusKm then AtDistance(Annotate(userLat, userLon, offices, coords, calculateDistance), d) else []
  {
    var annotated := Annotate(userLat, userLon, offices, coords, calculateDistance);
    SortByDistanceStable(WithinRadius(annotated, radiusKm), d);
    AtDistanceWithinRadius(annotated, radiusKm, d);
  }
}
