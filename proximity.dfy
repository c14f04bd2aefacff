/**
 * The proximity and targeting engine of the tourist page (app/app/page.tsx):
 * rank the fetched points of interest by distance from the current position,
 * keep the nearest ones within the radius, choose the target the arrow points
 * at and the angle the arrow is turned by.
 *
 * The trigonometry is not modelled: the haversine formula and the atan2
 * course are parameters, and only the guards and normalisations around them
 * are written out.
 */
module Proximity {
  import opened Js

  /** `radiusMeters` */
  const RadiusMeters: real := 80.0
  /** How many in-range cards are shown: `.slice(0, 3)`. */
  const InRangeCap: nat := 3

  /** A position fix from the geolocation watch (the accuracy is not used by the engine). */
  datatype Geo = Geo(lat: real, lng: real)

  /** A point of interest as the list endpoint returns it. */
  datatype Poi = Poi(
    id: string,
    name: string,
    description: Option<string>,
    category: Option<string>,
    address: Option<string>,
    imageUrl: Option<string>,
    arUrl: Option<string>,
    lat: real,
    lng: real)

  /** A point of interest with its distance `d` in metres. */
  datatype Ranked = Ranked(poi: Poi, d: real)

  /** The trigonometric part of a formula over (lat1, lng1, lat2, lng2). */
  type Formula = (real, real, real, real) -> real

  // ---------------------------------------------------------------------------
  // Distance and bearing

  /**
   * `haversineMeters`: the same place is at distance zero; any other pair is
   * measured by the haversine formula.
   */
  function HaversineMeters(haversine: Formula, lat1: real, lng1: real, lat2: real, lng2: real): (d: real)
    ensures lat1 == lat2 && lng1 == lng2 ==> d == 0.0
    ensures !(lat1 == lat2 && lng1 == lng2) ==> d == haversine(lat1, lng1, lat2, lng2)
  {
    if lat1 == lat2 && lng1 == lng2 then 0.0 else haversine(lat1, lng1, lat2, lng2)
  }

  /**
   * `bearingDegrees`: the atan2 course in degrees, `course`, shifted into
   * `[0, 360)` by `(θ + 360) % 360`.
   */
  function BearingDegrees(course: Formula, lat1: real, lng1: real, lat2: real, lng2: real): (b: real)
    ensures course(lat1, lng1, lat2, lng2) >= -360.0 ==> 0.0 <= b < 360.0
    ensures -360.0 <= course(lat1, lng1, lat2, lng2) < 0.0 ==> b == course(lat1, lng1, lat2, lng2) + 360.0
    ensures 0.0 <= course(lat1, lng1, lat2, lng2) < 360.0 ==> b == course(lat1, lng1, lat2, lng2)
  {
    Rem360(course(lat1, lng1, lat2, lng2) + 360.0)
  }

  // ---------------------------------------------------------------------------
  // Ranking

  /** Each point of interest paired with its distance from `g`, in fetch order. */
  function Measure(haversine: Formula, g: Geo, pois: seq<Poi>): (r: seq<Ranked>)
    ensures |r| == |pois|
    ensures forall i :: 0 <= i < |pois| ==>
              r[i] == Ranked(pois[i], HaversineMeters(haversine, g.lat, g.lng, pois[i].lat, pois[i].lng))
  {
    if pois == [] then []
    else [Ranked(pois[0], HaversineMeters(haversine, g.lat, g.lng, pois[0].lat, pois[0].lng))]
         + Measure(haversine, g, pois[1..])
  }

  /** Ascending by distance. */
  predicate Sorted(s: seq<Ranked>)
  {
    forall i, j :: 0 <= i < j < |s| ==> s[i].d <= s[j].d
  }

  /** The entries at distance exactly `v`, in their order. */
  function AtDistance(s: seq<Ranked>, v: real): seq<Ranked>
  {
    if s == [] then []
    else (if s[0].d == v then [s[0]] else []) + AtDistance(s[1..], v)
  }

  /**
   * A sort is stable when, for every distance, the entries at that distance
   * keep their relative order.
   */
  ghost predicate SameTies(a: seq<Ranked>, b: seq<Ranked>)
  {
    forall v :: AtDistance(a, v) == AtDistance(b, v)
  }

  /** Insert `x` into a sorted list before the first entry that is farther away. */
  function Insert(x: Ranked, s: seq<Ranked>): (r: seq<Ranked>)
    ensures |r| == |s| + 1
    ensures multiset(r) == multiset(s) + multiset{x}
  {
    if s == [] || x.d <= s[0].d then [x] + s
    else
      assert s == [s[0]] + s[1..];
      [s[0]] + Insert(x, s[1..])
  }

  /**
   * `.sort((a, b) => a.d - b.d)`, which is stable: an insertion sort that
   * puts each entry before the entries that are strictly farther away.
   */
  function SortByDistance(s: seq<Ranked>): (r: seq<Ranked>)
    ensures multiset(r) == multiset(s)
  {
    if s == [] then []
    else
      assert s == [s[0]] + s[1..];
      Insert(s[0], SortByDistance(s[1..]))
  }

  lemma {:induction false} InsertSorted(x: Ranked, s: seq<Ranked>)
    requires Sorted(s)
    ensures Sorted(Insert(x, s))
    ensures Insert(x, s)[0] == x || (s != [] && Insert(x, s)[0] == s[0])
    decreases |s|
  {
    if s != [] && x.d > s[0].d {
      SortedTail(s);
      InsertSorted(x, s[1..]);
      var t := Insert(x, s[1..]);
      assert s[0].d <= t[0].d by {
        if t[0] != x {
          assert t[0] == s[1];
        }
      }
      SortedCons(s[0], t);
    }
  }

  /** An entry no farther than the head of a sorted list can go in front of it. */
  lemma SortedCons(x: Ranked, t: seq<Ranked>)
    requires Sorted(t) && (t != [] ==> x.d <= t[0].d)
    ensures Sorted([x] + t)
  {
    var r := [x] + t;
    forall i, j | 0 <= i < j < |r| ensures r[i].d <= r[j].d {
      if i == 0 {
        assert r[j] == t[j - 1];
        assert t[0].d <= t[j - 1].d;
      } else {
        assert r[i] == t[i - 1] && r[j] == t[j - 1];
      }
    }
  }

  lemma Regroup(a: seq<Ranked>, b: seq<Ranked>, c: seq<Ranked>)
    ensures a + (b + c) == (a + b) + c
  {
  }

  /** One step of `AtDistance`. */
  lemma AtDistanceCons(x: Ranked, s: seq<Ranked>, v: real)
    ensures AtDistance([x] + s, v) == (if x.d == v then [x] else []) + AtDistance(s, v)
  {
    assert ([x] + s)[1..] == s;
  }

  lemma {:induction false} AtDistanceAppend(a: seq<Ranked>, b: seq<Ranked>, v: real)
    ensures AtDistance(a + b, v) == AtDistance(a, v) + AtDistance(b, v)
    decreases |a|
  {
    if a == [] {
      assert a + b == b;
    } else {
      var h := if a[0].d == v then [a[0]] else [];
      assert a + b == [a[0]] + (a[1..] + b);
      assert a == [a[0]] + a[1..];
      AtDistanceCons(a[0], a[1..] + b, v);
      AtDistanceCons(a[0], a[1..], v);
      AtDistanceAppend(a[1..], b, v);
      assert h + (AtDistance(a[1..], v) + AtDistance(b, v)) == h + AtDistance(a[1..], v) + AtDistance(b, v);
    }
  }

  lemma {:induction false} InsertKeepsTies(x: Ranked, s: seq<Ranked>, v: real)
    ensures AtDistance(Insert(x, s), v) == AtDistance([x] + s, v)
    decreases |s|
  {
    if s != [] && x.d > s[0].d {
      var t := s[1..];
      var h0 := if s[0].d == v then [s[0]] else [];
      var hx := if x.d == v then [x] else [];
      assert Insert(x, s) == [s[0]] + Insert(x, t);
      assert s == [s[0]] + t;
      InsertKeepsTies(x, t, v);
      AtDistanceCons(s[0], Insert(x, t), v);
      AtDistanceCons(x, t, v);
      AtDistanceCons(x, s, v);
      AtDistanceCons(s[0], t, v);
      assert h0 + hx == hx + h0 by {
        assert h0 == [] || hx == [];
      }
      Regroup(h0, hx, AtDistance(t, v));
      Regroup(hx, h0, AtDistance(t, v));
    }
  }

  /** The ranking is sorted ascending and keeps fetch order among equal distances. */
  lemma {:induction false} SortByDistanceCorrect(s: seq<Ranked>)
    ensures Sorted(SortByDistance(s))
    ensures SameTies(SortByDistance(s), s)
  {
    if s != [] {
      SortByDistanceCorrect(s[1..]);
      var t := SortByDistance(s[1..]);
      InsertSorted(s[0], t);
      forall v ensures AtDistance(SortByDistance(s), v) == AtDistance(s, v) {
        InsertKeepsTies(s[0], t, v);
        AtDistanceAppend([s[0]], t, v);
        AtDistanceAppend([s[0]], s[1..], v);
        assert s == [s[0]] + s[1..];
      }
    }
  }

  lemma AtDistanceMember(s: seq<Ranked>, v: real, x: Ranked)
    ensures x in AtDistance(s, v) <==> x in s && x.d == v
  {
    if s != [] {
      AtDistanceMember(s[1..], v, x);
      assert x in s <==> x == s[0] || x in s[1..];
    }
  }

  /**
   * Any two sorted lists with the same entries at every distance, in the same
   * order, are equal: whatever stable sort the runtime uses, the ranking is
   * `SortByDistance`.
   */
  lemma {:induction false} StableSortUnique(a: seq<Ranked>, b: seq<Ranked>)
    requires Sorted(a) && Sorted(b) && SameTies(a, b)
    ensures a == b
    decreases |a|
  {
    if a == [] {
      if b != [] {
        AtDistanceHead(b);
        assert false;
      }
    } else {
      SameHead(a, b);
      SameTiesTail(a, b);
      SortedTail(a);
      SortedTail(b);
      StableSortUnique(a[1..], b[1..]);
      assert a == [a[0]] + a[1..];
      assert b == [b[0]] + b[1..];
    }
  }

  /** The first entry is among the entries at its own distance. */
  lemma AtDistanceHead(b: seq<Ranked>)
    requires b != []
    ensures AtDistance(b, b[0].d) != []
  {
  }

  lemma SortedTail(a: seq<Ranked>)
    requires Sorted(a) && a != []
    ensures Sorted(a[1..])
  {
    forall i, j | 0 <= i < j < |a[1..]| ensures a[1..][i].d <= a[1..][j].d {
      assert a[1..][i] == a[i + 1] && a[1..][j] == a[j + 1];
    }
  }

  /** Two sorted lists with the same ties start with the same entry. */
  lemma SameHead(a: seq<Ranked>, b: seq<Ranked>)
    requires Sorted(a) && Sorted(b) && SameTies(a, b) && a != []
    ensures b != [] && a[0] == b[0]
  {
    var v := a[0].d;
    assert AtDistance(b, v) == AtDistance(a, v);
    AtDistanceMember(a, v, a[0]);
    AtDistanceMember(b, v, a[0]);
    var i :| 0 <= i < |b| && b[i] == a[0];
    var w := b[0].d;
    assert AtDistance(a, w) == AtDistance(b, w);
    AtDistanceMember(b, w, b[0]);
    AtDistanceMember(a, w, b[0]);
    var j :| 0 <= j < |a| && a[j] == b[0];
    assert v == w by {
      assert w <= b[i].d == v;
      assert v <= a[j].d == w;
    }
    AtDistanceCons(a[0], a[1..], v);
    AtDistanceCons(b[0], b[1..], v);
    assert a == [a[0]] + a[1..];
    assert b == [b[0]] + b[1..];
    assert AtDistance(a, v)[0] == a[0];
    assert AtDistance(b, v)[0] == b[0];
  }

  /** Dropping the same first entry keeps the ties equal. */
  lemma SameTiesTail(a: seq<Ranked>, b: seq<Ranked>)
    requires SameTies(a, b) && a != [] && b != [] && a[0] == b[0]
    ensures SameTies(a[1..], b[1..])
  {
    forall u ensures AtDistance(a[1..], u) == AtDistance(b[1..], u) {
      var h := if a[0].d == u then [a[0]] else [];
      assert AtDistance(a, u) == AtDistance(b, u);
      AtDistanceCons(a[0], a[1..], u);
      AtDistanceCons(b[0], b[1..], u);
      assert a == [a[0]] + a[1..];
      assert b == [b[0]] + b[1..];
      assert h + AtDistance(a[1..], u) == h + AtDistance(b[1..], u);
      assert AtDistance(a[1..], u) == (h + AtDistance(a[1..], u))[|h|..];
      assert AtDistance(b[1..], u) == (h + AtDistance(b[1..], u))[|h|..];
    }
  }

  /**
   * `nearby`: nothing without a position fix; otherwise every point of
   * interest once with its distance, nearest first.
   */
  function Nearby(haversine: Formula, geo: Option<Geo>, pois: seq<Poi>): (r: seq<Ranked>)
    ensures geo.None? ==> r == []
    ensures geo.Some? ==> multiset(r) == multiset(Measure(haversine, geo.value, pois))
  {
    if geo.None? then [] else SortByDistance(Measure(haversine, geo.value, pois))
  }

  /** The ranking is sorted, holds the same entries as the catalog, and is stable. */
  lemma NearbyRanked(haversine: Formula, geo: Option<Geo>, pois: seq<Poi>)
    requires geo.Some?
    ensures var r := Nearby(haversine, geo, pois);
            && Sorted(r)
            && SameTies(r, Measure(haversine, geo.value, pois))
            && |r| == |pois|
  {
    var m := Measure(haversine, geo.value, pois);
    SortByDistanceCorrect(m);
    assert |multiset(SortByDistance(m))| == |multiset(m)|;
  }

  // ---------------------------------------------------------------------------
  // In range, nearest and target

  /** `.filter((x) => x.d <= radiusMeters)` */
  function Within(s: seq<Ranked>): (r: seq<Ranked>)
    ensures |r| <= |s|
    ensures forall k :: 0 <= k < |r| ==> r[k].d <= RadiusMeters && r[k] in s
  {
    if s == [] then []
    else (if s[0].d <= RadiusMeters then [s[0]] else []) + Within(s[1..])
  }

  /** `inRange`: the entries within the radius, at most three of them. */
  function InRange(nearby: seq<Ranked>): (r: seq<Ranked>)
    ensures |r| <= InRangeCap
    ensures forall k :: 0 <= k < |r| ==> r[k].d <= RadiusMeters && r[k] in nearby
  {
    var w := Within(nearby);
    if |w| <= InRangeCap then w else w[..InRangeCap]
  }

  /** In a sorted list the entries within the radius are a prefix. */
  lemma {:induction false} WithinSortedIsPrefix(s: seq<Ranked>)
    requires Sorted(s)
    ensures Within(s) == s[..|Within(s)|]
    ensures forall k :: |Within(s)| <= k < |s| ==> s[k].d > RadiusMeters
  {
    if s != [] {
      WithinSortedIsPrefix(s[1..]);
      if s[0].d > RadiusMeters {
        forall k | 0 <= k < |s| ensures s[k].d > RadiusMeters {
          if k > 0 {
            assert s[0].d <= s[k].d;
          }
        }
        WithinNone(s);
      }
    }
  }

  lemma {:induction false} WithinNone(s: seq<Ranked>)
    requires forall k :: 0 <= k < |s| ==> s[k].d > RadiusMeters
    ensures Within(s) == []
  {
    if s != [] {
      WithinNone(s[1..]);
    }
  }

  /**
   * On the ranking, `inRange` is its first entries: the nearest ones up to
   * three, all within the radius, and only a full list of three leaves out an
   * entry that is within the radius.
   */
  lemma InRangeIsPrefix(nearby: seq<Ranked>)
    requires Sorted(nearby)
    ensures var r := InRange(nearby);
            && r == nearby[..|r|]
            && (|r| < InRangeCap ==> forall k :: |r| <= k < |nearby| ==> nearby[k].d > RadiusMeters)
  {
    WithinSortedIsPrefix(nearby);
  }

  /** `nearest`: the first entry of the ranking when it is within the radius. */
  function Nearest(nearby: seq<Ranked>): (r: Option<Ranked>)
    ensures r.Some? <==> nearby != [] && nearby[0].d <= RadiusMeters
    ensures r.Some? ==> r.value == nearby[0]
  {
    if nearby != [] && nearby[0].d <= RadiusMeters then Some(nearby[0]) else None
  }

  /** On the ranking, the nearest entry is the first one in range. */
  lemma NearestIsFirstInRange(nearby: seq<Ranked>)
    requires Sorted(nearby)
    ensures Nearest(nearby) == if InRange(nearby) == [] then None else Some(InRange(nearby)[0])
  {
    InRangeIsPrefix(nearby);
    WithinSortedIsPrefix(nearby);
  }

  /** `effectiveTarget = targetPoi ?? inRange[0]?.poi ?? null` */
  function EffectiveTarget(targetPoi: Option<Poi>, inRange: seq<Ranked>): (r: Option<Poi>)
    ensures targetPoi.Some? ==> r == targetPoi
    ensures targetPoi.None? && inRange != [] ==> r == Some(inRange[0].poi)
    ensures targetPoi.None? && inRange == [] ==> r == None
  {
    if targetPoi.Some? then targetPoi
    else if inRange != [] then Some(inRange[0].poi)
    else None
  }

  /** `bearingToTarget`: defined exactly when there is a position fix and a target. */
  function BearingToTarget(course: Formula, geo: Option<Geo>, target: Option<Poi>): (r: Option<real>)
    ensures r.None? <==> geo.None? || target.None?
    ensures r.Some? ==>
              r.value == BearingDegrees(course, geo.value.lat, geo.value.lng, target.value.lat, target.value.lng)
  {
    if geo.None? || target.None? then None
    else Some(BearingDegrees(course, geo.value.lat, geo.value.lng, target.value.lat, target.value.lng))
  }

  /** `relativeAngle = (bearingToTarget - heading + 360) % 360` */
  function RelativeAngle(heading: Option<real>, bearing: Option<real>): (r: Option<real>)
    ensures r.None? <==> heading.None? || bearing.None?
    ensures r.Some? && 0.0 <= heading.value < 360.0 && 0.0 <= bearing.value < 360.0 ==>
              0.0 <= r.value < 360.0
                && (bearing.value >= heading.value ==> r.value == bearing.value - heading.value)
                && (bearing.value < heading.value ==> r.value == bearing.value - heading.value + 360.0)
  {
    if heading.None? || bearing.None? then None
    else
      Some(Rem360(bearing.value - heading.value + 360.0))
  }

  // ---------------------------------------------------------------------------
  // The whole derivation

  datatype EngineOutput = EngineOutput(
    nearby: seq<Ranked>,
    inRange: seq<Ranked>,
    effectiveTarget: Option<Poi>,
    bearingToTarget: Option<real>,
    relativeAngle: Option<real>)

  /**
   * The memoised values of the page, recomputed from its state: with a fix,
   * every point of interest measured and ranked nearest first, the in-range
   * list the longest prefix of that ranking within 80 m, up to three, and,
   * unless a target is pinned, the target the nearest entry when it is in
   * range; the bearing to that target, and the arrow angle from the heading.
   */
  function Derive(haversine: Formula, course: Formula, geo: Option<Geo>, pois: seq<Poi>,
                  targetPoi: Option<Poi>, heading: Option<real>): (out: EngineOutput)
    ensures geo.None? ==> out.nearby == [] && out.inRange == []
    ensures geo.Some? ==> Sorted(out.nearby) && |out.nearby| == |pois|
    ensures geo.Some? ==> SameTies(out.nearby, Measure(haversine, geo.value, pois))
    ensures |out.inRange| <= InRangeCap && |out.inRange| <= |out.nearby| && out.inRange == out.nearby[..|out.inRange|]
    ensures forall k :: 0 <= k < |out.inRange| ==> out.inRange[k].d <= RadiusMeters
    ensures |out.inRange| < InRangeCap ==>
              forall k :: |out.inRange| <= k < |out.nearby| ==> out.nearby[k].d > RadiusMeters
    ensures targetPoi.Some? ==> out.effectiveTarget == targetPoi
    ensures targetPoi.None? ==>
              (out.effectiveTarget.Some? <==> Nearest(out.nearby).Some?)
              && (out.effectiveTarget.Some? ==> out.effectiveTarget.value == Nearest(out.nearby).value.poi)
    ensures out.bearingToTarget.Some? <==> geo.Some? && out.effectiveTarget.Some?
    ensures out.relativeAngle.Some? <==> geo.Some? && out.effectiveTarget.Some? && heading.Some?
    ensures out.bearingToTarget == BearingToTarget(course, geo, out.effectiveTarget)
    ensures out.relativeAngle == RelativeAngle(heading, out.bearingToTarget)
  {
    var nearby := Nearby(haversine, geo, pois);
    var inRange := InRange(nearby);
    var target := EffectiveTarget(targetPoi, inRange);
    var bearing := BearingToTarget(course, geo, target);
    assert Sorted(nearby) && (geo.Some? ==> SameTies(nearby, Measure(haversine, geo.value, pois))) by {
      if geo.Some? {
        NearbyRanked(haversine, geo, pois);
      }
    }
    InRangeIsPrefix(nearby);
    NearestIsFirstInRange(nearby);
    EngineOutput(nearby, inRange, target, bearing, RelativeAngle(heading, bearing))
  }

  /** A pinned target stays the target wherever it is, with or without a fix. */
  lemma PinnedTargetWins(haversine: Formula, course: Formula, geo: Option<Geo>, pois: seq<Poi>,
                         pinned: Poi, heading: Option<real>)
    ensures Derive(haversine, course, geo, pois, Some(pinned), heading).effectiveTarget == Some(pinned)
    ensures geo.Some? ==> Derive(haversine, course, geo, pois, Some(pinned), heading).bearingToTarget.Some?
  {
  }

  /** Without a fix there is no ranking and no arrow. */
  lemma NoFixNoArrow(haversine: Formula, course: Formula, pois: seq<Poi>, targetPoi: Option<Poi>, heading: Option<real>)
    ensures var out := Derive(haversine, course, None, pois, targetPoi, heading);
            out.nearby == [] && out.inRange == [] && out.effectiveTarget == targetPoi
            && out.bearingToTarget == None && out.relativeAngle == None
  {
  }

  /**
   * Standing exactly on a point of interest: it is ranked first at distance
   * zero, it is in range, and without a pinned target it is the target.
   */
  lemma StandingOnPoi(haversine: Formula, course: Formula, x: Poi, heading: Option<real>)
    ensures var out := Derive(haversine, course, Some(Geo(x.lat, x.lng)), [x], None, heading);
            && out.nearby == [Ranked(x, 0.0)]
            && out.inRange == [Ranked(x, 0.0)]
            && out.effectiveTarget == Some(x)
  {
    var g := Geo(x.lat, x.lng);
    assert Measure(haversine, g, [x]) == [Ranked(x, 0.0)];
    assert SortByDistance([Ranked(x, 0.0)]) == [Ranked(x, 0.0)];
  }

  /** An entry at 79 m is in range and one at 81 m is not. */
  lemma RadiusBoundary(a: Poi, b: Poi)
    ensures InRange([Ranked(a, 79.0), Ranked(b, 81.0)]) == [Ranked(a, 79.0)]
    ensures InRange([Ranked(a, 80.0)]) == [Ranked(a, 80.0)]
  {
    var s := [Ranked(a, 79.0), Ranked(b, 81.0)];
    assert s[1..] == [Ranked(b, 81.0)];
    assert s[1..][1..] == [];
    assert Within(s) == [Ranked(a, 79.0)];
  }

  /** Facing the target exactly puts the arrow straight up. */
  lemma FacingTarget()
    ensures RelativeAngle(Some(90.0), Some(90.0)) == Some(0.0)
  {
  }
}
