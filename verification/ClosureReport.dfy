/** What identify_closed_segments reports of a classified network: the intersections at the ends of
    closures, and all lists together. */
module ClosureReport {
  import opened ClosureNetwork
  import opened Options
  import opened Sequences

  datatype Impact = Critical | High | Moderate

  datatype Intersection = Intersection(at: Coord, streets: seq<string>, impact: Impact)

  // ---------------------------------------------------------------------------
  // Streets at a place
  // ---------------------------------------------------------------------------

  /** A whole road keeps its properties; a piece carries the name its road is known by. */
  function StreetName(network: seq<Feature>, s: Segment): string
    requires InRoad(network, s)
  {
    var f := network[s.road];
    if s.Whole? && f.name.None? then "Unknown" else RoadName(f)
  }

  /** A piece of a road without a name and such a road in one piece count as two streets. */
  lemma UnnamedStreets(network: seq<Feature>, whole: Segment, part: Segment)
    requires InRoad(network, whole) && whole.Whole? && InRoad(network, part) && part.Part?
    requires network[whole.road].name.None? && network[part.road].name.None?
    ensures StreetName(network, whole) == "Unknown" && StreetName(network, part) == ""
  {
  }

  /** The name of a road that has one is that of its segments. */
  lemma NamedStreet(network: seq<Feature>, s: Segment)
    requires InRoad(network, s) && network[s.road].name.Some?
    ensures StreetName(network, s) == network[s.road].name.value
  {
  }

  /** The first or the last coordinate of the segment is near e. */
  predicate EndsAt(network: seq<Feature>, near: (Coord, Coord) -> bool, s: Segment, e: Coord)
    requires InRoad(network, s) && Shape(network, s) != []
  {
    var coords := Shape(network, s);
    near(coords[0], e) || near(coords[|coords| - 1], e)
  }

  /** Some end of the segment is near e. */
  ghost predicate NearEnd(network: seq<Feature>, near: (Coord, Coord) -> bool, s: Segment, e: Coord)
    requires InRoad(network, s)
  {
    exists c :: IsEnd(Shape(network, s), c) && near(c, e)
  }

  lemma EndsAtIs(network: seq<Feature>, near: (Coord, Coord) -> bool, s: Segment, e: Coord)
    requires InRoad(network, s) && Shape(network, s) != []
    ensures EndsAt(network, near, s, e) <==> NearEnd(network, near, s, e)
  {
    var coords := Shape(network, s);
    assert IsEnd(coords, coords[0]) && IsEnd(coords, coords[|coords| - 1]);
  }

  /** A street called `name` ends at e. */
  ghost predicate Meets(network: seq<Feature>, near: (Coord, Coord) -> bool, all: seq<Segment>, e: Coord, name: string)
    requires Solid(network, all)
  {
    exists s :: s in all && NearEnd(network, near, s, e) && StreetName(network, s) == name
  }

  /** Differently named streets end at e. */
  ghost predicate Crossing(network: seq<Feature>, near: (Coord, Coord) -> bool, all: seq<Segment>, e: Coord)
    requires Solid(network, all)
  {
    exists a, b :: a != b && Meets(network, near, all, e, a) && Meets(network, near, all, e, b)
  }

  lemma MeetsOneMore(network: seq<Feature>, near: (Coord, Coord) -> bool, all: seq<Segment>, n: nat, e: Coord,
                     name: string)
    requires Solid(network, all) && n < |all|
    ensures Meets(network, near, all[..n + 1], e, name) <==>
            Meets(network, near, all[..n], e, name) ||
            (EndsAt(network, near, all[n], e) && StreetName(network, all[n]) == name)
  {
    assert forall s :: s in all[..n + 1] <==> s in all[..n] || s == all[n];
    EndsAtIs(network, near, all[n], e);
  }

  /** The names of the streets that end at e, each once. */
  method TouchingStreets(network: seq<Feature>, near: (Coord, Coord) -> bool, all: seq<Segment>, e: Coord)
    returns (streets: seq<string>)
    requires Solid(network, all)
    ensures Distinct(streets) && forall name :: name in streets <==> Meets(network, near, all, e, name)
  {
    streets := [];
    for n := 0 to |all|
      invariant Distinct(streets) && forall name :: name in streets <==> Meets(network, near, all[..n], e, name)
    {
      forall name
        ensures Meets(network, near, all[..n + 1], e, name) <==>
                name in streets || (EndsAt(network, near, all[n], e) && StreetName(network, all[n]) == name)
      {
        MeetsOneMore(network, near, all, n, e, name);
      }
      if EndsAt(network, near, all[n], e) && StreetName(network, all[n]) !in streets {
        streets := streets + [StreetName(network, all[n])];
      }
    }
    assert all[..|all|] == all;
  }

  // ---------------------------------------------------------------------------
  // Intersections
  // ---------------------------------------------------------------------------

  /** _intersection_impact */
  function ImpactOf(streetCount: nat): Impact
  {
    if streetCount >= 4 then Critical else if streetCount >= 3 then High else Moderate
  }

  function KeysOf(places: seq<Coord>, key: Coord -> Key): (keys: set<Key>)
    ensures forall k :: k in keys <==> exists e :: e in places && key(e) == k
  {
    set e | e in places :: key(e)
  }

  /** No end before the n-th has its key. */
  predicate FirstOfKey(ends: seq<Coord>, key: Coord -> Key, n: nat)
    requires n < |ends|
  {
    key(ends[n]) !in KeysOf(ends[..n], key)
  }

  lemma KeysStep(ends: seq<Coord>, key: Coord -> Key, n: nat)
    requires n < |ends|
    ensures KeysOf(ends[..n + 1], key) == KeysOf(ends[..n], key) + {key(ends[n])}
  {
    assert forall e :: e in ends[..n + 1] <==> e in ends[..n] || e == ends[n];
  }

  /** The ends at which differently named streets meet. */
  ghost function Busy(network: seq<Feature>, near: (Coord, Coord) -> bool, all: seq<Segment>, ends: seq<Coord>):
    (busy: set<Coord>)
    requires Solid(network, all)
    ensures forall e :: e in busy <==> e in ends && Crossing(network, near, all, e)
  {
    set e | e in ends && Crossing(network, near, all, e)
  }

  /** The first end of each key, where it is a busy one. */
  ghost function Crossings(key: Coord -> Key, ends: seq<Coord>, busy: set<Coord>): seq<Coord>
  {
    if ends == [] then []
    else
      var n := |ends| - 1;
      Crossings(key, ends[..n], busy) + if FirstOfKey(ends, key, n) && ends[n] in busy then [ends[n]] else []
  }

  lemma CrossingsStep(key: Coord -> Key, ends: seq<Coord>, busy: set<Coord>, n: nat)
    requires n < |ends|
    ensures Crossings(key, ends[..n + 1], busy) ==
            Crossings(key, ends[..n], busy) + if FirstOfKey(ends, key, n) && ends[n] in busy then [ends[n]] else []
  {
    assert ends[..n + 1][..n] == ends[..n];
  }

  lemma FirstOfKeyIs(ends: seq<Coord>, key: Coord -> Key, n: nat)
    requires n < |ends|
    ensures FirstOfKey(ends, key, n) <==> forall m :: 0 <= m < n ==> key(ends[m]) != key(ends[n])
  {
    if m :| 0 <= m < n && key(ends[m]) == key(ends[n]) {
      assert ends[m] in ends[..n];
    }
  }

  ghost predicate FirstBusy(key: Coord -> Key, ends: seq<Coord>, busy: set<Coord>, n: nat, e: Coord)
  {
    n < |ends| && ends[n] == e && e in busy && forall m :: 0 <= m < n ==> key(ends[m]) != key(e)
  }

  ghost predicate SomeFirst(key: Coord -> Key, ends: seq<Coord>, busy: set<Coord>, e: Coord)
  {
    exists n: nat :: FirstBusy(key, ends, busy, n, e)
  }

  lemma SomeFirstStep(key: Coord -> Key, ends: seq<Coord>, busy: set<Coord>, e: Coord)
    requires ends != []
    ensures SomeFirst(key, ends, busy, e) <==>
            SomeFirst(key, ends[..|ends| - 1], busy, e) || FirstBusy(key, ends, busy, |ends| - 1, e)
  {
    var n := |ends| - 1;
    if m: nat :| FirstBusy(key, ends, busy, m, e) && m < n {
      assert forall l :: 0 <= l < m ==> ends[..n][l] == ends[l];
      assert FirstBusy(key, ends[..n], busy, m, e);
    }
    if m: nat :| FirstBusy(key, ends[..n], busy, m, e) {
      assert forall l :: 0 <= l < m ==> ends[..n][l] == ends[l];
      assert FirstBusy(key, ends, busy, m, e);
    }
  }

  /** A place is reported if and only if it is busy and the first end with its key. */
  lemma {:induction false} CrossingsAre(key: Coord -> Key, ends: seq<Coord>, busy: set<Coord>, e: Coord)
    ensures e in Crossings(key, ends, busy) <==> SomeFirst(key, ends, busy, e)
  {
    if ends != [] {
      CrossingsAre(key, ends[..|ends| - 1], busy, e);
      SomeFirstStep(key, ends, busy, e);
      FirstOfKeyIs(ends, key, |ends| - 1);
    }
  }

  /** No key is reported twice. */
  lemma {:induction false} CrossingsDistinct(key: Coord -> Key, ends: seq<Coord>, busy: set<Coord>)
    ensures var places := Crossings(key, ends, busy);
            forall i, j :: 0 <= i < j < |places| ==> key(places[i]) != key(places[j])
  {
    if ends != [] {
      var n := |ends| - 1;
      var before := Crossings(key, ends[..n], busy);
      CrossingsDistinct(key, ends[..n], busy);
      forall i | 0 <= i < |before| && FirstOfKey(ends, key, n) ensures key(before[i]) != key(ends[n]) {
        CrossingsAre(key, ends[..n], busy, before[i]);
        var m: nat :| FirstBusy(key, ends[..n], busy, m, before[i]);
        assert before[i] in ends[..n];
      }
    }
  }

  /** The streets listed are those that meet there, each once, at least two; with four of them or more the
      impact is critical, with three high, with two moderate. */
  ghost predicate Described(network: seq<Feature>, near: (Coord, Coord) -> bool, all: seq<Segment>, x: Intersection)
    requires Solid(network, all)
  {
    && Distinct(x.streets) && (forall name :: name in x.streets <==> Meets(network, near, all, x.at, name))
    && |x.streets| >= 2
    && (x.impact == Critical <==> |x.streets| >= 4) && (x.impact == High <==> |x.streets| == 3)
  }

  ghost predicate AllDescribed(network: seq<Feature>, near: (Coord, Coord) -> bool, all: seq<Segment>,
                               xs: seq<Intersection>)
    requires Solid(network, all)
  {
    forall x :: x in xs ==> Described(network, near, all, x)
  }

  /** One description for each first end of a key that is busy. */
  ghost predicate Reported(network: seq<Feature>, near: (Coord, Coord) -> bool, key: Coord -> Key, all: seq<Segment>,
                           ends: seq<Coord>, xs: seq<Intersection>)
    requires Solid(network, all)
  {
    && Places(xs) == Crossings(key, ends, Busy(network, near, all, ends))
    && AllDescribed(network, near, all, xs)
  }

  function Places(xs: seq<Intersection>): (places: seq<Coord>)
    ensures |places| == |xs| && forall i :: 0 <= i < |xs| ==> places[i] == xs[i].at
  {
    if xs == [] then [] else Places(xs[..|xs| - 1]) + [xs[|xs| - 1].at]
  }

  lemma OneMoreDescribed(network: seq<Feature>, near: (Coord, Coord) -> bool, all: seq<Segment>,
                         xs: seq<Intersection>, x: Intersection)
    requires Solid(network, all) && AllDescribed(network, near, all, xs) && Described(network, near, all, x)
    ensures AllDescribed(network, near, all, xs + [x]) && Places(xs + [x]) == Places(xs) + [x.at]
  {
    assert (xs + [x])[..|xs|] == xs;
  }

  method Describe(network: seq<Feature>, near: (Coord, Coord) -> bool, all: seq<Segment>, e: Coord)
    returns (x: Option<Intersection>)
    requires Solid(network, all)
    ensures x.Some? <==> Crossing(network, near, all, e)
    ensures x.Some? ==> x.value.at == e && Described(network, near, all, x.value)
  {
    var streets := TouchingStreets(network, near, all, e);
    TwoOf(streets);
    x := if |streets| >= 2 then Some(Intersection(e, streets, ImpactOf(|streets|))) else None;
  }

  /** The loop over the ends of closures. */
  method FindIntersections(network: seq<Feature>, near: (Coord, Coord) -> bool, key: Coord -> Key, all: seq<Segment>,
                           ends: seq<Coord>)
    returns (intersections: seq<Intersection>)
    requires Solid(network, all)
    ensures Reported(network, near, key, all, ends, intersections)
  {
    intersections := [];
    var seen: set<Key> := {};
    ghost var busy := Busy(network, near, all, ends);
    for n := 0 to |ends|
      invariant seen == KeysOf(ends[..n], key)
      invariant Places(intersections) == Crossings(key, ends[..n], busy)
      invariant AllDescribed(network, near, all, intersections)
    {
      CrossingsStep(key, ends, busy, n);
      KeysStep(ends, key, n);
      if key(ends[n]) !in seen {
        seen := seen + {key(ends[n])};
        var x := Describe(network, near, all, ends[n]);
        if x.Some? {
          OneMoreDescribed(network, near, all, intersections, x.value);
          intersections := intersections + [x.value];
        }
      }
    }
    assert ends[..|ends|] == ends;
  }

  /** Two of the segments carry different street names, and an end of each, the first or the last
      coordinate, is near e. */
  ghost predicate TwoStreetsEnd(network: seq<Feature>, near: (Coord, Coord) -> bool, all: seq<Segment>, e: Coord)
    requires Solid(network, all)
  {
    exists s, t ::
      && s in all && NearEnd(network, near, s, e) && t in all && NearEnd(network, near, t, e)
      && StreetName(network, s) != StreetName(network, t)
  }

  lemma CrossingIs(network: seq<Feature>, near: (Coord, Coord) -> bool, all: seq<Segment>, e: Coord)
    requires Solid(network, all)
    ensures Crossing(network, near, all, e) <==> TwoStreetsEnd(network, near, all, e)
  {
    if a, b :| a != b && Meets(network, near, all, e, a) && Meets(network, near, all, e, b) {
      var s :| s in all && NearEnd(network, near, s, e) && StreetName(network, s) == a;
      var t :| t in all && NearEnd(network, near, t, e) && StreetName(network, t) == b;
    }
    if s, t :| s in all && NearEnd(network, near, s, e) && t in all && NearEnd(network, near, t, e) &&
               StreetName(network, s) != StreetName(network, t) {
      assert Meets(network, near, all, e, StreetName(network, s));
      assert Meets(network, near, all, e, StreetName(network, t));
    }
  }

  /** A place is reported if and only if it is the first end of a closure with its rounded coordinate, and
      two differently named segments end near it. */
  lemma ReportedIff(network: seq<Feature>, near: (Coord, Coord) -> bool, key: Coord -> Key, all: seq<Segment>,
                    ends: seq<Coord>, xs: seq<Intersection>, e: Coord)
    requires Solid(network, all) && Reported(network, near, key, all, ends, xs)
    ensures e in Places(xs) <==>
            TwoStreetsEnd(network, near, all, e) &&
            exists n :: 0 <= n < |ends| && ends[n] == e && forall m :: 0 <= m < n ==> key(ends[m]) != key(e)
  {
    var busy := Busy(network, near, all, ends);
    CrossingsAre(key, ends, busy, e);
    CrossingIs(network, near, all, e);
    if n :| 0 <= n < |ends| && ends[n] == e && forall m :: 0 <= m < n ==> key(ends[m]) != key(e) {
      assert e in ends;
      if TwoStreetsEnd(network, near, all, e) {
        assert FirstBusy(key, ends, busy, n, e);
      }
    }
  }

  // ---------------------------------------------------------------------------
  // The segments looked at
  // ---------------------------------------------------------------------------

  lemma SameStreets(network: seq<Feature>, near: (Coord, Coord) -> bool, all: seq<Segment>, pools: seq<Segment>,
                    e: Coord, name: string)
    requires Solid(network, all) && Solid(network, pools) && forall s :: s in all <==> s in pools
    ensures Meets(network, near, all, e, name) <==> Meets(network, near, pools, e, name)
  {
  }

  lemma SameReport(network: seq<Feature>, near: (Coord, Coord) -> bool, key: Coord -> Key, all: seq<Segment>,
                   pools: seq<Segment>, ends: seq<Coord>, xs: seq<Intersection>)
    requires Solid(network, all) && Solid(network, pools) && forall s :: s in all <==> s in pools
    requires Reported(network, near, key, all, ends, xs)
    ensures Reported(network, near, key, pools, ends, xs)
  {
    forall e, name ensures Meets(network, near, all, e, name) <==> Meets(network, near, pools, e, name) {
      SameStreets(network, near, all, pools, e, name);
    }
    assert Busy(network, near, all, ends) == Busy(network, near, pools, ends);
  }

  /** The roads that were not replaced by pieces. */
  method Originals(network: seq<Feature>, split: set<nat>) returns (originals: seq<Segment>)
    ensures forall s :: s in originals <==>
              s.Whole? && s.road < |network| && network[s.road].Line? && s.road !in split
  {
    originals := [];
    for r := 0 to |network|
      invariant forall s :: s in originals <==> s.Whole? && s.road < r && network[s.road].Line? && s.road !in split
    {
      if network[r].Line? && r !in split {
        originals := originals + [Whole(r)];
      }
    }
  }

  // ---------------------------------------------------------------------------
  // The whole report
  // ---------------------------------------------------------------------------

  /** The segments of the pool that run along the route. */
  ghost function RouteLines(route: seq<Feature>, network: seq<Feature>, key: Coord -> Key, pool: seq<Segment>):
    (lines: set<Segment>)
    requires forall s :: s in pool ==> InRoad(network, s)
    ensures forall s :: s in lines <==> s in pool && RouteLine(route, key, Shape(network, s))
  {
    set s | s in pool && RouteLine(route, key, Shape(network, s))
  }

  /** The closed pool divided by whether a segment runs along the route, both parts in its order. */
  ghost predicate Divided(route: seq<Feature>, network: seq<Feature>, key: Coord -> Key, pool: seq<Segment>,
                          closed: seq<Segment>, routeClosures: seq<Segment>)
    requires forall s :: s in pool ==> InRoad(network, s)
  {
    var lines := RouteLines(route, network, key, pool);
    routeClosures == Picked(pool, lines) && closed == Picked(pool, (set s | s in pool) - lines)
  }

  /** Each segment of the pool is in one of the two lists. */
  ghost predicate Apart(route: seq<Feature>, network: seq<Feature>, key: Coord -> Key, pool: seq<Segment>,
                        closed: seq<Segment>, routeClosures: seq<Segment>)
    requires forall s :: s in pool ==> InRoad(network, s)
  {
    && (forall s :: s in closed <==> s in pool && !RouteLine(route, key, Shape(network, s)))
    && (forall s :: s in routeClosures <==> s in pool && RouteLine(route, key, Shape(network, s)))
    && (forall r: nat, i :: Uses(closed, r, i) + Uses(routeClosures, r, i) == Uses(pool, r, i))
  }

  lemma DividedApart(route: seq<Feature>, network: seq<Feature>, key: Coord -> Key, pool: seq<Segment>,
                     closed: seq<Segment>, routeClosures: seq<Segment>)
    requires forall s :: s in pool ==> InRoad(network, s)
    requires Divided(route, network, key, pool, closed, routeClosures)
    ensures Apart(route, network, key, pool, closed, routeClosures)
  {
    var lines := RouteLines(route, network, key, pool);
    var others := (set s | s in pool) - lines;
    forall s
      ensures s in closed <==> s in pool && s in others
      ensures s in routeClosures <==> s in pool && s in lines
    {
      PickedMember(pool, lines, s);
      PickedMember(pool, others, s);
    }
    forall r: nat, i ensures Uses(closed, r, i) + Uses(routeClosures, r, i) == Uses(pool, r, i) {
      PickedApart(pool, others, lines, r, i);
    }
  }

  /** The intersections, looked for among the roads not split and all pools. */
  method ReportIntersections(network: seq<Feature>, near: (Coord, Coord) -> bool, key: Coord -> Key, split: set<nat>,
                             pool: seq<Segment>, affected: seq<Segment>, open: seq<Segment>, ends: seq<Coord>)
    returns (intersections: seq<Intersection>)
    requires Solid(network, pool + affected + open) && Kept(network, |network|, split, pool, open)
    ensures Reported(network, near, key, pool + affected + open, ends, intersections)
  {
    var originals := Originals(network, split);
    var all := originals + pool + affected + open;
    forall s ensures s in all <==> s in pool + affected + open {
      assert s in originals ==> s == Whole(s.road) && s in pool + open;
    }
    intersections := FindIntersections(network, near, key, all, ends);
    SameReport(network, near, key, all, pool + affected + open, ends, intersections);
  }

  /** What is reported of the pools when no road is without coordinates. */
  ghost predicate FullReport(route: seq<Feature>, network: seq<Feature>, near: (Coord, Coord) -> bool,
                             key: Coord -> Key, pool: seq<Segment>, affected: seq<Segment>, open: seq<Segment>,
                             closed: seq<Segment>, routeClosures: seq<Segment>, cross: seq<Segment>,
                             intersections: seq<Intersection>)
  {
    && Solid(network, pool + affected + open) && Solid(network, pool)
    && Divided(route, network, key, pool, closed, routeClosures)
    && Apart(route, network, key, pool, closed, routeClosures)
    && cross == Picked(open, Touching(network, near, pool, open))
    && Reported(network, near, key, pool + affected + open, Ends(network, pool), intersections)
  }

  /** The part of identify_closed_segments after the classification. */
  method ReportPools(ghost route: seq<Feature>, network: seq<Feature>, near: (Coord, Coord) -> bool, key: Coord -> Key,
                     edges: set<(Key, Key)>, split: set<nat>,
                     pool: seq<Segment>, affected: seq<Segment>, open: seq<Segment>)
    returns (closed: seq<Segment>, routeClosures: seq<Segment>, cross: seq<Segment>,
             intersections: seq<Intersection>, failed: bool)
    requires Placed(network, |network|, pool, affected, open) && Kept(network, |network|, split, pool, open)
    requires forall a, b :: (a, b) in edges <==> RouteEdge(route, key, a, b)
    ensures failed <==> exists s :: s in open && InRoad(network, s) && Bare(network, s)
    ensures !failed ==>
              FullReport(route, network, near, key, pool, affected, open, closed, routeClosures, cross, intersections)
  {
    closed, routeClosures, intersections := [], [], [];
    assert Solid(network, pool);
    var ends := ClosedEndpoints(network, pool);
    cross, failed := FindCrossStreets(network, near, pool, open, ends);
    if failed {
      return;
    }
    assert Solid(network, pool + affected + open);
    intersections := ReportIntersections(network, near, key, split, pool, affected, open, ends);
    closed, routeClosures := Divide(network, pool, edges, key);
    assert Along(network, pool, edges, key) == RouteLines(route, network, key, pool);
    DividedApart(route, network, key, pool, closed, routeClosures);
  }

  /** identify_closed_segments. `pool` are the closed segments in the order found, road by road, which
      `closed` and `routeClosures` divide; the affected segments are those from splits and the cross
      streets. It fails exactly on a network with a road without coordinates. */
  method IdentifyClosedSegments(route: seq<Feature>, network: seq<Feature>, near: (Coord, Coord) -> bool,
                                key: Coord -> Key)
    returns (closed: seq<Segment>, routeClosures: seq<Segment>, affected: seq<Segment>, open: seq<Segment>,
             cross: seq<Segment>, intersections: seq<Intersection>, failed: bool, ghost pool: seq<Segment>,
             ghost roads: seq<RoadSegments>)
    ensures |roads| == |network| && Assembled(route, network, near, key, roads, pool, affected, open)
    ensures Pooled(route, network, near, key, |network|, pool, affected, open)
    ensures forall s :: s in pool + affected + open ==> InRoad(network, s)
    ensures failed <==> exists r :: 0 <= r < |network| && network[r].Line? && network[r].coords == []
    ensures !failed ==>
              FullReport(route, network, near, key, pool, affected, open, closed, routeClosures, cross, intersections)
  {
    var routeCoords, edges := Collect(route, key);
    var found, split;
    found, affected, open, split, roads := ClassifyNetwork(route, network, near, key, routeCoords);
    pool := found;
    closed, routeClosures, cross, intersections, failed :=
      ReportPools(route, network, near, key, edges, split, found, affected, open);
    BareIff(network, pool, affected, open);
  }

  /** The open pool has a segment without coordinates exactly if the network has a road without. */
  lemma BareIff(network: seq<Feature>, pool: seq<Segment>, affected: seq<Segment>, open: seq<Segment>)
    requires Placed(network, |network|, pool, affected, open)
    ensures (exists s :: s in open && InRoad(network, s) && Bare(network, s)) <==>
            exists r :: 0 <= r < |network| && network[r].Line? && network[r].coords == []
  {
    if r :| 0 <= r < |network| && network[r].Line? && network[r].coords == [] {
      assert Whole(r) in open && Bare(network, Whole(r));
    }
  }
}
