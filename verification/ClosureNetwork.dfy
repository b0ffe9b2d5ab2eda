/** Closures over a road network: each edge of each road goes to exactly one of the closed, the
    split-affected and the open pool. `near` stands for the distance test between coordinates and
    `key` for their rounding. */
module ClosureNetwork {
  import opened Multimaps
  import opened Options
  import opened RoadSplit

  datatype Coord = Coord(lon: real, lat: real)

  datatype Key = Key(lon: int, lat: int)

  /** A line may come without a name. */
  datatype Feature = Line(name: Option<string>, coords: seq<Coord>) | OtherGeometry

  /** A feature of the network, or the piece of it made by a split. */
  datatype Segment = Whole(road: nat) | Part(road: nat, piece: Piece)

  // ---------------------------------------------------------------------------
  // What the route and the network say about coordinates
  // ---------------------------------------------------------------------------

  /** Some route coordinate is near `c`. */
  ghost predicate OnRoute(route: seq<Feature>, near: (Coord, Coord) -> bool, c: Coord)
  {
    exists f, p :: f in route && f.Line? && p in f.coords && near(c, p)
  }

  /** The name a road is known by, empty if it has none. */
  function RoadName(f: Feature): string
    requires f.Line?
  {
    if f.name.Some? then f.name.value else ""
  }

  predicate Passes(f: Feature, key: Coord -> Key, k: Key)
  {
    f.Line? && exists c :: c in f.coords && key(c) == k
  }

  /** A road called `name` passes k. */
  predicate PassedBy(network: seq<Feature>, key: Coord -> Key, k: Key, name: string)
  {
    exists f :: f in network && Passes(f, key, k) && RoadName(f) == name
  }

  ghost predicate IsJunction(network: seq<Feature>, key: Coord -> Key, k: Key)
  {
    exists a, b :: a != b && PassedBy(network, key, k, a) && PassedBy(network, key, k, b)
  }

  /** Edge i of the line joins a and b. */
  predicate Joins(f: Feature, key: Coord -> Key, i: int, a: Key, b: Key)
  {
    f.Line? && 0 <= i < |f.coords| - 1 && key(f.coords[i]) == a && key(f.coords[i + 1]) == b
  }

  /** The route runs from a to b or from b to a. */
  ghost predicate RouteEdge(route: seq<Feature>, key: Coord -> Key, a: Key, b: Key)
  {
    exists f, i :: f in route && (Joins(f, key, i, a, b) || Joins(f, key, i, b, a))
  }

  ghost predicate RouteLine(route: seq<Feature>, key: Coord -> Key, coords: seq<Coord>)
  {
    |coords| >= 2 && forall i :: 0 <= i < |coords| - 1 ==> RouteEdge(route, key, key(coords[i]), key(coords[i + 1]))
  }

  /** A junction is where two roads of different names pass; a road without a name has the empty one. */
  lemma JunctionIff(network: seq<Feature>, key: Coord -> Key, k: Key)
    ensures IsJunction(network, key, k) <==>
            exists f, g :: f in network && g in network && Passes(f, key, k) && Passes(g, key, k) &&
                           (if f.name.Some? then f.name.value else "") != (if g.name.Some? then g.name.value else "")
  {
    if a, b :| a != b && PassedBy(network, key, k, a) && PassedBy(network, key, k, b) {
      var f :| f in network && Passes(f, key, k) && RoadName(f) == a;
      var g :| g in network && Passes(g, key, k) && RoadName(g) == b;
    }
    if f, g :| f in network && g in network && Passes(f, key, k) && Passes(g, key, k) && RoadName(f) != RoadName(g) {
      assert PassedBy(network, key, k, RoadName(f)) && PassedBy(network, key, k, RoadName(g));
    }
  }

  /** A line passes the rounded coordinates of its own. */
  lemma PassesIff(f: Feature, key: Coord -> Key, k: Key)
    ensures Passes(f, key, k) <==> f.Line? && exists i :: 0 <= i < |f.coords| && key(f.coords[i]) == k
  {
    if Passes(f, key, k) {
      var c :| c in f.coords && key(c) == k;
      var i :| 0 <= i < |f.coords| && f.coords[i] == c;
    }
  }

  /** A route edge joins two neighbouring coordinates of a line of the route, in either direction. */
  lemma RouteEdgeIff(route: seq<Feature>, key: Coord -> Key, a: Key, b: Key)
    ensures RouteEdge(route, key, a, b) <==>
            exists f, i, j :: f in route && f.Line? && 0 <= i < |f.coords| && 0 <= j < |f.coords| &&
              (j == i + 1 || i == j + 1) && key(f.coords[i]) == a && key(f.coords[j]) == b
  {
    if f, i :| f in route && (Joins(f, key, i, a, b) || Joins(f, key, i, b, a)) {
      assert Joins(f, key, i, a, b) ==> key(f.coords[i]) == a && key(f.coords[i + 1]) == b;
    }
    if f, i, j :| f in route && f.Line? && 0 <= i < |f.coords| && 0 <= j < |f.coords| &&
                  (j == i + 1 || i == j + 1) && key(f.coords[i]) == a && key(f.coords[j]) == b {
      assert j == i + 1 ==> Joins(f, key, i, a, b);
      assert i == j + 1 ==> Joins(f, key, j, b, a);
    }
  }

  // ---------------------------------------------------------------------------
  // Collecting them
  // ---------------------------------------------------------------------------

  lemma Pair<T>(xs: set<T>)
    ensures |xs| >= 2 <==> exists a, b :: a != b && a in xs && b in xs
  {
    if |xs| >= 2 {
      var a :| a in xs;
      assert |xs - {a}| == |xs| - 1;
      var b :| b in xs - {a};
    }
    if a, b :| a != b && a in xs && b in xs {
      assert {a, b} <= xs;
      assert |xs - {a, b}| == |xs| - 2;
    }
  }

  /** The names passing each key, from the first i features and the first j coordinates of the next. */
  ghost predicate Named(network: seq<Feature>, key: Coord -> Key, roads: map<Key, set<string>>, i: nat, j: nat)
    requires i <= |network|
  {
    forall k, name :: Has(roads, k, name) <==>
      PassedBy(network[..i], key, k, name) ||
      (i < |network| && network[i].Line? && RoadName(network[i]) == name && j <= |network[i].coords| &&
       exists c :: c in network[i].coords[..j] && key(c) == k)
  }

  lemma NamedNext(network: seq<Feature>, key: Coord -> Key, roads: map<Key, set<string>>, i: nat, j: nat)
    requires i < |network| && Named(network, key, roads, i, j)
    requires network[i].Line? ==> j == |network[i].coords|
    ensures Named(network, key, roads, i + 1, 0)
  {
  }

  /** _find_network_junctions */
  method FindJunctions(network: seq<Feature>, key: Coord -> Key) returns (junctions: set<Key>)
    ensures forall k :: k in junctions <==> IsJunction(network, key, k)
  {
    var roads: map<Key, set<string>> := map[];
    for i := 0 to |network|
      invariant Named(network, key, roads, i, 0)
    {
      if network[i].Line? {
        var coords := network[i].coords;
        for j := 0 to |coords|
          invariant Named(network, key, roads, i, j)
        {
          roads := Add(roads, key(coords[j]), RoadName(network[i]));
          assert forall c :: c in coords[..j + 1] <==> c in coords[..j] || c == coords[j];
        }
        NamedNext(network, key, roads, i, |coords|);
      } else {
        NamedNext(network, key, roads, i, 0);
      }
    }
    assert network[..|network|] == network;
    junctions := set k | k in roads && |roads[k]| >= 2;
    forall k ensures k in junctions <==> IsJunction(network, key, k) {
      Pair(Get(roads, k));
      assert forall name :: name in Get(roads, k) <==> PassedBy(network, key, k, name);
    }
  }

  /** The route's coordinates and, in both directions, its edges. */
  method Collect(route: seq<Feature>, key: Coord -> Key) returns (coords: seq<Coord>, edges: set<(Key, Key)>)
    ensures forall c :: c in coords <==> exists f :: f in route && f.Line? && c in f.coords
    ensures forall a, b :: (a, b) in edges <==> RouteEdge(route, key, a, b)
  {
    coords, edges := [], {};
    for n := 0 to |route|
      invariant forall c :: c in coords <==> exists f :: f in route[..n] && f.Line? && c in f.coords
      invariant forall a, b :: (a, b) in edges <==> RouteEdge(route[..n], key, a, b)
    {
      var f := route[n];
      assert forall g :: g in route[..n + 1] <==> g in route[..n] || g == f;
      ghost var edges0 := edges;
      if f.Line? {
        coords := coords + f.coords;
        for i := 0 to if f.coords == [] then 0 else |f.coords| - 1
          invariant forall a, b :: (a, b) in edges <==>
                      (a, b) in edges0 || exists j :: j < i && (Joins(f, key, j, a, b) || Joins(f, key, j, b, a))
        {
          var a, b := key(f.coords[i]), key(f.coords[i + 1]);
          assert Joins(f, key, i, a, b);
          edges := edges + {(a, b), (b, a)};
        }
      }
    }
    assert route[..|route|] == route;
  }

  /** Whether `c` is near one of the coordinates. */
  method NearAny(c: Coord, ps: seq<Coord>, near: (Coord, Coord) -> bool) returns (found: bool)
    ensures found <==> exists p :: p in ps && near(c, p)
  {
    found := false;
    for n := 0 to |ps|
      invariant !found && forall m :: 0 <= m < n ==> !near(c, ps[m])
    {
      if near(c, ps[n]) {
        found := true;
        break;
      }
    }
  }

  /** The match flag of each coordinate. */
  method MatchFlags(coords: seq<Coord>, routeCoords: seq<Coord>, near: (Coord, Coord) -> bool)
    returns (matched: seq<bool>)
    ensures |matched| == |coords|
    ensures forall i :: 0 <= i < |coords| ==> (matched[i] <==> exists p :: p in routeCoords && near(coords[i], p))
  {
    matched := [];
    for i := 0 to |coords|
      invariant |matched| == i
      invariant forall j :: 0 <= j < i ==> (matched[j] <==> exists p :: p in routeCoords && near(coords[j], p))
    {
      var isMatch := NearAny(coords[i], routeCoords, near);
      matched := matched + [isMatch];
    }
  }

  /** At least two coordinates, and every edge one of `edges`. */
  predicate AlongEdges(coords: seq<Coord>, edges: set<(Key, Key)>, key: Coord -> Key)
  {
    |coords| >= 2 && forall i :: 0 <= i < |coords| - 1 ==> (key(coords[i]), key(coords[i + 1])) in edges
  }

  /** _is_route_line */
  method IsRouteLine(coords: seq<Coord>, edges: set<(Key, Key)>, key: Coord -> Key) returns (yes: bool)
    ensures yes <==> AlongEdges(coords, edges, key)
  {
    if |coords| < 2 {
      return false;
    }
    for i := 0 to |coords| - 1
      invariant forall j :: 0 <= j < i ==> (key(coords[j]), key(coords[j + 1])) in edges
    {
      if (key(coords[i]), key(coords[i + 1])) !in edges {
        return false;
      }
    }
    yes := true;
  }

  // ---------------------------------------------------------------------------
  // One road
  // ---------------------------------------------------------------------------

  /** The number of segments that hold edge i of road r. */
  function Uses(pool: seq<Segment>, r: nat, i: int): nat
  {
    if pool == [] then 0
    else
      var s := pool[|pool| - 1];
      Uses(pool[..|pool| - 1], r, i) +
      if s.road == r && (s.Part? ==> s.piece.lo <= i < s.piece.hi) then 1 else 0
  }

  lemma {:induction false} UsesAppend(pool: seq<Segment>, more: seq<Segment>, r: nat, i: int)
    ensures Uses(pool + more, r, i) == Uses(pool, r, i) + Uses(more, r, i)
  {
    if more == [] {
      assert pool + more == pool;
    } else {
      assert (pool + more)[..|pool + more| - 1] == pool + more[..|more| - 1];
      UsesAppend(pool, more[..|more| - 1], r, i);
    }
  }

  lemma {:induction false} UsesElsewhere(pool: seq<Segment>, r: nat, i: int)
    requires forall s :: s in pool ==> s.road != r
    ensures Uses(pool, r, i) == 0
  {
    if pool != [] {
      assert pool[|pool| - 1] in pool;
      UsesElsewhere(pool[..|pool| - 1], r, i);
    }
  }

  function Parts(r: nat, ps: seq<Piece>): (pool: seq<Segment>)
    ensures forall s :: s in pool ==> s.road == r && s.Part? && s.piece in ps
  {
    if ps == [] then [] else Parts(r, ps[..|ps| - 1]) + [Part(r, ps[|ps| - 1])]
  }

  lemma {:induction false} PartsCount(r: nat, ps: seq<Piece>, i: int)
    ensures Uses(Parts(r, ps), r, i) == Count(ps, i)
  {
    if ps != [] {
      var before := Parts(r, ps[..|ps| - 1]);
      PartsCount(r, ps[..|ps| - 1], i);
      assert Parts(r, ps)[..|Parts(r, ps)| - 1] == before;
    }
  }

  function Matches(matched: seq<bool>): nat
  {
    if matched == [] then 0 else Matches(matched[..|matched| - 1]) + if matched[|matched| - 1] then 1 else 0
  }

  lemma {:induction false} MatchCounts(matched: seq<bool>)
    ensures Matches(matched) <= |matched|
    ensures Matches(matched) == |matched| <==> forall i :: 0 <= i < |matched| ==> matched[i]
    ensures Matches(matched) == 0 ==> forall i :: 0 <= i < |matched| ==> !matched[i]
    ensures Matches(matched) < 2 ==> NoneClosed(matched, 0, |matched|)
  {
    if matched != [] {
      var before := matched[..|matched| - 1];
      MatchCounts(before);
      forall i | 0 <= i < |before| ensures before[i] == matched[i] {
      }
      forall i | Closed(matched, i) ensures Matches(matched) >= 2 {
        if i + 1 < |before| {
          assert Closed(before, i);
        } else {
          assert before[i];
        }
      }
    }
  }

  /** The segments of road r, edge by edge. */
  ghost predicate Sorted(matched: seq<bool>, junction: seq<bool>, r: nat,
                         closed: seq<Segment>, affected: seq<Segment>, open: seq<Segment>)
  {
    forall i :: 0 <= i < |matched| - 1 ==>
      && Uses(closed, r, i) == (if Closed(matched, i) then 1 else 0)
      && Uses(affected, r, i) == (if Affected(matched, junction, i) then 1 else 0)
      && Uses(open, r, i) == (if !Closed(matched, i) && !Affected(matched, junction, i) then 1 else 0)
  }

  lemma WholeOpen(matched: seq<bool>, junction: seq<bool>, r: nat)
    requires NoneClosed(matched, 0, |matched|)
    ensures Sorted(matched, junction, r, [], [], [Whole(r)])
  {
  }

  lemma WholeClosed(matched: seq<bool>, junction: seq<bool>, r: nat)
    requires |matched| >= 2 && forall i :: 0 <= i < |matched| ==> matched[i]
    ensures Sorted(matched, junction, r, [Whole(r)], [], []) && Closed(matched, 0)
  {
    assert [Whole(r)][..0] == [];
  }

  lemma SplitParts(matched: seq<bool>, junction: seq<bool>, r: nat, c: seq<Piece>, a: seq<Piece>, o: seq<Piece>)
    requires Split(matched, junction, c, a, o) && c != []
    ensures Sorted(matched, junction, r, Parts(r, c), Parts(r, a), Parts(r, o))
  {
    forall i | 0 <= i < |matched| - 1
      ensures Uses(Parts(r, c), r, i) == (if Closed(matched, i) then 1 else 0)
      ensures Uses(Parts(r, a), r, i) == (if Affected(matched, junction, i) then 1 else 0)
      ensures Uses(Parts(r, o), r, i) == (if !Closed(matched, i) && !Affected(matched, junction, i) then 1 else 0)
    {
      ExactCover(matched, junction, c, a, o, i);
      PartsCount(r, c, i);
      PartsCount(r, a, i);
      PartsCount(r, o, i);
    }
  }

  /** The segments of road r: open as a whole if none of its edges is closed, closed as a whole if all its
      coordinates match, and otherwise the pieces of its split. */
  ghost predicate RoadPools(matched: seq<bool>, junction: seq<bool>, r: nat,
                            closed: seq<Segment>, affected: seq<Segment>, open: seq<Segment>)
  {
    if NoneClosed(matched, 0, |matched|) then closed == [] && affected == [] && open == [Whole(r)]
    else if forall i :: 0 <= i < |matched| ==> matched[i] then closed == [Whole(r)] && affected == [] && open == []
    else exists c, a, o :: Split(matched, junction, c, a, o) &&
                           closed == Parts(r, c) && affected == Parts(r, a) && open == Parts(r, o)
  }

  /** The segments lie within road r, the closed and the affected ones with two coordinates or more; it is
      split if it is in no pool as a whole, and open without coordinates. */
  ghost predicate OfRoad(matched: seq<bool>, r: nat, closed: seq<Segment>, affected: seq<Segment>,
                         open: seq<Segment>, split: bool)
  {
    && (forall s :: s in closed + affected + open ==>
          s.road == r && (s.Part? ==> s.piece.lo < s.piece.hi < |matched|))
    && (forall s :: s in closed + affected && s.Whole? ==> |matched| >= 2)
    && (matched == [] ==> Whole(r) in open)
    && (split <==> Whole(r) !in closed + open)
  }

  /** The three branches: fewer than two matches, all matched, and a partial match. */
  method ClassifyRoad(matched: seq<bool>, junction: seq<bool>, r: nat)
    returns (closed: seq<Segment>, affected: seq<Segment>, open: seq<Segment>, split: bool)
    requires |junction| == |matched|
    ensures RoadPools(matched, junction, r, closed, affected, open)
    ensures Sorted(matched, junction, r, closed, affected, open)
    ensures OfRoad(matched, r, closed, affected, open, split)
  {
    closed, affected, open, split := [], [], [], false;
    var matchCount := Matches(matched);
    MatchCounts(matched);
    if matchCount < 2 {
      WholeOpen(matched, junction, r);
      open := [Whole(r)];
    } else if matchCount == |matched| {
      WholeClosed(matched, junction, r);
      closed := [Whole(r)];
    } else {
      closed, affected, open, split := ClassifySplit(matched, junction, r);
    }
  }

  /** A partial match. */
  method ClassifySplit(matched: seq<bool>, junction: seq<bool>, r: nat)
    returns (closed: seq<Segment>, affected: seq<Segment>, open: seq<Segment>, split: bool)
    requires |junction| == |matched| >= 2 && exists i :: 0 <= i < |matched| && !matched[i]
    ensures RoadPools(matched, junction, r, closed, affected, open)
    ensures Sorted(matched, junction, r, closed, affected, open)
    ensures OfRoad(matched, r, closed, affected, open, split)
  {
    var c, a, o := SplitRoad(matched, junction);
    if c != [] {
      SplitParts(matched, junction, r, c, a, o);
      closed, affected, open, split := Parts(r, c), Parts(r, a), Parts(r, o), true;
    } else {
      WholeOpen(matched, junction, r);
      closed, affected, open, split := [], [], [Whole(r)], false;
    }
  }

  // ---------------------------------------------------------------------------
  // The network
  // ---------------------------------------------------------------------------

  /** Both ends of the edge are near the route. */
  ghost predicate EdgeClosed(route: seq<Feature>, near: (Coord, Coord) -> bool, f: Feature, i: int)
  {
    f.Line? && 0 <= i < |f.coords| - 1 && OnRoute(route, near, f.coords[i]) && OnRoute(route, near, f.coords[i + 1])
  }

  /** An edge is closed when each of its two coordinates has a route coordinate near it. */
  lemma EdgeClosedIff(route: seq<Feature>, near: (Coord, Coord) -> bool, f: Feature, i: int)
    requires f.Line? && 0 <= i < |f.coords| - 1
    ensures EdgeClosed(route, near, f, i) <==>
            (exists g, p :: g in route && g.Line? && p in g.coords && near(f.coords[i], p)) &&
            (exists g, p :: g in route && g.Line? && p in g.coords && near(f.coords[i + 1], p))
  {
  }

  /** A road of the network, or at least one edge of it. */
  predicate InRoad(network: seq<Feature>, s: Segment)
  {
    s.road < |network| && network[s.road].Line? &&
    (s.Part? ==> s.piece.lo < s.piece.hi < |network[s.road].coords|)
  }

  /** The coordinates of a segment. */
  function Shape(network: seq<Feature>, s: Segment): seq<Coord>
    requires InRoad(network, s)
  {
    var coords := network[s.road].coords;
    if s.Part? then coords[s.piece.lo..s.piece.hi + 1] else coords
  }

  ghost function Matched(route: seq<Feature>, near: (Coord, Coord) -> bool, f: Feature): seq<bool>
    requires f.Line?
  {
    seq(|f.coords|, i requires 0 <= i < |f.coords| => OnRoute(route, near, f.coords[i]))
  }

  ghost function AtJunction(network: seq<Feature>, key: Coord -> Key, f: Feature): seq<bool>
    requires f.Line?
  {
    seq(|f.coords|, i requires 0 <= i < |f.coords| => IsJunction(network, key, key(f.coords[i])))
  }

  /** Edge i is not closed, and a closure of its road reaches it with no junction between. */
  ghost predicate EdgeAffected(route: seq<Feature>, network: seq<Feature>, near: (Coord, Coord) -> bool,
                               key: Coord -> Key,
                               f: Feature, i: int)
    requires f.Line?
  {
    Affected(Matched(route, near, f), AtJunction(network, key, f), i)
  }

  /** The pools hold segments of the first n roads only, the closed and the affected ones with two
      coordinates or more; a road without coordinates is open. */
  ghost predicate Placed(network: seq<Feature>, n: nat, closed: seq<Segment>, affected: seq<Segment>,
                         open: seq<Segment>)
    requires n <= |network|
  {
    && (forall s :: s in closed + affected + open ==> s.road < n && InRoad(network, s))
    && (forall s :: s in closed + affected ==> |Shape(network, s)| >= 2)
    && (forall r :: 0 <= r < n && network[r].Line? && network[r].coords == [] ==> Whole(r) in open)
  }

  /** The pools hold every edge of the first n roads once, in the pool its definition names. */
  ghost predicate Pooled(route: seq<Feature>, network: seq<Feature>, near: (Coord, Coord) -> bool, key: Coord -> Key,
                         n: nat,
                         closed: seq<Segment>, affected: seq<Segment>, open: seq<Segment>)
    requires n <= |network|
  {
    forall r, i :: 0 <= r < n && network[r].Line? && 0 <= i < |network[r].coords| - 1 ==>
      Uses(closed, r, i) == (if EdgeClosed(route, near, network[r], i) then 1 else 0) &&
      Uses(affected, r, i) == (if EdgeAffected(route, network, near, key, network[r], i) then 1 else 0) &&
      Uses(closed, r, i) + Uses(affected, r, i) + Uses(open, r, i) == 1
  }

  lemma PlacedStep(network: seq<Feature>, n: nat, closed: seq<Segment>, affected: seq<Segment>, open: seq<Segment>,
                   c: seq<Segment>, a: seq<Segment>, o: seq<Segment>)
    requires n < |network| && network[n].Line? && Placed(network, n, closed, affected, open)
    requires forall s :: s in c + a + o ==> s.road == n && InRoad(network, s)
    requires forall s :: s in c + a ==> |Shape(network, s)| >= 2
    requires network[n].coords == [] ==> Whole(n) in o
    ensures Placed(network, n + 1, closed + c, affected + a, open + o)
  {
  }

  lemma PooledStep(route: seq<Feature>, network: seq<Feature>, near: (Coord, Coord) -> bool, key: Coord -> Key, n: nat,
                   closed: seq<Segment>, affected: seq<Segment>, open: seq<Segment>,
                   c: seq<Segment>, a: seq<Segment>, o: seq<Segment>)
    requires n < |network| && network[n].Line? && Pooled(route, network, near, key, n, closed, affected, open)
    requires forall s :: s in closed + affected + open ==> s.road < n
    requires Sorted(Matched(route, near, network[n]), AtJunction(network, key, network[n]), n, c, a, o)
    requires forall s :: s in c + a + o ==> s.road == n
    ensures Pooled(route, network, near, key, n + 1, closed + c, affected + a, open + o)
  {
    forall r, i | 0 <= r <= n && network[r].Line? && 0 <= i < |network[r].coords| - 1
      ensures Uses(closed + c, r, i) == (if EdgeClosed(route, near, network[r], i) then 1 else 0)
      ensures Uses(affected + a, r, i) == (if EdgeAffected(route, network, near, key, network[r], i) then 1 else 0)
      ensures Uses(closed + c, r, i) + Uses(affected + a, r, i) + Uses(open + o, r, i) == 1
    {
      UsesAppend(closed, c, r, i);
      UsesAppend(affected, a, r, i);
      UsesAppend(open, o, r, i);
      if r == n {
        UsesElsewhere(closed, r, i);
        UsesElsewhere(affected, r, i);
        UsesElsewhere(open, r, i);
        assert Closed(Matched(route, near, network[n]), i) <==> EdgeClosed(route, near, network[n], i);
      } else {
        UsesElsewhere(c, r, i);
        UsesElsewhere(a, r, i);
        UsesElsewhere(o, r, i);
      }
    }
  }

  /** A road of the first n that was not split is a whole segment of the closed or the open pool. */
  ghost predicate Kept(network: seq<Feature>, n: nat, split: set<nat>, closed: seq<Segment>, open: seq<Segment>)
    requires n <= |network|
  {
    forall r: nat :: r < n && network[r].Line? && r !in split ==> Whole(r) in closed + open
  }

  lemma KeptStep(network: seq<Feature>, n: nat, split: set<nat>, closed: seq<Segment>, open: seq<Segment>,
                 c: seq<Segment>, o: seq<Segment>, splits: bool)
    requires n < |network| && Kept(network, n, split, closed, open) && (splits <==> Whole(n) !in c + o)
    ensures Kept(network, n + 1, if splits then split + {n} else split, closed + c, open + o)
  {
  }

  /** The segments of one road. */
  datatype RoadSegments = RoadSegments(closed: seq<Segment>, affected: seq<Segment>, open: seq<Segment>)

  const NO_SEGMENTS := RoadSegments([], [], [])

  function AllClosed(roads: seq<RoadSegments>): seq<Segment>
  {
    if roads == [] then [] else AllClosed(roads[..|roads| - 1]) + roads[|roads| - 1].closed
  }

  function AllAffected(roads: seq<RoadSegments>): seq<Segment>
  {
    if roads == [] then [] else AllAffected(roads[..|roads| - 1]) + roads[|roads| - 1].affected
  }

  function AllOpen(roads: seq<RoadSegments>): seq<Segment>
  {
    if roads == [] then [] else AllOpen(roads[..|roads| - 1]) + roads[|roads| - 1].open
  }

  /** The pools hold, road by road, the segments of each. */
  ghost predicate Assembled(route: seq<Feature>, network: seq<Feature>, near: (Coord, Coord) -> bool,
                            key: Coord -> Key, roads: seq<RoadSegments>,
                            closed: seq<Segment>, affected: seq<Segment>, open: seq<Segment>)
    requires |roads| <= |network|
  {
    && (forall r :: 0 <= r < |roads| ==> OneRoad(route, network, near, key, r, roads[r]))
    && closed == AllClosed(roads) && affected == AllAffected(roads) && open == AllOpen(roads)
  }

  ghost predicate OneRoad(route: seq<Feature>, network: seq<Feature>, near: (Coord, Coord) -> bool,
                          key: Coord -> Key, r: nat, segments: RoadSegments)
    requires r < |network|
  {
    if network[r].Line? then
      RoadPools(Matched(route, near, network[r]), AtJunction(network, key, network[r]), r,
                segments.closed, segments.affected, segments.open)
    else segments == NO_SEGMENTS
  }

  lemma AssembledStep(route: seq<Feature>, network: seq<Feature>, near: (Coord, Coord) -> bool, key: Coord -> Key,
                      roads: seq<RoadSegments>, closed: seq<Segment>, affected: seq<Segment>, open: seq<Segment>,
                      next: RoadSegments)
    requires |roads| < |network| && Assembled(route, network, near, key, roads, closed, affected, open)
    requires OneRoad(route, network, near, key, |roads|, next)
    ensures Assembled(route, network, near, key, roads + [next],
                      closed + next.closed, affected + next.affected, open + next.open)
  {
    assert (roads + [next])[..|roads|] == roads;
  }

  lemma OneRoadUnique(route: seq<Feature>, network: seq<Feature>, near: (Coord, Coord) -> bool, key: Coord -> Key,
                      r: nat, x: RoadSegments, y: RoadSegments)
    requires r < |network| && OneRoad(route, network, near, key, r, x) && OneRoad(route, network, near, key, r, y)
    ensures x == y
  {
    if network[r].Line? {
      var matched, junction := Matched(route, near, network[r]), AtJunction(network, key, network[r]);
      if !NoneClosed(matched, 0, |matched|) && exists i :: 0 <= i < |matched| && !matched[i] {
        var c, a, o :| Split(matched, junction, c, a, o) && x == RoadSegments(Parts(r, c), Parts(r, a), Parts(r, o));
        var c', a', o' :| Split(matched, junction, c', a', o') &&
                          y == RoadSegments(Parts(r, c'), Parts(r, a'), Parts(r, o'));
        SplitUnique(matched, junction, c, a, o, c', a', o');
      }
    }
  }

  /** The route and the network determine the pools, in content and order. */
  lemma AssembledUnique(route: seq<Feature>, network: seq<Feature>, near: (Coord, Coord) -> bool, key: Coord -> Key,
                        roads: seq<RoadSegments>, closed: seq<Segment>, affected: seq<Segment>, open: seq<Segment>,
                        roads': seq<RoadSegments>, closed': seq<Segment>, affected': seq<Segment>, open': seq<Segment>)
    requires |roads| == |roads'| <= |network|
    requires Assembled(route, network, near, key, roads, closed, affected, open)
    requires Assembled(route, network, near, key, roads', closed', affected', open')
    ensures closed == closed' && affected == affected' && open == open'
  {
    forall r | 0 <= r < |roads| ensures roads[r] == roads'[r] {
      OneRoadUnique(route, network, near, key, r, roads[r], roads'[r]);
    }
    assert roads == roads';
  }

  /** The first roads are divided into the pools: each edge once, each segment in its place, road by road,
      and those not in `split` as a whole. */
  ghost predicate DividedUpTo(route: seq<Feature>, network: seq<Feature>, near: (Coord, Coord) -> bool,
                              key: Coord -> Key, roads: seq<RoadSegments>, split: set<nat>,
                              closed: seq<Segment>, affected: seq<Segment>, open: seq<Segment>)
    requires |roads| <= |network|
  {
    && Assembled(route, network, near, key, roads, closed, affected, open)
    && Pooled(route, network, near, key, |roads|, closed, affected, open)
    && Placed(network, |roads|, closed, affected, open) && Kept(network, |roads|, split, closed, open)
  }

  /** The segments of road n lie in it. */
  ghost predicate InItsRoad(network: seq<Feature>, n: nat, next: RoadSegments, splits: bool)
    requires n < |network| && network[n].Line?
  {
    && (forall s :: s in next.closed + next.affected + next.open ==> s.road == n && InRoad(network, s))
    && (forall s :: s in next.closed + next.affected ==> InRoad(network, s) && |Shape(network, s)| >= 2)
    && (network[n].coords == [] ==> Whole(n) in next.open)
    && (splits <==> Whole(n) !in next.closed + next.open)
  }

  /** The segments of road n, and whether it was split. */
  ghost predicate RoadDivided(route: seq<Feature>, network: seq<Feature>, near: (Coord, Coord) -> bool,
                              key: Coord -> Key, n: nat, next: RoadSegments, splits: bool)
    requires n < |network| && network[n].Line?
  {
    && OneRoad(route, network, near, key, n, next)
    && Sorted(Matched(route, near, network[n]), AtJunction(network, key, network[n]), n,
              next.closed, next.affected, next.open)
    && InItsRoad(network, n, next, splits)
  }

  lemma NextRoad(route: seq<Feature>, network: seq<Feature>, near: (Coord, Coord) -> bool, key: Coord -> Key,
                 roads: seq<RoadSegments>, split: set<nat>,
                 closed: seq<Segment>, affected: seq<Segment>, open: seq<Segment>, next: RoadSegments, splits: bool)
    requires |roads| < |network| && network[|roads|].Line?
    requires DividedUpTo(route, network, near, key, roads, split, closed, affected, open)
    requires RoadDivided(route, network, near, key, |roads|, next, splits)
    ensures DividedUpTo(route, network, near, key, roads + [next], if splits then split + {|roads|} else split,
                        closed + next.closed, affected + next.affected, open + next.open)
  {
    var n := |roads|;
    AssembledStep(route, network, near, key, roads, closed, affected, open, next);
    PooledStep(route, network, near, key, n, closed, affected, open, next.closed, next.affected, next.open);
    PlacedStep(network, n, closed, affected, open, next.closed, next.affected, next.open);
    KeptStep(network, n, split, closed, open, next.closed, next.open, splits);
  }

  lemma SkipRoad(route: seq<Feature>, network: seq<Feature>, near: (Coord, Coord) -> bool, key: Coord -> Key,
                 roads: seq<RoadSegments>, split: set<nat>,
                 closed: seq<Segment>, affected: seq<Segment>, open: seq<Segment>)
    requires |roads| < |network| && !network[|roads|].Line?
    requires DividedUpTo(route, network, near, key, roads, split, closed, affected, open)
    ensures DividedUpTo(route, network, near, key, roads + [NO_SEGMENTS], split, closed, affected, open)
  {
    AssembledStep(route, network, near, key, roads, closed, affected, open, NO_SEGMENTS);
    assert closed + [] == closed && affected + [] == affected && open + [] == open;
    PooledSkip(route, network, near, key, |roads|, closed, affected, open);
    PlacedSkip(network, |roads|, split, closed, affected, open);
  }

  lemma PlacedSkip(network: seq<Feature>, n: nat, split: set<nat>, closed: seq<Segment>, affected: seq<Segment>,
                   open: seq<Segment>)
    requires n < |network| && !network[n].Line?
    requires Placed(network, n, closed, affected, open) && Kept(network, n, split, closed, open)
    ensures Placed(network, n + 1, closed, affected, open) && Kept(network, n + 1, split, closed, open)
  {
  }

  lemma PooledSkip(route: seq<Feature>, network: seq<Feature>, near: (Coord, Coord) -> bool, key: Coord -> Key,
                   n: nat, closed: seq<Segment>, affected: seq<Segment>, open: seq<Segment>)
    requires n < |network| && !network[n].Line? && Pooled(route, network, near, key, n, closed, affected, open)
    ensures Pooled(route, network, near, key, n + 1, closed, affected, open)
  {
  }

  lemma OfRoadDivided(network: seq<Feature>, n: nat, matched: seq<bool>, next: RoadSegments, splits: bool)
    requires n < |network| && network[n].Line? && |matched| == |network[n].coords|
    requires OfRoad(matched, n, next.closed, next.affected, next.open, splits)
    ensures InItsRoad(network, n, next, splits)
  {
    assert forall s :: s in next.closed + next.affected ==> s in next.closed + next.affected + next.open;
  }

  /** The body of the classification loop, for a line. */
  method ClassifyFeature(ghost route: seq<Feature>, network: seq<Feature>, near: (Coord, Coord) -> bool,
                         key: Coord -> Key, routeCoords: seq<Coord>, junctions: set<Key>, n: nat)
    returns (next: RoadSegments, splits: bool)
    requires n < |network| && network[n].Line?
    requires forall c :: c in routeCoords <==> exists f :: f in route && f.Line? && c in f.coords
    requires forall k :: k in junctions <==> IsJunction(network, key, k)
    ensures RoadDivided(route, network, near, key, n, next, splits)
  {
    var coords := network[n].coords;
    var matched := MatchFlags(coords, routeCoords, near);
    var junction := seq(|coords|, i requires 0 <= i < |coords| => key(coords[i]) in junctions);
    assert matched == Matched(route, near, network[n]);
    assert junction == AtJunction(network, key, network[n]);
    var c, a, o, split := ClassifyRoad(matched, junction, n);
    next, splits := RoadSegments(c, a, o), split;
    OfRoadDivided(network, n, matched, next, splits);
  }

  /** The classification loop of identify_closed_segments. `split` are the roads replaced by pieces, `roads`
      the segments of each. */
  method ClassifyNetwork(route: seq<Feature>, network: seq<Feature>, near: (Coord, Coord) -> bool, key: Coord -> Key,
                         routeCoords: seq<Coord>)
    returns (closed: seq<Segment>, affected: seq<Segment>, open: seq<Segment>, split: set<nat>,
             ghost roads: seq<RoadSegments>)
    requires forall c :: c in routeCoords <==> exists f :: f in route && f.Line? && c in f.coords
    ensures |roads| == |network|
    ensures DividedUpTo(route, network, near, key, roads, split, closed, affected, open)
  {
    var junctions := FindJunctions(network, key);
    closed, affected, open, split, roads := [], [], [], {}, [];
    for n := 0 to |network|
      invariant |roads| == n && DividedUpTo(route, network, near, key, roads, split, closed, affected, open)
    {
      if network[n].Line? {
        var next, splits := ClassifyFeature(route, network, near, key, routeCoords, junctions, n);
        NextRoad(route, network, near, key, roads, split, closed, affected, open, next, splits);
        closed, affected, open := closed + next.closed, affected + next.affected, open + next.open;
        split, roads := if splits then split + {n} else split, roads + [next];
      } else {
        SkipRoad(route, network, near, key, roads, split, closed, affected, open);
        roads := roads + [NO_SEGMENTS];
      }
    }
  }

  // ---------------------------------------------------------------------------
  // Cross streets
  // ---------------------------------------------------------------------------

  /** The first or the last coordinate. */
  predicate IsEnd(coords: seq<Coord>, c: Coord)
  {
    coords != [] && (c == coords[0] || c == coords[|coords| - 1])
  }

  /** An end of the segment is near an end of a closed one. */
  ghost predicate Touches(network: seq<Feature>, near: (Coord, Coord) -> bool, closed: seq<Segment>, s: Segment)
    requires InRoad(network, s) && forall t :: t in closed ==> InRoad(network, t)
  {
    exists c, t, e :: IsEnd(Shape(network, s), c) && t in closed && IsEnd(Shape(network, t), e) && near(c, e)
  }

  /** One of the ends is near one of the given coordinates. */
  predicate EndNear(coords: seq<Coord>, ends: seq<Coord>, near: (Coord, Coord) -> bool)
  {
    exists c, e :: c in coords && IsEnd(coords, c) && e in ends && near(c, e)
  }

  method TouchesAny(coords: seq<Coord>, ends: seq<Coord>, near: (Coord, Coord) -> bool) returns (touches: bool)
    requires coords != []
    ensures touches <==> EndNear(coords, ends, near)
  {
    touches := NearAny(coords[0], ends, near);
    if !touches {
      touches := NearAny(coords[|coords| - 1], ends, near);
    }
    assert coords[0] in coords && IsEnd(coords, coords[0]);
    assert coords[|coords| - 1] in coords && IsEnd(coords, coords[|coords| - 1]);
  }

  /** Segments of the network with ends. */
  ghost predicate Solid(network: seq<Feature>, segments: seq<Segment>)
  {
    forall t :: t in segments ==> InRoad(network, t) && Shape(network, t) != []
  }

  /** The first and the last coordinate of each segment, in order. */
  ghost function Ends(network: seq<Feature>, segments: seq<Segment>): seq<Coord>
    requires Solid(network, segments)
  {
    if segments == [] then []
    else
      var coords := Shape(network, segments[|segments| - 1]);
      Ends(network, segments[..|segments| - 1]) + [coords[0], coords[|coords| - 1]]
  }

  lemma {:induction false} EndsAre(network: seq<Feature>, segments: seq<Segment>, e: Coord)
    requires Solid(network, segments)
    ensures e in Ends(network, segments) <==> exists t :: t in segments && IsEnd(Shape(network, t), e)
  {
    if segments != [] {
      var before, last := segments[..|segments| - 1], segments[|segments| - 1];
      EndsAre(network, before, e);
      assert segments == before + [last];
      assert last in segments && (e in Ends(network, segments) <==>
                                  e in Ends(network, before) || IsEnd(Shape(network, last), e));
    }
  }

  lemma EndsStep(network: seq<Feature>, segments: seq<Segment>, n: nat)
    requires Solid(network, segments) && n < |segments|
    ensures var coords := Shape(network, segments[n]);
            Ends(network, segments[..n + 1]) == Ends(network, segments[..n]) + [coords[0], coords[|coords| - 1]]
  {
    assert segments[..n + 1][..n] == segments[..n];
  }

  method ClosedEndpoints(network: seq<Feature>, closed: seq<Segment>) returns (ends: seq<Coord>)
    requires Solid(network, closed)
    ensures ends == Ends(network, closed)
  {
    ends := [];
    for n := 0 to |closed|
      invariant ends == Ends(network, closed[..n])
    {
      var coords := Shape(network, closed[n]);
      EndsStep(network, closed, n);
      ends := ends + [coords[0], coords[|coords| - 1]];
    }
    assert closed[..|closed|] == closed;
  }

  lemma TouchesIs(network: seq<Feature>, near: (Coord, Coord) -> bool, closed: seq<Segment>, s: Segment)
    requires InRoad(network, s) && Shape(network, s) != []
    requires Solid(network, closed)
    ensures Touches(network, near, closed, s) <==> EndNear(Shape(network, s), Ends(network, closed), near)
  {
    if c, t, e :| IsEnd(Shape(network, s), c) && t in closed && IsEnd(Shape(network, t), e) && near(c, e) {
      EndsAre(network, closed, e);
    }
    if c, e :| IsEnd(Shape(network, s), c) && e in Ends(network, closed) && near(c, e) {
      EndsAre(network, closed, e);
      var t :| t in closed && IsEnd(Shape(network, t), e);
    }
  }

  /** The wanted ones of the segments, in their order. */
  function Picked(segments: seq<Segment>, wanted: set<Segment>): (picked: seq<Segment>)
  {
    if segments == [] then []
    else
      var n := |segments| - 1;
      Picked(segments[..n], wanted) + if segments[n] in wanted then [segments[n]] else []
  }

  lemma {:induction false} PickedIs(segments: seq<Segment>, wanted: set<Segment>)
    ensures forall s :: multiset(Picked(segments, wanted))[s] == if s in wanted then multiset(segments)[s] else 0
  {
    if segments != [] {
      var n := |segments| - 1;
      PickedIs(segments[..n], wanted);
      assert segments == segments[..n] + [segments[n]];
    }
  }

  lemma PickedMember(segments: seq<Segment>, wanted: set<Segment>, s: Segment)
    ensures s in Picked(segments, wanted) <==> s in segments && s in wanted
  {
    PickedIs(segments, wanted);
    assert multiset(Picked(segments, wanted))[s] > 0 <==> s in Picked(segments, wanted);
    assert multiset(segments)[s] > 0 <==> s in segments;
  }

  lemma PickedUses(segments: seq<Segment>, wanted: set<Segment>, r: nat, i: int)
    requires segments != []
    ensures var n := |segments| - 1;
            Uses(Picked(segments, wanted), r, i) ==
              Uses(Picked(segments[..n], wanted), r, i) + if segments[n] in wanted then Uses([segments[n]], r, i) else 0
  {
    var n := |segments| - 1;
    UsesAppend(Picked(segments[..n], wanted), [segments[n]], r, i);
    assert Picked(segments[..n], wanted) + [] == Picked(segments[..n], wanted);
  }

  /** Picking some and picking the others divides the segments. */
  lemma {:induction false} PickedApart(segments: seq<Segment>, some: set<Segment>, others: set<Segment>, r: nat, i: int)
    requires forall s :: s in segments ==> (s in some <==> s !in others)
    ensures Uses(Picked(segments, some), r, i) + Uses(Picked(segments, others), r, i) == Uses(segments, r, i)
  {
    if segments != [] {
      var n := |segments| - 1;
      PickedApart(segments[..n], some, others, r, i);
      PickedUses(segments, some, r, i);
      PickedUses(segments, others, r, i);
      UsesAppend(segments[..n], [segments[n]], r, i);
      assert segments == segments[..n] + [segments[n]];
    }
  }

  lemma PickedStep(segments: seq<Segment>, n: nat, wanted: set<Segment>)
    requires n < |segments|
    ensures Picked(segments[..n + 1], wanted) ==
            Picked(segments[..n], wanted) + if segments[n] in wanted then [segments[n]] else []
  {
    assert segments[..n + 1][..n] == segments[..n];
  }

  /** The open segments that touch a closed one. */
  ghost function Touching(network: seq<Feature>, near: (Coord, Coord) -> bool, closed: seq<Segment>,
                          open: seq<Segment>): (touching: set<Segment>)
    requires forall t :: t in closed + open ==> InRoad(network, t)
    ensures forall s :: s in touching <==> s in open && Touches(network, near, closed, s)
  {
    set s | s in open && Touches(network, near, closed, s)
  }

  /** A road without coordinates, as one of the open segments. */
  predicate Bare(network: seq<Feature>, s: Segment)
    requires InRoad(network, s)
  {
    Shape(network, s) == []
  }

  /** Picks the open segments with an end near one of `ends`; fails on a road without coordinates,
      which has no ends to compare. */
  method PickNear(network: seq<Feature>, near: (Coord, Coord) -> bool, open: seq<Segment>, ends: seq<Coord>,
                  ghost wanted: set<Segment>)
    returns (cross: seq<Segment>, failed: bool)
    requires forall s :: s in open ==> InRoad(network, s)
    requires forall s :: s in open && !Bare(network, s) ==>
               (s in wanted <==> EndNear(Shape(network, s), ends, near))
    ensures failed <==> exists s :: s in open && Bare(network, s)
    ensures !failed ==> cross == Picked(open, wanted)
  {
    cross, failed := [], false;
    for n := 0 to |open|
      invariant !failed && forall m :: 0 <= m < n ==> !Bare(network, open[m])
      invariant cross == Picked(open[..n], wanted)
    {
      if Bare(network, open[n]) {
        failed := true;
        return;
      }
      var touches := TouchesAny(Shape(network, open[n]), ends, near);
      PickedStep(open, n, wanted);
      if touches {
        cross := cross + [open[n]];
      }
    }
    assert open[..|open|] == open;
  }

  /** The open segments that touch a closed one, found through the ends of those. */
  method FindCrossStreets(network: seq<Feature>, near: (Coord, Coord) -> bool, ghost closed: seq<Segment>,
                          open: seq<Segment>, ends: seq<Coord>)
    returns (cross: seq<Segment>, failed: bool)
    requires forall t :: t in closed + open ==> InRoad(network, t)
    requires Solid(network, closed)
    requires ends == Ends(network, closed)
    ensures failed <==> exists s :: s in open && Bare(network, s)
    ensures !failed ==> cross == Picked(open, Touching(network, near, closed, open))
  {
    assert forall s :: s in open ==> s in closed + open;
    forall s | s in open && !Bare(network, s)
      ensures Touches(network, near, closed, s) <==> EndNear(Shape(network, s), ends, near)
    {
      TouchesIs(network, near, closed, s);
    }
    cross, failed := PickNear(network, near, open, ends, Touching(network, near, closed, open));
  }

  /** The segments that run along the edges. */
  ghost function Along(network: seq<Feature>, pool: seq<Segment>, edges: set<(Key, Key)>, key: Coord -> Key):
    (lines: set<Segment>)
    requires forall s :: s in pool ==> InRoad(network, s)
    ensures forall s :: s in lines <==> s in pool && AlongEdges(Shape(network, s), edges, key)
  {
    set s | s in pool && AlongEdges(Shape(network, s), edges, key)
  }

  /** The separation of the closed pool. */
  method Divide(network: seq<Feature>, pool: seq<Segment>, edges: set<(Key, Key)>, key: Coord -> Key)
    returns (closed: seq<Segment>, routeClosures: seq<Segment>)
    requires forall s :: s in pool ==> InRoad(network, s)
    ensures routeClosures == Picked(pool, Along(network, pool, edges, key))
    ensures closed == Picked(pool, (set s | s in pool) - Along(network, pool, edges, key))
  {
    closed, routeClosures := [], [];
    ghost var lines := Along(network, pool, edges, key);
    ghost var others := (set s | s in pool) - lines;
    for n := 0 to |pool|
      invariant closed == Picked(pool[..n], others) && routeClosures == Picked(pool[..n], lines)
    {
      var yes := IsRouteLine(Shape(network, pool[n]), edges, key);
      PickedStep(pool, n, others);
      PickedStep(pool, n, lines);
      if yes {
        routeClosures := routeClosures + [pool[n]];
      } else {
        closed := closed + [pool[n]];
      }
    }
    assert pool[..|pool|] == pool;
  }
}
