/** The gateway's targeted dispatch on top of the relay protocol: how often a broadcast triggers a
    session when its targets are of several agent types. */
module RelayDispatch {
  import opened Dispatcher
  import opened Relay
  import opened Sequences

  // ---------------------------------------------------------------------------
  // The gateway's dispatch loop: one delivery for each agent type of the targets
  // ---------------------------------------------------------------------------

  /** Each type of a known target once. */
  ghost predicate DispatchedTo(targets: seq<string>, registry: map<string, string>, types: seq<string>)
  {
    Distinct(types) && forall t :: t in types <==> exists x :: x in targets && x in registry && registry[x] == t
  }

  /** The agent types a targeted broadcast is dispatched to; with none found the gateway falls back
      to a broadcast to all. `registry` maps the sessions it knows to their types. */
  method DispatchTargets(targets: seq<string>, registry: map<string, string>)
    returns (types: seq<string>, fallback: bool)
    ensures DispatchedTo(targets, registry, types)
    ensures fallback <==> forall x :: x in targets ==> x !in registry
  {
    types := [];
    var dispatched: set<string> := {};
    for i := 0 to |targets|
      invariant Distinct(types)
      invariant forall t :: t in types <==> t in dispatched
      invariant forall t :: t in dispatched <==> exists x :: x in targets[..i] && x in registry && registry[x] == t
    {
      var x := targets[i];
      assert forall y :: y in targets[..i + 1] <==> y in targets[..i] || y == x;
      if x in registry && registry[x] !in dispatched {
        dispatched := dispatched + {registry[x]};
        types := types + [registry[x]];
      }
    }
    assert targets[..|targets|] == targets;
    fallback := dispatched == {};
    if fallback {
      assert forall x :: x in targets && x in registry ==> registry[x] in dispatched;
    } else {
      var t :| t in dispatched;
    }
  }

  function TotalTriggers(f: Fleet, cs: seq<Cast>, ds: seq<Delivery>, n: nat, x: string): nat
    requires Addressed(f, cs, ds) && n <= |cs|
  {
    if n == 0 then 0 else TotalTriggers(f, cs, ds, n - 1, x) + Triggers(f, cs, ds, n - 1, x)
  }

  /** When every delivery carries the whole target list, as the dispatch loop's do, an owned target
      is triggered once for each delivery: exactly once if and only if there is a single one. */
  lemma {:induction false} OncePerDelivery(f: Fleet, cs: seq<Cast>, ds: seq<Delivery>, n: nat, x: string, o: nat)
    requires Setting(f, cs) && Addressed(f, cs, ds) && Causal(f, cs, ds) && Complete(f, cs, ds) && n <= |cs|
    requires o < |f| && x in f[o].active
    requires forall b :: 0 <= b < n ==> x in cs[b].targets
    ensures TotalTriggers(f, cs, ds, n, x) == n
  {
    if n > 0 {
      OncePerDelivery(f, cs, ds, n - 1, x, o);
      ExactlyOncePerBroadcast(f, cs, ds, n - 1, x);
    }
  }

  /** Some target is known, and all known targets have one agent type. */
  ghost predicate OneType(targets: seq<string>, registry: map<string, string>)
  {
    exists x :: x in targets && x in registry &&
                forall y :: y in targets && y in registry ==> registry[y] == registry[x]
  }

  lemma NotAllEqual(xs: seq<string>, v: string)
    requires Distinct(xs) && |xs| >= 2
    ensures exists i :: 0 <= i < |xs| && xs[i] != v
  {
    assert xs[0] != xs[1];
  }

  lemma SingleIffOneType(targets: seq<string>, registry: map<string, string>, types: seq<string>)
    requires DispatchedTo(targets, registry, types)
    ensures |types| == 1 <==> OneType(targets, registry)
  {
    if |types| == 1 {
      assert types[0] in types;
      var x :| x in targets && x in registry && registry[x] == types[0];
      forall y | y in targets && y in registry ensures registry[y] == types[0] {
        assert registry[y] in types;
      }
    }
    if x :| x in targets && x in registry && forall y :: y in targets && y in registry ==> registry[y] == registry[x] {
      assert registry[x] in types;
      forall i | 0 <= i < |types| ensures types[i] == registry[x] {
        assert types[i] in types;
      }
      if |types| >= 2 {
        NotAllEqual(types, registry[x]);
      }
    }
  }

  /** One delivery of the broadcast for each type, to an instance of that type, with the event id and
      the targets of the broadcast. */
  ghost predicate Dispatched(f: Fleet, cs: seq<Cast>, id: string, targets: seq<string>, types: seq<string>)
  {
    |cs| == |types| &&
    forall b :: 0 <= b < |cs| ==>
      cs[b].home < |f| && f[cs[b].home].agentType == types[b] && cs[b].id == id && cs[b].targets == targets
  }

  /** A broadcast of the gateway triggers each owned target once for every agent type among its targets:
      exactly once if and only if its known targets are all of one type. */
  lemma OncePerType(f: Fleet, cs: seq<Cast>, ds: seq<Delivery>, id: string, targets: seq<string>,
                    registry: map<string, string>,
                    types: seq<string>, x: string, o: nat)
    requires Setting(f, cs) && Addressed(f, cs, ds) && Causal(f, cs, ds) && Complete(f, cs, ds)
    requires DispatchedTo(targets, registry, types) && Dispatched(f, cs, id, targets, types)
    requires o < |f| && x in f[o].active && x in targets
    ensures TotalTriggers(f, cs, ds, |cs|, x) == |types|
    ensures TotalTriggers(f, cs, ds, |cs|, x) == 1 <==> OneType(targets, registry)
  {
    OncePerDelivery(f, cs, ds, |cs|, x, o);
    SingleIffOneType(targets, registry, types);
  }

  // ---------------------------------------------------------------------------
  // Two types, one broadcast
  // ---------------------------------------------------------------------------

  /** The order Causal asks for, without the number of ids. */
  predicate Ordered(cs: seq<Cast>, ds: seq<Delivery>)
    requires forall d :: d in ds ==> d.b < |cs|
  {
    ds == [] ||
    var before, d := ds[..|ds| - 1], ds[|ds| - 1];
    && Ordered(cs, before)
    && (if d.Http? then d !in before else Http(d.b) in before && cs[d.b].rest != [])
  }

  lemma AddsTwo(s: State, m: Message, relayId: string)
    requires m.event.Broadcast? && |s.seen + {m.id}| <= SEEN_LIMIT
    ensures |Process(s, m, relayId, "").seen| <= |s.seen| + 2
  {
    OneDelivery(s, m, relayId);
  }

  lemma {:induction false} CausalIfShort(f: Fleet, cs: seq<Cast>, ds: seq<Delivery>)
    requires Addressed(f, cs, ds) && Ordered(cs, ds)
    requires forall i :: 0 <= i < |f| ==> |f[i].seen| + 2 * |ds| < SEEN_LIMIT
    ensures Causal(f, cs, ds)
    ensures forall i :: 0 <= i < |f| ==> |After(f, cs, ds)[i].seen| <= |f[i].seen| + 2 * |ds|
  {
    if ds != [] {
      var before, d := ds[..|ds| - 1], ds[|ds| - 1];
      CausalIfShort(f, cs, before);
      var s := After(f, cs, before)[Place(cs, d)];
      assert |s.seen + {Delivered(cs, d).id}| <= |s.seen| + 1;
      AddsTwo(s, Delivered(cs, d), cs[d.b].relayId);
    }
  }

  /** Two instances of different types, each owning one of two sessions, and a broadcast to both. */
  datatype Two = Two(s: State, t: State, x: string, y: string, id: string, relayX: string, relayY: string)
  {
    ghost predicate Valid()
    {
      && s.active == {x} && t.active == {y} && x != y && s.relays && t.relays
      && s.agentType !in {x, y} && t.agentType !in {x, y} && s.agentType != t.agentType
      && relayX != "" && relayY != "" && relayX != relayY && id !in {relayX, relayY}
      && {id, relayX, relayY} !! s.seen && {id, relayX, relayY} !! t.seen
      && |s.seen| + 12 < SEEN_LIMIT && |t.seen| + 12 < SEEN_LIMIT
    }

    function Instances(): Fleet
    {
      [s, t]
    }

    function Casts(): seq<Cast>
    {
      [Cast(id, 0, [x, y], relayX, [y]), Cast(id, 1, [x, y], relayY, [x])]
    }
  }

  const ALL_DELIVERED := [Http(0), Http(1), PubSub(0, 0), PubSub(0, 1), PubSub(1, 0), PubSub(1, 1)]

  lemma PairTargets(x: string, y: string, z: string)
    ensures multiset([x, y])[z] == (if z == x then 1 else 0) + (if z == y then 1 else 0)
  {
    assert [x, y] == [x] + [y];
  }

  lemma RestOf(s: State, x: string, y: string, c: Cast)
    requires s.active == {x} && x != y && (c.targets == [x, y] || c.targets == [y, x])
    requires s.agentType !in c.targets && c.rest == [y]
    ensures multiset(c.rest) == multiset(Unmatched(s, Original(c)))
  {
    assert Unmatched(s, Original(c)) == {y};
  }

  lemma TwoTargeted(two: Two, b: nat)
    requires two.Valid() && b < 2
    ensures Targeted(two.Instances(), two.Casts()[b])
  {
    forall z ensures multiset([two.x, two.y])[z] <= 1 {
      PairTargets(two.x, two.y, z);
    }
    if b == 0 {
      RestOf(two.s, two.x, two.y, two.Casts()[b]);
    } else {
      RestOf(two.t, two.y, two.x, two.Casts()[b]);
    }
  }

  lemma TwoSetting(two: Two)
    requires two.Valid()
    ensures Setting(two.Instances(), two.Casts())
  {
    TwoTargeted(two, 0);
    TwoTargeted(two, 1);
  }

  lemma {:induction false} OrderedMore(cs: seq<Cast>, before: seq<Delivery>, d: Delivery)
    requires (forall e :: e in before ==> e.b < |cs|) && d.b < |cs| && Ordered(cs, before)
    requires if d.Http? then d !in before else Http(d.b) in before && cs[d.b].rest != []
    ensures Ordered(cs, before + [d])
  {
    assert (before + [d])[..|before|] == before;
  }

  lemma {:induction false} TwoOrdered(cs: seq<Cast>)
    requires |cs| == 2 && cs[0].rest != [] && cs[1].rest != []
    ensures Ordered(cs, ALL_DELIVERED)
  {
    var d1 := [] + [Http(0)];
    var d2 := d1 + [Http(1)];
    var d3 := d2 + [PubSub(0, 0)];
    var d4 := d3 + [PubSub(0, 1)];
    var d5 := d4 + [PubSub(1, 0)];
    OrderedMore(cs, [], Http(0));
    OrderedMore(cs, d1, Http(1));
    OrderedMore(cs, d2, PubSub(0, 0));
    OrderedMore(cs, d3, PubSub(0, 1));
    OrderedMore(cs, d4, PubSub(1, 0));
    OrderedMore(cs, d5, PubSub(1, 1));
    assert d5 + [PubSub(1, 1)] == ALL_DELIVERED;
  }

  lemma {:induction false} TwoDelivered(two: Two)
    requires two.Valid()
    ensures Addressed(two.Instances(), two.Casts(), ALL_DELIVERED)
    ensures Causal(two.Instances(), two.Casts(), ALL_DELIVERED)
    ensures Complete(two.Instances(), two.Casts(), ALL_DELIVERED)
  {
    TwoOrdered(two.Casts());
    CausalIfShort(two.Instances(), two.Casts(), ALL_DELIVERED);
    var ds := ALL_DELIVERED;
    assert ds[0] in ds && ds[1] in ds && ds[2] in ds && ds[3] in ds && ds[4] in ds && ds[5] in ds;
  }

  /** The broadcast is dispatched to both types, and each session is triggered twice. */
  lemma TwoTypesTriggerTwice(two: Two)
    requires two.Valid()
    ensures Setting(two.Instances(), two.Casts()) && Addressed(two.Instances(), two.Casts(), ALL_DELIVERED)
    ensures Dispatched(two.Instances(), two.Casts(), two.id, [two.x, two.y], [two.s.agentType, two.t.agentType])
    ensures TotalTriggers(two.Instances(), two.Casts(), ALL_DELIVERED, 2, two.x) == 2
    ensures TotalTriggers(two.Instances(), two.Casts(), ALL_DELIVERED, 2, two.y) == 2
  {
    TwoSetting(two);
    TwoDelivered(two);
    OncePerDelivery(two.Instances(), two.Casts(), ALL_DELIVERED, 2, two.x, 0);
    OncePerDelivery(two.Instances(), two.Casts(), ALL_DELIVERED, 2, two.y, 1);
  }

  /** There are such instances. */
  lemma TwoTypesExist()
    ensures Two(State("A", true, {"a"}, map[], {}, {}), State("B", true, {"b"}, map[], {}, {}),
                "a", "b", "event", "relay a", "relay b").Valid()
  {
  }
}
