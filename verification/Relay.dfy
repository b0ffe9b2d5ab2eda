/** Broadcasts delivered over HTTP to one instance each and relayed once to all over pub/sub,
    any number of them in flight, their deliveries interleaved and repeated in any way. */
module Relay {
  import opened Dispatcher

  type Fleet = seq<State>

  /** A broadcast with session targets: its event id, the instance HTTP hands it to, its targets,
      and the relay's id and targets (the unmatched ones, in the order they were listed). */
  datatype Cast = Cast(id: string, home: nat, targets: seq<string>, relayId: string, rest: seq<string>)

  /** `Http(b)`: delivery of broadcast b to its home. `PubSub(b, i)`: delivery of its relay to i. */
  datatype Delivery = Http(b: nat) | PubSub(b: nat, i: nat)

  function Original(c: Cast): Event
  {
    Broadcast("", c.targets, [], false)
  }

  function Relayed(c: Cast): Event
  {
    Broadcast("", c.rest, [], true)
  }

  function Place(cs: seq<Cast>, d: Delivery): nat
    requires d.b < |cs|
  {
    if d.Http? then cs[d.b].home else d.i
  }

  function Delivered(cs: seq<Cast>, d: Delivery): Message
    requires d.b < |cs|
  {
    if d.Http? then Message(cs[d.b].id, Original(cs[d.b])) else Message(cs[d.b].relayId, Relayed(cs[d.b]))
  }

  predicate Addressed(f: Fleet, cs: seq<Cast>, ds: seq<Delivery>)
  {
    forall d :: d in ds ==> d.b < |cs| && Place(cs, d) < |f|
  }

  /** The fleet after the deliveries. */
  function After(f: Fleet, cs: seq<Cast>, ds: seq<Delivery>): (g: Fleet)
    requires Addressed(f, cs, ds)
    ensures |g| == |f|
  {
    if ds == [] then f
    else
      var d := ds[|ds| - 1];
      var g := After(f, cs, ds[..|ds| - 1]);
      g[Place(cs, d) := Process(g[Place(cs, d)], Delivered(cs, d), cs[d.b].relayId, "")]
  }

  /** How often the deliveries of broadcast b trigger session x. */
  function Triggers(f: Fleet, cs: seq<Cast>, ds: seq<Delivery>, b: nat, x: string): nat
    requires Addressed(f, cs, ds)
  {
    if ds == [] then 0
    else
      var before, d := ds[..|ds| - 1], ds[|ds| - 1];
      var s := After(f, cs, before)[Place(cs, d)];
      Triggers(f, cs, before, b, x) +
      if d.b != b || Duplicate(s, Delivered(cs, d)) then 0 else TriggerCount(s, Delivered(cs, d).event, x)
  }

  // ---------------------------------------------------------------------------
  // Assumptions
  // ---------------------------------------------------------------------------

  /** Each session lives on at most one instance, and every instance can publish. */
  ghost predicate Owned(f: Fleet)
  {
    && (forall i, j, x :: 0 <= i < j < |f| && x in f[i].active ==> x !in f[j].active)
    && (forall i :: 0 <= i < |f| ==> f[i].relays)
  }

  /** Targets are distinct session ids, and the relay lists those its home does not own. */
  ghost predicate Targeted(f: Fleet, c: Cast)
  {
    && c.home < |f| && c.targets != []
    && (forall x :: multiset(c.targets)[x] <= 1)
    && (forall i :: 0 <= i < |f| ==> f[i].agentType !in c.targets)
    && multiset(c.rest) == multiset(Unmatched(f[c.home], Original(c)))
  }

  /** Event and relay ids are new, and no two broadcasts share one where they could meet. */
  ghost predicate FreshIds(f: Fleet, cs: seq<Cast>)
  {
    && (forall b, i :: 0 <= b < |cs| && 0 <= i < |f| ==> cs[b].relayId != "" && cs[b].relayId !in f[i].seen)
    && (forall b, b' :: 0 <= b < |cs| && 0 <= b' < |cs| ==> cs[b].relayId != cs[b'].id)
    && (forall b, b' :: 0 <= b < |cs| && 0 <= b' < |cs| && b != b' ==>
          cs[b].relayId != cs[b'].relayId && (cs[b].id != "" && cs[b].home == cs[b'].home ==> cs[b].id != cs[b'].id))
    && (forall b :: 0 <= b < |cs| && cs[b].home < |f| && cs[b].id != "" ==> cs[b].id !in f[cs[b].home].seen)
  }

  ghost predicate Setting(f: Fleet, cs: seq<Cast>)
  {
    Owned(f) && FreshIds(f, cs) && forall b :: 0 <= b < |cs| ==> Targeted(f, cs[b])
  }

  /** HTTP hands over each broadcast at most once, a relay arrives only after it is published, and
      no instance evicts a seen id. */
  ghost predicate Causal(f: Fleet, cs: seq<Cast>, ds: seq<Delivery>)
    requires Addressed(f, cs, ds)
  {
    ds == [] ||
    var before, d := ds[..|ds| - 1], ds[|ds| - 1];
    && Causal(f, cs, before)
    && (if d.Http? then d !in before else Http(d.b) in before && cs[d.b].rest != [])
    && |After(f, cs, before)[Place(cs, d)].seen + {Delivered(cs, d).id}| <= SEEN_LIMIT
  }

  // ---------------------------------------------------------------------------
  // What the deliveries leave at each instance
  // ---------------------------------------------------------------------------

  /** Where broadcast b's relay id has been recorded. */
  ghost predicate Marked(cs: seq<Cast>, ds: seq<Delivery>, b: nat, i: nat)
    requires b < |cs|
  {
    PubSub(b, i) in ds || (Http(b) in ds && i == cs[b].home && cs[b].rest != [])
  }

  ghost predicate SameSessions(s: State, t: State)
  {
    s.active == t.active && s.agentType == t.agentType && s.relays == t.relays
  }

  lemma OneDelivery(s: State, m: Message, relayId: string)
    requires m.event.Broadcast? && |s.seen + {m.id}| <= SEEN_LIMIT
    ensures SameSessions(Process(s, m, relayId, ""), s)
    ensures Process(s, m, relayId, "").seen ==
            if Duplicate(s, m) then s.seen
            else s.seen + (if m.id != "" then {m.id} else {}) + (if Relays(s, m.event) then {relayId} else {})
  {
    if !Duplicate(s, m) {
      var s1 := s.(seen := Record(s.seen, m.id, ""));
      assert s1.seen == s.seen + if m.id != "" then {m.id} else {};
      assert Unmatched(s1, m.event) == Unmatched(s, m.event);
    }
  }

  lemma EmptyMultiset(xs: set<string>)
    ensures multiset(xs) == multiset{} <==> xs == {}
  {
    if x :| x in xs {
      assert multiset(xs)[x] == 1;
    }
  }

  /** The relay of a broadcast has targets exactly when its home publishes one. */
  lemma RestIffRelays(s: State, t: State, c: Cast)
    requires SameSessions(s, t) && t.relays
    requires multiset(c.rest) == multiset(Unmatched(t, Original(c)))
    ensures Relays(s, Original(c)) <==> c.rest != []
  {
    assert Unmatched(s, Original(c)) == Unmatched(t, Original(c));
    if c.rest != [] {
      assert c.rest[0] in multiset(c.rest);
    } else {
      EmptyMultiset(Unmatched(t, Original(c)));
    }
  }

  /** No delivery moves a session. */
  lemma {:induction false} SessionsStay(f: Fleet, cs: seq<Cast>, ds: seq<Delivery>, i: nat)
    requires Addressed(f, cs, ds) && Causal(f, cs, ds) && i < |f|
    ensures SameSessions(After(f, cs, ds)[i], f[i])
  {
    if ds != [] {
      var before, d := ds[..|ds| - 1], ds[|ds| - 1];
      SessionsStay(f, cs, before, i);
      OneDelivery(After(f, cs, before)[Place(cs, d)], Delivered(cs, d), cs[d.b].relayId);
    }
  }

  /** The ids one delivery adds at its place. */
  ghost function Added(cs: seq<Cast>, d: Delivery): set<string>
    requires d.b < |cs|
  {
    var c := cs[d.b];
    if d.PubSub? then {c.relayId}
    else (if c.id != "" then {c.id} else {}) + (if c.rest != [] then {c.relayId} else {})
  }

  lemma HomeRecords(s: State, t: State, cs: seq<Cast>, b: nat)
    requires b < |cs| && SameSessions(s, t) && t.relays
    requires multiset(cs[b].rest) == multiset(Unmatched(t, Original(cs[b])))
    requires |s.seen + {cs[b].id}| <= SEEN_LIMIT && !Duplicate(s, Delivered(cs, Http(b)))
    ensures Process(s, Delivered(cs, Http(b)), cs[b].relayId, "").seen == s.seen + Added(cs, Http(b))
  {
  }

  lemma RelayRecords(s: State, cs: seq<Cast>, b: nat, i: nat)
    requires b < |cs| && cs[b].relayId != ""
    requires |s.seen + {cs[b].relayId}| <= SEEN_LIMIT
    ensures Process(s, Delivered(cs, PubSub(b, i)), cs[b].relayId, "").seen == s.seen + Added(cs, PubSub(b, i))
  {
  }

  ghost predicate NewAt(f: Fleet, cs: seq<Cast>, before: seq<Delivery>, d: Delivery)
    requires Addressed(f, cs, before) && d.b < |cs| && Place(cs, d) < |f|
  {
    d.Http? ==> !Duplicate(After(f, cs, before)[Place(cs, d)], Delivered(cs, d))
  }

  /** The last of the deliveries records its ids where it is delivered, and nothing elsewhere. */
  lemma LastDelivery(f: Fleet, cs: seq<Cast>, before: seq<Delivery>, d: Delivery, i: nat)
    requires Setting(f, cs) && Addressed(f, cs, before + [d]) && Causal(f, cs, before + [d]) && i < |f|
    requires Addressed(f, cs, before) && d.b < |cs| && Place(cs, d) < |f| && NewAt(f, cs, before, d)
    ensures After(f, cs, before + [d])[i].seen ==
            After(f, cs, before)[i].seen + if i == Place(cs, d) then Added(cs, d) else {}
  {
    var ds := before + [d];
    assert ds[..|ds| - 1] == before && ds[|ds| - 1] == d;
    var s := After(f, cs, before)[Place(cs, d)];
    if d.Http? {
      SessionsStay(f, cs, before, cs[d.b].home);
      assert Targeted(f, cs[d.b]);
      HomeRecords(s, f[cs[d.b].home], cs, d.b);
    } else {
      RelayRecords(s, cs, d.b, d.i);
    }
  }

  /** A broadcast's event id is recorded at its home only by its own delivery, so no original is
      dropped as a duplicate. */
  ghost predicate Unheard(f: Fleet, cs: seq<Cast>, ds: seq<Delivery>, b: nat)
    requires Addressed(f, cs, ds) && b < |cs| && cs[b].home < |f|
  {
    cs[b].id == "" || cs[b].id !in After(f, cs, ds)[cs[b].home].seen
  }

  lemma UnheardStep(f: Fleet, cs: seq<Cast>, before: seq<Delivery>, d: Delivery, b: nat)
    requires Setting(f, cs) && Addressed(f, cs, before + [d]) && Causal(f, cs, before + [d])
    requires Addressed(f, cs, before) && d.b < |cs| && Place(cs, d) < |f| && NewAt(f, cs, before, d)
    requires b < |cs| && cs[b].home < |f| && d != Http(b) && Unheard(f, cs, before, b)
    ensures Unheard(f, cs, before + [d], b)
  {
    LastDelivery(f, cs, before, d, cs[b].home);
    assert d.Http? ==> d.b != b;
  }

  lemma {:induction false} UnheardBefore(f: Fleet, cs: seq<Cast>, ds: seq<Delivery>, b: nat)
    requires Setting(f, cs) && Addressed(f, cs, ds) && Causal(f, cs, ds) && b < |cs| && Http(b) !in ds
    ensures cs[b].home < |f| && Unheard(f, cs, ds, b)
    decreases |ds|, 1
  {
    assert Targeted(f, cs[b]);
    if ds != [] {
      var before, d := ds[..|ds| - 1], ds[|ds| - 1];
      UnheardBefore(f, cs, before, b);
      OriginalHeard(f, cs, ds);
      assert ds == before + [d];
      UnheardStep(f, cs, before, d, b);
    }
  }

  lemma {:induction false} OriginalHeard(f: Fleet, cs: seq<Cast>, ds: seq<Delivery>)
    requires Setting(f, cs) && Addressed(f, cs, ds) && Causal(f, cs, ds) && ds != []
    ensures NewAt(f, cs, ds[..|ds| - 1], ds[|ds| - 1])
    decreases |ds|, 0
  {
    var before, d := ds[..|ds| - 1], ds[|ds| - 1];
    if d.Http? {
      UnheardBefore(f, cs, before, d.b);
    }
  }

  lemma AddedRelayId(f: Fleet, cs: seq<Cast>, d: Delivery, b: nat)
    requires FreshIds(f, cs) && d.b < |cs| && b < |cs|
    ensures cs[b].relayId in Added(cs, d) <==> d.b == b && (d.Http? ==> cs[b].rest != [])
  {
  }

  lemma MarkedStep(cs: seq<Cast>, before: seq<Delivery>, d: Delivery, b: nat, i: nat)
    requires b < |cs| && d.b < |cs|
    ensures Marked(cs, before + [d], b, i) <==>
            Marked(cs, before, b, i) || (i == Place(cs, d) && d.b == b && (d.Http? ==> cs[b].rest != []))
  {
  }

  /** A relay id is recorded exactly where its broadcast has been. */
  lemma {:induction false} MarksExact(f: Fleet, cs: seq<Cast>, ds: seq<Delivery>, b: nat, i: nat)
    requires Setting(f, cs) && Addressed(f, cs, ds) && Causal(f, cs, ds) && b < |cs| && i < |f|
    ensures cs[b].relayId in After(f, cs, ds)[i].seen <==> Marked(cs, ds, b, i)
  {
    if ds != [] {
      var before, d := ds[..|ds| - 1], ds[|ds| - 1];
      assert ds == before + [d];
      MarksExact(f, cs, before, b, i);
      OriginalHeard(f, cs, ds);
      LastDelivery(f, cs, before, d, i);
      AddedRelayId(f, cs, d, b);
      MarkedStep(cs, before, d, b, i);
    } else {
      assert cs[b].relayId !in f[i].seen;
    }
  }

  // ---------------------------------------------------------------------------
  // Relays
  // ---------------------------------------------------------------------------

  /** How many relays the deliveries publish for broadcast b. */
  ghost function Published(f: Fleet, cs: seq<Cast>, ds: seq<Delivery>, b: nat): nat
    requires Addressed(f, cs, ds)
  {
    if ds == [] then 0
    else
      var before, d := ds[..|ds| - 1], ds[|ds| - 1];
      var s := After(f, cs, before)[Place(cs, d)];
      Published(f, cs, before, b) +
      if d.b == b && !Duplicate(s, Delivered(cs, d)) && Relays(s, Delivered(cs, d).event) then 1 else 0
  }

  lemma LastRelays(f: Fleet, cs: seq<Cast>, ds: seq<Delivery>)
    requires Setting(f, cs) && Addressed(f, cs, ds) && Causal(f, cs, ds) && ds != []
    ensures var before, d := ds[..|ds| - 1], ds[|ds| - 1];
            var s := After(f, cs, before)[Place(cs, d)];
            !Duplicate(s, Delivered(cs, d)) && Relays(s, Delivered(cs, d).event) <==> d.Http? && cs[d.b].rest != []
  {
    var before, d := ds[..|ds| - 1], ds[|ds| - 1];
    if d.Http? {
      OriginalHeard(f, cs, ds);
      SessionsStay(f, cs, before, cs[d.b].home);
      assert Targeted(f, cs[d.b]);
      RestIffRelays(After(f, cs, before)[cs[d.b].home], f[cs[d.b].home], cs[d.b]);
    }
  }

  /** At most one relay is ever published for a broadcast, by its HTTP delivery; a relayed message
      is never relayed again. */
  lemma {:induction false} OneRelayPerBroadcast(f: Fleet, cs: seq<Cast>, ds: seq<Delivery>, b: nat)
    requires Setting(f, cs) && Addressed(f, cs, ds) && Causal(f, cs, ds) && b < |cs|
    ensures Published(f, cs, ds, b) == if Http(b) in ds && cs[b].rest != [] then 1 else 0
  {
    if ds != [] {
      var before, d := ds[..|ds| - 1], ds[|ds| - 1];
      OneRelayPerBroadcast(f, cs, before, b);
      LastRelays(f, cs, ds);
      assert ds == before + [d];
    }
  }

  // ---------------------------------------------------------------------------
  // Triggers
  // ---------------------------------------------------------------------------

  /** A delivery that is not a duplicate triggers the targets its place owns, once each. */
  lemma OneDeliveryTriggers(s: State, t: State, e: Event, x: string)
    requires SameSessions(s, t) && e.Broadcast? && e.scope == "" && e.excluded == []
    requires e.targets != [] && t.agentType !in e.targets
    ensures TriggerCount(s, e, x) == if x in t.active then multiset(e.targets)[x] else 0
  {
  }

  lemma RestCount(f: Fleet, c: Cast, x: string)
    requires Targeted(f, c)
    ensures multiset(c.rest)[x] == if x in c.targets && x !in f[c.home].active then 1 else 0
    ensures x in c.rest ==> x in c.targets
    ensures multiset(c.targets)[x] == if x in c.targets then 1 else 0
  {
  }

  /** Whether the deliveries so far have brought broadcast b to instance o for its own sessions. */
  ghost predicate Reached(cs: seq<Cast>, ds: seq<Delivery>, b: nat, o: nat)
    requires b < |cs|
  {
    if o == cs[b].home then Http(b) in ds else PubSub(b, o) in ds
  }

  lemma LastTriggers(f: Fleet, cs: seq<Cast>, ds: seq<Delivery>, b: nat, x: string)
    requires Setting(f, cs) && Addressed(f, cs, ds) && Causal(f, cs, ds) && ds != [] && b == ds[|ds| - 1].b
    ensures var before, d := ds[..|ds| - 1], ds[|ds| - 1];
            Triggers(f, cs, ds, b, x) == Triggers(f, cs, before, b, x) +
              if d.PubSub? && Marked(cs, before, b, d.i) then 0
              else if x in f[Place(cs, d)].active then multiset(if d.Http? then cs[b].targets else cs[b].rest)[x]
              else 0
  {
    var before, d := ds[..|ds| - 1], ds[|ds| - 1];
    var p := Place(cs, d);
    SessionsStay(f, cs, before, p);
    assert Targeted(f, cs[b]);
    if d.Http? {
      OriginalHeard(f, cs, ds);
    } else {
      MarksExact(f, cs, before, b, p);
      forall y | y in cs[b].rest ensures y in cs[b].targets {
        RestCount(f, cs[b], y);
      }
    }
    OneDeliveryTriggers(After(f, cs, before)[p], f[p], Delivered(cs, d).event, x);
  }

  lemma ReachedStep(cs: seq<Cast>, before: seq<Delivery>, d: Delivery, b: nat, o: nat)
    requires b < |cs| && d.b < |cs|
    ensures Reached(cs, before + [d], b, o) <==>
            Reached(cs, before, b, o) || (d == if o == cs[b].home then Http(b) else PubSub(b, o))
  {
  }

  /** In every reachable state, whatever the order, a session is triggered by broadcast b once if it
      is a target and the broadcast has reached the instance that owns it, and not otherwise. */
  lemma {:induction false} TriggeredIffReached(f: Fleet, cs: seq<Cast>, ds: seq<Delivery>, b: nat, x: string, o: nat)
    requires Setting(f, cs) && Addressed(f, cs, ds) && Causal(f, cs, ds)
    requires b < |cs| && o < |f| && x in f[o].active
    ensures Triggers(f, cs, ds, b, x) == if x in cs[b].targets && Reached(cs, ds, b, o) then 1 else 0
  {
    if ds != [] {
      var before, d := ds[..|ds| - 1], ds[|ds| - 1];
      assert ds == before + [d];
      ReachedStep(cs, before, d, b, o);
      TriggeredIffReached(f, cs, before, b, x, o);
      if d.b == b {
        LastTriggers(f, cs, ds, b, x);
        RestCount(f, cs[b], x);
        assert forall i :: 0 <= i < |f| && x in f[i].active ==> i == o;
      }
    }
  }

  /** A target no instance owns is never triggered. */
  lemma {:induction false} UnownedNeverTriggered(f: Fleet, cs: seq<Cast>, ds: seq<Delivery>, b: nat, x: string)
    requires Setting(f, cs) && Addressed(f, cs, ds) && Causal(f, cs, ds) && b < |cs|
    requires forall i :: 0 <= i < |f| ==> x !in f[i].active
    ensures Triggers(f, cs, ds, b, x) == 0
  {
    if ds != [] {
      UnownedNeverTriggered(f, cs, ds[..|ds| - 1], b, x);
      if ds[|ds| - 1].b == b {
        LastTriggers(f, cs, ds, b, x);
      }
    }
  }

  /** Every broadcast has been handed over, and every relay has reached every instance. */
  ghost predicate Complete(f: Fleet, cs: seq<Cast>, ds: seq<Delivery>)
  {
    forall b :: 0 <= b < |cs| ==>
      Http(b) in ds && (cs[b].rest != [] ==> forall i :: 0 <= i < |f| ==> PubSub(b, i) in ds)
  }

  /** Once everything is delivered, in any order and with any repetition of relays, each broadcast
      has triggered each owned target exactly once and nothing else. */
  lemma ExactlyOncePerBroadcast(f: Fleet, cs: seq<Cast>, ds: seq<Delivery>, b: nat, x: string)
    requires Setting(f, cs) && Addressed(f, cs, ds) && Causal(f, cs, ds) && Complete(f, cs, ds) && b < |cs|
    ensures Triggers(f, cs, ds, b, x) ==
            if x in cs[b].targets && exists o :: 0 <= o < |f| && x in f[o].active then 1 else 0
  {
    if o :| 0 <= o < |f| && x in f[o].active {
      TriggeredIffReached(f, cs, ds, b, x, o);
      RestCount(f, cs[b], x);
      assert Http(b) in ds;
      if o != cs[b].home && x in cs[b].targets {
        assert x !in f[cs[b].home].active;
        assert x in multiset(cs[b].rest);
        assert PubSub(b, o) in ds;
      }
    } else {
      UnownedNeverTriggered(f, cs, ds, b, x);
    }
  }
}
