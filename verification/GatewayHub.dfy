/** The hub: five cross-linked maps stepped by the Run loop, and the worker that fans a remote
    message out over them. Every method is proved against the routing relation. */
module GatewayHub {
  import opened Multimaps
  import opened HubHistory
  import opened HubDelivery
  import opened Options

  /** For one message: the copies handed to send channels so far, how often each channel was tried, and
      the tries in order. A try on a closed channel panics whether or not the buffer has room. */
  datatype Tally = Tally(sends: multiset<Client>, tries: multiset<Client>, log: seq<Client>)

  const NOTHING_SENT := Tally(multiset{}, multiset{}, [])

  /** The tries of c that found room, the k-th try of all doing so when room(k). */
  function Through(log: seq<Client>, room: nat -> bool, c: Client): nat
  {
    if log == [] then 0
    else
      var k := |log| - 1;
      Through(log[..k], room, c) + if log[k] == c && room(k) then 1 else 0
  }

  /** A client has as many copies as its tries found room. */
  ghost predicate Honest(t: Tally, room: nat -> bool)
  {
    t.tries == multiset(t.log) && forall c :: t.sends[c] == Through(t.log, room, c)
  }

  /** From `before` to `after` the channel of c is tried n times: it gets at most n copies, and exactly n
      when every buffer has room. */
  ghost predicate SentTo(before: Tally, after: Tally, c: Client, n: nat, roomy: bool)
  {
    && after.tries[c] == before.tries[c] + n
    && before.sends[c] <= after.sends[c] <= before.sends[c] + n
    && (roomy ==> after.sends[c] == before.sends[c] + n)
  }

  ghost function One(c: Client, who: iset<Client>): nat
  {
    if c in who then 1 else 0
  }

  /** One try for each of `who`, none for others. */
  ghost predicate Sent(before: Tally, after: Tally, who: iset<Client>, roomy: bool)
  {
    forall c: Client {:trigger One(c, who)} {:trigger after.sends[c]} {:trigger after.tries[c]} ::
      SentTo(before, after, c, One(c, who), roomy)
  }

  lemma SentOn(before: Tally, mid: Tally, after: Tally, first: iset<Client>, second: iset<Client>, roomy: bool)
    requires Sent(before, mid, first, roomy) && Sent(mid, after, second, roomy)
    requires first !! second
    ensures Sent(before, after, first + second, roomy)
  {
  }

  ghost predicate Roomy(room: nat -> bool)
  {
    forall k :: room(k)
  }

  lemma HonestOn(t: Tally, room: nat -> bool, c: Client)
    requires Honest(t, room)
    ensures Honest(Tally(if room(|t.log|) then t.sends + multiset{c} else t.sends, t.tries + multiset{c}, t.log + [c]),
                   room)
  {
    assert (t.log + [c])[..|t.log|] == t.log;
  }

  /** A non-blocking send. */
  method TrySend(c: Client, room: nat -> bool, before: Tally) returns (after: Tally)
    requires Honest(before, room)
    ensures Honest(after, room) && Sent(before, after, iset{c}, Roomy(room))
  {
    HonestOn(before, room, c);
    after := before.(tries := before.tries + multiset{c}, log := before.log + [c]);
    if room(|before.log|) {
      after := after.(sends := after.sends + multiset{c});
    }
  }

  /** One delivery loop: a non-blocking send to every wanted client, in any order. */
  method SendEach(conns: set<Client>, wanted: Client -> bool, room: nat -> bool, before: Tally) returns (after: Tally)
    requires Honest(before, room)
    ensures Honest(after, room) && Sent(before, after, (iset c: Client | c in conns && wanted(c)), Roomy(room))
  {
    after := before;
    var done: set<Client> := {};
    while conns - done != {}
      invariant done <= conns && Honest(after, room)
      invariant Sent(before, after, (iset c: Client | c in done && wanted(c)), Roomy(room))
    {
      var c :| c in conns - done;
      if wanted(c) {
        var mid := after;
        after := TrySend(c, room, mid);
        SentOn(before, mid, after, (iset d: Client | d in done && wanted(d)), iset{c}, Roomy(room));
        assert (iset d: Client | d in done + {c} && wanted(d)) == (iset d: Client | d in done && wanted(d)) + iset{c};
      } else {
        assert (iset d: Client | d in done + {c} && wanted(d)) == (iset d: Client | d in done && wanted(d));
      }
      done := done + {c};
    }
    assert (iset c: Client | c in conns && wanted(c)) == (iset c: Client | c in done && wanted(c)) by {
      forall c | c in conns ensures c in done {
        assert c !in conns - done;
      }
    }
  }

  /** The reverse-index cleanup of an unregistration. */
  method DropFromIndex(index: map<string, set<Client>>, sims: set<string>, c: Client,
                       ghost pairs: set<(Client, string)>)
    returns (r: map<string, set<Client>>)
    requires Inverse(index, pairs)
    requires forall s :: s in sims <==> (c, s) in pairs
    ensures Inverse(r, Without(pairs, c))
  {
    r := index;
    ghost var left := pairs;
    var todo := sims;
    while todo != {}
      invariant Inverse(r, left)
      invariant forall d, s :: (d, s) in left <==> (d, s) in pairs && (d == c ==> s in todo)
    {
      var s :| s in todo;
      InverseSteps(r, left, c, s);
      r := Remove(r, s, c);
      left := left - {(c, s)};
      todo := todo - {s};
    }
    assert forall d, s :: (d, s) in left <==> (d, s) in Without(pairs, c);
  }

  /** The session index holds exactly the registered clients, each under its session. */
  ghost predicate Indexed(clients: map<string, set<Client>>, registered: set<Client>)
  {
    Pruned(clients) && forall sid, c :: Has(clients, sid, c) <==> sid == c.session && c in registered
  }

  lemma IndexedSteps(clients: map<string, set<Client>>, registered: set<Client>, c: Client)
    requires Indexed(clients, registered)
    ensures Indexed(Add(clients, c.session, c), registered + {c})
    ensures Indexed(Remove(clients, c.session, c), registered - {c})
  {
  }

  /** The maps hold exactly the relation; `index` is the subscriptions the other way round. */
  ghost predicate Holds(clients: map<string, set<Client>>, subs: map<Client, set<string>>,
                        index: map<string, set<Client>>, blocked: map<Client, set<string>>, v: Routing)
  {
    && Indexed(clients, v.registered)
    && Exact(subs, v.subs)
    && Inverse(index, v.subs)
    && Exact(blocked, v.blocked)
    && Sound(v)
  }

  lemma HoldsAfterJoin(clients: map<string, set<Client>>, subs: map<Client, set<string>>,
                       index: map<string, set<Client>>, blocked: map<Client, set<string>>, v: Routing, c: Client)
    requires Holds(clients, subs, index, blocked, v) && Admissible(v, Joined(c))
    ensures Holds(Add(clients, c.session, c), if c.autoSim == "" then subs else Add(subs, c, c.autoSim),
                  if c.autoSim == "" then index else Add(index, c.autoSim, c), blocked, After(v, Joined(c)))
  {
    SoundStep(v, Joined(c));
    IndexedSteps(clients, v.registered, c);
    ExactSteps(subs, v.subs, c, c.autoSim);
    InverseSteps(index, v.subs, c, c.autoSim);
  }

  lemma HoldsAfterLeave(clients: map<string, set<Client>>, subs: map<Client, set<string>>,
                        index: map<string, set<Client>>,
                        rest: map<string, set<Client>>, blocked: map<Client, set<string>>, v: Routing, c: Client)
    requires Holds(clients, subs, index, blocked, v) && Admissible(v, Left(c)) && Inverse(rest, Without(v.subs, c))
    ensures Holds(Remove(clients, c.session, c), Forget(subs, c), rest, Forget(blocked, c), After(v, Left(c)))
    ensures Has(clients, c.session, c) <==> c in v.registered
    ensures !Has(clients, c.session, c) ==> Remove(clients, c.session, c) == clients
  {
    SoundStep(v, Left(c));
    IndexedSteps(clients, v.registered, c);
    ExactSteps(subs, v.subs, c, "");
    ExactSteps(blocked, v.blocked, c, "");
    if !Has(clients, c.session, c) {
      PairsDetermine(Remove(clients, c.session, c), clients);
    }
  }

  /** How often the targets list the session of c, a registered client that is no observer. */
  ghost function Listings(targets: seq<string>, v: Routing, c: Client): nat
  {
    if c.session != "" && c in v.registered then multiset(targets)[c.session] else 0
  }

  /** Each client as many copies as its session is listed. */
  ghost predicate SentToListed(before: Tally, after: Tally, targets: seq<string>, v: Routing, roomy: bool)
  {
    forall c: Client {:trigger Listings(targets, v, c)} {:trigger after.sends[c]} {:trigger after.tries[c]} ::
      SentTo(before, after, c, Listings(targets, v, c), roomy)
  }

  lemma ListedOn(before: Tally, mid: Tally, after: Tally, targets: seq<string>, i: nat, v: Routing, roomy: bool)
    requires i < |targets| && SentToListed(before, mid, targets[..i], v, roomy)
    requires Sent(mid, after,
                  (iset c: Client | targets[i] != "" && c.session == targets[i] && c in v.registered), roomy)
    ensures SentToListed(before, after, targets[..i + 1], v, roomy)
  {
    assert targets[..i + 1] == targets[..i] + [targets[i]];
  }

  /** How often phase 3b comes by c: a client without a copy, registered and subscribed now, for each
      listing of its session. */
  ghost function CrossListings(before: Tally, v: Routing, sim: string, sessions: seq<string>, c: Client): nat
  {
    if c !in before.sends && c in v.registered && (c, sim) in v.subs then multiset(sessions)[c.session] else 0
  }

  /** From `before` to `after` the channel of c is tried until a try finds room, n times at most. */
  ghost predicate TriedUntil(before: Tally, after: Tally, c: Client, n: nat, roomy: bool)
  {
    && before.tries[c] <= after.tries[c] <= before.tries[c] + n
    && before.sends[c] <= after.sends[c] <= before.sends[c] + 1
    && (n == 0 ==> after.sends[c] == before.sends[c])
    && (n > 0 ==> after.tries[c] > before.tries[c])
    && (after.sends[c] == before.sends[c] ==> after.tries[c] == before.tries[c] + n)
    && (n > 0 && roomy ==> after.sends[c] == before.sends[c] + 1 && after.tries[c] == before.tries[c] + 1)
  }

  ghost predicate SentAcross(before: Tally, after: Tally, v: Routing, sim: string, sessions: seq<string>, roomy: bool)
  {
    forall c: Client {:trigger CrossListings(before, v, sim, sessions, c)} {:trigger after.sends[c]}
      {:trigger after.tries[c]} ::
      TriedUntil(before, after, c, CrossListings(before, v, sim, sessions, c), roomy)
  }

  lemma CrossOn(before: Tally, mid: Tally, after: Tally, sessions: seq<string>, i: nat, v: Routing, sim: string,
                roomy: bool)
    requires i < |sessions| && SentAcross(before, mid, v, sim, sessions[..i], roomy)
    requires Sent(mid, after, (iset c: Client | c.session == sessions[i] && c in v.registered &&
                                  c !in mid.sends && (c, sim) in v.subs), roomy)
    ensures SentAcross(before, after, v, sim, sessions[..i + 1], roomy)
  {
    assert sessions[..i + 1] == sessions[..i] + [sessions[i]];
    var turn := iset c: Client | c.session == sessions[i] && c in v.registered && c !in mid.sends && (c, sim) in v.subs;
    forall c: Client {:trigger CrossListings(before, v, sim, sessions[..i + 1], c)}
      ensures TriedUntil(before, after, c, CrossListings(before, v, sim, sessions[..i + 1], c), roomy)
    {
      assert TriedUntil(before, mid, c, CrossListings(before, v, sim, sessions[..i], c), roomy);
      assert SentTo(mid, after, c, One(c, turn), roomy);
      assert c in mid.sends <==> mid.sends[c] > 0;
      assert c in before.sends <==> before.sends[c] > 0;
    }
  }

  /** What the store listed; nothing when it could not be asked. */
  function Answer(lookup: Option<seq<string>>): seq<string>
  {
    if lookup.Some? then lookup.value else []
  }

  /** Subscribers of the simulation that phases 1 and 2 left without a copy. */
  ghost function LocalTargets(direct: Tally, v: Routing, sim: string): iset<Client>
  {
    iset c: Client | sim != "" && (c, sim) in v.subs && c !in direct.sends
  }

  // ---------------------------------------------------------------------------
  // What processing one remote message means
  // ---------------------------------------------------------------------------

  /** The phases over the relation before the gap, v, and after it, v'. */
  ghost predicate Processed(v: Routing, v': Routing, w: Wrapper, sessions: seq<string>, roomy: bool,
                            direct: Tally, first: Tally, total: Tally)
  {
    && (forall c: Client :: SentTo(NOTHING_SENT, direct, c, Direct(v, w, c), roomy))
    && Sent(direct, first, LocalTargets(direct, v, w.simulationId), roomy)
    && (if w.simulationId == "" then total == first
        else SentAcross(first, total, v', w.simulationId, sessions, roomy))
  }

  /** No client gets more copies before the gap than it is entitled to; with distinct targets none gets
      two in all. */
  ghost predicate NeverTwice(v: Routing, w: Wrapper, first: Tally, total: Tally)
  {
    && (forall c: Client :: first.sends[c] <= Entitled(v, w, c))
    && (forall c: Client :: first.sends[c] <= total.sends[c] <= first.sends[c] + 1)
    && (TargetsDistinct(v, w) ==> forall c: Client :: total.sends[c] <= 1)
  }

  /** With room in every buffer each client gets the copies it is entitled to before the gap; after it one
      copy goes to each client that is registered, listed, without a copy, and subscribed in the gap. */
  ghost predicate AllServed(v: Routing, v': Routing, w: Wrapper, gap: seq<Event>, sessions: seq<string>,
                            first: Tally, total: Tally)
  {
    && (forall c: Client :: first.sends[c] == Entitled(v, w, c))
    && (forall c: Client :: total.sends[c] > first.sends[c] <==>
          w.simulationId != "" && c in v'.registered && c.session in sessions && Entitled(v, w, c) == 0 &&
          SubscribedDuring(gap, c, w.simulationId))
  }

  /** No closed channel is tried: before the gap if nothing leaks, after it in any case. */
  ghost predicate NoClosedTried(v: Routing, v': Routing, w: Wrapper, first: Tally, total: Tally)
  {
    && (NoLeak(v) ==> forall c: Client :: first.tries[c] > 0 ==> c !in v.closings)
    && (forall c: Client :: total.tries[c] > first.tries[c] ==>
          first.sends[c] == 0 && c in v'.registered && (c, w.simulationId) in v'.subs && c !in v'.closings)
  }

  /** With room in every buffer, phase 3b serves a client if and only if it is registered after the gap,
      its session is listed, phases 1 to 3 owe it nothing, and its latest event of that simulation in
      the gap is a subscription. */
  lemma ServedAcrossIff(v: Routing, gap: seq<Event>, w: Wrapper, first: Tally, sessions: seq<string>, c: Client)
    requires w.simulationId != "" && first.sends[c] == Entitled(v, w, c)
    ensures CrossListings(first, Run(v, gap), w.simulationId, sessions, c) > 0 <==>
            c in Run(v, gap).registered && c.session in sessions && Entitled(v, w, c) == 0 &&
            SubscribedDuring(gap, c, w.simulationId)
  {
    assert c in first.sends <==> first.sends[c] > 0;
    if Entitled(v, w, c) == 0 {
      SubscribedInGapIff(v, gap, c, w.simulationId);
    }
  }

  lemma ServedAcross(v: Routing, gap: seq<Event>, w: Wrapper, first: Tally, total: Tally, sessions: seq<string>)
    requires w.simulationId != "" && forall c: Client :: first.sends[c] == Entitled(v, w, c)
    requires SentAcross(first, total, Run(v, gap), w.simulationId, sessions, true)
    ensures forall c: Client :: total.sends[c] > first.sends[c] <==>
              c in Run(v, gap).registered && c.session in sessions && Entitled(v, w, c) == 0 &&
              SubscribedDuring(gap, c, w.simulationId)
  {
    forall c: Client
      ensures total.sends[c] > first.sends[c] <==>
              c in Run(v, gap).registered && c.session in sessions && Entitled(v, w, c) == 0 &&
              SubscribedDuring(gap, c, w.simulationId)
    {
      ServedAcrossIff(v, gap, w, first, sessions, c);
      assert TriedUntil(first, total, c, CrossListings(first, Run(v, gap), w.simulationId, sessions, c), true);
    }
  }

  lemma FirstEntitled(v: Routing, v': Routing, w: Wrapper, sessions: seq<string>, roomy: bool,
                      direct: Tally, first: Tally, total: Tally)
    requires Processed(v, v', w, sessions, roomy, direct, first, total)
    ensures forall c: Client :: first.sends[c] <= Entitled(v, w, c)
    ensures forall c: Client :: first.tries[c] > 0 ==> Entitled(v, w, c) > 0
    ensures roomy ==> forall c: Client :: first.sends[c] == Entitled(v, w, c)
  {
    forall c: Client
      ensures first.sends[c] <= Entitled(v, w, c) && (first.tries[c] > 0 ==> Entitled(v, w, c) > 0)
      ensures roomy ==> first.sends[c] == Entitled(v, w, c)
    {
      assert SentTo(NOTHING_SENT, direct, c, Direct(v, w, c), roomy);
      assert SentTo(direct, first, c, One(c, LocalTargets(direct, v, w.simulationId)), roomy);
      assert c in direct.sends <==> direct.sends[c] > 0;
    }
  }

  lemma ProcessedNeverTwice(v: Routing, v': Routing, w: Wrapper, sessions: seq<string>, roomy: bool,
                            direct: Tally, first: Tally, total: Tally)
    requires Processed(v, v', w, sessions, roomy, direct, first, total)
    ensures NeverTwice(v, w, first, total)
  {
    FirstEntitled(v, v', w, sessions, roomy, direct, first, total);
    OneCopyIffTargetsDistinct(v, w);
    forall c: Client
      ensures first.sends[c] <= total.sends[c] <= first.sends[c] + 1
      ensures TargetsDistinct(v, w) ==> total.sends[c] <= 1
    {
      if w.simulationId != "" {
        assert TriedUntil(first, total, c, CrossListings(first, v', w.simulationId, sessions, c), roomy);
        assert c in first.sends <==> first.sends[c] > 0;
      }
    }
  }

  lemma ProcessedAllServed(v: Routing, gap: seq<Event>, w: Wrapper, sessions: seq<string>,
                           direct: Tally, first: Tally, total: Tally)
    requires Processed(v, Run(v, gap), w, sessions, true, direct, first, total)
    ensures AllServed(v, Run(v, gap), w, gap, sessions, first, total)
  {
    FirstEntitled(v, Run(v, gap), w, sessions, true, direct, first, total);
    if w.simulationId != "" {
      ServedAcross(v, gap, w, first, total, sessions);
    }
  }

  lemma ProcessedNoClosedTried(v: Routing, v': Routing, w: Wrapper, sessions: seq<string>, roomy: bool,
                               direct: Tally, first: Tally, total: Tally)
    requires Processed(v, v', w, sessions, roomy, direct, first, total) && Sound(v) && Sound(v')
    ensures NoClosedTried(v, v', w, first, total)
  {
    FirstEntitled(v, v', w, sessions, roomy, direct, first, total);
    forall c: Client | NoLeak(v) && first.tries[c] > 0 ensures c !in v.closings {
      EntitledIsOpen(v, w, c);
    }
    forall c: Client | total.tries[c] > first.tries[c]
      ensures first.sends[c] == 0 && c in v'.registered && (c, w.simulationId) in v'.subs && c !in v'.closings
    {
      assert TriedUntil(first, total, c, CrossListings(first, v', w.simulationId, sessions, c), roomy);
      assert c in first.sends <==> first.sends[c] > 0;
    }
  }

  class Hub {
    var clients: map<string, set<Client>>
    var simSubscriptions: map<Client, set<string>>
    var simToClients: map<string, set<Client>>
    var simBlocked: map<Client, set<string>>
    var connToClient: map<nat, Client>
    var closings: multiset<Client>
    ghost var view: Routing

    ghost predicate Valid()
      reads this
    {
      && Holds(clients, simSubscriptions, simToClients, simBlocked, view)
      && connToClient == view.owner
      && closings == view.closings
    }

    constructor ()
      ensures Valid() && view == NOBODY
    {
      clients, simSubscriptions, simToClients, simBlocked := map[], map[], map[], map[];
      connToClient, closings, view := map[], multiset{}, NOBODY;
    }

    /** case c := <-h.register */
    method Register(c: Client)
      requires Valid() && Admissible(view, Joined(c))
      modifies this
      ensures Valid() && view == After(old(view), Joined(c))
    {
      HoldsAfterJoin(clients, simSubscriptions, simToClients, simBlocked, view, c);
      AddClient(c);
      AutoSubscribe(c);
      view := After(view, Joined(c));
    }

    method AddClient(c: Client)
      modifies `clients, `connToClient
      ensures clients == Add(old(clients), c.session, c) && connToClient == old(connToClient)[c.conn := c]
    {
      clients, connToClient := Add(clients, c.session, c), connToClient[c.conn := c];
    }

    method AutoSubscribe(c: Client)
      modifies `simSubscriptions, `simToClients
      ensures simSubscriptions ==
              if c.autoSim == "" then old(simSubscriptions) else Add(old(simSubscriptions), c, c.autoSim)
      ensures simToClients == if c.autoSim == "" then old(simToClients) else Add(old(simToClients), c.autoSim, c)
    {
      if c.autoSim != "" {
        simSubscriptions := Add(simSubscriptions, c, c.autoSim);
        simToClients := Add(simToClients, c.autoSim, c);
      }
    }

    /** case c := <-h.unregister, which may be handled more than once for a client */
    method Unregister(c: Client)
      requires Valid() && Admissible(view, Left(c))
      modifies this
      ensures Valid() && view == After(old(view), Left(c))
    {
      var index := DropFromIndex(simToClients, Get(simSubscriptions, c), c, view.subs);
      HoldsAfterLeave(clients, simSubscriptions, simToClients, index, simBlocked, view, c);
      view := After(view, Left(c));
      if Has(clients, c.session, c) {
        clients := Remove(clients, c.session, c);
        closings := closings + multiset{c};
      }
      simToClients := index;
      simSubscriptions := Forget(simSubscriptions, c);
      simBlocked := Forget(simBlocked, c);
      connToClient := connToClient - {c.conn};
      assert Holds(clients, simSubscriptions, simToClients, simBlocked, view);
    }

    /** case sub := <-h.simSubscribe */
    method SimSubscribe(c: Client, s: string)
      requires Valid() && Admissible(view, Subscribed(c, s))
      modifies this
      ensures Valid() && view == After(old(view), Subscribed(c, s))
    {
      SoundStep(view, Subscribed(c, s));
      ExactSteps(simSubscriptions, view.subs, c, s);
      InverseSteps(simToClients, view.subs, c, s);
      ExactSteps(simBlocked, view.blocked, c, s);
      simSubscriptions := Add(simSubscriptions, c, s);
      simToClients := Add(simToClients, s, c);
      simBlocked := Forget(simBlocked, c);
      view := After(view, Subscribed(c, s));
    }

    /** case unsub := <-h.simUnsubscribe */
    method SimUnsubscribe(c: Client, s: string)
      requires Valid() && Admissible(view, Unsubscribed(c, s))
      modifies this
      ensures Valid() && view == After(old(view), Unsubscribed(c, s))
    {
      SoundStep(view, Unsubscribed(c, s));
      ExactSteps(simSubscriptions, view.subs, c, s);
      InverseSteps(simToClients, view.subs, c, s);
      ExactSteps(simBlocked, view.blocked, c, s);
      simSubscriptions := Remove(simSubscriptions, c, s);
      simToClients := Remove(simToClients, s, c);
      simBlocked := Add(simBlocked, c, s);
      view := After(view, Unsubscribed(c, s));
    }

    /** One iteration of the select loop on a state-changing case. */
    method Handle(e: Event)
      requires Valid() && Admissible(view, e)
      modifies this
      ensures Valid() && view == After(old(view), e)
    {
      match e
      case Joined(c) => Register(c);
      case Left(c) => Unregister(c);
      case Subscribed(c, s) => SimSubscribe(c, s);
      case Unsubscribed(c, s) => SimUnsubscribe(c, s);
    }

    /** Any number of iterations of the select loop. */
    method HandleAll(gap: seq<Event>)
      requires Valid() && WellFormed(view, gap)
      modifies this
      ensures Valid() && view == Run(old(view), gap)
    {
      ghost var v0 := view;
      for i := 0 to |gap|
        invariant Valid() && view == Run(v0, gap[..i])
      {
        WellFormedPrefix(v0, gap, i);
        Handle(gap[i]);
        assert gap[..i + 1][..i] == gap[..i];
      }
      assert gap[..|gap|] == gap;
    }

    /** HandleTextMessage: the request a text frame enqueues, if any. */
    method HandleTextMessage(conn: nat, kind: string, sim: string) returns (e: Option<Event>)
      requires Valid()
      ensures e.Some? <==> conn in view.owner && sim != "" && kind in {"subscribe_simulation", "unsubscribe_simulation"}
      ensures e.Some? ==> e.value.client == view.owner[conn] && Admissible(view, e.value)
      ensures e.Some? ==> e.value == if kind == "subscribe_simulation" then Subscribed(e.value.client, sim)
                                     else Unsubscribed(e.value.client, sim)
    {
      if conn !in connToClient {
        return None;
      }
      var c := connToClient[conn];
      if kind == "subscribe_simulation" {
        return if sim != "" then Some(Subscribed(c, sim)) else None;
      } else if kind == "unsubscribe_simulation" {
        return if sim != "" then Some(Unsubscribed(c, sim)) else None;
      } else {
        return None;
      }
    }

    /** Unregister(sessionID, conn): the client whose departure is enqueued, if any. */
    method UnregisterRequest(session: string, conn: nat) returns (e: Option<Event>)
      requires Valid()
      ensures e.Some? <==> exists c :: c in view.registered && c.session == session && c.conn == conn
      ensures e.Some? ==> e.value == Left(e.value.client) && e.value.client.conn == conn &&
                          e.value.client.session == session && e.value.client in view.registered
    {
      var todo := Get(clients, session);
      while todo != {}
        invariant forall c: Client :: c in todo ==> Has(clients, session, c)
        invariant forall c: Client :: Has(clients, session, c) && c !in todo ==> c.conn != conn
      {
        var c :| c in todo;
        if c.conn == conn {
          assert Has(clients, session, c);
          return Some(Left(c));
        }
        todo := todo - {c};
      }
      e := None;
      assert forall c: Client :: c in view.registered && c.session == session ==> Has(clients, session, c);
    }

    /** Phase 1: global observers, filtered by their simulation subscriptions. */
    method SendToObservers(sim: string, room: nat -> bool, before: Tally) returns (after: Tally)
      requires Valid() && Honest(before, room)
      ensures Honest(after, room)
      ensures Sent(before, after,
                   (iset c: Client | c.session == "" && c in view.registered && Admits(view, c, sim)), Roomy(room))
    {
      var subs, blocked := simSubscriptions, simBlocked;
      var admits := (c: Client) =>
        sim == "" ||
        (if c in subs && subs[c] != {} then sim in subs[c] else !(c in blocked && sim in blocked[c]));
      forall c
        ensures admits(c) <==> Admits(view, c, sim)
      {
        assert Has(subs, c, sim) <==> (c, sim) in view.subs;
        assert Has(blocked, c, sim) <==> (c, sim) in view.blocked;
        if c in subs {
          var t :| t in subs[c];
          assert Has(subs, c, t);
          assert (c, t) in view.subs;
        } else {
          assert forall t :: !Has(subs, c, t);
        }
      }
      after := SendEach(Get(clients, ""), admits, room, before);
    }

    /** The delivery loop over one session's connections. */
    method SendToSession(sid: string, wanted: Client -> bool, room: nat -> bool, before: Tally) returns (after: Tally)
      requires Valid() && Honest(before, room)
      ensures Honest(after, room)
      ensures Sent(before, after, (iset c: Client | c.session == sid && c in view.registered && wanted(c)), Roomy(room))
    {
      after := SendEach(Get(clients, sid), wanted, room, before);
      assert forall c: Client :: c in Get(clients, sid) <==> c.session == sid && c in view.registered;
      assert (iset c: Client | c in Get(clients, sid) && wanted(c)) ==
             (iset c: Client | c.session == sid && c in view.registered && wanted(c));
    }

    /** Phase 2 with no target: every session but the observers'. */
    method SendToAllSessions(room: nat -> bool, before: Tally) returns (after: Tally)
      requires Valid() && Honest(before, room)
      ensures Honest(after, room)
      ensures Sent(before, after, (iset c: Client | c.session != "" && c in view.registered), Roomy(room))
    {
      after := before;
      var done: set<string> := {""};
      ghost var reached := iset{};
      while clients.Keys - done != {}
        invariant Honest(after, room) && Sent(before, after, reached, Roomy(room)) && "" in done
        invariant forall c: Client :: c in reached <==> c.session != "" && c.session in done && c in view.registered
        decreases clients.Keys - done
      {
        var sid :| sid in clients.Keys - done;
        var mid := after;
        after := SendToSession(sid, _ => true, room, mid);
        ghost var more := iset c: Client | c.session == sid && c in view.registered;
        assert (iset c: Client | c.session == sid && c in view.registered && (_ => true)(c)) == more;
        SentOn(before, mid, after, reached, more, Roomy(room));
        done, reached := done + {sid}, reached + more;
      }
      forall c: Client | c in view.registered ensures c.session in done {
        assert Has(clients, c.session, c) && c.session !in clients.Keys - done;
      }
      assert reached == (iset c: Client | c.session != "" && c in view.registered);
    }

    method SendToTarget(sid: string, room: nat -> bool, before: Tally) returns (after: Tally)
      requires Valid() && Honest(before, room)
      ensures Honest(after, room)
      ensures Sent(before, after, (iset c: Client | sid != "" && c.session == sid && c in view.registered), Roomy(room))
    {
      after := before;
      if sid != "" {
        after := SendToSession(sid, _ => true, room, before);
      }
    }

    /** Phase 2 with targets: the clients of each listed session, once for each listing. */
    method SendToTargets(targets: seq<string>, room: nat -> bool, before: Tally) returns (after: Tally)
      requires Valid() && Honest(before, room)
      ensures Honest(after, room)
      ensures SentToListed(before, after, targets, view, Roomy(room))
    {
      after := before;
      for i := 0 to |targets|
        invariant Honest(after, room) && SentToListed(before, after, targets[..i], view, Roomy(room))
      {
        var mid := after;
        after := SendToTarget(targets[i], room, mid);
        ListedOn(before, mid, after, targets, i, view, Roomy(room));
      }
      assert targets[..|targets|] == targets;
    }

    /** Phases 1 and 2. */
    method SendDirect(w: Wrapper, room: nat -> bool) returns (tally: Tally)
      requires Valid()
      ensures Honest(tally, room)
      ensures forall c: Client :: SentTo(NOTHING_SENT, tally, c, Direct(view, w, c), Roomy(room))
    {
      var observers := SendToObservers(w.simulationId, room, NOTHING_SENT);
      var targets := Targets(w);
      if |targets| == 0 {
        tally := SendToAllSessions(room, observers);
      } else {
        tally := SendToTargets(targets, room, observers);
      }
    }

    /** Phase 3: the subscribers of the simulation without a copy. */
    method SendToSubscribers(sim: string, room: nat -> bool, direct: Tally) returns (after: Tally)
      requires Valid() && Honest(direct, room)
      ensures Honest(after, room) && Sent(direct, after, LocalTargets(direct, view, sim), Roomy(room))
    {
      after := direct;
      if sim != "" {
        after := SendEach(Get(simToClients, sim), c => c !in direct.sends, room, direct);
      }
    }

    /** The first critical section of processRemoteMessage, phases 1 to 3: no client gets more
        copies than it is entitled to, and exactly those when every buffer has room; a channel is
        tried for each copy addressed to its client directly, and once more for a subscriber left
        without one. `direct` is the state after phase 2. */
    method FanOut(w: Wrapper, room: nat -> bool) returns (direct: Tally, tally: Tally)
      requires Valid()
      ensures forall c: Client :: SentTo(NOTHING_SENT, direct, c, Direct(view, w, c), Roomy(room))
      ensures Sent(direct, tally, LocalTargets(direct, view, w.simulationId), Roomy(room))
      ensures Honest(direct, room) && Honest(tally, room)
      ensures forall c: Client :: tally.sends[c] <= Entitled(view, w, c)
      ensures forall c: Client :: tally.tries[c] > 0 ==> Entitled(view, w, c) > 0
      ensures Roomy(room) ==> forall c: Client :: tally.sends[c] == Entitled(view, w, c)
    {
      direct := SendDirect(w, room);
      tally := SendToSubscribers(w.simulationId, room, direct);
    }

    /** The delivery loop of phase 3b over one session's connections. */
    method SendToListed(sid: string, sim: string, room: nat -> bool, before: Tally) returns (after: Tally)
      requires Valid() && Honest(before, room)
      ensures Honest(after, room)
      ensures Sent(before, after,
                   (iset c: Client | c.session == sid && c in view.registered &&
                       c !in before.sends && (c, sim) in view.subs), Roomy(room))
    {
      var subs := simSubscriptions;
      after := SendToSession(sid, c => c !in before.sends && Has(subs, c, sim), room, before);
      assert forall c: Client :: Has(subs, c, sim) <==> (c, sim) in view.subs;
    }

    /** The second critical section, phase 3b: sessions that the store lists for the simulation.
        `lookup` is whatever the store answered while the lock was free. */
    method CrossInstance(sim: string, lookup: Option<seq<string>>, room: nat -> bool, before: Tally)
      returns (after: Tally)
      requires Valid() && Honest(before, room)
      ensures Honest(after, room) && SentAcross(before, after, view, sim, Answer(lookup), Roomy(room))
    {
      after := before;
      if lookup.None? {
        return;
      }
      var sessions := lookup.value;
      for i := 0 to |sessions|
        invariant Honest(after, room) && SentAcross(before, after, view, sim, sessions[..i], Roomy(room))
      {
        var mid := after;
        after := SendToListed(sessions[i], sim, room, mid);
        CrossOn(before, mid, after, sessions, i, view, sim, Roomy(room));
      }
      assert sessions[..|sessions|] == sessions;
    }

    /** The lock is released, `gap` is handled, and phase 3b follows. */
    method AfterGap(sim: string, gap: seq<Event>, lookup: Option<seq<string>>, room: nat -> bool, first: Tally)
      returns (total: Tally)
      requires Valid() && WellFormed(view, gap) && Honest(first, room)
      modifies this
      ensures Valid() && view == Run(old(view), gap)
      ensures Honest(total, room) && SentAcross(first, total, view, sim, Answer(lookup), Roomy(room))
    {
      HandleAll(gap);
      total := CrossInstance(sim, lookup, room, first);
    }

    /** processRemoteMessage, with the Run loop handling `gap` while the lock is free. The tallies after
        phase 2, before the gap and at the end. */
    method ProcessRemoteMessage(w: Wrapper, gap: seq<Event>, lookup: Option<seq<string>>, room: nat -> bool)
      returns (direct: Tally, first: Tally, total: Tally)
      requires Valid() && WellFormed(view, gap)
      modifies this
      ensures Valid() && view == if w.simulationId != "" then Run(old(view), gap) else old(view)
      ensures Honest(direct, room) && Honest(first, room) && Honest(total, room)
      ensures Processed(old(view), Run(old(view), gap), w, Answer(lookup), Roomy(room), direct, first, total)
      ensures NeverTwice(old(view), w, first, total)
      ensures Roomy(room) ==> AllServed(old(view), Run(old(view), gap), w, gap, Answer(lookup), first, total)
      ensures NoClosedTried(old(view), Run(old(view), gap), w, first, total)
    {
      ghost var v := view;
      direct, first := FanOut(w, room);
      total := first;
      if w.simulationId != "" {
        total := AfterGap(w.simulationId, gap, lookup, room, first);
      }
      SoundRun(v, gap);
      ProcessedNeverTwice(v, Run(v, gap), w, Answer(lookup), Roomy(room), direct, first, total);
      if Roomy(room) {
        ProcessedAllServed(v, gap, w, Answer(lookup), direct, first, total);
      }
      ProcessedNoClosedTried(v, Run(v, gap), w, Answer(lookup), Roomy(room), direct, first, total);
    }
  }

  lemma Reconnected(before: Client, c: Client, sim: string)
    requires before != c
    ensures var h := [Joined(before), Subscribed(before, sim), Left(before)] + [Joined(c)];
            && WellFormed(NOBODY, h) && Replay(h).registered == {c}
            && forall d, s :: (d, s) in Replay(h).subs ==> d == c && s == c.autoSim
  {
    var h := [Joined(before), Subscribed(before, sim), Left(before)];
    assert (h + [Joined(c)])[..3] == h && h[..2][..1] == h[..1] && h[..1][..0] == [];
    assert Run(NOBODY, h[..1]) == After(NOBODY, h[0]);
    assert Run(NOBODY, h[..2]) == After(Run(NOBODY, h[..1]), h[1]);
    assert WellFormed(NOBODY, h[..1]) && Run(NOBODY, h[..1]).joined == {before};
    assert WellFormed(NOBODY, h[..2]) && Run(NOBODY, h[..2]).joined == {before};
    assert h[..|h| - 1] == h[..2] && WellFormed(NOBODY, h);
    assert Run(NOBODY, h).joined == {before} && Run(NOBODY, h).subs == {} && Run(NOBODY, h).registered == {};
  }

  /** A client that subscribed on an earlier connection and reconnects without subscribing again is
      registered, and its session listed, but phase 3b skips it. */
  lemma ReconnectedIsSkipped(before: Client, c: Client, sim: string, other: string)
    requires before != c && before.session == c.session && c.session != "" && c.session != other && other != ""
    requires sim != "" && c.autoSim != sim
    ensures var h := [Joined(before), Subscribed(before, sim), Left(before)] + [Joined(c)];
            var v := Replay(h);
            && WellFormed(NOBODY, h) && c in v.registered
            && (forall d :: Entitled(v, Wrapper([other], "", "", sim), d) == 0)
            && CrossListings(NOTHING_SENT, v, sim, [c.session], c) == 0
  {
    Reconnected(before, c, sim);
    assert multiset([other])[c.session] == 0;
  }

  /** In every state the Run loop reaches while subscriptions are handled in time: the two
      subscription indexes are inverse to each other, every indexed client is registered, and
      no registered client's channel is closed, nor any channel twice. */
  lemma IndexAgreement(hub: Hub, h: History, c: Client, s: string)
    requires hub.Valid() && hub.view == Replay(h) && WellFormed(NOBODY, h) && Disciplined(h)
    ensures Has(hub.simToClients, s, c) <==> Has(hub.simSubscriptions, c, s)
    ensures Has(hub.simToClients, s, c) ==> Has(hub.clients, c.session, c)
    ensures Has(hub.clients, c.session, c) ==> c !in hub.closings
    ensures hub.closings[c] <= 1
    ensures !(Has(hub.simSubscriptions, c, s) && Has(hub.simBlocked, c, s))
  {
    DisciplinedNeverLeaks(h);
    assert Has(hub.simSubscriptions, c, s) <==> (c, s) in hub.view.subs;
  }
}
