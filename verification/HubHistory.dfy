/** What the hub's routing state means: a relation updated by each event the Run loop handles.
    Nothing here mentions the hub's maps; `GatewayHub` proves that the maps hold this relation. */
module HubHistory {
  import opened Multimaps

  /** A connected client. Two registrations of one WebSocket are different clients, told apart
      by `id`. */
  datatype Client = Client(id: nat, session: string, conn: nat, autoSim: string)

  /** The select cases of Run that change routing state. */
  datatype Event =
    | Joined(client: Client)
    | Left(client: Client)
    | Subscribed(client: Client, sim: string)
    | Unsubscribed(client: Client, sim: string)

  type History = seq<Event>

  /** `joined` are the clients ever registered, `closings` the closes of send channels, `owner`
      the client a connection's text frames are attributed to. */
  datatype Routing = Routing(
    joined: set<Client>,
    registered: set<Client>,
    subs: set<(Client, string)>,
    blocked: set<(Client, string)>,
    owner: map<nat, Client>,
    closings: multiset<Client>)

  const NOBODY := Routing({}, {}, {}, {}, map[], multiset{})

  function After(v: Routing, e: Event): Routing
  {
    match e
    case Joined(c) =>
      v.(joined := v.joined + {c},
         registered := v.registered + {c},
         subs := if c.autoSim != "" then v.subs + {(c, c.autoSim)} else v.subs,
         owner := v.owner[c.conn := c])
    case Left(c) =>
      v.(registered := v.registered - {c},
         subs := Without(v.subs, c),
         blocked := Without(v.blocked, c),
         owner := v.owner - {c.conn},
         closings := if c in v.registered then v.closings + multiset{c} else v.closings)
    case Subscribed(c, s) =>
      v.(subs := v.subs + {(c, s)}, blocked := Without(v.blocked, c))
    case Unsubscribed(c, s) =>
      v.(subs := v.subs - {(c, s)}, blocked := v.blocked + {(c, s)})
  }

  /** The events in order, from `v`. */
  function Run(v: Routing, es: seq<Event>): Routing
  {
    if es == [] then v else After(Run(v, es[..|es| - 1]), es[|es| - 1])
  }

  function Replay(h: History): Routing
  {
    Run(NOBODY, h)
  }

  /** Register allocates its client, so a join brings a new client; every other request carries a
      client that some join introduced. Nothing says it is still registered. */
  predicate Admissible(v: Routing, e: Event)
  {
    e.client in v.joined <==> !e.Joined?
  }

  predicate WellFormed(v: Routing, es: seq<Event>)
  {
    es == [] || (WellFormed(v, es[..|es| - 1]) && Admissible(Run(v, es[..|es| - 1]), es[|es| - 1]))
  }

  /** The discipline the Run loop does not enforce: a subscribe is handled while its client is
      still registered. */
  ghost predicate Disciplined(h: History)
  {
    forall i :: 0 <= i < |h| && h[i].Subscribed? ==> h[i].client in Replay(h[..i]).registered
  }

  /** Every subscribed client is registered, that is, its send channel is still open. */
  ghost predicate NoLeak(v: Routing)
  {
    forall c, s :: (c, s) in v.subs ==> c in v.registered
  }

  /** No channel is closed twice, exactly the channels of clients that have left are closed, the
      allowlist and the blocklist of a client are disjoint, and nothing is known of a client before
      it joins. */
  ghost predicate Sound(v: Routing)
  {
    && (forall c :: v.closings[c] <= 1)
    && (forall c :: c in v.closings <==> c in v.joined && c !in v.registered)
    && v.registered <= v.joined
    && v.subs !! v.blocked
    && (forall c, s :: (c, s) in v.subs || (c, s) in v.blocked ==> c in v.joined)
    && (forall k :: k in v.owner ==> v.owner[k] in v.joined)
  }

  /** What the latest event has decided: a join registers its client, takes over its connection and
      subscribes to the simulation it names; a departure leaves nothing of the client; a subscription stands
      and clears all blocks; an unsubscription ends it and blocks. */
  lemma EventDecides(h: History, c: Client, s: string, t: string)
    ensures var v := Replay(h + [Joined(c)]);
            c in v.registered && c.conn in v.owner && v.owner[c.conn] == c &&
            (c.autoSim != "" ==> (c, c.autoSim) in v.subs)
    ensures var v := Replay(h + [Left(c)]);
            c !in v.registered && c.conn !in v.owner && (c, s) !in v.subs && (c, s) !in v.blocked
    ensures var v := Replay(h + [Subscribed(c, s)]); (c, s) in v.subs && (c, t) !in v.blocked
    ensures var v := Replay(h + [Unsubscribed(c, s)]); (c, s) !in v.subs && (c, s) in v.blocked
  {
    assert forall e :: (h + [e])[..|h|] == h;
  }

  lemma {:induction false} WellFormedPrefix(v: Routing, es: seq<Event>, k: nat)
    requires WellFormed(v, es) && k <= |es|
    ensures WellFormed(v, es[..k])
    ensures k < |es| ==> Admissible(Run(v, es[..k]), es[k])
  {
    if k == |es| {
      assert es[..k] == es;
    } else if k < |es| - 1 {
      assert es[..|es| - 1][..k] == es[..k];
      WellFormedPrefix(v, es[..|es| - 1], k);
    }
  }

  lemma SoundStep(v: Routing, e: Event)
    requires Sound(v) && Admissible(v, e)
    ensures Sound(After(v, e))
  {
  }

  /** Sound holds in every reachable state, however often a client is unregistered. */
  lemma {:induction false} SoundRun(v: Routing, es: seq<Event>)
    requires Sound(v) && WellFormed(v, es)
    ensures Sound(Run(v, es))
  {
    if es != [] {
      SoundRun(v, es[..|es| - 1]);
      SoundStep(Run(v, es[..|es| - 1]), es[|es| - 1]);
    }
  }

  /** One more event keeps every subscribed client registered exactly when it is not a
      subscription of a client that has already been unregistered. */
  lemma NoLeakStep(v: Routing, e: Event)
    requires Sound(v) && Admissible(v, e) && NoLeak(v)
    ensures NoLeak(After(v, e)) <==> (e.Subscribed? ==> e.client in v.registered)
  {
  }

  /** Over any run whose subscriptions are handled in time, subscribed clients are registered. */
  lemma {:induction false} DisciplinedNeverLeaks(h: History)
    requires WellFormed(NOBODY, h) && Disciplined(h)
    ensures NoLeak(Replay(h))
  {
    if h != [] {
      var p, e := h[..|h| - 1], h[|h| - 1];
      forall i | 0 <= i < |p| && p[i].Subscribed? ensures p[i].client in Replay(p[..i]).registered {
        assert h[i] == p[i] && h[..i] == p[..i];
      }
      DisciplinedNeverLeaks(p);
      SoundRun(NOBODY, p);
      NoLeakStep(Replay(p), e);
    }
  }

  lemma DisciplinedPrefix(h: History, k: nat)
    requires Disciplined(h) && k <= |h|
    ensures Disciplined(h[..k])
  {
    forall i | 0 <= i < k && h[..k][i].Subscribed? ensures h[..k][i].client in Replay(h[..k][..i]).registered {
      assert h[..k][..i] == h[..i];
    }
  }

  /** A run leaks at no point if and only if all its subscriptions are handled in time. */
  lemma NeverLeaksIffDisciplined(h: History)
    requires WellFormed(NOBODY, h)
    ensures (forall k :: 0 <= k <= |h| ==> NoLeak(Replay(h[..k]))) <==> Disciplined(h)
  {
    if Disciplined(h) {
      forall k | 0 <= k <= |h| ensures NoLeak(Replay(h[..k])) {
        DisciplinedPrefix(h, k);
        WellFormedPrefix(NOBODY, h, k);
        DisciplinedNeverLeaks(h[..k]);
      }
    } else {
      var i :| 0 <= i < |h| && h[i].Subscribed? && h[i].client !in Replay(h[..i]).registered;
      assert h[..i + 1][..i] == h[..i] && h[..i + 1][i] == h[i];
      assert (h[i].client, h[i].sim) in Replay(h[..i + 1]).subs;
      assert !NoLeak(Replay(h[..i + 1]));
    }
  }

  // ---------------------------------------------------------------------------
  // Filter state read off the latest relevant event
  // ---------------------------------------------------------------------------

  predicate Adds(e: Event, c: Client, s: string)
  {
    e == Subscribed(c, s) || (e == Joined(c) && c.autoSim == s && s != "")
  }

  predicate Drops(e: Event, c: Client, s: string)
  {
    e == Unsubscribed(c, s) || e == Left(c)
  }

  predicate Unblocks(e: Event, c: Client)
  {
    (e.Subscribed? && e.client == c) || e == Left(c)
  }

  lemma FilterStep(h: History, c: Client, s: string)
    requires h != []
    ensures var p, e := h[..|h| - 1], h[|h| - 1];
            && ((c, s) in Replay(h).subs <==> Adds(e, c, s) || (!Drops(e, c, s) && (c, s) in Replay(p).subs))
            && ((c, s) in Replay(h).blocked <==>
                  e == Unsubscribed(c, s) || (!Unblocks(e, c) && (c, s) in Replay(p).blocked))
  {
  }

  /** `on` is the event at some index and `off` holds of none after it. */
  ghost predicate LatestIs(h: History, on: Event -> bool, off: Event -> bool)
  {
    exists i :: 0 <= i < |h| && on(h[i]) && forall j :: i < j < |h| ==> !off(h[j])
  }

  /** The latest event of the stretch that concerns the subscription of c is a subscription. */
  ghost predicate SubscribedDuring(es: seq<Event>, c: Client, s: string)
  {
    LatestIs(es, e => Adds(e, c, s), e => Drops(e, c, s))
  }

  /** c unsubscribed in the stretch, and has neither subscribed to anything nor left since. */
  ghost predicate BlockedDuring(es: seq<Event>, c: Client, s: string)
  {
    LatestIs(es, e => e == Unsubscribed(c, s), e => Unblocks(e, c))
  }

  lemma LatestStep(h: History, on: Event -> bool, off: Event -> bool)
    requires h != []
    ensures LatestIs(h, on, off) <==> on(h[|h| - 1]) || (!off(h[|h| - 1]) && LatestIs(h[..|h| - 1], on, off))
  {
  }

  /** A client is subscribed to exactly the simulations whose latest event, the automatic
      subscription of a join included, is a subscription. */
  lemma {:induction false} SubscribedIffLatest(h: History, c: Client, s: string)
    ensures (c, s) in Replay(h).subs <==> SubscribedDuring(h, c, s)
  {
    if h != [] {
      FilterStep(h, c, s);
      LatestStep(h, e => Adds(e, c, s), e => Drops(e, c, s));
      SubscribedIffLatest(h[..|h| - 1], c, s);
    }
  }

  /** A client not subscribed before a stretch of events is subscribed after it exactly if the latest
      relevant event in it is a subscription. */
  lemma {:induction false} SubscribedInGapIff(v: Routing, gap: seq<Event>, c: Client, s: string)
    requires (c, s) !in v.subs
    ensures (c, s) in Run(v, gap).subs <==> SubscribedDuring(gap, c, s)
  {
    if gap != [] {
      LatestStep(gap, e => Adds(e, c, s), e => Drops(e, c, s));
      SubscribedInGapIff(v, gap[..|gap| - 1], c, s);
    }
  }

  /** A simulation is blocked for a client exactly when the client unsubscribed from it and has
      subscribed to nothing since. */
  lemma {:induction false} BlockedIffLatest(h: History, c: Client, s: string)
    ensures (c, s) in Replay(h).blocked <==> BlockedDuring(h, c, s)
  {
    if h != [] {
      FilterStep(h, c, s);
      LatestStep(h, e => e == Unsubscribed(c, s), e => Unblocks(e, c));
      BlockedIffLatest(h[..|h| - 1], c, s);
    }
  }

  /** A client is registered exactly if it joined and has not left since, and the channels closed are
      those of the clients that joined and are not registered, each once. */
  lemma {:induction false} RegisteredIffLatest(h: History, c: Client)
    ensures c in Replay(h).registered <==> LatestIs(h, e => e == Joined(c), e => e == Left(c))
    ensures c in Replay(h).joined <==> LatestIs(h, e => e == Joined(c), e => false)
    ensures WellFormed(NOBODY, h) ==>
              Replay(h).closings[c] == if c in Replay(h).joined && c !in Replay(h).registered then 1 else 0
  {
    if h != [] {
      var p := h[..|h| - 1];
      RegisteredIffLatest(p, c);
      LatestStep(h, e => e == Joined(c), e => e == Left(c));
      LatestStep(h, e => e == Joined(c), e => false);
      if WellFormed(NOBODY, h) {
        SoundRun(NOBODY, p);
        SoundStep(Replay(p), h[|h| - 1]);
      }
    }
  }

  // ---------------------------------------------------------------------------
  // The connection index
  // ---------------------------------------------------------------------------

  predicate Reconnects(e: Event, conn: nat)
  {
    (e.Joined? || e.Left?) && e.client.conn == conn
  }

  /** Text frames of a connection are attributed to a client exactly when its registration is the
      latest registration or departure on that connection: with one client per connection, exactly
      while it is registered. */
  lemma {:induction false} ConnectionIndexExact(h: History, c: Client)
    ensures c.conn in Replay(h).owner && Replay(h).owner[c.conn] == c <==>
            LatestIs(h, e => e == Joined(c), e => Reconnects(e, c.conn))
    ensures (forall i :: 0 <= i < |h| && h[i].client.conn == c.conn ==> h[i].client == c) && WellFormed(NOBODY, h) ==>
              (c.conn in Replay(h).owner <==> c in Replay(h).registered)
  {
    if h != [] {
      var p := h[..|h| - 1];
      assert forall i :: 0 <= i < |p| ==> p[i] == h[i];
      LatestStep(h, e => e == Joined(c), e => Reconnects(e, c.conn));
      ConnectionIndexExact(p, c);
    }
  }

  /** Were a connection registered twice, the first departure would hide the other client. */
  lemma SharedConnectionLosesOwner(a: Client, b: Client)
    requires a != b && a.conn == b.conn
    ensures var h := [Joined(a), Joined(b), Left(a)];
            WellFormed(NOBODY, h) && b in Replay(h).registered && b.conn !in Replay(h).owner
  {
    var h := [Joined(a), Joined(b), Left(a)];
    assert [Joined(a)][..0] == [] && WellFormed(NOBODY, [Joined(a)]);
    assert [Joined(a), Joined(b)][..1] == [Joined(a)] && WellFormed(NOBODY, [Joined(a), Joined(b)]);
    assert h[..2] == [Joined(a), Joined(b)];
  }
}
