/** Who is entitled to a remote message, stated over the routing relation alone. */
module HubDelivery {
  import opened HubHistory

  /** The routing fields of a gateway.Wrapper; a missing origin has an empty session. */
  datatype Wrapper = Wrapper(destination: seq<string>, sessionId: string, originSession: string, simulationId: string)

  function Targets(w: Wrapper): seq<string>
  {
    if |w.destination| > 0 then w.destination
    else if w.sessionId != "" then [w.sessionId]
    else if w.originSession != "" then [w.originSession]
    else []
  }

  ghost predicate HasSubscription(v: Routing, c: Client)
  {
    exists t :: (c, t) in v.subs
  }

  /** The filter on global observers: an allowlist if the client subscribes to anything, else a
      blocklist; messages outside any simulation pass. */
  ghost predicate Admits(v: Routing, c: Client, sim: string)
  {
    sim == "" ||
    if HasSubscription(v, c) then (c, sim) in v.subs else (c, sim) !in v.blocked
  }

  /** Copies of the message addressed to `c` directly, as an observer or as a target session. */
  ghost function Direct(v: Routing, w: Wrapper, c: Client): nat
  {
    if c !in v.registered then 0
    else if c.session == "" then if Admits(v, c, w.simulationId) then 1 else 0
    else if Targets(w) == [] then 1
    else multiset(Targets(w))[c.session]
  }

  /** Copies of the message `c` is entitled to. */
  ghost function Entitled(v: Routing, w: Wrapper, c: Client): nat
  {
    if Direct(v, w, c) == 0 && w.simulationId != "" && (c, w.simulationId) in v.subs then 1
    else Direct(v, w, c)
  }

  /** No client is registered under a session named twice in the message. */
  ghost predicate TargetsDistinct(v: Routing, w: Wrapper)
  {
    forall c :: c in v.registered && c.session != "" ==> multiset(Targets(w))[c.session] <= 1
  }

  /** The recipients, as a set: admitted global observers, clients of the named sessions or of
      every session when none is named, and subscribers of the message's simulation. */
  lemma RecipientSet(v: Routing, w: Wrapper, c: Client)
    requires NoLeak(v)
    ensures Entitled(v, w, c) > 0 <==>
            c in v.registered &&
            ((c.session == "" && Admits(v, c, w.simulationId)) ||
             (c.session != "" && (Targets(w) == [] || c.session in Targets(w))) ||
             (w.simulationId != "" && (c, w.simulationId) in v.subs))
  {
  }

  /** Every client is entitled to at most one copy exactly when no session with a registered
      client is named twice. */
  lemma OneCopyIffTargetsDistinct(v: Routing, w: Wrapper)
    ensures (forall c :: Entitled(v, w, c) <= 1) <==> TargetsDistinct(v, w)
  {
    if forall c :: Entitled(v, w, c) <= 1 {
      forall c | c in v.registered && c.session != ""
        ensures multiset(Targets(w))[c.session] <= 1
      {
        assert Entitled(v, w, c) <= 1;
      }
    }
  }

  /** A destination list naming one session twice entitles its client to two copies. */
  lemma RepeatedDestinationDelivers(c: Client)
    requires c.session != ""
    ensures Entitled(Replay([Joined(c)]), Wrapper([c.session, c.session], "", "", ""), c) == 2
  {
  }

  /** A registered client of a session gets as many copies as the destinations list it; without
      destinations one if it is the addressed session, without that one if it is the origin, and without
      any of these one like everybody; a subscriber of the simulation one in any case. */
  lemma SessionCopies(v: Routing, w: Wrapper, c: Client)
    requires c in v.registered && c.session != ""
    ensures var listed: nat :=
              if w.destination != [] then multiset(w.destination)[c.session]
              else if w.sessionId != "" then if w.sessionId == c.session then 1 else 0
              else if w.originSession != "" then if w.originSession == c.session then 1 else 0
              else 1;
            Entitled(v, w, c) ==
              if listed == 0 && w.simulationId != "" && (c, w.simulationId) in v.subs then 1 else listed
  {
  }

  /** A registered observer gets one copy of a message outside any simulation; of one inside, if its
      latest event about that is a subscription, or if it is subscribed to nothing and has not
      unsubscribed from it since it last subscribed to anything. */
  lemma ObserverCopies(h: History, w: Wrapper, c: Client)
    requires c in Replay(h).registered && c.session == ""
    ensures Entitled(Replay(h), w, c) ==
            if w.simulationId == "" || SubscribedDuring(h, c, w.simulationId) ||
               ((forall t :: !SubscribedDuring(h, c, t)) && !BlockedDuring(h, c, w.simulationId))
            then 1 else 0
  {
    SubscribedIffLatest(h, c, w.simulationId);
    BlockedIffLatest(h, c, w.simulationId);
    forall t ensures (c, t) in Replay(h).subs <==> SubscribedDuring(h, c, t) {
      SubscribedIffLatest(h, c, t);
    }
  }

  /** Nobody whose channel may be closed is entitled to anything, provided no subscription leaks. */
  lemma EntitledIsOpen(v: Routing, w: Wrapper, c: Client)
    requires Sound(v) && NoLeak(v) && Entitled(v, w, c) > 0
    ensures c in v.registered && c !in v.closings
  {
  }

  /** Some message is addressed to a client whose channel is closed. */
  ghost predicate ReachesClosed(v: Routing)
  {
    exists w, c :: c in v.closings && Entitled(v, w, c) > 0
  }

  /** Some client that has left is subscribed to a simulation. */
  ghost predicate Leaks(v: Routing)
  {
    exists c, s :: (c, s) in v.subs && s != "" && c !in v.registered
  }

  lemma ReachesClosedIffLeaks(v: Routing)
    requires Sound(v)
    ensures ReachesClosed(v) <==> Leaks(v)
  {
    if c, s :| (c, s) in v.subs && s != "" && c !in v.registered {
      assert Entitled(v, Wrapper([], "", "", s), c) == 1;
    }
  }

  /** Requests to subscribe name a simulation. */
  ghost predicate NamesSimulations(h: History)
  {
    forall i :: 0 <= i < |h| && h[i].Subscribed? ==> h[i].sim != ""
  }

  lemma SubscribedNamed(h: History, c: Client, s: string)
    requires NamesSimulations(h) && (c, s) in Replay(h).subs
    ensures s != ""
  {
    SubscribedIffLatest(h, c, s);
  }

  /** A run at no point addresses a closed channel if and only if every subscription in it is handled
      while its client is registered. */
  lemma NeverReachesClosedIffDisciplined(h: History)
    requires WellFormed(NOBODY, h) && NamesSimulations(h)
    ensures (forall k :: 0 <= k <= |h| ==> !ReachesClosed(Replay(h[..k]))) <==> Disciplined(h)
  {
    forall k | 0 <= k <= |h| ensures ReachesClosed(Replay(h[..k])) <==> !NoLeak(Replay(h[..k])) {
      WellFormedPrefix(NOBODY, h, k);
      SoundRun(NOBODY, h[..k]);
      ReachesClosedIffLeaks(Replay(h[..k]));
      assert NamesSimulations(h[..k]);
      forall c, s | (c, s) in Replay(h[..k]).subs ensures s != "" {
        SubscribedNamed(h[..k], c, s);
      }
    }
    NeverLeaksIffDisciplined(h);
  }

  /** A subscription handled after its client left entitles a closed channel to a message, so the
      send panics: the Run loop does not recheck registration. */
  lemma StaleSubscribeReachesClosedChannel()
    ensures var c := Client(0, "x", 0, "");
            var h := [Joined(c), Left(c), Subscribed(c, "s")];
            WellFormed(NOBODY, h) && c in Replay(h).closings && Entitled(Replay(h), Wrapper([], "", "", "s"), c) == 1
  {
    var c := Client(0, "x", 0, "");
    var h := [Joined(c), Left(c), Subscribed(c, "s")];
    assert [Joined(c)][..0] == [] && WellFormed(NOBODY, [Joined(c)]);
    assert [Joined(c), Left(c)][..1] == [Joined(c)] && WellFormed(NOBODY, [Joined(c), Left(c)]);
    assert h[..2] == [Joined(c), Left(c)];
  }

  // ---------------------------------------------------------------------------
  // After an unsubscription
  // ---------------------------------------------------------------------------

  /** No later event concerns the subscription of `c` to `s`, and `c` stays. */
  ghost predicate Untouched(q: History, c: Client, s: string)
  {
    forall i :: 0 <= i < |q| ==> !Adds(q[i], c, s) && !Drops(q[i], c, s)
  }

  /** Once `c` has unsubscribed from `s` and not resubscribed, it is not subscribed, and it is
      blocked exactly until its next subscription to anything. */
  lemma {:induction false} AfterUnsubscribe(p: History, q: History, c: Client, s: string)
    requires Untouched(q, c, s)
    ensures (c, s) !in Replay(p + [Unsubscribed(c, s)] + q).subs
    ensures (c, s) in Replay(p + [Unsubscribed(c, s)] + q).blocked <==>
            forall i :: 0 <= i < |q| ==> !(q[i].Subscribed? && q[i].client == c)
  {
    var h := p + [Unsubscribed(c, s)] + q;
    if q == [] {
      assert h[..|h| - 1] == p;
      assert h[|h| - 1] == Unsubscribed(c, s);
    } else {
      var r, e := q[..|q| - 1], q[|q| - 1];
      assert h[..|h| - 1] == p + [Unsubscribed(c, s)] + r;
      assert q == r + [e] && h[|h| - 1] == e;
      AfterUnsubscribe(p, r, c, s);
      assert e.Subscribed? && e.client == c ==> q[|q| - 1].Subscribed?;
      assert forall i :: 0 <= i < |r| ==> r[i] == q[i];
    }
  }

  /** A global observer that unsubscribed from `s` and has not resubscribed sees messages of `s`
      again exactly when it has no subscription left but subscribed to something in between:
      a subscription forgets every earlier unsubscription. */
  lemma UnsubscribedSeesAgainIff(p: History, q: History, c: Client, s: string)
    requires s != "" && Untouched(q, c, s)
    ensures var h := p + [Unsubscribed(c, s)] + q;
            Admits(Replay(h), c, s) <==>
              !HasSubscription(Replay(h), c) && exists i :: 0 <= i < |q| && q[i].Subscribed? && q[i].client == c
  {
    AfterUnsubscribe(p, q, c, s);
  }

  /** An observer sees `s` again after subscribing to `t` and dropping that. */
  lemma SeesAgain(c: Client, s: string, t: string)
    requires s != "" && s != t && c.session == "" && c.autoSim == ""
    ensures var h := [Joined(c), Unsubscribed(c, s)] + [Subscribed(c, t), Unsubscribed(c, t)];
            !Admits(Replay([Joined(c), Unsubscribed(c, s)]), c, s) && Admits(Replay(h), c, s)
  {
    var q := [Subscribed(c, t), Unsubscribed(c, t)];
    var h := [Joined(c)] + [Unsubscribed(c, s)] + q;
    assert h == [Joined(c), Unsubscribed(c, s)] + q;
    assert [Joined(c)] + [Unsubscribed(c, s)] + [] == [Joined(c), Unsubscribed(c, s)];
    forall u ensures (c, u) !in Replay(h).subs {
      FilterStep([Joined(c)], c, u);
      FilterStep(h[..2], c, u);
      FilterStep(h[..3], c, u);
      FilterStep(h, c, u);
      assert [Joined(c)][..0] == [] && h[..2][..1] == [Joined(c)] && h[..3][..2] == h[..2];
    }
    UnsubscribedSeesAgainIff([Joined(c)], [], c, s);
    UnsubscribedSeesAgainIff([Joined(c)], q, c, s);
    assert q[0].Subscribed? && q[0].client == c;
  }

  /** With no later subscription to anything, phases 1 to 3 enqueue no message of the simulation for an
      observer; and whatever happens in the gap short of a resubscription, it does not meet the
      condition of phase 3b either. */
  lemma UnsubscribedStaysSilent(p: History, q: History, gap: History, c: Client, w: Wrapper)
    requires w.simulationId != "" && c.session == ""
    requires Untouched(q, c, w.simulationId) && Untouched(gap, c, w.simulationId)
    requires forall i :: 0 <= i < |q| ==> !(q[i].Subscribed? && q[i].client == c)
    ensures Entitled(Replay(p + [Unsubscribed(c, w.simulationId)] + q), w, c) == 0
    ensures (c, w.simulationId) !in Replay(p + [Unsubscribed(c, w.simulationId)] + q + gap).subs
  {
    AfterUnsubscribe(p, q, c, w.simulationId);
    UnsubscribedSeesAgainIff(p, q, c, w.simulationId);
    AfterUnsubscribe(p, q + gap, c, w.simulationId);
    assert p + [Unsubscribed(c, w.simulationId)] + q + gap == p + [Unsubscribed(c, w.simulationId)] + (q + gap);
  }
}
