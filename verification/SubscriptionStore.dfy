/** The cross-instance subscription store: two Redis sets per pair, each under a key with its own
    expiry. It carries the operations it has handled and is in the state they lead to. */
module SubscriptionStore {
  import opened SubscriptionPromise
  import opened SubscriptionRuns

  class Store {
    const ttl: nat
    var now: nat
    var fwd: Keys
    var rev: Keys
    ghost var history: seq<Act>

    ghost predicate Valid()
      reads this
    {
      ttl > 0 && Timely(history) && Sets(now, fwd, rev) == Replay(ttl, history)
    }

    constructor (ttl: nat)
      requires ttl > 0
      ensures Valid() && this.ttl == ttl && now == 0 && history == []
    {
      this.ttl, now, fwd, rev, history := ttl, 0, map[], map[], [];
    }

    /** Time passes; Redis drops the keys that expire. */
    method Advance(to: nat)
      requires Valid() && now <= to
      modifies `now, `fwd, `rev, `history
      ensures Valid() && now == to && history == old(history) + [Elapsed(to)]
    {
      NowIs(ttl, history);
      OneMore(ttl, history, Elapsed(to));
      now, fwd, rev, history := to, Alive(fwd, to), Alive(rev, to), history + [Elapsed(to)];
    }

    method Subscribe(sim: string, session: string)
      requires Valid()
      modifies `fwd, `rev, `history
      ensures Valid() && history == old(history) + [Subscribed(sim, session)]
    {
      OneMore(ttl, history, Subscribed(sim, session));
      fwd := AddAndExpire(fwd, sim, session, now + ttl);
      rev := AddAndExpire(rev, session, sim, now + ttl);
      history := history + [Subscribed(sim, session)];
    }

    method Unsubscribe(sim: string, session: string)
      requires Valid()
      modifies `fwd, `rev, `history
      ensures Valid() && history == old(history) + [Unsubscribed(sim, session)]
    {
      OneMore(ttl, history, Unsubscribed(sim, session));
      fwd := Remove(fwd, sim, session);
      rev := Remove(rev, session, sim);
      history := history + [Unsubscribed(sim, session)];
    }

    /** Removes the session from the simulations its reverse set still names; it stays listed exactly
        for those that still had it and that its reverse set had lost. */
    method UnsubscribeAll(session: string)
      requires Valid()
      modifies `fwd, `rev, `history
      ensures Valid() && history == old(history) + [Gone(session)]
      ensures forall sim :: Listed(fwd, sim, session) <==>
                FwdHolds(ttl, old(history), sim, session) && !RevHolds(ttl, old(history), sim, session)
    {
      OneMore(ttl, history, Gone(session));
      forall sim
        ensures Listed(Replay(ttl, history + [Gone(session)]).fwd, sim, session) <==>
                FwdHolds(ttl, history, sim, session) && !RevHolds(ttl, history, sim, session)
      {
        StaysListedIff(ttl, history, sim, session);
      }
      fwd := SweepAll(fwd, rev, session);
      rev, history := rev - {session}, history + [Gone(session)];
    }

    /** Lookup lists exactly the sessions the history says; among those last subscribed less than a ttl
        ago exactly the ones whose subscription stands; and any other one it lists was subscribed once,
        a ttl or more ago. */
    method Lookup(sim: string) returns (sessions: set<string>)
      requires Valid()
      ensures forall s :: s in sessions <==> FwdHolds(ttl, history, sim, s)
      ensures forall s :: Recent(now, ttl, LastTimes(history), sim, s) ==>
                (s in sessions <==> Pair(sim, s) in Standing(history))
      ensures forall s :: s in sessions ==> Pair(sim, s) in LastTimes(history)
    {
      sessions := Members(fwd, sim);
      NowIs(ttl, history);
      forall s
        ensures Listed(fwd, sim, s) <==> FwdHolds(ttl, history, sim, s)
        ensures Recent(now, ttl, LastTimes(history), sim, s) ==>
                  (Listed(fwd, sim, s) <==> Pair(sim, s) in Standing(history))
        ensures Listed(fwd, sim, s) ==> Pair(sim, s) in LastTimes(history)
      {
        FwdExact(ttl, history, sim, s);
        if Recent(now, ttl, LastTimes(history), sim, s) {
          RecentListedIffStanding(ttl, history, sim, s);
        }
        if Listed(fwd, sim, s) {
          StaleInRun(ttl, history, sim, s);
        }
      }
    }
  }

  lemma OneMore(ttl: nat, h: seq<Act>, a: Act)
    ensures Replay(ttl, h + [a]) == Take(ttl, Replay(ttl, h), a)
    ensures Timely(h) && (a.Elapsed? ==> Now(h) <= a.to) ==> Timely(h + [a])
  {
    assert (h + [a])[..|h|] == h;
  }

  /** The loop over the simulations in the session's reverse set. */
  method SweepAll(fwd: Keys, rev: Keys, session: string) returns (r: Keys)
    ensures r == Sweep(fwd, Members(rev, session), session)
  {
    r := fwd;
    var sims, done := Members(rev, session), {};
    assert r == Sweep(fwd, done, session);
    while sims - done != {}
      invariant done <= sims && r == Sweep(fwd, done, session)
    {
      var sim :| sim in sims - done;
      SweepOneMore(fwd, done, sim, session);
      r, done := Remove(r, sim, session), done + {sim};
    }
    forall sim | sim in sims ensures sim in done {
      assert sim !in sims - done;
    }
    assert done == sims;
  }
}
