/** What a reader of the store expects of a pair, and how far the expiring keys keep that promise:
    `standing` are the pairs neither Unsubscribe nor UnsubscribeAll has ended, `last` says when each
    was last subscribed. */
module SubscriptionPromise {
  import opened SubscriptionRuns

  datatype Pair = Pair(sim: string, session: string)

  // ---------------------------------------------------------------------------
  // What the two indexes promise
  // ---------------------------------------------------------------------------

  ghost predicate Fresh(now: nat, m: Keys)
  {
    forall k :: k in m ==> now < m[k].deadline
  }

  /** The pair was last subscribed less than a ttl ago. */
  ghost predicate Recent(now: nat, ttl: nat, last: map<Pair, nat>, sim: string, session: string)
  {
    Pair(sim, session) in last && now < last[Pair(sim, session)] + ttl
  }

  /** A forward key outlasts the ttl of each of its members. */
  ghost predicate FwdOutlasts(ttl: nat, fwd: Keys, last: map<Pair, nat>)
  {
    forall sim, s :: Listed(fwd, sim, s) ==> Pair(sim, s) in last && last[Pair(sim, s)] + ttl <= fwd[sim].deadline
  }

  ghost predicate RevOutlasts(ttl: nat, rev: Keys, last: map<Pair, nat>)
  {
    forall sim, s :: Listed(rev, s, sim) ==> Pair(sim, s) in last && last[Pair(sim, s)] + ttl <= rev[s].deadline
  }

  ghost predicate Past(now: nat, last: map<Pair, nat>)
  {
    forall p :: p in last ==> last[p] <= now
  }

  /** A recent pair is in the forward index exactly while it stands, and then also in the reverse
      index. */
  ghost predicate Indexed(now: nat, ttl: nat, fwd: Keys, rev: Keys, last: map<Pair, nat>, standing: set<Pair>)
  {
    forall sim, s :: Recent(now, ttl, last, sim, s) ==>
      (Pair(sim, s) in standing <==> Listed(fwd, sim, s)) &&
      (Pair(sim, s) in standing ==> Listed(rev, s, sim))
  }

  ghost predicate Consistent(now: nat, ttl: nat, fwd: Keys, rev: Keys, last: map<Pair, nat>, standing: set<Pair>)
  {
    && Fresh(now, fwd) && Fresh(now, rev)
    && FwdOutlasts(ttl, fwd, last) && RevOutlasts(ttl, rev, last)
    && Past(now, last)
    && Indexed(now, ttl, fwd, rev, last, standing)
  }

  lemma KeptByTime(now: nat, ttl: nat, fwd: Keys, rev: Keys, last: map<Pair, nat>, standing: set<Pair>, to: nat)
    requires Consistent(now, ttl, fwd, rev, last, standing) && now <= to
    ensures Consistent(to, ttl, Alive(fwd, to), Alive(rev, to), last, standing)
  {
  }

  lemma IndexedBySubscribe(now: nat, ttl: nat, fwd: Keys, rev: Keys, last: map<Pair, nat>, standing: set<Pair>,
                           sim: string, session: string)
    requires Indexed(now, ttl, fwd, rev, last, standing)
    ensures Indexed(now, ttl, AddAndExpire(fwd, sim, session, now + ttl), AddAndExpire(rev, session, sim, now + ttl),
                    last[Pair(sim, session) := now], standing + {Pair(sim, session)})
  {
    Added(fwd, sim, session, now + ttl);
    Added(rev, session, sim, now + ttl);
  }

  lemma OutlastsBySubscribe(now: nat, ttl: nat, fwd: Keys, rev: Keys, last: map<Pair, nat>, sim: string,
                            session: string)
    requires FwdOutlasts(ttl, fwd, last) && RevOutlasts(ttl, rev, last) && Past(now, last)
    ensures FwdOutlasts(ttl, AddAndExpire(fwd, sim, session, now + ttl), last[Pair(sim, session) := now])
    ensures RevOutlasts(ttl, AddAndExpire(rev, session, sim, now + ttl), last[Pair(sim, session) := now])
  {
    Added(fwd, sim, session, now + ttl);
    Added(rev, session, sim, now + ttl);
  }

  lemma KeptBySubscribe(now: nat, ttl: nat, fwd: Keys, rev: Keys, last: map<Pair, nat>, standing: set<Pair>,
                        sim: string, session: string)
    requires Consistent(now, ttl, fwd, rev, last, standing) && ttl > 0
    ensures Consistent(now, ttl, AddAndExpire(fwd, sim, session, now + ttl), AddAndExpire(rev, session, sim, now + ttl),
                       last[Pair(sim, session) := now], standing + {Pair(sim, session)})
  {
    IndexedBySubscribe(now, ttl, fwd, rev, last, standing, sim, session);
    OutlastsBySubscribe(now, ttl, fwd, rev, last, sim, session);
  }

  lemma KeptByUnsubscribe(now: nat, ttl: nat, fwd: Keys, rev: Keys, last: map<Pair, nat>, standing: set<Pair>,
                          sim: string, session: string)
    requires Consistent(now, ttl, fwd, rev, last, standing)
    ensures Consistent(now, ttl, Remove(fwd, sim, session), Remove(rev, session, sim),
                       last, standing - {Pair(sim, session)})
  {
  }

  /** `fwd'` is `fwd` without `session` in the simulations its reverse set names. */
  ghost predicate Swept(fwd: Keys, rev: Keys, session: string, fwd': Keys)
  {
    && (forall sim, s :: Listed(fwd', sim, s) <==> Listed(fwd, sim, s) && !(s == session && Listed(rev, session, sim)))
    && (forall sim :: sim in fwd' ==> sim in fwd && fwd'[sim].deadline == fwd[sim].deadline)
  }

  lemma KeptByUnsubscribeAll(now: nat, ttl: nat, fwd: Keys, rev: Keys, last: map<Pair, nat>, standing: set<Pair>,
                             session: string, fwd': Keys, standing': set<Pair>)
    requires Consistent(now, ttl, fwd, rev, last, standing) && Swept(fwd, rev, session, fwd')
    requires forall sim, s :: Pair(sim, s) in standing' <==> Pair(sim, s) in standing && s != session
    ensures Consistent(now, ttl, fwd', rev - {session}, last, standing')
  {
  }

  /** The forward entries UnsubscribeAll cannot reach, those without a reverse partner, were last
      subscribed at least a ttl ago; so was every entry whose subscription no longer stands. */
  lemma UnreachableIsStale(now: nat, ttl: nat, fwd: Keys, rev: Keys, last: map<Pair, nat>, standing: set<Pair>,
                           sim: string, session: string)
    requires Consistent(now, ttl, fwd, rev, last, standing)
    requires Listed(fwd, sim, session)
    requires !Listed(rev, session, sim) || Pair(sim, session) !in standing
    ensures Pair(sim, session) in last && last[Pair(sim, session)] + ttl <= now
  {
  }

  // ---------------------------------------------------------------------------
  // Over whole runs
  // ---------------------------------------------------------------------------

  function NextTimes(last: map<Pair, nat>, now: nat, a: Act): map<Pair, nat>
  {
    if a.Subscribed? then last[Pair(a.sim, a.session) := now] else last
  }

  function NextStanding(standing: set<Pair>, a: Act): set<Pair>
  {
    match a
    case Subscribed(sim, x) => standing + {Pair(sim, x)}
    case Unsubscribed(sim, x) => standing - {Pair(sim, x)}
    case Gone(x) => set p | p in standing && p.session != x
    case Elapsed(_) => standing
  }

  /** When each pair was last subscribed. */
  function LastTimes(h: seq<Act>): map<Pair, nat>
  {
    if h == [] then map[] else NextTimes(LastTimes(h[..|h| - 1]), Now(h[..|h| - 1]), h[|h| - 1])
  }

  /** The pairs that nothing has ended since they were last subscribed. */
  function Standing(h: seq<Act>): set<Pair>
  {
    if h == [] then {} else NextStanding(Standing(h[..|h| - 1]), h[|h| - 1])
  }

  /** The clock does not run back. */
  predicate Timely(h: seq<Act>)
  {
    h == [] || (Timely(h[..|h| - 1]) && (h[|h| - 1].Elapsed? ==> Now(h[..|h| - 1]) <= h[|h| - 1].to))
  }

  lemma ConsistentStep(ttl: nat, s: Sets, last: map<Pair, nat>, standing: set<Pair>, a: Act)
    requires ttl > 0 && Consistent(s.now, ttl, s.fwd, s.rev, last, standing) && (a.Elapsed? ==> s.now <= a.to)
    ensures var t := Take(ttl, s, a);
            Consistent(t.now, ttl, t.fwd, t.rev, NextTimes(last, s.now, a), NextStanding(standing, a))
  {
    match a
    case Subscribed(sim, x) => KeptBySubscribe(s.now, ttl, s.fwd, s.rev, last, standing, sim, x);
    case Unsubscribed(sim, x) => KeptByUnsubscribe(s.now, ttl, s.fwd, s.rev, last, standing, sim, x);
    case Gone(x) =>
      KeptByUnsubscribeAll(s.now, ttl, s.fwd, s.rev, last, standing, x, Take(ttl, s, a).fwd, NextStanding(standing, a));
    case Elapsed(to) => KeptByTime(s.now, ttl, s.fwd, s.rev, last, standing, to);
  }

  lemma {:induction false} ConsistentAlways(ttl: nat, h: seq<Act>)
    requires ttl > 0 && Timely(h)
    ensures var s := Replay(ttl, h); Consistent(s.now, ttl, s.fwd, s.rev, LastTimes(h), Standing(h))
  {
    if h != [] {
      var before := h[..|h| - 1];
      ConsistentAlways(ttl, before);
      NowIs(ttl, before);
      ConsistentStep(ttl, Replay(ttl, before), LastTimes(before), Standing(before), h[|h| - 1]);
    }
  }

  /** In every run a pair subscribed less than a ttl ago is in the forward set exactly while it stands. */
  lemma RecentListedIffStanding(ttl: nat, h: seq<Act>, sim: string, x: string)
    requires ttl > 0 && Timely(h) && Recent(Now(h), ttl, LastTimes(h), sim, x)
    ensures Listed(Replay(ttl, h).fwd, sim, x) <==> Pair(sim, x) in Standing(h)
  {
    ConsistentAlways(ttl, h);
    NowIs(ttl, h);
  }

  /** In every run a listed pair that no longer stands, or that UnsubscribeAll could not find, was last
      subscribed at least a ttl ago. */
  lemma StaleInRun(ttl: nat, h: seq<Act>, sim: string, x: string)
    requires ttl > 0 && Timely(h) && Listed(Replay(ttl, h).fwd, sim, x)
    ensures Pair(sim, x) in LastTimes(h)
    ensures Pair(sim, x) !in Standing(h) || !RevHolds(ttl, h, sim, x) ==> LastTimes(h)[Pair(sim, x)] + ttl <= Now(h)
  {
    ConsistentAlways(ttl, h);
    NowIs(ttl, h);
    RevExact(ttl, h, sim, x);
    var s := Replay(ttl, h);
    if Pair(sim, x) !in Standing(h) || !RevHolds(ttl, h, sim, x) {
      UnreachableIsStale(s.now, ttl, s.fwd, s.rev, LastTimes(h), Standing(h), sim, x);
    }
  }
}
