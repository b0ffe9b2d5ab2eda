/** The Redis indexes under expiry: exact right after each Reap, provided Reaps are at most a ttl
    apart. */
module RegistryTheorems {
  import opened Multimaps
  import opened RegistryState

  // ---------------------------------------------------------------------------
  // One index: string keys, the sets that reverse them, the names of those sets
  // ---------------------------------------------------------------------------

  /** The names are exactly those of the non-empty sets. */
  ghost predicate Named(x: Index)
  {
    Pruned(x.sets) && forall k :: k in x.active <==> k in x.sets
  }

  /** Every keyed session is live and in the set its key names. */
  ghost predicate KeysListed(keys: map<SessionId, Timed>, sets: Sets, live: set<SessionId>)
  {
    forall s :: s in keys ==> s in live && Has(sets, keys[s].value, s)
  }

  /** A live member of a set has a key naming that set; a member whose session is gone may linger. */
  ghost predicate ListedKeyed(keys: map<SessionId, Timed>, sets: Sets, live: set<SessionId>)
  {
    forall k, s :: Has(sets, k, s) && s in live ==> s in keys && keys[s].value == k
  }

  ghost predicate Known(sets: Sets, ever: set<SessionId>)
  {
    forall k, s :: Has(sets, k, s) ==> s in ever
  }

  ghost predicate Good(keys: map<SessionId, Timed>, x: Index, live: set<SessionId>, ever: set<SessionId>)
  {
    Named(x) && KeysListed(keys, x.sets, live) && ListedKeyed(keys, x.sets, live) && Known(x.sets, ever) && live <= ever
  }

  lemma GoodByAdd(keys: map<SessionId, Timed>, x: Index, live: set<SessionId>, ever: set<SessionId>, s: SessionId,
                  t: Timed)
    requires Good(keys, x, live, ever) && s !in ever
    ensures Good(keys[s := t], AddTo(x, t.value, s), live + {s}, ever + {s})
  {
  }

  lemma GoodByOther(keys: map<SessionId, Timed>, x: Index, live: set<SessionId>, ever: set<SessionId>, s: SessionId)
    requires Good(keys, x, live, ever) && s !in ever
    ensures Good(keys, x, live + {s}, ever + {s})
  {
  }

  lemma GoodByRemove(keys: map<SessionId, Timed>, x: Index, live: set<SessionId>, ever: set<SessionId>, s: SessionId)
    requires Good(keys, x, live, ever)
    ensures s in keys ==> Good(keys - {s}, RemoveFrom(x, keys[s].value, s), live - {s}, ever)
    ensures s !in keys ==> Good(keys - {s}, x, live - {s}, ever)
  {
  }

  /** Keys and live sessions disappear, together. */
  lemma GoodByExpiry(keys: map<SessionId, Timed>, x: Index, live: set<SessionId>, ever: set<SessionId>,
                     keys': map<SessionId, Timed>, live': set<SessionId>)
    requires Good(keys, x, live, ever) && live' <= live
    requires forall s :: s in keys' <==> s in keys && s in live'
    requires forall s :: s in keys' ==> keys'[s] == keys[s]
    ensures Good(keys', x, live', ever)
  {
  }

  /** After pruning, the sets list exactly the keyed sessions. */
  lemma GoodByPrune(keys: map<SessionId, Timed>, x: Index, live: set<SessionId>, ever: set<SessionId>)
    requires Good(keys, x, live, ever)
    ensures x.sets.Keys == x.active
    ensures Good(keys, PruneIndex(x, x.active, live), live, ever)
    ensures forall k, s :: Has(PruneIndex(x, x.active, live).sets, k, s) <==> s in keys && keys[s].value == k
  {
  }

  // ---------------------------------------------------------------------------
  // The invariant between Reaps
  // ---------------------------------------------------------------------------

  ghost predicate Indexed(r: Redis, ever: set<SessionId>)
  {
    Good(r.sessions, r.agents, r.sessions.Keys, ever) && Good(r.sessionSims, r.sims, r.sessions.Keys, ever)
  }

  ghost predicate SessionsTimely(r: Redis)
  {
    && (forall s :: s in r.sessions ==> r.now < r.sessions[s].deadline <= r.now + r.ttl)
    && (forall s :: s in r.sessionSims && s in r.sessions ==> r.sessionSims[s].deadline == r.sessions[s].deadline)
  }

  /** No simulation key expires before the next Reap is due, nor within a ttl of a live member. */
  ghost predicate SimsTimely(sets: Sets, simDeadline: map<string, nat>, sessions: map<SessionId, Timed>, ttl: nat,
                             due: nat)
  {
    && simDeadline.Keys == sets.Keys
    && (forall m :: m in simDeadline ==> due < simDeadline[m])
    && (forall m, s :: Has(sets, m, s) && s in sessions ==> sessions[s].deadline + ttl <= simDeadline[m])
  }

  ghost predicate Inv(r: Redis, ever: set<SessionId>, lastReap: nat)
  {
    && r.ttl > 0 && lastReap <= r.now <= lastReap + r.ttl
    && Indexed(r, ever) && SessionsTimely(r)
    && SimsTimely(r.sims.sets, r.simDeadline, r.sessions, r.ttl, lastReap + r.ttl)
  }

  lemma AgentsByTrack(r: Redis, ever: set<SessionId>, e: Entry)
    requires Good(r.sessions, r.agents, r.sessions.Keys, ever) && e.session !in ever
    ensures var r' := TrackAgent(r, e);
            Good(r'.sessions, r'.agents, r'.sessions.Keys, ever + {e.session}) &&
            r'.sessions.Keys == r.sessions.Keys + {e.session}
  {
  }

  lemma SessionsTimelyByTrack(r: Redis, e: Entry)
    requires SessionsTimely(r) && r.ttl > 0 && e.session !in r.sessionSims
    ensures SessionsTimely(TrackRedis(r, e))
  {
  }

  lemma SimsByTrack(r: Redis, ever: set<SessionId>, e: Entry)
    requires Good(r.sessionSims, r.sims, r.sessions.Keys, ever) && e.session !in ever
    ensures var r' := TrackRedis(r, e);
            Good(r'.sessionSims, r'.sims, r.sessions.Keys + {e.session}, ever + {e.session})
  {
    if e.simulation == "" {
      GoodByOther(r.sessionSims, r.sims, r.sessions.Keys, ever, e.session);
    } else {
      GoodByAdd(r.sessionSims, r.sims, r.sessions.Keys, ever, e.session, Timed(e.simulation, r.now + r.ttl));
    }
  }

  lemma DeadlinesByTrack(r: Redis, ever: set<SessionId>, due: nat, e: Entry)
    requires SimsTimely(r.sims.sets, r.simDeadline, r.sessions, r.ttl, due) && due < r.now + 2 * r.ttl
    requires SessionsTimely(r) && Known(r.sims.sets, ever) && e.session !in ever
    ensures var r' := TrackRedis(r, e); SimsTimely(r'.sims.sets, r'.simDeadline, r'.sessions, r'.ttl, due)
  {
  }

  lemma KeptByTrack(r: Redis, ever: set<SessionId>, lastReap: nat, e: Entry)
    requires Inv(r, ever, lastReap) && e.session !in ever
    ensures Inv(TrackRedis(r, e), ever + {e.session}, lastReap)
  {
    AgentsByTrack(r, ever, e);
    SimsByTrack(r, ever, e);
    SessionsTimelyByTrack(r, e);
    DeadlinesByTrack(r, ever, lastReap + r.ttl, e);
    var r' := TrackRedis(r, e);
    assert r'.sessions == TrackAgent(r, e).sessions && r'.agents == TrackAgent(r, e).agents;
    assert Indexed(r', ever + {e.session});
  }

  lemma SimsTimelyByRemove(sets: Sets, simDeadline: map<string, nat>, sessions: map<SessionId, Timed>, ttl: nat,
                           due: nat,
                           m: string, s: SessionId)
    requires SimsTimely(sets, simDeadline, sessions, ttl, due)
    ensures SimsTimely(sets, simDeadline, sessions - {s}, ttl, due)
    ensures var rest := Remove(sets, m, s);
            SimsTimely(rest, if m in rest then simDeadline else simDeadline - {m}, sessions - {s}, ttl, due)
  {
  }

  lemma KeptByUntrack(r: Redis, ever: set<SessionId>, lastReap: nat, s: SessionId)
    requires Inv(r, ever, lastReap)
    ensures Inv(UntrackRedis(r, s), ever, lastReap)
  {
    GoodByRemove(r.sessions, r.agents, r.sessions.Keys, ever, s);
    GoodByRemove(r.sessionSims, r.sims, r.sessions.Keys, ever, s);
    SimsTimelyByRemove(r.sims.sets, r.simDeadline, r.sessions, r.ttl, lastReap + r.ttl,
                       if s in r.sessionSims then r.sessionSims[s].value else "", s);
    assert UntrackRedis(r, s).sessions.Keys == r.sessions.Keys - {s};
  }

  lemma KeptByFlush(r: Redis, ever: set<SessionId>, lastReap: nat)
    requires Inv(r, ever, lastReap)
    ensures Inv(FlushRedis(r), ever, lastReap)
  {
  }

  /** What a Reap leaves: every set lists exactly the live sessions of its type or simulation, and
      the names are exactly those with a live session. */
  ghost predicate ExactFor(keys: map<SessionId, Timed>, x: Index)
  {
    && (forall k, s :: Has(x.sets, k, s) <==> s in keys && keys[s].value == k)
    && (forall k :: k in x.active <==> exists s :: s in keys && keys[s].value == k)
  }

  lemma ExactByPrune(keys: map<SessionId, Timed>, x: Index, live: set<SessionId>, ever: set<SessionId>)
    requires Good(keys, x, live, ever)
    ensures ExactFor(keys, PruneIndex(x, x.active, live))
  {
  }

  /** What a Reap does to a state whose indexes are good: both are pruned through their names, and
      no session loses its simulation. */
  function PruneBoth(r: Redis): Redis
  {
    var sims := PruneIndex(r.sims, r.sims.active, r.sessions.Keys);
    r.(agents := PruneIndex(r.agents, r.agents.active, r.sessions.Keys), sims := sims,
       simDeadline := KeptDeadlines(r.simDeadline, r.sims.sets, sims.sets))
  }

  lemma ReapIsPruneBoth(r: Redis, ever: set<SessionId>)
    requires Indexed(r, ever)
    ensures ReapRedis(r) == PruneBoth(r)
  {
    assert r.sims.sets.Keys == r.sims.active;
    assert KeptSims(r.sessionSims, r.sims.sets, r.sessions.Keys) == r.sessionSims;
  }

  lemma SimsTimelyByPrune(keys: map<SessionId, Timed>, x: Index, simDeadline: map<string, nat>,
                          sessions: map<SessionId, Timed>, ttl: nat, due: nat, ever: set<SessionId>, now: nat)
    requires SimsTimely(x.sets, simDeadline, sessions, ttl, due) && Good(keys, x, sessions.Keys, ever)
    requires forall s :: s in sessions ==> now < sessions[s].deadline
    ensures var rest := PruneIndex(x, x.active, sessions.Keys).sets;
            SimsTimely(rest, KeptDeadlines(simDeadline, x.sets, rest), sessions, ttl, now + ttl)
  {
  }

  lemma KeptByPruneBoth(r: Redis, ever: set<SessionId>, lastReap: nat)
    requires Inv(r, ever, lastReap)
    ensures Inv(PruneBoth(r), ever, r.now)
  {
    SimsTimelyByPrune(r.sessionSims, r.sims, r.simDeadline, r.sessions, r.ttl, lastReap + r.ttl, ever, r.now);
    GoodByPrune(r.sessions, r.agents, r.sessions.Keys, ever);
    GoodByPrune(r.sessionSims, r.sims, r.sessions.Keys, ever);
  }

  lemma KeptByReap(r: Redis, ever: set<SessionId>, lastReap: nat)
    requires Inv(r, ever, lastReap)
    ensures Inv(ReapRedis(r), ever, r.now)
    ensures ExactFor(ReapRedis(r).sessions, ReapRedis(r).agents)
    ensures ExactFor(ReapRedis(r).sessionSims, ReapRedis(r).sims)
  {
    ReapIsPruneBoth(r, ever);
    KeptByPruneBoth(r, ever, lastReap);
    ExactByPrune(r.sessions, r.agents, r.sessions.Keys, ever);
    ExactByPrune(r.sessionSims, r.sims, r.sessions.Keys, ever);
  }

  lemma KeptByAdvance(r: Redis, ever: set<SessionId>, lastReap: nat, to: nat)
    requires Inv(r, ever, lastReap) && r.now <= to <= lastReap + r.ttl
    ensures Inv(AdvanceRedis(r, to), ever, lastReap)
  {
    var r' := AdvanceRedis(r, to);
    assert r'.sims.sets == r.sims.sets && r'.simDeadline == r.simDeadline;
    GoodByExpiry(r.sessions, r.agents, r.sessions.Keys, ever, r'.sessions, r'.sessions.Keys);
    GoodByExpiry(r.sessionSims, r.sims, r.sessions.Keys, ever, r'.sessionSims, r'.sessions.Keys);
  }

  // ---------------------------------------------------------------------------
  // Whole runs
  // ---------------------------------------------------------------------------

  /** The session ids tracked so far. */
  function Ever(ops: seq<Op>): set<SessionId>
  {
    if ops == [] then {}
    else
      var op := ops[|ops| - 1];
      Ever(ops[..|ops| - 1]) + if op.Track? then {op.entry.session} else {}
  }

  /** The time of the last Reap, or 0. */
  function LastReap(ttl: nat, ops: seq<Op>): nat
  {
    if ops == [] then 0
    else
      var before := ops[..|ops| - 1];
      if ops[|ops| - 1].Reap? then RunRedis(EmptyRedis(ttl), before).now else LastReap(ttl, before)
  }

  /** Every session id is tracked once, and no more than `gap` passes without a Reap. */
  predicate Spaced(ttl: nat, gap: nat, ops: seq<Op>)
  {
    ops == [] ||
    var before, op := ops[..|ops| - 1], ops[|ops| - 1];
    Spaced(ttl, gap, before) &&
    match op
    case Track(e) => e.session !in Ever(before)
    case Advance(to) => RunRedis(EmptyRedis(ttl), before).now <= to <= LastReap(ttl, before) + gap
    case _ => true
  }

  /** Reaps at most a ttl apart. */
  predicate Lawful(ttl: nat, ops: seq<Op>)
  {
    Spaced(ttl, ttl, ops)
  }

  lemma {:induction false} InvAlways(ttl: nat, ops: seq<Op>)
    requires ttl > 0 && Lawful(ttl, ops)
    ensures Inv(RunRedis(EmptyRedis(ttl), ops), Ever(ops), LastReap(ttl, ops))
    ensures RunRedis(EmptyRedis(ttl), ops).ttl == ttl
  {
    if ops != [] {
      var before, op := ops[..|ops| - 1], ops[|ops| - 1];
      InvAlways(ttl, before);
      var r := RunRedis(EmptyRedis(ttl), before);
      match op
      case Track(e) => KeptByTrack(r, Ever(before), LastReap(ttl, before), e);
      case Untrack(s) => KeptByUntrack(r, Ever(before), LastReap(ttl, before), s);
      case Flush => KeptByFlush(r, Ever(before), LastReap(ttl, before));
      case Reap => KeptByReap(r, Ever(before), LastReap(ttl, before));
      case Advance(to) => KeptByAdvance(r, Ever(before), LastReap(ttl, before), to);
    }
  }

  /** Right after each Reap of such a run, agent-sessions lists exactly the live sessions of each
      type, active-agents exactly the types with a live session, and active-simulations exactly
      the simulations with a live session. */
  lemma ExactAfterEveryReap(ttl: nat, ops: seq<Op>)
    requires ttl > 0 && Lawful(ttl, ops) && ops != [] && ops[|ops| - 1] == Reap
    ensures var r := RunRedis(EmptyRedis(ttl), ops);
            ExactFor(r.sessions, r.agents) && ExactFor(r.sessionSims, r.sims) &&
            forall s :: s in r.sessionSims ==> s in r.sessions
  {
    var before := ops[..|ops| - 1];
    InvAlways(ttl, before);
    KeptByReap(RunRedis(EmptyRedis(ttl), before), Ever(before), LastReap(ttl, before));
  }
}
