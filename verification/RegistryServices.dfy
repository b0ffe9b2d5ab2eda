/** The two registry services. Each carries the operations it has handled, and is proved to be in the
    state they lead to in `RegistryState`. */
module RegistryServices {
  import opened Multimaps
  import opened Options
  import opened RegistryState
  import opened RegistryTheorems
  import RegistryGaps
  import RegistryHistory
  import RegistrySets

  /** A batch is its entries tracked one after another. */
  function Tracks(es: seq<Entry>): (ops: seq<Op>)
    ensures |ops| == |es| && forall i :: 0 <= i < |es| ==> ops[i] == Track(es[i])
  {
    if es == [] then [] else Tracks(es[..|es| - 1]) + [Track(es[|es| - 1])]
  }

  lemma TracksStep(es: seq<Entry>, i: nat)
    requires i < |es|
    ensures Tracks(es[..i + 1]) == Tracks(es[..i]) + [Track(es[i])]
  {
    assert es[..i + 1][..i] == es[..i];
  }

  /** No set is ever left empty, whatever is handled. */
  lemma {:induction false} PrunedAlways(ttl: nat, ops: seq<Op>)
    ensures Pruned(RunRedis(EmptyRedis(ttl), ops).agents.sets) && Pruned(RunRedis(EmptyRedis(ttl), ops).sims.sets)
  {
    if ops != [] {
      PrunedAlways(ttl, ops[..|ops| - 1]);
    }
  }

  class InMemorySessionService {
    var agentTypes: map<SessionId, string>
    var agentSessions: Sets
    var sessionSim: map<SessionId, string>
    var simSessions: Sets
    ghost var ops: seq<Op>

    ghost function State(): Memory
      reads this
    {
      Memory(agentTypes, agentSessions, sessionSim, simSessions)
    }

    ghost predicate Valid()
      reads this
    {
      State() == RunMemory(EMPTY_MEMORY, ops)
    }

    constructor ()
      ensures Valid() && ops == []
    {
      agentTypes, agentSessions, sessionSim, simSessions := map[], map[], map[], map[];
      ops := [];
    }

    method TrackSession(e: Entry)
      requires Valid()
      modifies this
      ensures Valid() && ops == old(ops) + [Track(e)]
    {
      OneMoreMemory(ops, Track(e));
      ops := ops + [Track(e)];
      agentTypes := agentTypes[e.session := e.agentType];
      agentSessions := Add(agentSessions, e.agentType, e.session);
      if e.simulation != "" {
        sessionSim := sessionSim[e.session := e.simulation];
        simSessions := Add(simSessions, e.simulation, e.session);
      }
    }

    method BatchTrackSessions(es: seq<Entry>)
      requires Valid()
      modifies this
      ensures Valid() && ops == old(ops) + Tracks(es)
    {
      for i := 0 to |es|
        invariant Valid() && ops == old(ops) + Tracks(es[..i])
      {
        TracksStep(es, i);
        TrackSession(es[i]);
      }
      assert es[..|es|] == es;
    }

    method UntrackSession(s: SessionId)
      requires Valid()
      modifies this
      ensures Valid() && ops == old(ops) + [Untrack(s)]
    {
      OneMoreMemory(ops, Untrack(s));
      ops := ops + [Untrack(s)];
      if s in agentTypes {
        agentSessions := Remove(agentSessions, agentTypes[s], s);
      }
      agentTypes := agentTypes - {s};
      if s in sessionSim {
        simSessions := Remove(simSessions, sessionSim[s], s);
      }
      sessionSim := sessionSim - {s};
    }

    method Flush() returns (count: nat)
      requires Valid()
      modifies this
      ensures Valid() && ops == old(ops) + [Op.Flush] && count == |old(agentTypes)|
    {
      OneMoreMemory(ops, Op.Flush);
      ops := ops + [Op.Flush];
      count := |agentTypes|;
      agentTypes, agentSessions, sessionSim, simSessions := map[], map[], map[], map[];
    }

    /** Nothing expires here. */
    method Reap() returns (reaped: nat)
      requires Valid()
      modifies `ops
      ensures Valid() && ops == old(ops) + [Op.Reap] && reaped == 0
    {
      OneMoreMemory(ops, Op.Reap);
      ops, reaped := ops + [Op.Reap], 0;
    }
  }

  /** The members that a pass over `types` finds stale. */
  ghost function StalePairs(sets: Sets, types: set<string>, live: set<SessionId>): set<(string, SessionId)>
  {
    set t, s | t in types && t in sets && s in sets[t] && s !in live :: (t, s)
  }

  lemma {:induction false} TaggedCount(t: string, xs: set<SessionId>)
    ensures |set s | s in xs :: (t, s)| == |xs|
  {
    if xs != {} {
      var x :| x in xs;
      TaggedCount(t, xs - {x});
      assert (set s | s in xs :: (t, s)) == (set s | s in xs - {x} :: (t, s)) + {(t, x)};
    } else {
      assert (set s | s in xs :: (t, s)) == {};
    }
  }

  lemma OneMoreType(sets: Sets, types: set<string>, live: set<SessionId>, t: string)
    requires t !in types
    ensures |StalePairs(sets, types + {t}, live)| == |StalePairs(sets, types, live)| + |Get(sets, t) - live|
  {
    var stale := Get(sets, t) - live;
    TaggedCount(t, stale);
    assert StalePairs(sets, types + {t}, live) == StalePairs(sets, types, live) + set s | s in stale :: (t, s);
  }

  lemma OneMoreForward(ttl: nat, ops: seq<Op>, op: Op)
    ensures RunRedis(EmptyRedis(ttl), ops + [op]) == StepRedis(RunRedis(EmptyRedis(ttl), ops), op)
    ensures RegistryHistory.Forward(ops) && (op.Advance? ==> RunRedis(EmptyRedis(ttl), ops).now <= op.to) ==>
              RegistryHistory.Forward(ops + [op])
  {
    OneMoreRedis(ttl, ops, op);
    RegistryHistory.ClockIs(ttl, ops);
    assert (ops + [op])[..|ops|] == ops;
  }

  /** What a family of sets lists. */
  ghost function Pairs(sets: Sets): (pairs: set<(string, SessionId)>)
    ensures forall t, s :: (t, s) in pairs <==> Has(sets, t, s)
  {
    set t, s | t in sets && s in sets[t] :: (t, s)
  }

  lemma {:induction false} SmallerBy<T>(a: set<T>, b: set<T>)
    requires b <= a
    ensures |a - b| == |a| - |b|
  {
  }

  /** A Reap counts what it drops from the sets of the agent types. */
  lemma ReapedIsDropped(sets: Sets, active: set<string>, live: set<SessionId>)
    requires sets.Keys == active
    ensures |StalePairs(sets, active, live)| == |Pairs(sets)| - |Pairs(Prune(sets, active, live))|
  {
    assert Pairs(Prune(sets, active, live)) <= Pairs(sets);
    assert StalePairs(sets, active, live) == Pairs(sets) - Pairs(Prune(sets, active, live));
    SmallerBy(Pairs(sets), Pairs(Prune(sets, active, live)));
  }

  class RedisSessionRegistry {
    const ttl: nat
    var now: nat
    var sessions: map<SessionId, Timed>
    var sessionSims: map<SessionId, Timed>
    var agentSessions: Sets
    var activeAgents: set<string>
    var simSessions: Sets
    var activeSims: set<string>
    var simDeadline: map<string, nat>
    ghost var ops: seq<Op>

    ghost function State(): Redis
      reads this
    {
      Redis(ttl, now, sessions, sessionSims, Index(agentSessions, activeAgents), Index(simSessions, activeSims),
            simDeadline)
    }

    ghost predicate Valid()
      reads this
    {
      State() == RunRedis(EmptyRedis(ttl), ops) && RegistryHistory.Forward(ops)
    }

    constructor (ttl: nat)
      ensures Valid() && this.ttl == ttl && ops == []
    {
      this.ttl, now, sessions, sessionSims, simDeadline := ttl, 0, map[], map[], map[];
      agentSessions, activeAgents, simSessions, activeSims := map[], {}, map[], {};
      ops := [];
    }

    /** Time passes; Redis drops the keys that expire. */
    method Advance(to: nat)
      requires Valid() && now <= to
      modifies this
      ensures Valid() && ops == old(ops) + [Op.Advance(to)] && now == to
    {
      OneMoreForward(ttl, ops, Op.Advance(to));
      Expire(to);
      ops := ops + [Op.Advance(to)];
    }

    method Expire(to: nat)
      modifies `now, `sessions, `sessionSims, `simSessions, `simDeadline
      ensures State() == AdvanceRedis(old(State()), to)
    {
      var sets := map m | m in simSessions && (m in simDeadline ==> to < simDeadline[m]) :: simSessions[m];
      var deadlines := map m | m in simDeadline && to < simDeadline[m] :: simDeadline[m];
      now, sessions, sessionSims := to, AliveAt(sessions, to), AliveAt(sessionSims, to);
      simSessions, simDeadline := sets, deadlines;
    }

    method SetAgent(e: Entry)
      modifies `sessions, `agentSessions, `activeAgents
      ensures State() == TrackAgent(old(State()), e)
    {
      sessions := sessions[e.session := Timed(e.agentType, now + ttl)];
      agentSessions, activeAgents := Add(agentSessions, e.agentType, e.session), activeAgents + {e.agentType};
    }

    method SetSimulation(e: Entry)
      modifies `simSessions, `activeSims, `simDeadline, `sessionSims
      ensures State() == TrackSim(old(State()), e)
    {
      simSessions, activeSims := Add(simSessions, e.simulation, e.session), activeSims + {e.simulation};
      simDeadline := simDeadline[e.simulation := now + 2 * ttl];
      sessionSims := sessionSims[e.session := Timed(e.simulation, now + ttl)];
    }

    method TrackSession(e: Entry)
      requires Valid()
      modifies this
      ensures Valid() && ops == old(ops) + [Track(e)] && now == old(now)
    {
      OneMoreForward(ttl, ops, Track(e));
      SetAgent(e);
      if e.simulation != "" {
        SetSimulation(e);
      }
      ops := ops + [Track(e)];
    }

    method BatchTrackSessions(es: seq<Entry>)
      requires Valid()
      modifies this
      ensures Valid() && ops == old(ops) + Tracks(es) && now == old(now)
    {
      for i := 0 to |es|
        invariant Valid() && ops == old(ops) + Tracks(es[..i]) && now == old(now)
      {
        TracksStep(es, i);
        TrackSession(es[i]);
      }
      assert es[..|es|] == es;
    }

    method UntrackSession(s: SessionId)
      requires Valid()
      modifies this
      ensures Valid() && ops == old(ops) + [Untrack(s)] && now == old(now)
    {
      OneMoreForward(ttl, ops, Untrack(s));
      Forget(s);
      ops := ops + [Untrack(s)];
    }

    /** The lookups, the deletions and the clean-up of sets left empty. */
    method Forget(s: SessionId)
      modifies `sessions, `sessionSims, `agentSessions, `activeAgents, `simSessions, `activeSims, `simDeadline
      ensures State() == UntrackRedis(old(State()), s)
    {
      var agentType := if s in sessions then Some(sessions[s].value) else None;
      var sim := if s in sessionSims then Some(sessionSims[s].value) else None;
      sessions, sessionSims := sessions - {s}, sessionSims - {s};
      if agentType.Some? {
        agentSessions := Remove(agentSessions, agentType.value, s);
        if agentType.value !in agentSessions {
          activeAgents := activeAgents - {agentType.value};
        }
      }
      if sim.Some? {
        simSessions := Remove(simSessions, sim.value, s);
        if sim.value !in simSessions {
          simDeadline := simDeadline - {sim.value};
          activeSims := activeSims - {sim.value};
        }
      }
    }

    method Flush() returns (count: nat)
      requires Valid()
      modifies this
      ensures Valid() && ops == old(ops) + [Op.Flush] && count == |old(sessions)| && now == old(now)
    {
      OneMoreForward(ttl, ops, Op.Flush);
      count := DeleteAll();
      ops := ops + [Op.Flush];
    }

    method DeleteAll() returns (count: nat)
      modifies `sessions, `sessionSims, `agentSessions, `activeAgents, `simSessions, `activeSims, `simDeadline
      ensures State() == FlushRedis(old(State())) && count == |old(sessions)|
    {
      DeleteAgents();
      DeleteSimulations();
      count := CountedDelete(sessions);
      sessions, sessionSims := map[], map[];
    }

    method DeleteAgents()
      modifies `agentSessions, `activeAgents
      ensures agentSessions == old(agentSessions) - old(activeAgents) && activeAgents == {}
    {
      agentSessions := DeleteSets(agentSessions, activeAgents);
      activeAgents := {};
    }

    method DeleteSimulations()
      modifies `simSessions, `activeSims, `simDeadline
      ensures simSessions == map[] && activeSims == {} && simDeadline == map[]
    {
      simSessions, activeSims, simDeadline := map[], {}, map[];
    }

    /** Prunes the sets of the active types and of the scanned simulations against the live session
        keys, and counts the stale members of the former. */
    method PruneAll() returns (reaped: nat)
      requires Pruned(agentSessions) && Pruned(simSessions)
      modifies `sessionSims, `agentSessions, `activeAgents, `simSessions, `activeSims, `simDeadline
      ensures State() == ReapRedis(old(State()))
      ensures reaped == |StalePairs(old(agentSessions), old(activeAgents), old(sessions).Keys)|
    {
      var live := sessions.Keys;
      var agents, sims;
      agents, reaped := ReapAgents(Index(agentSessions, activeAgents), live);
      sims, sessionSims := ReapSims(Index(simSessions, activeSims), sessionSims, live);
      simDeadline := KeptDeadlines(simDeadline, simSessions, sims.sets);
      agentSessions, activeAgents := agents.sets, agents.active;
      simSessions, activeSims := sims.sets, sims.active;
    }

    /** The type under which s was last tracked, while its key lives. */
    method FindAgentType(s: SessionId) returns (agentType: Option<string>)
      requires Valid()
      ensures forall t :: agentType == Some(t) <==> RegistrySets.KeySays(ttl, ops, s, t)
    {
      agentType := if s in sessions then Some(sessions[s].value) else None;
      forall t ensures agentType == Some(t) <==> RegistrySets.KeySays(ttl, ops, s, t) {
        RegistrySets.KeySaysIs(ttl, ops, s, t);
      }
    }

    /** The simulation under which s was last tracked, while its key lives; empty without one. */
    method FindSimulation(s: SessionId) returns (sim: string)
      requires Valid()
      ensures forall m :: m != "" ==> (sim == m <==> RegistrySets.SimulationSays(ttl, ops, s, m))
    {
      sim := if s in sessionSims then sessionSims[s].value else "";
      forall m | m != "" ensures sim == m <==> RegistrySets.SimulationSays(ttl, ops, s, m) {
        RegistrySets.SimulationSaysIs(ttl, ops, s, m);
      }
    }

    /** The types with a listed session. */
    method ActiveAgentTypes() returns (types: set<string>)
      requires Valid()
      ensures forall t :: t in types <==> exists s :: RegistrySets.TypeListed(ttl, ops, |ops|, t, s)
    {
      types := activeAgents;
      RegistrySets.TypesNamed(ttl, ops);
      assert ops[..|ops|] == ops;
      forall t ensures t in types <==> exists s :: RegistrySets.TypeListed(ttl, ops, |ops|, t, s) {
        RegistrySets.NamedTypes(ttl, ops, t);
      }
    }

    /** The simulations whose name is listed. */
    method ListSimulations() returns (sims: set<string>)
      requires Valid()
      ensures forall m :: m in sims <==> RegistrySets.SimNamed(ttl, ops, |ops|, m)
    {
      sims := activeSims;
      assert ops[..|ops|] == ops;
      forall m ensures m in sims <==> RegistrySets.SimNamed(ttl, ops, |ops|, m) {
        RegistrySets.SimNamesExact(ttl, ops, |ops|, m);
      }
    }

    /** The sessions with a key. */
    method ListSessions() returns (tracked: set<SessionId>)
      requires Valid()
      ensures forall s :: s in tracked <==> RegistrySets.HasKey(ttl, ops, s)
    {
      tracked := sessions.Keys;
      forall s ensures s in tracked <==> RegistrySets.HasKey(ttl, ops, s) {
        RegistrySets.HasKeyIs(ttl, ops, s);
      }
    }

    /** With each session id tracked once, every index is exact afterwards if Reaps have come at most a
        ttl apart, and in any case exactly when every listed simulation still had its key. */
    method Reap() returns (reaped: nat)
      requires Valid()
      modifies this
      ensures Valid() && ops == old(ops) + [Op.Reap] && now == old(now)
      ensures reaped == |StalePairs(old(agentSessions), old(activeAgents), old(sessions).Keys)|
      ensures reaped == |Pairs(old(agentSessions))| - |Pairs(agentSessions)|
      ensures ExactIfLawful(ttl, old(ops), State())
      ensures ExactIffKeyed(ttl, old(ops), old(State()), State())
    {
      PrunedAlways(ttl, ops);
      ReapIsExact(ttl, ops);
      RegistrySets.TypesNamed(ttl, ops);
      ReapedIsDropped(agentSessions, activeAgents, sessions.Keys);
      OneMoreForward(ttl, ops, Op.Reap);
      reaped := PruneAll();
      ops := ops + [Op.Reap];
    }
  }

  /** After a run with each session id tracked once and Reaps at most a ttl apart, every index of r is
      exact. */
  ghost predicate ExactIfLawful(ttl: nat, ops: seq<Op>, r: Redis)
  {
    ttl > 0 && Lawful(ttl, ops) ==> ExactFor(r.sessions, r.agents) && ExactFor(r.sessionSims, r.sims)
  }

  /** After any run with each session id tracked once, the simulations of `after` are exact if and only
      if every simulation listed in `before` had its key. */
  ghost predicate ExactIffKeyed(ttl: nat, ops: seq<Op>, before: Redis, after: Redis)
  {
    ttl > 0 && RegistryGaps.TrackedOnce(ttl, ops) ==>
      (ExactFor(after.sessionSims, after.sims) <==> before.sims.active == before.sims.sets.Keys)
  }

  lemma ReapIsExact(ttl: nat, ops: seq<Op>)
    ensures var r := RunRedis(EmptyRedis(ttl), ops);
            ExactIfLawful(ttl, ops, ReapRedis(r)) && ExactIffKeyed(ttl, ops, r, ReapRedis(r))
  {
    var r := RunRedis(EmptyRedis(ttl), ops);
    if ttl > 0 && Lawful(ttl, ops) {
      InvAlways(ttl, ops);
      KeptByReap(r, Ever(ops), LastReap(ttl, ops));
    }
    if ttl > 0 && RegistryGaps.TrackedOnce(ttl, ops) {
      RegistryGaps.LooseInvAlways(ttl, ops);
      RegistryGaps.ReapExactIff(r, Ever(ops));
    }
  }

  /** Flush deletes the agent sets it finds through active-agents. */
  method DeleteSets(sets: Sets, names: set<string>) returns (r: Sets)
    ensures r == sets - names
  {
    r := sets;
    var todo := names;
    while todo != {}
      invariant todo <= names && r == sets - (names - todo)
    {
      var t :| t in todo;
      r := r - {t};
      todo := todo - {t};
    }
    assert names - todo == names;
  }

  /** Flush deletes the session keys its scan finds, counting them. */
  method CountedDelete(keys: map<SessionId, Timed>) returns (count: nat)
    ensures count == |keys|
  {
    count := 0;
    var todo := keys.Keys;
    while todo != {}
      invariant count + |todo| == |keys|
    {
      var s :| s in todo;
      todo := todo - {s};
      count := count + 1;
    }
  }

  /** `sets` is `sets0` with the sets named by `done` reduced to their live members. */
  ghost predicate Swept(sets0: Sets, done: set<string>, live: set<SessionId>, sets: Sets)
  {
    && Pruned(sets)
    && (forall k, s :: Has(sets, k, s) <==> Has(sets0, k, s) && (k in done ==> s in live))
    && (forall k :: k !in done ==> (k in sets <==> k in sets0))
    && (forall k :: k in sets ==> k in sets0)
  }

  lemma SweptOnce(sets0: Sets, done: set<string>, live: set<SessionId>, sets: Sets, k: string, next: Sets)
    requires Swept(sets0, done, live, sets) && Swept(sets, {k}, live, next) && k !in done
    ensures Swept(sets0, done + {k}, live, next)
    ensures Get(sets, k) == Get(sets0, k)
  {
  }

  lemma SweptAll(sets0: Sets, ks: set<string>, live: set<SessionId>, sets: Sets)
    requires Pruned(sets0) && Swept(sets0, ks, live, sets)
    ensures sets == Prune(sets0, ks, live)
  {
    PairsDetermine(sets, Prune(sets0, ks, live));
  }

  /** Of the names, exactly those of the sets emptied so far are gone. */
  ghost predicate NamesFollow(x: Index, sets: Sets, names: set<string>)
  {
    forall k :: k in names <==> k in x.active && (k in x.sets ==> k in sets)
  }

  lemma NamesOnce(x: Index, sets: Sets, names: set<string>, k: string, live: set<SessionId>, next: Sets)
    requires NamesFollow(x, sets, names) && Swept(sets, {k}, live, next)
    requires forall j :: j in sets ==> j in x.sets
    ensures NamesFollow(x, next, if k in sets && k !in next then names - {k} else names)
  {
  }

  lemma NamesAll(x: Index, ks: set<string>, live: set<SessionId>, sets: Sets, names: set<string>)
    requires Pruned(x.sets) && Swept(x.sets, ks, live, sets) && NamesFollow(x, sets, names)
    ensures Index(sets, names) == PruneIndex(x, ks, live)
  {
    SweptAll(x.sets, ks, live, sets);
    assert names == PruneIndex(x, ks, live).active;
  }

  /** One set: SREM of its stale members, and DEL when SCARD is 0. */
  method ReapSet(sets: Sets, k: string, live: set<SessionId>) returns (r: Sets)
    requires Pruned(sets)
    ensures Swept(sets, {k}, live, r)
  {
    if k !in sets {
      r := sets;
    } else {
      var remaining := sets[k] * live;
      assert forall s :: s in remaining <==> Has(sets, k, s) && s in live;
      if remaining == {} {
        r := sets - {k};
        assert forall s :: Has(sets, k, s) && s in live ==> s in remaining;
      } else {
        r := sets[k := remaining];
      }
    }
  }

  /** After the sets named by `done`: the sets, the names and the count of stale members. */
  ghost predicate Reaped(x: Index, done: set<string>, live: set<SessionId>, y: Index, reaped: nat)
  {
    Swept(x.sets, done, live, y.sets) && NamesFollow(x, y.sets, y.active) && reaped == |StalePairs(x.sets, done, live)|
  }

  /** One type: its set is reduced to its live members, and its name goes if the set does. */
  method ReapType(x: Index, ghost done: set<string>, live: set<SessionId>, y: Index, reaped: nat, t: string)
    returns (z: Index, total: nat)
    requires Reaped(x, done, live, y, reaped) && t !in done
    ensures Reaped(x, done + {t}, live, z, total)
  {
    var next := ReapSet(y.sets, t, live);
    SweptOnce(x.sets, done, live, y.sets, t, next);
    NamesOnce(x, y.sets, y.active, t, live, next);
    OneMoreType(x.sets, done, live, t);
    z := Index(next, if t in y.sets && t !in next then y.active - {t} else y.active);
    total := reaped + |Get(y.sets, t) - live|;
  }

  /** The pass over the active types. */
  method ReapAgents(x: Index, live: set<SessionId>) returns (y: Index, reaped: nat)
    requires Pruned(x.sets)
    ensures y == PruneIndex(x, x.active, live)
    ensures reaped == |StalePairs(x.sets, x.active, live)|
  {
    y, reaped := x, 0;
    var done: set<string> := {};
    assert StalePairs(x.sets, {}, live) == {};
    while done != x.active
      invariant done <= x.active && Reaped(x, done, live, y, reaped)
      decreases |x.active - done|
    {
      var t :| t in x.active - done;
      y, reaped := ReapType(x, done, live, y, reaped, t);
      assert x.active - done - {t} == x.active - (done + {t});
      done := done + {t};
    }
    NamesAll(x, x.active, live, y.sets, y.active);
  }

  /** The pass over the scanned simulation sets. */
  method ReapSims(x: Index, keys: map<SessionId, Timed>, live: set<SessionId>)
    returns (y: Index, kept: map<SessionId, Timed>)
    requires Pruned(x.sets)
    ensures y == PruneIndex(x, x.sets.Keys, live)
    ensures kept == KeptSims(keys, x.sets, live)
  {
    var sets, names, todo := x.sets, x.active, x.sets.Keys;
    ghost var done: set<string> := {};
    kept := keys;
    while todo != {}
      invariant done !! todo && done + todo == x.sets.Keys
      invariant Swept(x.sets, done, live, sets)
      invariant NamesFollow(x, sets, names)
      invariant forall s :: s in kept <==> s in keys && (s in live || forall m :: m in done ==> s !in x.sets[m])
      invariant forall s :: s in kept ==> kept[s] == keys[s]
    {
      var m :| m in todo;
      var next := ReapSet(sets, m, live);
      SweptOnce(x.sets, done, live, sets, m, next);
      NamesOnce(x, sets, names, m, live, next);
      kept := kept - (x.sets[m] - live);
      if m in sets && m !in next {
        names := names - {m};
      }
      sets, todo, done := next, todo - {m}, done + {m};
    }
    assert done == x.sets.Keys;
    NamesAll(x, x.sets.Keys, live, sets, names);
    y := Index(sets, names);
    assert kept == KeptSims(keys, x.sets, live);
  }
}
