/** When nothing expires, the Redis registry answers like the in-memory one. */
module RegistryAgreement {
  import opened Multimaps
  import opened RegistryState
  import opened RegistryTheorems

  /** What a caller of DistributedRegistry can observe: FindAgentType and ListSessions (`types`),
      FindSimulation (`simulations`), ActiveAgentTypes, ListSimulations, and the count Flush would
      return. */
  datatype Answers = Answers(
    types: map<SessionId, string>,
    simulations: map<SessionId, string>,
    activeTypes: set<string>,
    activeSims: set<string>,
    flushCount: nat)

  function Values(keys: map<SessionId, Timed>): (values: map<SessionId, string>)
    ensures values.Keys == keys.Keys
    ensures forall s :: s in keys ==> values[s] == keys[s].value
  {
    map s | s in keys :: keys[s].value
  }

  function AnswersOfRedis(r: Redis): Answers
  {
    Answers(Values(r.sessions), Values(r.sessionSims), r.agents.active, r.sims.active, |r.sessions|)
  }

  function AnswersOfMemory(m: Memory): Answers
  {
    Answers(m.agentTypes, m.sessionSim, (set t | t in m.agentSessions && m.agentSessions[t] != {}),
            m.simSessions.Keys, |m.agentTypes|)
  }

  ghost predicate SameValues(keys: map<SessionId, Timed>, values: map<SessionId, string>)
  {
    && (forall s :: s in keys <==> s in values)
    && (forall s :: s in keys ==> keys[s].value == values[s])
  }

  /** One half of the registry: an index of one store against the maps of the other. */
  ghost predicate SameHalf(keys: map<SessionId, Timed>, x: Index, values: map<SessionId, string>, sets: Sets)
  {
    SameValues(keys, values) && x.sets == sets && Named(x)
  }

  ghost predicate Same(r: Redis, m: Memory)
  {
    && SameHalf(r.sessions, r.agents, m.agentTypes, m.agentSessions)
    && SameHalf(r.sessionSims, r.sims, m.sessionSim, m.simSessions)
  }

  lemma HalfByAdd(keys: map<SessionId, Timed>, x: Index, values: map<SessionId, string>, sets: Sets, s: SessionId,
                  t: Timed)
    requires SameHalf(keys, x, values, sets)
    ensures SameHalf(keys[s := t], AddTo(x, t.value, s), values[s := t.value], Add(sets, t.value, s))
  {
  }

  lemma HalfByRemove(keys: map<SessionId, Timed>, x: Index, values: map<SessionId, string>, sets: Sets, s: SessionId)
    requires SameHalf(keys, x, values, sets)
    ensures s in values <==> s in keys
    ensures s in keys ==>
              values[s] == keys[s].value &&
              SameHalf(keys - {s}, RemoveFrom(x, keys[s].value, s), values - {s}, Remove(sets, keys[s].value, s))
    ensures s !in keys ==> SameHalf(keys - {s}, x, values - {s}, sets)
  {
  }

  lemma SameAnswers(r: Redis, m: Memory)
    requires Same(r, m)
    ensures AnswersOfRedis(r) == AnswersOfMemory(m)
  {
    var a, b := AnswersOfRedis(r), AnswersOfMemory(m);
    assert a.types == b.types && a.simulations == b.simulations;
    assert r.sessions.Keys == m.agentTypes.Keys;
    assert a.activeTypes == b.activeTypes && a.activeSims == b.activeSims;
  }

  /** Neither reverse index has a member without a session key. */
  ghost predicate NoOrphans(r: Redis)
  {
    forall k, s :: Has(r.agents.sets, k, s) || Has(r.sims.sets, k, s) ==> s in r.sessions
  }

  lemma SameByTrack(r: Redis, m: Memory, e: Entry)
    requires Same(r, m)
    ensures Same(TrackRedis(r, e), TrackMemory(m, e))
  {
    HalfByAdd(r.sessions, r.agents, m.agentTypes, m.agentSessions, e.session, Timed(e.agentType, r.now + r.ttl));
    HalfByAdd(r.sessionSims, r.sims, m.sessionSim, m.simSessions, e.session, Timed(e.simulation, r.now + r.ttl));
  }

  lemma SameByUntrack(r: Redis, m: Memory, s: SessionId)
    requires Same(r, m)
    ensures Same(UntrackRedis(r, s), UntrackMemory(m, s))
  {
    HalfByRemove(r.sessions, r.agents, m.agentTypes, m.agentSessions, s);
    HalfByRemove(r.sessionSims, r.sims, m.sessionSim, m.simSessions, s);
  }

  lemma SameByFlush(r: Redis, m: Memory)
    requires Same(r, m)
    ensures Same(FlushRedis(r), EMPTY_MEMORY)
  {
  }

  /** A Reap leaves the two registries in agreement exactly when it finds no orphan. */
  lemma ReapAgreesIffNoOrphans(r: Redis, m: Memory)
    requires Same(r, m)
    ensures Same(ReapRedis(r), m) <==> NoOrphans(r)
  {
    var r' := ReapRedis(r);
    assert r.agents.active == r.agents.sets.Keys;
    if NoOrphans(r) {
      forall k, s ensures Has(r'.agents.sets, k, s) <==> Has(r.agents.sets, k, s) {
      }
      PairsDetermine(r'.agents.sets, r.agents.sets);
      forall k, s ensures Has(r'.sims.sets, k, s) <==> Has(r.sims.sets, k, s) {
      }
      PairsDetermine(r'.sims.sets, r.sims.sets);
      forall s | s in r.sessionSims ensures s in r'.sessionSims {
        if InSome(r.sims.sets, s) {
          var k :| k in r.sims.sets && s in r.sims.sets[k];
          assert Has(r.sims.sets, k, s);
        }
      }
    } else {
      var k, s :| (Has(r.agents.sets, k, s) || Has(r.sims.sets, k, s)) && s !in r.sessions;
      assert !Has(r'.agents.sets, k, s) && !Has(r'.sims.sets, k, s);
    }
  }

  lemma OrphanFreeStep(r: Redis, op: Op, ever: set<SessionId>, lastReap: nat)
    requires Inv(r, ever, lastReap) && NoOrphans(r) && !op.Advance?
    requires op.Track? ==> op.entry.session !in ever
    ensures NoOrphans(StepRedis(r, op))
  {
  }

  ghost predicate Timeless(ops: seq<Op>)
  {
    forall i :: 0 <= i < |ops| ==> !ops[i].Advance?
  }

  lemma {:induction false} OrphanFree(ttl: nat, ops: seq<Op>)
    requires ttl > 0 && Lawful(ttl, ops) && Timeless(ops)
    ensures NoOrphans(RunRedis(EmptyRedis(ttl), ops))
  {
    if ops != [] {
      var before := ops[..|ops| - 1];
      assert !ops[|ops| - 1].Advance?;
      assert forall i :: 0 <= i < |before| ==> before[i] == ops[i];
      OrphanFree(ttl, before);
      InvAlways(ttl, before);
      OrphanFreeStep(RunRedis(EmptyRedis(ttl), before), ops[|ops| - 1], Ever(before), LastReap(ttl, before));
    }
  }

  ghost predicate AgreeAfter(ttl: nat, ops: seq<Op>)
  {
    Same(RunRedis(EmptyRedis(ttl), ops), RunMemory(EMPTY_MEMORY, ops))
  }

  ghost predicate AgreeThroughout(ttl: nat, ops: seq<Op>)
  {
    forall k :: 0 <= k <= |ops| ==> AgreeAfter(ttl, ops[..k])
  }

  /** No Reap of the run finds an orphan. */
  ghost predicate CleanReaps(ttl: nat, ops: seq<Op>)
  {
    forall i :: 0 <= i < |ops| && ops[i] == Reap ==> NoOrphans(RunRedis(EmptyRedis(ttl), ops[..i]))
  }

  lemma AgreeStep(r: Redis, m: Memory, op: Op)
    requires Same(r, m) && !op.Advance?
    ensures Same(StepRedis(r, op), StepMemory(m, op)) <==> (op == Reap ==> NoOrphans(r))
  {
    match op {
      case Track(e) => SameByTrack(r, m, e);
      case Untrack(s) => SameByUntrack(r, m, s);
      case Flush => SameByFlush(r, m);
      case Reap => ReapAgreesIffNoOrphans(r, m);
      case Advance(_) => assert false;
    }
  }

  lemma AgreeLast(ttl: nat, ops: seq<Op>)
    requires ops != []
    ensures AgreeThroughout(ttl, ops) <==> AgreeThroughout(ttl, ops[..|ops| - 1]) && AgreeAfter(ttl, ops)
  {
    var n := |ops| - 1;
    assert ops[..n + 1] == ops;
    forall k | 0 <= k <= n ensures ops[..n][..k] == ops[..k] {
    }
    if AgreeThroughout(ttl, ops) {
      forall k | 0 <= k <= n ensures AgreeAfter(ttl, ops[..n][..k]) {
        assert AgreeAfter(ttl, ops[..k]);
      }
      assert AgreeAfter(ttl, ops[..n + 1]);
    }
    if AgreeThroughout(ttl, ops[..n]) && AgreeAfter(ttl, ops) {
      forall k | 0 <= k <= n + 1 ensures AgreeAfter(ttl, ops[..k]) {
        assert k <= n ==> AgreeAfter(ttl, ops[..n][..k]);
      }
    }
  }

  lemma CleanLast(ttl: nat, ops: seq<Op>)
    requires ops != []
    ensures var before := ops[..|ops| - 1];
            CleanReaps(ttl, ops) <==>
              CleanReaps(ttl, before) && (ops[|ops| - 1] == Reap ==> NoOrphans(RunRedis(EmptyRedis(ttl), before)))
  {
    var n := |ops| - 1;
    forall i | 0 <= i < n ensures ops[..n][..i] == ops[..i] && ops[..n][i] == ops[i] {
    }
  }

  /** Over every run without expiry the two registries agree after each operation if and only if no
      Reap finds an orphan. */
  lemma {:induction false} RegistriesAgreeIff(ttl: nat, ops: seq<Op>)
    requires Timeless(ops)
    ensures AgreeThroughout(ttl, ops) <==> CleanReaps(ttl, ops)
  {
    if ops == [] {
      assert AgreeAfter(ttl, []);
    } else {
      var before, op := ops[..|ops| - 1], ops[|ops| - 1];
      assert !op.Advance? && forall i :: 0 <= i < |before| ==> before[i] == ops[i];
      RegistriesAgreeIff(ttl, before);
      AgreeLast(ttl, ops);
      CleanLast(ttl, ops);
      if AgreeThroughout(ttl, before) {
        assert before[..|before|] == before;
        assert AgreeAfter(ttl, before[..|before|]);
        AgreeStep(RunRedis(EmptyRedis(ttl), before), RunMemory(EMPTY_MEMORY, before), op);
      }
    }
  }

  lemma {:induction false} LawfulPrefix(ttl: nat, ops: seq<Op>, i: nat)
    requires Lawful(ttl, ops) && i <= |ops|
    ensures Lawful(ttl, ops[..i])
  {
    if i == |ops| {
      assert ops[..i] == ops;
    } else {
      LawfulPrefix(ttl, ops[..|ops| - 1], i);
      assert ops[..|ops| - 1][..i] == ops[..i];
    }
  }

  /** So over every run without expiry, and with each session id tracked once if it ever reaps, both
      registries answer every query alike. */
  lemma RegistriesAgree(ttl: nat, ops: seq<Op>)
    requires ttl > 0 && Timeless(ops)
    requires Reap in ops ==> Lawful(ttl, ops)
    ensures AgreeAfter(ttl, ops)
    ensures AnswersOfRedis(RunRedis(EmptyRedis(ttl), ops)) == AnswersOfMemory(RunMemory(EMPTY_MEMORY, ops))
  {
    forall i | 0 <= i < |ops| && ops[i] == Reap ensures NoOrphans(RunRedis(EmptyRedis(ttl), ops[..i])) {
      LawfulPrefix(ttl, ops, i);
      OrphanFree(ttl, ops[..i]);
    }
    RegistriesAgreeIff(ttl, ops);
    assert ops[..|ops|] == ops;
    assert AgreeAfter(ttl, ops[..|ops|]);
    SameAnswers(RunRedis(EmptyRedis(ttl), ops), RunMemory(EMPTY_MEMORY, ops));
  }

  /** In such a run the reverse sets are exact inverses of the session keys at all times. */
  lemma ReverseSetsExact(ttl: nat, ops: seq<Op>, k: string, s: SessionId)
    requires ttl > 0 && Lawful(ttl, ops) && Timeless(ops)
    ensures var r := RunRedis(EmptyRedis(ttl), ops);
            && (Has(r.agents.sets, k, s) <==> s in r.sessions && r.sessions[s].value == k)
            && (Has(r.sims.sets, k, s) <==> s in r.sessionSims && r.sessionSims[s].value == k)
  {
    InvAlways(ttl, ops);
    OrphanFree(ttl, ops);
    assert Indexed(RunRedis(EmptyRedis(ttl), ops), Ever(ops));
  }

  /** Tracking one session under two types leaves an orphan behind its untracking, which a Reap
      removes from Redis while the in-memory registry still reports the type as active. */
  lemma RetrackedSessionDiverges(ttl: nat, s: SessionId)
    requires ttl > 0
    ensures var r := UntrackRedis(TrackRedis(TrackRedis(EmptyRedis(ttl), Entry(s, "A", "")), Entry(s, "B", "")), s);
            var m := UntrackMemory(TrackMemory(TrackMemory(EMPTY_MEMORY, Entry(s, "A", "")), Entry(s, "B", "")), s);
            Same(r, m) && "A" !in AnswersOfRedis(ReapRedis(r)).activeTypes && "A" in AnswersOfMemory(m).activeTypes
  {
  }
}
