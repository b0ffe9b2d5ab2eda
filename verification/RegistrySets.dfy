/** Which sessions the sets of the Redis registry list after any run of operations, ids tracked any
    number of times and expiry included. */
module RegistrySets {
  import opened Multimaps
  import opened Options
  import opened RegistryHistory
  import opened RegistryState
  import opened RegistryTheorems
  import opened Sequences

  function After(ttl: nat, ops: seq<Op>): Redis
  {
    RunRedis(EmptyRedis(ttl), ops)
  }

  // ---------------------------------------------------------------------------
  // What the keys say
  // ---------------------------------------------------------------------------

  ghost predicate KeySays(ttl: nat, ops: seq<Op>, s: SessionId, agentType: string)
  {
    exists at: nat :: HasType(ttl, ops, s, agentType, at)
  }

  ghost predicate HasKey(ttl: nat, ops: seq<Op>, s: SessionId)
  {
    exists agentType :: KeySays(ttl, ops, s, agentType)
  }

  ghost predicate SimulationSays(ttl: nat, ops: seq<Op>, s: SessionId, sim: string)
  {
    exists at: nat :: HasSimulation(ttl, ops, s, sim, at)
  }

  lemma KeySaysIs(ttl: nat, ops: seq<Op>, s: SessionId, agentType: string)
    ensures KeySays(ttl, ops, s, agentType) <==>
            s in After(ttl, ops).sessions && After(ttl, ops).sessions[s].value == agentType
  {
    if at: nat :| HasType(ttl, ops, s, agentType, at) {
      SessionExact(ttl, ops, s, agentType, at);
    }
    if s in After(ttl, ops).sessions {
      var at := SessionExplained(ttl, ops, s);
    }
  }

  lemma HasKeyIs(ttl: nat, ops: seq<Op>, s: SessionId)
    ensures HasKey(ttl, ops, s) <==> s in After(ttl, ops).sessions
  {
    if agentType :| KeySays(ttl, ops, s, agentType) {
      KeySaysIs(ttl, ops, s, agentType);
    }
    if s in After(ttl, ops).sessions {
      KeySaysIs(ttl, ops, s, After(ttl, ops).sessions[s].value);
    }
  }

  lemma SimulationSaysIs(ttl: nat, ops: seq<Op>, s: SessionId, sim: string)
    requires Forward(ops)
    ensures SimulationSays(ttl, ops, s, sim) <==>
            s in After(ttl, ops).sessionSims && After(ttl, ops).sessionSims[s].value == sim
  {
    if at: nat :| HasSimulation(ttl, ops, s, sim, at) {
      SimulationExact(ttl, ops, s, sim, at);
    }
    if s in After(ttl, ops).sessionSims {
      var at := SimulationExplained(ttl, ops, s);
    }
  }

  // ---------------------------------------------------------------------------
  // The sets of agent types
  // ---------------------------------------------------------------------------

  /** Operation j takes s from the set of the type: a flush, an untracking of s while its key says the
      type, or a Reap when it has no key. */
  ghost predicate UnlistsType(ttl: nat, ops: seq<Op>, j: nat, agentType: string, s: SessionId)
  {
    j < |ops| &&
    (ops[j] == Flush || (ops[j] == Untrack(s) && KeySays(ttl, ops[..j], s, agentType)) ||
     (ops[j] == Reap && !HasKey(ttl, ops[..j], s)))
  }

  predicate ListsType(ops: seq<Op>, i: nat, agentType: string, s: SessionId)
  {
    i < |ops| && Tracks(ops[i], s) && ops[i].entry.agentType == agentType
  }

  ghost predicate TypeListed(ttl: nat, ops: seq<Op>, k: nat, agentType: string, s: SessionId)
  {
    LatestBefore(k, (i: nat) => ListsType(ops, i, agentType, s), (j: nat) => UnlistsType(ttl, ops, j, agentType, s))
  }

  lemma NamesStep(r: Redis, op: Op)
    requires Named(r.agents)
    ensures Named(StepRedis(r, op).agents)
  {
  }

  /** The active types are at all times those with a set. */
  lemma {:induction false} TypesNamed(ttl: nat, ops: seq<Op>)
    ensures Named(After(ttl, ops).agents)
  {
    if ops != [] {
      TypesNamed(ttl, ops[..|ops| - 1]);
      NamesStep(After(ttl, ops[..|ops| - 1]), ops[|ops| - 1]);
    }
  }

  lemma TypeSetStep(r: Redis, op: Op, agentType: string, s: SessionId)
    requires Named(r.agents)
    ensures Has(StepRedis(r, op).agents.sets, agentType, s) <==>
            (Tracks(op, s) && op.entry.agentType == agentType) ||
            (Has(r.agents.sets, agentType, s) && op != Flush &&
             !(op == Untrack(s) && s in r.sessions && r.sessions[s].value == agentType) &&
             !(op == Reap && s !in r.sessions))
  {
  }

  /** After every run the set of a type lists exactly the sessions tracked under it that no flush, no
      untracking while their key said the type, and no Reap without a key has taken out since. */
  lemma {:induction false} TypeSetExact(ttl: nat, ops: seq<Op>, k: nat, agentType: string, s: SessionId)
    requires k <= |ops|
    ensures Has(After(ttl, ops[..k]).agents.sets, agentType, s) <==> TypeListed(ttl, ops, k, agentType, s)
  {
    if k > 0 {
      var n := k - 1;
      assert ops[..k][..n] == ops[..n];
      TypeSetExact(ttl, ops, n, agentType, s);
      TypesNamed(ttl, ops[..n]);
      TypeSetStep(After(ttl, ops[..n]), ops[n], agentType, s);
      KeySaysIs(ttl, ops[..n], s, agentType);
      HasKeyIs(ttl, ops[..n], s);
      LatestBeforeStep(n, (i: nat) => ListsType(ops, i, agentType, s),
                       (j: nat) => UnlistsType(ttl, ops, j, agentType, s));
    }
  }

  /** The active types are those whose set lists a session. */
  lemma NamedTypes(ttl: nat, ops: seq<Op>, agentType: string)
    ensures agentType in After(ttl, ops).agents.active <==> exists s :: TypeListed(ttl, ops, |ops|, agentType, s)
  {
    var r := After(ttl, ops);
    TypesNamed(ttl, ops);
    assert ops[..|ops|] == ops;
    forall s ensures Has(r.agents.sets, agentType, s) <==> TypeListed(ttl, ops, |ops|, agentType, s) {
      TypeSetExact(ttl, ops, |ops|, agentType, s);
    }
    if agentType in r.agents.sets {
      var s :| s in r.agents.sets[agentType];
      assert Has(r.agents.sets, agentType, s);
    }
    if s :| TypeListed(ttl, ops, |ops|, agentType, s) {
      assert Has(r.agents.sets, agentType, s);
    }
  }

  // ---------------------------------------------------------------------------
  // The sets of simulations
  // ---------------------------------------------------------------------------

  /** When a session was last tracked under the simulation. */
  function LastUnder(ops: seq<Op>, sim: string): Option<nat>
  {
    if ops == [] then None
    else
      var n := |ops| - 1;
      if ops[n].Track? && ops[n].entry.simulation == sim != "" then Some(Clock(ops[..n])) else LastUnder(ops[..n], sim)
  }

  /** Two ttls have passed since anybody was tracked under the simulation. */
  predicate SetExpires(ttl: nat, ops: seq<Op>, j: nat, sim: string)
    requires j < |ops|
  {
    ops[j].Advance? && LastUnder(ops[..j], sim).Some? && LastUnder(ops[..j], sim).value + 2 * ttl <= ops[j].to
  }

  ghost predicate UnlistsSim(ttl: nat, ops: seq<Op>, j: nat, sim: string, s: SessionId)
  {
    j < |ops| &&
    (ops[j] == Flush || (ops[j] == Untrack(s) && SimulationSays(ttl, ops[..j], s, sim)) ||
     (ops[j] == Reap && !HasKey(ttl, ops[..j], s)) || SetExpires(ttl, ops, j, sim))
  }

  predicate ListsSim(ops: seq<Op>, i: nat, sim: string, s: SessionId)
  {
    i < |ops| && Tracks(ops[i], s) && ops[i].entry.simulation == sim != ""
  }

  ghost predicate SimListed(ttl: nat, ops: seq<Op>, k: nat, sim: string, s: SessionId)
  {
    LatestBefore(k, (i: nat) => ListsSim(ops, i, sim, s), (j: nat) => UnlistsSim(ttl, ops, j, sim, s))
  }

  /** Each set of a simulation has a deadline, and its name is listed. */
  ghost predicate Dated(r: Redis)
  {
    Pruned(r.sims.sets) && r.simDeadline.Keys == r.sims.sets.Keys && r.sims.sets.Keys <= r.sims.active
  }

  lemma DatedStep(r: Redis, op: Op)
    requires Dated(r)
    ensures Dated(StepRedis(r, op))
  {
  }

  /** The deadline of a set is two ttls after the last tracking under its simulation. */
  lemma {:induction false} SetDeadlines(ttl: nat, ops: seq<Op>, sim: string)
    ensures Dated(After(ttl, ops))
    ensures sim in After(ttl, ops).simDeadline ==>
              LastUnder(ops, sim).Some? && After(ttl, ops).simDeadline[sim] == LastUnder(ops, sim).value + 2 * ttl
  {
    if ops != [] {
      var n := |ops| - 1;
      SetDeadlines(ttl, ops[..n], sim);
      ClockIs(ttl, ops[..n]);
      DatedStep(After(ttl, ops[..n]), ops[n]);
      DeadlineStep(After(ttl, ops[..n]), ops[n], sim);
    }
  }

  lemma DeadlineStep(r: Redis, op: Op, sim: string)
    ensures sim in StepRedis(r, op).simDeadline ==>
              if op.Track? && op.entry.simulation == sim != "" then
                StepRedis(r, op).simDeadline[sim] == r.now + 2 * r.ttl
              else sim in r.simDeadline && StepRedis(r, op).simDeadline[sim] == r.simDeadline[sim]
  {
  }

  lemma SimSetStep(r: Redis, op: Op, sim: string, s: SessionId)
    requires Dated(r)
    ensures Has(StepRedis(r, op).sims.sets, sim, s) <==>
            (Tracks(op, s) && op.entry.simulation == sim != "") ||
            (Has(r.sims.sets, sim, s) && op != Flush &&
             !(op == Untrack(s) && s in r.sessionSims && r.sessionSims[s].value == sim) &&
             !(op == Reap && s !in r.sessions) &&
             !(op.Advance? && r.simDeadline[sim] <= op.to))
  {
  }

  /** After every run the set of a simulation lists exactly the sessions tracked under it that no flush,
      no untracking while their key said the simulation, no Reap without a session key, and no expiry of
      the set has taken out since. */
  lemma {:induction false} SimSetExact(ttl: nat, ops: seq<Op>, k: nat, sim: string, s: SessionId)
    requires k <= |ops| && Forward(ops[..k])
    ensures Has(After(ttl, ops[..k]).sims.sets, sim, s) <==> SimListed(ttl, ops, k, sim, s)
  {
    if k > 0 {
      var n := k - 1;
      assert ops[..k][..n] == ops[..n];
      SimSetExact(ttl, ops, n, sim, s);
      SetDeadlines(ttl, ops[..n], sim);
      SimSetStep(After(ttl, ops[..n]), ops[n], sim, s);
      SimulationSaysIs(ttl, ops[..n], s, sim);
      HasKeyIs(ttl, ops[..n], s);
      LatestBeforeStep(n, (i: nat) => ListsSim(ops, i, sim, s), (j: nat) => UnlistsSim(ttl, ops, j, sim, s));
    }
  }

  // ---------------------------------------------------------------------------
  // The names of simulations
  // ---------------------------------------------------------------------------

  ghost predicate SomeListed(ttl: nat, ops: seq<Op>, k: nat, sim: string)
  {
    exists s :: SimListed(ttl, ops, k, sim, s)
  }

  /** Operation j takes the name of the simulation: a flush, an untracking of a session whose key says it
      when its set lists no other, or a Reap that finds a set of it with no live member. A set that
      expired leaves its name behind. */
  ghost predicate UnnamesSim(ttl: nat, ops: seq<Op>, j: nat, sim: string)
  {
    j < |ops| &&
    (ops[j] == Flush ||
     (ops[j].Untrack? && SimulationSays(ttl, ops[..j], ops[j].session, sim) &&
      forall s :: SimListed(ttl, ops, j, sim, s) ==> s == ops[j].session) ||
     (ops[j] == Reap && SomeListed(ttl, ops, j, sim) &&
      forall s :: SimListed(ttl, ops, j, sim, s) ==> !HasKey(ttl, ops[..j], s)))
  }

  predicate NamesSim(ops: seq<Op>, i: nat, sim: string)
  {
    i < |ops| && ops[i].Track? && ops[i].entry.simulation == sim != ""
  }

  ghost predicate SimNamed(ttl: nat, ops: seq<Op>, k: nat, sim: string)
  {
    LatestBefore(k, (i: nat) => NamesSim(ops, i, sim), (j: nat) => UnnamesSim(ttl, ops, j, sim))
  }

  lemma SimNameStep(r: Redis, op: Op, sim: string)
    requires Dated(r)
    ensures sim in StepRedis(r, op).sims.active <==>
            (op.Track? && op.entry.simulation == sim != "") ||
            (sim in r.sims.active && op != Flush &&
             !(op.Untrack? && op.session in r.sessionSims && r.sessionSims[op.session].value == sim &&
               forall s :: Has(r.sims.sets, sim, s) ==> s == op.session) &&
             !(op == Reap && sim in r.sims.sets && forall s :: Has(r.sims.sets, sim, s) ==> s !in r.sessions))
  {
    if op == Reap && sim in r.sims.sets {
      var rest := Prune(r.sims.sets, r.sims.sets.Keys, r.sessions.Keys);
      assert sim in rest <==> exists s :: Has(rest, sim, s) by {
        if sim in rest {
          var s :| s in rest[sim];
          assert Has(rest, sim, s);
        }
      }
    }
    if op.Untrack? && op.session in r.sessionSims && r.sessionSims[op.session].value == sim {
      var rest := Remove(r.sims.sets, sim, op.session);
      assert sim in rest <==> exists s :: Has(rest, sim, s) by {
        if sim in rest {
          var s :| s in rest[sim];
          assert Has(rest, sim, s);
        }
      }
    }
  }

  /** After every run the active simulations are exactly those whose name nothing has taken since somebody
      was last tracked under them. */
  lemma {:induction false} SimNamesExact(ttl: nat, ops: seq<Op>, k: nat, sim: string)
    requires k <= |ops| && Forward(ops[..k])
    ensures sim in After(ttl, ops[..k]).sims.active <==> SimNamed(ttl, ops, k, sim)
  {
    if k > 0 {
      var n := k - 1;
      var r := After(ttl, ops[..n]);
      assert ops[..k][..n] == ops[..n];
      SimNamesExact(ttl, ops, n, sim);
      SetDeadlines(ttl, ops[..n], sim);
      SimNameStep(r, ops[n], sim);
      forall s
        ensures Has(r.sims.sets, sim, s) <==> SimListed(ttl, ops, n, sim, s)
        ensures HasKey(ttl, ops[..n], s) <==> s in r.sessions
      {
        SimSetExact(ttl, ops, n, sim, s);
        HasKeyIs(ttl, ops[..n], s);
      }
      SetListed(r, sim);
      if ops[n].Untrack? {
        SimulationSaysIs(ttl, ops[..n], ops[n].session, sim);
      }
      LatestBeforeStep(n, (i: nat) => NamesSim(ops, i, sim), (j: nat) => UnnamesSim(ttl, ops, j, sim));
    }
  }

  lemma SetListed(r: Redis, sim: string)
    requires Dated(r)
    ensures sim in r.sims.sets <==> exists s :: Has(r.sims.sets, sim, s)
  {
    if sim in r.sims.sets {
      var s :| s in r.sims.sets[sim];
      assert Has(r.sims.sets, sim, s);
    }
  }
}
