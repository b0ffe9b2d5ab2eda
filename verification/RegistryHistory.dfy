/** What the keys of the Redis registry hold after any run of operations, read off the run alone. */
module RegistryHistory {
  import opened Multimaps
  import opened RegistryState

  /** The clock after the operations. */
  function Clock(ops: seq<Op>): nat
  {
    if ops == [] then 0
    else if ops[|ops| - 1].Advance? then ops[|ops| - 1].to
    else Clock(ops[..|ops| - 1])
  }

  // ---------------------------------------------------------------------------
  // The session key
  // ---------------------------------------------------------------------------

  /** An operation that ends a key of s set at time `at`: an untracking of s, a flush, or the passing of a
      ttl. */
  predicate EndsKey(ttl: nat, op: Op, s: SessionId, at: nat)
  {
    op == Untrack(s) || op == Flush || (op.Advance? && at + ttl <= op.to)
  }

  predicate Tracks(op: Op, s: SessionId)
  {
    op.Track? && op.entry.session == s
  }

  /** Operation i tracks s under the type at time `at`, and nothing since has tracked s again or ended its
      key. */
  ghost predicate TrackedSince(ttl: nat, ops: seq<Op>, i: nat, s: SessionId, agentType: string, at: nat)
  {
    && i < |ops| && Tracks(ops[i], s) && ops[i].entry.agentType == agentType && Clock(ops[..i]) == at
    && forall j :: i < j < |ops| ==> !Tracks(ops[j], s) && !EndsKey(ttl, ops[j], s, at)
  }

  ghost predicate HasType(ttl: nat, ops: seq<Op>, s: SessionId, agentType: string, at: nat)
  {
    exists i: nat :: TrackedSince(ttl, ops, i, s, agentType, at)
  }

  lemma TrackedSinceStep(ttl: nat, ops: seq<Op>, i: nat, s: SessionId, agentType: string, at: nat)
    requires i < |ops| - 1
    ensures var n := |ops| - 1;
            TrackedSince(ttl, ops, i, s, agentType, at) <==>
              TrackedSince(ttl, ops[..n], i, s, agentType, at) && !Tracks(ops[n], s) && !EndsKey(ttl, ops[n], s, at)
  {
    assert ops[..|ops| - 1][..i] == ops[..i];
  }

  lemma HasTypeStep(ttl: nat, ops: seq<Op>, s: SessionId, agentType: string, at: nat)
    requires ops != []
    ensures var n := |ops| - 1;
            HasType(ttl, ops, s, agentType, at) <==>
              if Tracks(ops[n], s) then ops[n].entry.agentType == agentType && Clock(ops[..n]) == at
              else HasType(ttl, ops[..n], s, agentType, at) && !EndsKey(ttl, ops[n], s, at)
  {
    var n := |ops| - 1;
    if i: nat :| TrackedSince(ttl, ops, i, s, agentType, at) {
      if i < n {
        TrackedSinceStep(ttl, ops, i, s, agentType, at);
      }
    }
    if Tracks(ops[n], s) && ops[n].entry.agentType == agentType && Clock(ops[..n]) == at {
      assert TrackedSince(ttl, ops, n, s, agentType, at);
    }
    if i: nat :| TrackedSince(ttl, ops[..n], i, s, agentType, at) {
      TrackedSinceStep(ttl, ops, i, s, agentType, at);
    }
  }

  lemma {:induction false} ClockIs(ttl: nat, ops: seq<Op>)
    ensures RunRedis(EmptyRedis(ttl), ops).now == Clock(ops) && RunRedis(EmptyRedis(ttl), ops).ttl == ttl
  {
    if ops != [] {
      ClockIs(ttl, ops[..|ops| - 1]);
    }
  }

  ghost predicate Holds(keys: map<SessionId, Timed>, s: SessionId, value: string, deadline: nat)
  {
    s in keys && keys[s] == Timed(value, deadline)
  }

  lemma SessionStep(r: Redis, op: Op, s: SessionId, agentType: string, at: nat)
    ensures Holds(StepRedis(r, op).sessions, s, agentType, at + r.ttl) <==>
            if Tracks(op, s) then op.entry.agentType == agentType && r.now == at
            else Holds(r.sessions, s, agentType, at + r.ttl) && !EndsKey(r.ttl, op, s, at)
  {
  }

  /** After every run the session key of s says a type exactly if the latest tracking of s did, neither an
      untracking nor a flush followed, and the clock has stayed below a ttl after it. */
  lemma {:induction false} SessionExact(ttl: nat, ops: seq<Op>, s: SessionId, agentType: string, at: nat)
    ensures Holds(RunRedis(EmptyRedis(ttl), ops).sessions, s, agentType, at + ttl) <==>
            HasType(ttl, ops, s, agentType, at)
  {
    if ops != [] {
      var n := |ops| - 1;
      SessionExact(ttl, ops[..n], s, agentType, at);
      HasTypeStep(ttl, ops, s, agentType, at);
      ClockIs(ttl, ops[..n]);
      SessionStep(RunRedis(EmptyRedis(ttl), ops[..n]), ops[n], s, agentType, at);
    }
  }

  /** And it has no key that such a tracking does not explain. */
  lemma {:induction false} SessionExplained(ttl: nat, ops: seq<Op>, s: SessionId) returns (at: nat)
    requires s in RunRedis(EmptyRedis(ttl), ops).sessions
    ensures HasType(ttl, ops, s, RunRedis(EmptyRedis(ttl), ops).sessions[s].value, at)
    ensures RunRedis(EmptyRedis(ttl), ops).sessions[s].deadline == at + ttl
  {
    var n := |ops| - 1;
    var r := RunRedis(EmptyRedis(ttl), ops[..n]);
    ClockIs(ttl, ops[..n]);
    if Tracks(ops[n], s) {
      at := r.now;
    } else {
      at := SessionExplained(ttl, ops[..n], s);
    }
    SessionExact(ttl, ops, s, RunRedis(EmptyRedis(ttl), ops).sessions[s].value, at);
  }

  // ---------------------------------------------------------------------------
  // The simulation key
  // ---------------------------------------------------------------------------

  /** Operation i tracks s under the simulation at time `at`, and nothing since has tracked s under one
      again or ended its key. */
  ghost predicate SimulatedSince(ttl: nat, ops: seq<Op>, i: nat, s: SessionId, sim: string, at: nat)
  {
    && i < |ops| && Tracks(ops[i], s) && ops[i].entry.simulation == sim != "" && Clock(ops[..i]) == at
    && forall j :: i < j < |ops| ==>
         !(Tracks(ops[j], s) && ops[j].entry.simulation != "") && !EndsKey(ttl, ops[j], s, at)
  }

  ghost predicate HasSimulation(ttl: nat, ops: seq<Op>, s: SessionId, sim: string, at: nat)
  {
    exists i: nat :: SimulatedSince(ttl, ops, i, s, sim, at)
  }

  lemma SimulatedSinceStep(ttl: nat, ops: seq<Op>, i: nat, s: SessionId, sim: string, at: nat)
    requires i < |ops| - 1
    ensures var n := |ops| - 1;
            SimulatedSince(ttl, ops, i, s, sim, at) <==>
              SimulatedSince(ttl, ops[..n], i, s, sim, at) &&
              !(Tracks(ops[n], s) && ops[n].entry.simulation != "") && !EndsKey(ttl, ops[n], s, at)
  {
    assert ops[..|ops| - 1][..i] == ops[..i];
  }

  lemma HasSimulationStep(ttl: nat, ops: seq<Op>, s: SessionId, sim: string, at: nat)
    requires ops != []
    ensures var n := |ops| - 1;
            HasSimulation(ttl, ops, s, sim, at) <==>
              if Tracks(ops[n], s) && ops[n].entry.simulation != ""
              then ops[n].entry.simulation == sim && Clock(ops[..n]) == at
              else HasSimulation(ttl, ops[..n], s, sim, at) && !EndsKey(ttl, ops[n], s, at)
  {
    var n := |ops| - 1;
    if i: nat :| SimulatedSince(ttl, ops, i, s, sim, at) {
      if i < n {
        SimulatedSinceStep(ttl, ops, i, s, sim, at);
      }
    }
    if Tracks(ops[n], s) && ops[n].entry.simulation == sim != "" && Clock(ops[..n]) == at {
      assert SimulatedSince(ttl, ops, n, s, sim, at);
    }
    if i: nat :| SimulatedSince(ttl, ops[..n], i, s, sim, at) {
      SimulatedSinceStep(ttl, ops, i, s, sim, at);
    }
  }

  /** A simulation key never outlasts its session key, so a Reap finds none to remove. */
  ghost predicate Outlasted(r: Redis)
  {
    forall s :: s in r.sessionSims ==> s in r.sessions && r.sessionSims[s].deadline <= r.sessions[s].deadline
  }

  /** The clock does not run back. */
  predicate Forward(ops: seq<Op>)
  {
    ops == [] ||
    (Forward(ops[..|ops| - 1]) && (ops[|ops| - 1].Advance? ==> Clock(ops[..|ops| - 1]) <= ops[|ops| - 1].to))
  }

  ghost predicate Due(r: Redis)
  {
    Outlasted(r) && forall s :: s in r.sessionSims ==> r.sessionSims[s].deadline <= r.now + r.ttl
  }

  lemma DueStep(r: Redis, op: Op)
    requires Due(r) && (op.Advance? ==> r.now <= op.to)
    ensures Due(StepRedis(r, op))
  {
  }

  lemma {:induction false} DueAlways(ttl: nat, ops: seq<Op>)
    requires Forward(ops)
    ensures Due(RunRedis(EmptyRedis(ttl), ops))
  {
    if ops != [] {
      DueAlways(ttl, ops[..|ops| - 1]);
      ClockIs(ttl, ops[..|ops| - 1]);
      DueStep(RunRedis(EmptyRedis(ttl), ops[..|ops| - 1]), ops[|ops| - 1]);
    }
  }

  lemma SimulationStep(r: Redis, op: Op, s: SessionId, sim: string, at: nat)
    requires Due(r)
    ensures Holds(StepRedis(r, op).sessionSims, s, sim, at + r.ttl) <==>
            if Tracks(op, s) && op.entry.simulation != "" then op.entry.simulation == sim && r.now == at
            else Holds(r.sessionSims, s, sim, at + r.ttl) && !EndsKey(r.ttl, op, s, at)
  {
  }

  /** After every run the simulation key of s says a simulation exactly if the latest tracking of s under
      one did, neither an untracking nor a flush followed, and the clock has stayed below a ttl after it. */
  lemma {:induction false} SimulationExact(ttl: nat, ops: seq<Op>, s: SessionId, sim: string, at: nat)
    requires Forward(ops)
    ensures Holds(RunRedis(EmptyRedis(ttl), ops).sessionSims, s, sim, at + ttl) <==>
            HasSimulation(ttl, ops, s, sim, at)
  {
    if ops != [] {
      var n := |ops| - 1;
      SimulationExact(ttl, ops[..n], s, sim, at);
      HasSimulationStep(ttl, ops, s, sim, at);
      ClockIs(ttl, ops[..n]);
      DueAlways(ttl, ops[..n]);
      SimulationStep(RunRedis(EmptyRedis(ttl), ops[..n]), ops[n], s, sim, at);
    }
  }

  lemma {:induction false} SimulationExplained(ttl: nat, ops: seq<Op>, s: SessionId) returns (at: nat)
    requires Forward(ops) && s in RunRedis(EmptyRedis(ttl), ops).sessionSims
    ensures HasSimulation(ttl, ops, s, RunRedis(EmptyRedis(ttl), ops).sessionSims[s].value, at)
    ensures RunRedis(EmptyRedis(ttl), ops).sessionSims[s].deadline == at + ttl
  {
    var n := |ops| - 1;
    var r := RunRedis(EmptyRedis(ttl), ops[..n]);
    ClockIs(ttl, ops[..n]);
    if Tracks(ops[n], s) && ops[n].entry.simulation != "" {
      at := r.now;
    } else {
      at := SimulationExplained(ttl, ops[..n], s);
    }
    SimulationExact(ttl, ops, s, RunRedis(EmptyRedis(ttl), ops).sessionSims[s].value, at);
  }
}
