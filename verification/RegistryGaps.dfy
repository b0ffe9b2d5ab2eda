/** The Redis indexes when Reaps may be any time apart: what always holds, when a Reap is exact, and
    the longest gap that makes every Reap exact. */
module RegistryGaps {
  import opened Multimaps
  import opened RegistryState
  import opened RegistryTheorems

  // ---------------------------------------------------------------------------
  // Reaps any time apart
  // ---------------------------------------------------------------------------

  /** Names may linger whose set has expired. */
  ghost predicate Loose(keys: map<SessionId, Timed>, x: Index, live: set<SessionId>, ever: set<SessionId>)
  {
    && Pruned(x.sets) && x.sets.Keys <= x.active
    && KeysListed(keys, x.sets, live) && ListedKeyed(keys, x.sets, live) && Known(x.sets, ever) && live <= ever
  }

  /** What holds whenever each session id is tracked once. */
  ghost predicate LooseInv(r: Redis, ever: set<SessionId>)
  {
    && r.ttl > 0 && SessionsTimely(r)
    && Good(r.sessions, r.agents, r.sessions.Keys, ever)
    && Loose(r.sessionSims, r.sims, r.sessions.Keys, ever)
    && SimsTimely(r.sims.sets, r.simDeadline, r.sessions, r.ttl, r.now)
  }

  lemma LooseByTrack(r: Redis, ever: set<SessionId>, e: Entry)
    requires LooseInv(r, ever) && e.session !in ever
    ensures Loose(TrackRedis(r, e).sessionSims, TrackRedis(r, e).sims,
                  r.sessions.Keys + {e.session}, ever + {e.session})
  {
    assert forall k :: !Has(r.sims.sets, k, e.session);
  }

  lemma LooseInvByTrack(r: Redis, ever: set<SessionId>, e: Entry)
    requires LooseInv(r, ever) && e.session !in ever
    ensures LooseInv(TrackRedis(r, e), ever + {e.session})
  {
    AgentsByTrack(r, ever, e);
    LooseByTrack(r, ever, e);
    SessionsTimelyByTrack(r, e);
    DeadlinesByTrack(r, ever, r.now, e);
    var r' := TrackRedis(r, e);
    assert r'.sessions == TrackAgent(r, e).sessions && r'.agents == TrackAgent(r, e).agents;
  }

  lemma LooseByRemove(keys: map<SessionId, Timed>, x: Index, live: set<SessionId>, ever: set<SessionId>, s: SessionId)
    requires Loose(keys, x, live, ever)
    ensures s in keys ==> Loose(keys - {s}, RemoveFrom(x, keys[s].value, s), live - {s}, ever)
    ensures s !in keys ==> Loose(keys - {s}, x, live - {s}, ever)
  {
  }

  lemma LooseInvByUntrack(r: Redis, ever: set<SessionId>, s: SessionId)
    requires LooseInv(r, ever)
    ensures LooseInv(UntrackRedis(r, s), ever)
  {
    GoodByRemove(r.sessions, r.agents, r.sessions.Keys, ever, s);
    LooseByRemove(r.sessionSims, r.sims, r.sessions.Keys, ever, s);
    SimsTimelyByRemove(r.sims.sets, r.simDeadline, r.sessions, r.ttl, r.now,
                       if s in r.sessionSims then r.sessionSims[s].value else "", s);
    assert UntrackRedis(r, s).sessions.Keys == r.sessions.Keys - {s};
  }

  lemma LooseInvByFlush(r: Redis, ever: set<SessionId>)
    requires LooseInv(r, ever)
    ensures LooseInv(FlushRedis(r), ever)
  {
    assert FlushRedis(r).agents == Index(map[], {});
  }

  lemma LooseByAdvance(r: Redis, ever: set<SessionId>, to: nat)
    requires LooseInv(r, ever) && r.now <= to
    ensures var r' := AdvanceRedis(r, to); Loose(r'.sessionSims, r'.sims, r'.sessions.Keys, ever)
  {
    assert forall k, s :: Has(AdvanceRedis(r, to).sims.sets, k, s) ==> Has(r.sims.sets, k, s);
  }

  lemma LooseInvByAdvance(r: Redis, ever: set<SessionId>, to: nat)
    requires LooseInv(r, ever) && r.now <= to
    ensures LooseInv(AdvanceRedis(r, to), ever)
  {
    LooseByAdvance(r, ever, to);
    GoodByExpiry(r.sessions, r.agents, r.sessions.Keys, ever, AliveAt(r.sessions, to), AliveAt(r.sessions, to).Keys);
  }

  /** A Reap visits the sets there are; names without a set stay. */
  lemma LooseByPrune(keys: map<SessionId, Timed>, x: Index, live: set<SessionId>, ever: set<SessionId>)
    requires Loose(keys, x, live, ever)
    ensures var y := PruneIndex(x, x.sets.Keys, live);
            && Loose(keys, y, live, ever)
            && (forall k, s :: Has(y.sets, k, s) <==> s in keys && keys[s].value == k)
            && (forall k :: k in y.active <==> k in y.sets || (k in x.active && k !in x.sets))
    ensures KeptSims(keys, x.sets, live) == keys
  {
  }

  lemma PrunedExactIff(keys: map<SessionId, Timed>, x: Index, live: set<SessionId>, ever: set<SessionId>)
    requires Loose(keys, x, live, ever)
    ensures ExactFor(keys, PruneIndex(x, x.sets.Keys, live)) <==> x.active == x.sets.Keys
  {
    var y := PruneIndex(x, x.sets.Keys, live);
    LooseByPrune(keys, x, live, ever);
    forall k ensures k in y.sets <==> exists s :: s in keys && keys[s].value == k {
      if k in y.sets {
        var s :| s in y.sets[k];
        assert Has(y.sets, k, s);
      }
      if s :| s in keys && keys[s].value == k {
        assert Has(y.sets, k, s);
      }
    }
    if k :| k in x.active && k !in x.sets {
      assert k in y.active && k !in y.sets;
    }
  }

  /** Right after a Reap active-simulations is exact if and only if every listed simulation still has
      its key; the other indexes always are. */
  lemma ReapExactIff(r: Redis, ever: set<SessionId>)
    requires LooseInv(r, ever)
    ensures ExactFor(ReapRedis(r).sessions, ReapRedis(r).agents)
    ensures ExactFor(ReapRedis(r).sessionSims, ReapRedis(r).sims) <==> r.sims.active == r.sims.sets.Keys
  {
    ExactByPrune(r.sessions, r.agents, r.sessions.Keys, ever);
    LooseByPrune(r.sessionSims, r.sims, r.sessions.Keys, ever);
    PrunedExactIff(r.sessionSims, r.sims, r.sessions.Keys, ever);
  }

  lemma LooseInvByReap(r: Redis, ever: set<SessionId>)
    requires LooseInv(r, ever)
    ensures LooseInv(ReapRedis(r), ever)
  {
    GoodByPrune(r.sessions, r.agents, r.sessions.Keys, ever);
    LooseByPrune(r.sessionSims, r.sims, r.sessions.Keys, ever);
    var rest := PruneIndex(r.sims, r.sims.sets.Keys, r.sessions.Keys).sets;
    forall m | m in rest ensures m in r.sims.sets {
      var s :| s in rest[m];
      assert Has(rest, m, s) && Has(r.sims.sets, m, s);
    }
    assert KeptDeadlines(r.simDeadline, r.sims.sets, rest).Keys == rest.Keys;
  }

  /** Every session id is tracked once and the clock does not run back. */
  predicate TrackedOnce(ttl: nat, ops: seq<Op>)
  {
    ops == [] ||
    var before, op := ops[..|ops| - 1], ops[|ops| - 1];
    TrackedOnce(ttl, before) &&
    match op
    case Track(e) => e.session !in Ever(before)
    case Advance(to) => RunRedis(EmptyRedis(ttl), before).now <= to
    case _ => true
  }

  lemma {:induction false} LooseInvAlways(ttl: nat, ops: seq<Op>)
    requires ttl > 0 && TrackedOnce(ttl, ops)
    ensures LooseInv(RunRedis(EmptyRedis(ttl), ops), Ever(ops))
  {
    if ops != [] {
      var before, op := ops[..|ops| - 1], ops[|ops| - 1];
      LooseInvAlways(ttl, before);
      var r := RunRedis(EmptyRedis(ttl), before);
      match op
      case Track(e) => LooseInvByTrack(r, Ever(before), e);
      case Untrack(s) => LooseInvByUntrack(r, Ever(before), s);
      case Flush => LooseInvByFlush(r, Ever(before));
      case Reap => LooseInvByReap(r, Ever(before));
      case Advance(to) => LooseInvByAdvance(r, Ever(before), to);
    }
  }

  /** The simulation index is exact at the end of a run. */
  ghost predicate SimsExact(ttl: nat, ops: seq<Op>)
  {
    ExactFor(RunRedis(EmptyRedis(ttl), ops).sessionSims, RunRedis(EmptyRedis(ttl), ops).sims)
  }

  /** However far apart its Reaps are, a run that ends in one leaves the simulations exact if and only
      if before it every listed simulation still had its key. */
  lemma ExactAfterReapIff(ttl: nat, before: seq<Op>)
    requires ttl > 0 && TrackedOnce(ttl, before)
    ensures var r := RunRedis(EmptyRedis(ttl), before);
            SimsExact(ttl, before + [Reap]) <==> r.sims.active == r.sims.sets.Keys
  {
    LooseInvAlways(ttl, before);
    ReapExactIff(RunRedis(EmptyRedis(ttl), before), Ever(before));
    assert (before + [Reap])[..|before|] == before;
  }

  // ---------------------------------------------------------------------------
  // The longest gap between Reaps that keeps every run exact
  // ---------------------------------------------------------------------------

  /** What one more operation does to the history. */
  lemma OneMoreSpaced(ttl: nat, gap: nat, before: seq<Op>, op: Op)
    ensures LastReap(ttl, before + [op]) ==
            if op.Reap? then RunRedis(EmptyRedis(ttl), before).now else LastReap(ttl, before)
    ensures Ever(before + [op]) == Ever(before) + if op.Track? then {op.entry.session} else {}
    ensures Spaced(ttl, gap, before) && !op.Track? && !op.Advance? ==> Spaced(ttl, gap, before + [op])
    ensures Spaced(ttl, gap, before) && op.Track? && op.entry.session !in Ever(before) ==>
              Spaced(ttl, gap, before + [op])
    ensures Spaced(ttl, gap, before) && op.Advance? &&
            RunRedis(EmptyRedis(ttl), before).now <= op.to <= LastReap(ttl, before) + gap ==>
              Spaced(ttl, gap, before + [op])
  {
    assert (before + [op])[..|before|] == before;
  }

  /** Time passes within the gap, then a Reap. */
  lemma ThenReaped(ttl: nat, gap: nat, before: seq<Op>, to: nat)
    requires Spaced(ttl, gap, before) && RunRedis(EmptyRedis(ttl), before).now <= to <= LastReap(ttl, before) + gap
    ensures var ops := before + [Advance(to), Reap];
            && RunRedis(EmptyRedis(ttl), ops) == ReapRedis(AdvanceRedis(RunRedis(EmptyRedis(ttl), before), to))
            && RunRedis(EmptyRedis(ttl), ops).now == to
            && Spaced(ttl, gap, ops) && LastReap(ttl, ops) == to
  {
    OneMoreRedis(ttl, before, Advance(to));
    OneMoreSpaced(ttl, gap, before, Advance(to));
    OneMoreRedis(ttl, before + [Advance(to)], Reap);
    OneMoreSpaced(ttl, gap, before + [Advance(to)], Reap);
    assert before + [Advance(to)] + [Reap] == before + [Advance(to), Reap];
  }

  /** The simulation `m` is listed, and its set expires at `deadline`. */
  predicate ListedUntil(r: Redis, m: string, deadline: nat)
  {
    m in r.sims.active && m in r.simDeadline && r.simDeadline[m] == deadline
  }

  lemma ListedByReap(r: Redis, to: nat, m: string, deadline: nat, s: SessionId)
    requires ListedUntil(r, m, deadline) && to < deadline
    requires Has(r.sims.sets, m, s) && s in r.sessions && to < r.sessions[s].deadline
    ensures ListedUntil(ReapRedis(AdvanceRedis(r, to)), m, deadline)
  {
    var aged := AdvanceRedis(r, to);
    assert s in aged.sessions.Keys && Has(aged.sims.sets, m, s);
    assert Has(PruneIndex(aged.sims, aged.sims.sets.Keys, aged.sessions.Keys).sets, m, s);
  }

  lemma ForgottenByReap(r: Redis, to: nat, m: string, deadline: nat)
    requires ListedUntil(r, m, deadline) && deadline <= to
    ensures var late := ReapRedis(AdvanceRedis(r, to)); m in late.sims.active && m !in late.sims.sets
  {
  }

  lemma TrackedIs(r: Redis, e: Entry)
    requires e.simulation != ""
    ensures var r' := TrackRedis(r, e);
            && r'.now == r.now && ListedUntil(r', e.simulation, r.now + 2 * r.ttl)
            && Has(r'.sims.sets, e.simulation, e.session)
            && e.session in r'.sessions && r'.sessions[e.session].deadline == r.now + r.ttl
  {
  }

  lemma TrackedRunIs(ttl: nat, gap: nat, e: Entry)
    requires 0 < ttl <= gap
    ensures var ops := [] + [Advance(1)] + [Track(e)];
            && RunRedis(EmptyRedis(ttl), ops) == TrackRedis(AdvanceRedis(EmptyRedis(ttl), 1), e)
            && Spaced(ttl, gap, ops) && LastReap(ttl, ops) == 0
  {
    OneMoreRedis(ttl, [], Advance(1));
    OneMoreSpaced(ttl, gap, [], Advance(1));
    OneMoreRedis(ttl, [] + [Advance(1)], Track(e));
    OneMoreSpaced(ttl, gap, [] + [Advance(1)], Track(e));
  }

  /** A session tracked a unit after the start, and a Reap at a ttl. */
  lemma ReapedRun(ttl: nat, e: Entry) returns (ops: seq<Op>)
    requires 0 < ttl && e.simulation != ""
    ensures Lawful(ttl, ops) && Spaced(ttl, ttl + 1, ops) && LastReap(ttl, ops) == ttl
    ensures var r := RunRedis(EmptyRedis(ttl), ops); r.now == ttl && ListedUntil(r, e.simulation, 2 * ttl + 1)
  {
    var tracked := [] + [Advance(1)] + [Track(e)];
    TrackedRunIs(ttl, ttl, e);
    TrackedRunIs(ttl, ttl + 1, e);
    var r := AdvanceRedis(EmptyRedis(ttl), 1);
    assert r.now == 1 && r.ttl == ttl;
    TrackedIs(r, e);
    ThenReaped(ttl, ttl, tracked, ttl);
    ThenReaped(ttl, ttl + 1, tracked, ttl);
    ListedByReap(TrackRedis(r, e), ttl, e.simulation, 2 * ttl + 1, e.session);
    ops := tracked + [Advance(ttl), Reap];
  }

  /** When everything tracked has expired, a name that stays is a name too many. */
  lemma NobodyLeft(r: Redis, to: nat, m: string)
    requires SessionsTimely(r) && KeysListed(r.sessionSims, r.sims.sets, r.sessions.Keys) && r.now + r.ttl <= to
    ensures var late := ReapRedis(AdvanceRedis(r, to));
            late.sessions.Keys == {} && (m in late.sims.active ==> !ExactFor(late.sessionSims, late.sims))
  {
    var late := ReapRedis(AdvanceRedis(r, to));
    assert late.sessions.Keys == {};
    assert forall s :: s !in late.sessionSims;
  }

  lemma LateReap(ttl: nat, gap: nat, before: seq<Op>, to: nat, m: string, deadline: nat) returns (ops: seq<Op>)
    requires ttl > 0 && Lawful(ttl, before) && Spaced(ttl, gap, before)
    requires var r := RunRedis(EmptyRedis(ttl), before);
             r.now + ttl <= to <= LastReap(ttl, before) + gap && ListedUntil(r, m, deadline) && deadline <= to
    ensures Spaced(ttl, gap, ops) && ops != [] && ops[|ops| - 1] == Reap && !SimsExact(ttl, ops)
    ensures var late := RunRedis(EmptyRedis(ttl), ops); m in late.sims.active && late.sessions.Keys == {}
  {
    ops := before + [Advance(to), Reap];
    InvAlways(ttl, before);
    ThenReaped(ttl, gap, before, to);
    ForgottenByReap(RunRedis(EmptyRedis(ttl), before), to, m, deadline);
    NobodyLeft(RunRedis(EmptyRedis(ttl), before), to, m);
  }

  /** With Reaps a ttl and one unit apart, a simulation tracked a unit after the start outlives its
      key unseen, and the second Reap does not remove it. */
  lemma LateReapLosesSimulation(ttl: nat, e: Entry) returns (ops: seq<Op>)
    requires ttl > 0 && e.simulation != ""
    ensures Spaced(ttl, ttl + 1, ops) && ops != [] && ops[|ops| - 1] == Reap
    ensures var late := RunRedis(EmptyRedis(ttl), ops); e.simulation in late.sims.active && late.sessions.Keys == {}
    ensures !SimsExact(ttl, ops)
  {
    var before := ReapedRun(ttl, e);
    ops := LateReap(ttl, ttl + 1, before, 2 * ttl + 1, e.simulation, 2 * ttl + 1);
  }

  lemma {:induction false} SpacedWider(ttl: nat, gap: nat, wider: nat, ops: seq<Op>)
    requires Spaced(ttl, gap, ops) && gap <= wider
    ensures Spaced(ttl, wider, ops)
  {
    if ops != [] {
      SpacedWider(ttl, gap, wider, ops[..|ops| - 1]);
    }
  }

  ghost predicate AlwaysExact(ttl: nat, gap: nat)
  {
    forall ops :: Spaced(ttl, gap, ops) && ops != [] && ops[|ops| - 1] == Reap ==> SimsExact(ttl, ops)
  }

  /** Every Reap of every run makes active-simulations exact if and only if the longest gap between
      Reaps is at most a ttl. */
  lemma AlwaysExactIffGap(ttl: nat, gap: nat)
    requires ttl > 0
    ensures AlwaysExact(ttl, gap) <==> gap <= ttl
  {
    if gap <= ttl {
      forall ops | Spaced(ttl, gap, ops) && ops != [] && ops[|ops| - 1] == Reap ensures SimsExact(ttl, ops) {
        SpacedWider(ttl, gap, ttl, ops);
        ExactAfterEveryReap(ttl, ops);
      }
    } else {
      var ops := LateReapLosesSimulation(ttl, Entry("a", "T", "S"));
      SpacedWider(ttl, ttl + 1, gap, ops);
      assert !SimsExact(ttl, ops);
    }
  }
}
