/** One dispatcher instance: event processing over its session and simulation tracking. */
module Dispatcher {
  import opened Options

  /** `agentType` and `relays` (whether REDIS_ADDR is set) are fixed; the rest is mutable. */
  datatype State = State(
    agentType: string,
    relays: bool,
    active: set<string>,
    sessionSim: map<string, string>,
    sims: set<string>,
    seen: set<string>)

  /** An absent simulation id is empty, as is an absent event id. */
  datatype Event =
    | Reset
    | Spawn(agentType: string, session: string, sim: string)
    | Broadcast(scope: string, targets: seq<string>, excluded: seq<string>, relayed: bool)
    | EndSimulation(ended: string)
    | Action(target: string)

  datatype Message = Message(id: string, event: Event)

  const SEEN_LIMIT := 1000

  // ---------------------------------------------------------------------------
  // Deduplication
  // ---------------------------------------------------------------------------

  predicate Duplicate(s: State, m: Message)
  {
    m.id != "" && m.id in s.seen
  }

  /** The seen ids once `id` is recorded; past the limit, an arbitrary one of them is dropped. */
  function Record(seen: set<string>, id: string, victim: string): set<string>
  {
    if id == "" then seen
    else if |seen + {id}| > SEEN_LIMIT then seen + {id} - {victim}
    else seen + {id}
  }

  /** An id dropped past the limit is one that was seen. */
  predicate Evicts(seen: set<string>, id: string, victim: string)
  {
    id != "" && |seen + {id}| > SEEN_LIMIT ==> victim in seen + {id}
  }

  // ---------------------------------------------------------------------------
  // Broadcasts
  // ---------------------------------------------------------------------------

  /** How often a broadcast triggers `x`: once for a session of the named simulation, else once for
      each mention in the targets, or once for every session when no session is named. */
  function TriggerCount(s: State, e: Event, x: string): nat
    requires e.Broadcast?
  {
    if x !in s.active || x in e.excluded then 0
    else if e.scope != "" then if x in s.sessionSim && s.sessionSim[x] == e.scope then 1 else 0
    else if e.targets == [] || s.agentType in e.targets then 1
    else multiset(e.targets)[x]
  }

  function Unmatched(s: State, e: Event): (u: set<string>)
    requires e.Broadcast?
    ensures forall x :: x in u <==> x in e.targets && TriggerCount(s, e, x) == 0
  {
    set x | x in e.targets && TriggerCount(s, e, x) == 0
  }

  lemma SeenDoesNotMatter(s: State, t: State, e: Event)
    requires e.Broadcast? && t == s.(seen := t.seen)
    ensures forall x :: TriggerCount(s, e, x) == TriggerCount(t, e, x)
    ensures Unmatched(s, e) == Unmatched(t, e)
  {
  }

  predicate Relays(s: State, e: Event)
    requires e.Broadcast?
  {
    Unmatched(s, e) != {} && !e.relayed && s.relays
  }

  // ---------------------------------------------------------------------------
  // State changes
  // ---------------------------------------------------------------------------

  /** A session leaves; its simulation is dropped when no other session is mapped to it. */
  function RemoveSession(s: State, x: string): State
  {
    var rest := s.sessionSim - {x};
    s.(active := s.active - {x},
       sessionSim := rest,
       sims := if x in s.sessionSim && s.sessionSim[x] !in rest.Values then s.sims - {s.sessionSim[x]} else s.sims)
  }

  function MappedTo(s: State, sim: string): (xs: set<string>)
    ensures forall x :: x in xs <==> x in s.sessionSim && s.sessionSim[x] == sim
  {
    set x | x in s.sessionSim && s.sessionSim[x] == sim
  }

  /** The state after an event that is not a duplicate, its id already recorded in `s`. */
  function Handle(s: State, e: Event, relayId: string): State
  {
    match e
    case Reset => s.(active := {}, seen := {})
    case Spawn(agentType, x, sim) =>
      if agentType != s.agentType then s
      else if sim == "" then s.(active := s.active + {x})
      else s.(active := s.active + {x}, sessionSim := s.sessionSim[x := sim], sims := s.sims + {sim})
    case Broadcast(_, _, _, _) => if Relays(s, e) then s.(seen := s.seen + {relayId}) else s
    case EndSimulation(sim) =>
      var gone := MappedTo(s, sim);
      if sim == "" || gone == {} then s
      else s.(active := s.active - gone, sessionSim := s.sessionSim - gone, sims := s.sims - {sim})
    case Action(_) => s
  }

  function Process(s: State, m: Message, relayId: string, victim: string): State
  {
    if Duplicate(s, m) then s
    else Handle(s.(seen := Record(s.seen, m.id, victim)), m.event, relayId)
  }

  // ---------------------------------------------------------------------------
  // How large the set of seen ids grows
  // ---------------------------------------------------------------------------

  /** Whether the message publishes a relay. */
  predicate Publishes(s: State, m: Message)
  {
    !Duplicate(s, m) && m.event.Broadcast? && Relays(s, m.event)
  }

  lemma RecordedSize(seen: set<string>, id: string, victim: string)
    requires Evicts(seen, id, victim) && (id == "" || id !in seen)
    ensures |Record(seen, id, victim)| ==
            if id == "" then |seen| else if |seen| >= SEEN_LIMIT then |seen| else |seen| + 1
  {
    if id != "" {
      assert |seen + {id}| == |seen| + 1;
      if |seen + {id}| > SEEN_LIMIT {
        assert |seen + {id} - {victim}| == |seen + {id}| - 1;
      }
    }
  }

  /** The seen ids after a message other than a reset: one more for a new id below the limit, and one
      more for a relay whatever their number, because a relay's id is added without evicting. */
  lemma SeenSize(s: State, m: Message, relayId: string, victim: string)
    requires !Duplicate(s, m) && !m.event.Reset? && Evicts(s.seen, m.id, victim)
    requires relayId !in s.seen + {m.id}
    ensures |Process(s, m, relayId, victim).seen| ==
            |s.seen| + (if m.id != "" && |s.seen| < SEEN_LIMIT then 1 else 0) + (if Publishes(s, m) then 1 else 0)
  {
    var s1 := s.(seen := Record(s.seen, m.id, victim));
    RecordedSize(s.seen, m.id, victim);
    if m.event.Broadcast? {
      SeenDoesNotMatter(s, s1, m.event);
      assert relayId !in s1.seen;
    }
  }

  /** The limit is kept by a message if and only if it does not publish a relay that no room is left
      for. */
  lemma LimitKeptIff(s: State, m: Message, relayId: string, victim: string)
    requires !Duplicate(s, m) && !m.event.Reset? && Evicts(s.seen, m.id, victim)
    requires relayId !in s.seen + {m.id} && |s.seen| <= SEEN_LIMIT
    ensures |Process(s, m, relayId, victim).seen| <= SEEN_LIMIT <==>
            !(Publishes(s, m) && |s.seen| + (if m.id != "" then 1 else 0) >= SEEN_LIMIT)
  {
    SeenSize(s, m, relayId, victim);
  }

  // ---------------------------------------------------------------------------
  // Simulation tracking
  // ---------------------------------------------------------------------------

  /** The subscribed simulations are exactly those some session is mapped to. */
  ghost predicate Tracking(s: State)
  {
    && (forall x :: x in s.sessionSim ==> s.sessionSim[x] in s.sims)
    && (forall m :: m in s.sims ==> exists x :: x in s.sessionSim && s.sessionSim[x] == m)
  }

  /** A spawn that moves a session away from a simulation no other session is mapped to. */
  predicate Abandons(s: State, e: Event)
  {
    e.Spawn? && e.agentType == s.agentType && e.sim != "" &&
    e.session in s.sessionSim && s.sessionSim[e.session] != e.sim &&
    forall y :: y in s.sessionSim && y != e.session ==> s.sessionSim[y] != s.sessionSim[e.session]
  }

  lemma TrackingByEnd(s: State, sim: string)
    requires Tracking(s)
    ensures Tracking(Handle(s, EndSimulation(sim), ""))
  {
    var s' := Handle(s, EndSimulation(sim), "");
    forall m | m in s'.sims
      ensures exists x :: x in s'.sessionSim && s'.sessionSim[x] == m
    {
      var x :| x in s.sessionSim && s.sessionSim[x] == m;
      assert x in s'.sessionSim;
    }
  }

  lemma TrackingByRemove(s: State, x: string)
    requires Tracking(s)
    ensures Tracking(RemoveSession(s, x))
  {
    var s' := RemoveSession(s, x);
    forall m | m in s'.sims
      ensures exists y :: y in s'.sessionSim && s'.sessionSim[y] == m
    {
      var y :| y in s.sessionSim && s.sessionSim[y] == m;
      if y == x {
        assert m in (s.sessionSim - {x}).Values;
        var z :| z in s'.sessionSim && s'.sessionSim[z] == m;
      } else {
        assert s'.sessionSim[y] == m;
      }
    }
    forall y | y in s'.sessionSim ensures s'.sessionSim[y] in s'.sims {
      assert s'.sessionSim[y] in (s.sessionSim - {x}).Values;
    }
  }

  lemma TrackingBySpawn(s: State, e: Event)
    requires Tracking(s) && e.Spawn?
    ensures Tracking(Handle(s, e, "")) <==> !Abandons(s, e)
  {
    var s' := Handle(s, e, "");
    if e.agentType == s.agentType && e.sim != "" {
      assert s'.sessionSim[e.session] == e.sim;
      if Abandons(s, e) {
        var m := s.sessionSim[e.session];
        assert m in s'.sims && forall x :: x in s'.sessionSim ==> s'.sessionSim[x] != m;
      } else {
        forall m | m in s'.sims
          ensures exists x :: x in s'.sessionSim && s'.sessionSim[x] == m
        {
          if m != e.sim {
            var x :| x in s.sessionSim && s.sessionSim[x] == m;
            if x == e.session {
              var y :| y in s.sessionSim && y != e.session && s.sessionSim[y] == s.sessionSim[e.session];
              assert s'.sessionSim[y] == m;
            } else {
              assert s'.sessionSim[x] == m;
            }
          }
        }
      }
    }
  }

  /** A session spawned for one simulation and again for another leaves the first one subscribed. */
  lemma RespawnAbandons(agentType: string, x: string, first: string, second: string)
    requires first != "" && second != "" && first != second
    ensures var s := State(agentType, false, {}, map[], {}, {});
            var once := Handle(s, Spawn(agentType, x, first), "");
            Tracking(once) && !Tracking(Handle(once, Spawn(agentType, x, second), ""))
  {
    var once := Handle(State(agentType, false, {}, map[], {}, {}), Spawn(agentType, x, first), "");
    assert once.sessionSim[x] == first;
    TrackingBySpawn(once, Spawn(agentType, x, second));
  }

  /** One message keeps the subscriptions equal to the mapped simulations, resets included, exactly
      when it does not move the last session of a simulation elsewhere. */
  lemma TrackingStep(s: State, m: Message, relayId: string, victim: string)
    requires Tracking(s)
    ensures Tracking(Process(s, m, relayId, victim)) <==> Duplicate(s, m) || !Abandons(s, m.event)
  {
    if !Duplicate(s, m) {
      var s1 := s.(seen := Record(s.seen, m.id, victim));
      match m.event
      case Spawn(_, _, _) => TrackingBySpawn(s1, m.event);
      case EndSimulation(sim) => TrackingByEnd(s1, sim);
      case _ => assert Process(s, m, relayId, victim).sessionSim == s.sessionSim;
    }
  }

  /** What happens at an instance: a message handled, with its relay id and its eviction, or a
      session removed by a caller. */
  datatype Turn = Received(message: Message, relayId: string, victim: string) | Removed(session: string)

  function Handled(s: State, t: Turn): State
  {
    match t
    case Received(m, relayId, victim) => Process(s, m, relayId, victim)
    case Removed(x) => RemoveSession(s, x)
  }

  function Run(s: State, turns: seq<Turn>): State
  {
    if turns == [] then s else Handled(Run(s, turns[..|turns| - 1]), turns[|turns| - 1])
  }

  /** The turn moves the last session of a simulation elsewhere. */
  predicate TurnAbandons(s: State, t: Turn)
  {
    t.Received? && !Duplicate(s, t.message) && Abandons(s, t.message.event)
  }

  ghost predicate TrackingThroughout(s: State, turns: seq<Turn>)
  {
    forall k :: 0 <= k <= |turns| ==> Tracking(Run(s, turns[..k]))
  }

  ghost predicate NoneAbandons(s: State, turns: seq<Turn>)
  {
    forall i :: 0 <= i < |turns| ==> !TurnAbandons(Run(s, turns[..i]), turns[i])
  }

  lemma TurnKeepsTrackingIff(s: State, t: Turn)
    requires Tracking(s)
    ensures Tracking(Handled(s, t)) <==> !TurnAbandons(s, t)
  {
    match t
    case Received(m, relayId, victim) => TrackingStep(s, m, relayId, victim);
    case Removed(x) => TrackingByRemove(s, x);
  }

  lemma TrackingLast(s: State, turns: seq<Turn>)
    requires turns != []
    ensures TrackingThroughout(s, turns) <==>
            TrackingThroughout(s, turns[..|turns| - 1]) && Tracking(Run(s, turns))
  {
    var n := |turns| - 1;
    assert turns[..n + 1] == turns;
    forall k | 0 <= k <= n ensures turns[..n][..k] == turns[..k] {
    }
    if TrackingThroughout(s, turns) {
      assert Tracking(Run(s, turns[..n + 1]));
      forall k | 0 <= k <= n ensures Tracking(Run(s, turns[..n][..k])) {
        assert Tracking(Run(s, turns[..k]));
      }
    }
    if TrackingThroughout(s, turns[..n]) && Tracking(Run(s, turns)) {
      forall k | 0 <= k <= n + 1 ensures Tracking(Run(s, turns[..k])) {
        assert k <= n ==> Tracking(Run(s, turns[..n][..k]));
      }
    }
  }

  lemma NoneAbandonsLast(s: State, turns: seq<Turn>)
    requires turns != []
    ensures var n := |turns| - 1;
            NoneAbandons(s, turns) <==> NoneAbandons(s, turns[..n]) && !TurnAbandons(Run(s, turns[..n]), turns[n])
  {
    var n := |turns| - 1;
    forall i | 0 <= i < n ensures turns[..n][..i] == turns[..i] && turns[..n][i] == turns[i] {
    }
    if NoneAbandons(s, turns) {
      forall i | 0 <= i < n ensures !TurnAbandons(Run(s, turns[..n][..i]), turns[..n][i]) {
        assert !TurnAbandons(Run(s, turns[..i]), turns[i]);
      }
      assert !TurnAbandons(Run(s, turns[..n]), turns[n]);
    }
  }

  /** The subscriptions are at all times exactly the simulations of mapped sessions if and only if no
      turn moves the last session of a simulation elsewhere. */
  lemma {:induction false} TrackingAlwaysIff(s: State, turns: seq<Turn>)
    requires Tracking(s)
    ensures TrackingThroughout(s, turns) <==> NoneAbandons(s, turns)
  {
    if turns != [] {
      var before := turns[..|turns| - 1];
      TrackingAlwaysIff(s, before);
      TrackingLast(s, turns);
      NoneAbandonsLast(s, turns);
      if TrackingThroughout(s, before) {
        assert before[..|before|] == before;
        assert Tracking(Run(s, before[..|before|]));
        TurnKeepsTrackingIff(Run(s, before), turns[|turns| - 1]);
      }
    }
  }

  predicate Respawns(s: State, t: Turn)
  {
    t.Received? && t.message.event.Spawn? && t.message.event.sim != "" &&
    t.message.event.session in s.sessionSim && s.sessionSim[t.message.event.session] != t.message.event.sim
  }

  /** No session is spawned again under another simulation. */
  ghost predicate NoRespawn(s: State, turns: seq<Turn>)
  {
    forall i :: 0 <= i < |turns| ==> !Respawns(Run(s, turns[..i]), turns[i])
  }

  /** So they are if no session is spawned again under another simulation. */
  lemma TrackingAlways(s: State, turns: seq<Turn>)
    requires Tracking(s) && NoRespawn(s, turns)
    ensures TrackingThroughout(s, turns)
  {
    forall i | 0 <= i < |turns| ensures !TurnAbandons(Run(s, turns[..i]), turns[i]) {
      assert !Respawns(Run(s, turns[..i]), turns[i]);
    }
    TrackingAlwaysIff(s, turns);
  }

  // ---------------------------------------------------------------------------
  // The seen ids over a run
  // ---------------------------------------------------------------------------

  /** A broadcast with a new id that publishes a relay with a new id. */
  predicate PublishesAnew(s: State, t: Turn)
  {
    && t.Received? && t.message.id != "" && Publishes(s, t.message)
    && Evicts(s.seen, t.message.id, t.victim) && t.relayId !in s.seen + {t.message.id}
  }

  ghost predicate AllPublish(s: State, turns: seq<Turn>)
  {
    forall i :: 0 <= i < |turns| ==> PublishesAnew(Run(s, turns[..i]), turns[i])
  }

  lemma PublishedBefore(s: State, turns: seq<Turn>)
    requires turns != [] && AllPublish(s, turns)
    ensures AllPublish(s, turns[..|turns| - 1])
    ensures PublishesAnew(Run(s, turns[..|turns| - 1]), turns[|turns| - 1])
  {
    var before := turns[..|turns| - 1];
    forall i | 0 <= i < |before| ensures PublishesAnew(Run(s, before[..i]), before[i]) {
      assert before[i] == turns[i] && before[..i] == turns[..i];
    }
  }

  lemma SeenTurn(s: State, t: Turn)
    requires PublishesAnew(s, t)
    ensures |Handled(s, t).seen| >= |s.seen| + 1
    ensures |s.seen| >= SEEN_LIMIT ==> |Handled(s, t).seen| == |s.seen| + 1
  {
    SeenSize(s, t.message, t.relayId, t.victim);
  }

  /** Each such turn adds at least one id, and from the limit on exactly one. */
  lemma {:induction false} SeenGrows(s: State, turns: seq<Turn>)
    requires AllPublish(s, turns)
    ensures |Run(s, turns).seen| >= |s.seen| + |turns|
    ensures |s.seen| >= SEEN_LIMIT ==> |Run(s, turns).seen| == |s.seen| + |turns|
  {
    if turns != [] {
      var before := turns[..|turns| - 1];
      PublishedBefore(s, turns);
      SeenGrows(s, before);
      SeenTurn(Run(s, before), turns[|turns| - 1]);
    }
  }

  lemma {:induction false} LongerThanAll(xs: set<string>) returns (n: nat)
    ensures forall x :: x in xs ==> |x| < n
  {
    if xs == {} {
      n := 0;
    } else {
      var x :| x in xs;
      var m := LongerThanAll(xs - {x});
      n := if |x| < m then m else |x| + 1;
    }
  }

  lemma NewId(xs: set<string>) returns (id: string)
    ensures id != "" && id !in xs
  {
    var n := LongerThanAll(xs);
    id := seq(n + 1, _ => 'x');
  }

  lemma PublishingTurn(s: State) returns (t: Turn)
    requires s.relays
    ensures PublishesAnew(s, t) && Handled(s, t).relays
  {
    var absent := NewId(s.active);
    var id := NewId(s.seen);
    var relayId := NewId(s.seen + {id});
    t := Received(Message(id, Broadcast("", [absent], [], false)), relayId, id);
    assert absent in Unmatched(s, t.message.event);
  }

  lemma {:induction false} PublishingRun(s: State, n: nat) returns (turns: seq<Turn>)
    requires s.relays
    ensures |turns| == n && AllPublish(s, turns) && Run(s, turns).relays
  {
    if n == 0 {
      turns := [];
    } else {
      var before := PublishingRun(s, n - 1);
      var t := PublishingTurn(Run(s, before));
      turns := before + [t];
      assert turns[..n - 1] == before;
      forall i | 0 <= i < n - 1 ensures PublishesAnew(Run(s, turns[..i]), turns[i]) {
        assert turns[..i] == before[..i];
      }
    }
  }

  /** No number bounds the set: from every state with Redis configured some run exceeds it. */
  lemma SeenGrowsWithoutBound(s: State, bound: nat) returns (turns: seq<Turn>)
    requires s.relays
    ensures |Run(s, turns).seen| > bound
  {
    turns := PublishingRun(s, bound + 1);
    SeenGrows(s, turns);
  }

  // ---------------------------------------------------------------------------
  // The class
  // ---------------------------------------------------------------------------

  /** The end of a subscribed simulation drops its channel once if some session is mapped to it; no other
      event drops one. */
  ghost function ChannelDropped(s: State, e: Event): seq<string>
  {
    if e.EndSimulation? && e.ended in s.sims && e.ended != "" &&
       exists x :: x in s.sessionSim && s.sessionSim[x] == e.ended
    then [e.ended] else []
  }

  class RedisOrchestratorDispatcher {
    const agentType: string
    const relays: bool
    var active: set<string>
    var sessionSim: map<string, string>
    var sims: set<string>
    var seen: set<string>
    /** The scoped channels unsubscribed from, in order. */
    var dropped: seq<string>

    ghost function Snapshot(): State
      reads this
    {
      State(agentType, relays, active, sessionSim, sims, seen)
    }

    constructor (agentType: string, relays: bool)
      ensures Snapshot() == State(agentType, relays, {}, map[], {}, {}) && dropped == []
    {
      this.agentType, this.relays := agentType, relays;
      active, sessionSim, sims, seen, dropped := {}, map[], {}, {}, [];
    }

    /** remove_session */
    method Remove(x: string)
      modifies `active, `sessionSim, `sims, `dropped
      ensures Snapshot() == RemoveSession(old(Snapshot()), x)
      ensures var s := old(Snapshot());
              var left := x in s.sessionSim && s.sessionSim[x] in s.sims && s.sessionSim[x] !in sessionSim.Values;
              dropped == old(dropped) + if left then [s.sessionSim[x]] else []
    {
      active := active - {x};
      if x in sessionSim {
        var sim := sessionSim[x];
        sessionSim := sessionSim - {x};
        if sim !in sessionSim.Values && sim in sims {
          sims := sims - {sim};
          dropped := dropped + [sim];
        }
      } else {
        assert sessionSim - {x} == sessionSim;
      }
      assert sims == RemoveSession(old(Snapshot()), x).sims;
    }

    /** The end_simulation branch: exactly the sessions mapped to the simulation leave, and its
        channel is dropped once, with the last of them. */
    method End(sim: string)
      modifies `active, `sessionSim, `sims, `dropped
      ensures Snapshot() == Handle(old(Snapshot()), EndSimulation(sim), "")
      ensures dropped == old(dropped) + ChannelDropped(old(Snapshot()), EndSimulation(sim))
    {
      if sim == "" {
        return;
      }
      var gone := set x | x in sessionSim && sessionSim[x] == sim;
      assert gone == MappedTo(Snapshot(), sim);
      var todo := gone;
      while todo != {}
        modifies `active, `sessionSim, `sims, `dropped
        invariant todo <= gone
        invariant active == old(active) - (gone - todo)
        invariant sessionSim == old(sessionSim) - (gone - todo)
        invariant sims == old(sims) - if todo == {} && gone != {} then {sim} else {}
        invariant dropped == old(dropped) + if todo == {} && gone != {} && sim in old(sims) then [sim] else []
      {
        var x :| x in todo;
        assert sessionSim[x] == sim;
        assert todo != {x} ==> exists y :: y in todo && y != x && (sessionSim - {x})[y] == sim;
        Remove(x);
        todo := todo - {x};
      }
      assert gone - todo == gone;
    }

    /** The broadcast filter, before exclusions. */
    method Select(scope: string, targets: seq<string>) returns (selected: multiset<string>)
      ensures forall x :: selected[x] == TriggerCount(Snapshot(), Broadcast(scope, targets, [], false), x)
    {
      if scope != "" {
        selected := multiset(set x | x in active && x in sessionSim && sessionSim[x] == scope);
      } else if |targets| > 0 && agentType !in targets {
        selected := multiset{};
        for i := 0 to |targets|
          invariant forall x :: selected[x] == if x in active then multiset(targets[..i])[x] else 0
        {
          assert targets[..i + 1] == targets[..i] + [targets[i]];
          if targets[i] in active {
            selected := selected + multiset{targets[i]};
          }
        }
        assert targets[..|targets|] == targets;
      } else {
        selected := multiset(active);
      }
    }

    /** Deduplication: whether the id was seen before, and the id evicted when it was not. */
    method Note(id: string) returns (duplicate: bool, victim: string)
      modifies `seen
      ensures duplicate <==> id != "" && id in old(seen)
      ensures Evicts(old(seen), id, victim) || duplicate
      ensures seen == if duplicate then old(seen) else Record(old(seen), id, victim)
    {
      duplicate, victim := id != "" && id in seen, "";
      if id != "" && !duplicate {
        seen := seen + {id};
        if |seen| > SEEN_LIMIT {
          victim :| victim in seen;
          seen := seen - {victim};
        }
      }
    }

    /** The broadcast branch. */
    method OnBroadcast(e: Event, relayId: string) returns (triggered: multiset<string>, relay: Option<seq<string>>)
      requires e.Broadcast?
      modifies `seen
      ensures Snapshot() == Handle(old(Snapshot()), e, relayId)
      ensures forall x :: triggered[x] == TriggerCount(old(Snapshot()), e, x)
      ensures relay.Some? <==> Relays(old(Snapshot()), e)
      ensures relay.Some? ==> multiset(relay.value) == multiset(Unmatched(old(Snapshot()), e))
    {
      var selected := Select(e.scope, e.targets);
      triggered := Exclude(selected, e.excluded);
      relay := None;
      var unmatched := set x | x in e.targets && x !in triggered;
      assert unmatched == Unmatched(Snapshot(), e);
      if unmatched != {} && !e.relayed && relays {
        seen := seen + {relayId};
        var listed := ListOf(unmatched);
        relay := Some(listed);
      }
    }

    method OnSpawn(target: string, x: string, sim: string)
      modifies `active, `sessionSim, `sims
      ensures Snapshot() == Handle(old(Snapshot()), Spawn(target, x, sim), "")
    {
      if target == agentType {
        active := active + {x};
        if sim != "" {
          sessionSim, sims := sessionSim[x := sim], sims + {sim};
        }
      }
    }

    /** The branches on the event type, for an event that is not a duplicate. */
    method HandleEvent(e: Event, relayId: string) returns (triggered: multiset<string>, relay: Option<seq<string>>)
      modifies this
      ensures Snapshot() == Handle(old(Snapshot()), e, relayId)
      ensures e.Broadcast? ==>
                (forall x :: triggered[x] == TriggerCount(old(Snapshot()), e, x)) &&
                (relay.Some? <==> Relays(old(Snapshot()), e)) &&
                (relay.Some? ==> multiset(relay.value) == multiset(Unmatched(old(Snapshot()), e)))
      ensures e.Action? ==> triggered == if e.target in old(active) then multiset{e.target} else multiset{}
      ensures !e.Broadcast? && !e.Action? ==> triggered == multiset{}
      ensures !e.Broadcast? ==> relay == None
      ensures dropped == old(dropped) + ChannelDropped(old(Snapshot()), e)
    {
      triggered, relay := multiset{}, None;
      match e
      case Reset =>
        active, seen := {}, {};
      case Spawn(target, x, sim) =>
        OnSpawn(target, x, sim);
      case Broadcast(_, _, _, _) =>
        triggered, relay := OnBroadcast(e, relayId);
      case EndSimulation(sim) =>
        End(sim);
      case Action(x) =>
        if x in active {
          triggered := multiset{x};
        }
    }

    /** _process_event: the runs it triggers and the targets of the relay it publishes, if any. */
    method ProcessEvent(m: Message, relayId: string)
      returns (triggered: multiset<string>, relay: Option<seq<string>>, victim: string)
      modifies this
      ensures Snapshot() == Process(old(Snapshot()), m, relayId, victim)
      ensures old(Duplicate(Snapshot(), m)) || Evicts(old(seen), m.id, victim)
      ensures m.event.Broadcast? && !old(Duplicate(Snapshot(), m)) ==>
                (forall x :: triggered[x] == TriggerCount(old(Snapshot()), m.event, x)) &&
                (relay.Some? <==> Relays(old(Snapshot()), m.event)) &&
                (relay.Some? ==> multiset(relay.value) == multiset(Unmatched(old(Snapshot()), m.event)))
      ensures m.event.Action? && !old(Duplicate(Snapshot(), m)) ==>
                triggered == if m.event.target in old(active) then multiset{m.event.target} else multiset{}
      ensures old(Duplicate(Snapshot(), m)) || !(m.event.Broadcast? || m.event.Action?) ==>
                triggered == multiset{} && relay == None
      ensures dropped == old(dropped) +
                         if old(Duplicate(Snapshot(), m)) then [] else ChannelDropped(old(Snapshot()), m.event)
    {
      triggered, relay := multiset{}, None;
      ghost var s0 := Snapshot();
      var duplicate;
      duplicate, victim := Note(m.id);
      if duplicate {
        return;
      }
      ghost var s1 := Snapshot();
      assert s1 == s0.(seen := Record(s0.seen, m.id, victim));
      triggered, relay := HandleEvent(m.event, relayId);
      if m.event.Broadcast? {
        SeenDoesNotMatter(s0, s1, m.event);
      }
    }
  }

  /** The selected sessions that are not excluded. */
  method Exclude(selected: multiset<string>, excluded: seq<string>) returns (rest: multiset<string>)
    ensures forall x :: rest[x] == if x in excluded then 0 else selected[x]
  {
    rest := selected;
    for i := 0 to |excluded|
      invariant forall x :: rest[x] == if x in excluded[..i] then 0 else selected[x]
    {
      assert forall x :: x in excluded[..i + 1] <==> x in excluded[..i] || x == excluded[i];
      rest := rest[excluded[i] := 0];
    }
    assert excluded[..|excluded|] == excluded;
  }

  /** A set as a list, in any order. */
  method ListOf(xs: set<string>) returns (ys: seq<string>)
    ensures multiset(ys) == multiset(xs)
  {
    ys := [];
    var todo := xs;
    while todo != {}
      invariant todo <= xs && multiset(ys) == multiset(xs - todo)
    {
      var x :| x in todo;
      assert xs - (todo - {x}) == xs - todo + {x};
      ys, todo := ys + [x], todo - {x};
    }
    assert xs - todo == xs;
  }
}
