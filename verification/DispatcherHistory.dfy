/** What a dispatcher instance holds after any run, read off the messages it heard and the sessions
    removed from it, and whom a broadcast then triggers. */
module DispatcherHistory {
  import opened Dispatcher

  function Initial(agentType: string, relays: bool): State
  {
    State(agentType, relays, {}, map[], {}, {})
  }

  // ---------------------------------------------------------------------------
  // The latest relevant turn
  // ---------------------------------------------------------------------------

  /** Turn i is a message that is not dropped as a duplicate. */
  predicate Heard(s: State, turns: seq<Turn>, i: nat)
    requires i < |turns|
  {
    turns[i].Received? && !Duplicate(Run(s, turns[..i]), turns[i].message)
  }

  predicate HeardSpawn(s: State, turns: seq<Turn>, i: nat, x: string)
    requires i < |turns|
  {
    Heard(s, turns, i) && turns[i].message.event.Spawn? &&
    turns[i].message.event.agentType == s.agentType && turns[i].message.event.session == x
  }

  /** Turn i spawns x under the simulation. */
  predicate Maps(s: State, turns: seq<Turn>, i: nat, x: string, sim: string)
    requires i < |turns|
  {
    HeardSpawn(s, turns, i, x) && turns[i].message.event.sim == sim != ""
  }

  /** Turn j removes x, ends the simulation, or spawns x again under some simulation. */
  predicate Unmaps(s: State, turns: seq<Turn>, j: nat, x: string, sim: string)
    requires j < |turns|
  {
    turns[j] == Removed(x) || (Heard(s, turns, j) && turns[j].message.event == EndSimulation(sim)) ||
    (HeardSpawn(s, turns, j, x) && turns[j].message.event.sim != "")
  }

  ghost predicate MappedSince(s: State, turns: seq<Turn>, i: nat, x: string, sim: string)
  {
    i < |turns| && Maps(s, turns, i, x, sim) && forall j :: i < j < |turns| ==> !Unmaps(s, turns, j, x, sim)
  }

  /** The latest spawn of x under a simulation was under this one, and neither a removal of x nor the end
      of the simulation followed. */
  ghost predicate Mapped(s: State, turns: seq<Turn>, x: string, sim: string)
  {
    exists i: nat :: MappedSince(s, turns, i, x, sim)
  }

  /** Turn j removes x, resets the instance, or ends the simulation x is mapped to. */
  ghost predicate Deactivates(s: State, turns: seq<Turn>, j: nat, x: string)
    requires j < |turns|
  {
    turns[j] == Removed(x) ||
    (Heard(s, turns, j) &&
     (turns[j].message.event.Reset? ||
      (turns[j].message.event.EndSimulation? && Mapped(s, turns[..j], x, turns[j].message.event.ended))))
  }

  ghost predicate ActiveSince(s: State, turns: seq<Turn>, i: nat, x: string)
  {
    i < |turns| && HeardSpawn(s, turns, i, x) && forall j :: i < j < |turns| ==> !Deactivates(s, turns, j, x)
  }

  /** x was spawned and has not been deactivated since. */
  ghost predicate Active(s: State, turns: seq<Turn>, x: string)
  {
    exists i: nat :: ActiveSince(s, turns, i, x)
  }

  lemma HeardBefore(s: State, turns: seq<Turn>, i: nat)
    requires i < |turns| - 1
    ensures turns[..|turns| - 1][i] == turns[i] && turns[..|turns| - 1][..i] == turns[..i]
  {
  }

  lemma MappedSinceStep(s: State, turns: seq<Turn>, i: nat, x: string, sim: string)
    requires i < |turns| - 1
    ensures MappedSince(s, turns, i, x, sim) <==>
            MappedSince(s, turns[..|turns| - 1], i, x, sim) && !Unmaps(s, turns, |turns| - 1, x, sim)
  {
    var n := |turns| - 1;
    forall j: nat | j < n
      ensures Unmaps(s, turns[..n], j, x, sim) <==> Unmaps(s, turns, j, x, sim)
    {
      HeardBefore(s, turns, j);
    }
    HeardBefore(s, turns, i);
  }

  lemma MappedStep(s: State, turns: seq<Turn>, x: string, sim: string)
    requires turns != []
    ensures var n := |turns| - 1;
            Mapped(s, turns, x, sim) <==>
              Maps(s, turns, n, x, sim) || (Mapped(s, turns[..n], x, sim) && !Unmaps(s, turns, n, x, sim))
  {
    var n := |turns| - 1;
    if i: nat :| MappedSince(s, turns, i, x, sim) {
      if i < n {
        MappedSinceStep(s, turns, i, x, sim);
      }
    }
    if Maps(s, turns, n, x, sim) {
      assert MappedSince(s, turns, n, x, sim);
    }
    if i: nat :| MappedSince(s, turns[..n], i, x, sim) {
      MappedSinceStep(s, turns, i, x, sim);
    }
  }

  lemma ActiveSinceStep(s: State, turns: seq<Turn>, i: nat, x: string)
    requires i < |turns| - 1
    ensures ActiveSince(s, turns, i, x) <==>
            ActiveSince(s, turns[..|turns| - 1], i, x) && !Deactivates(s, turns, |turns| - 1, x)
  {
    var n := |turns| - 1;
    forall j: nat | j < n ensures Deactivates(s, turns[..n], j, x) <==> Deactivates(s, turns, j, x) {
      HeardBefore(s, turns, j);
    }
    HeardBefore(s, turns, i);
  }

  lemma ActiveStep(s: State, turns: seq<Turn>, x: string)
    requires turns != []
    ensures var n := |turns| - 1;
            Active(s, turns, x) <==>
              HeardSpawn(s, turns, n, x) || (Active(s, turns[..n], x) && !Deactivates(s, turns, n, x))
  {
    var n := |turns| - 1;
    if i: nat :| ActiveSince(s, turns, i, x) {
      if i < n {
        ActiveSinceStep(s, turns, i, x);
      }
    }
    if HeardSpawn(s, turns, n, x) {
      assert ActiveSince(s, turns, n, x);
    }
    if i: nat :| ActiveSince(s, turns[..n], i, x) {
      ActiveSinceStep(s, turns, i, x);
    }
  }

  // ---------------------------------------------------------------------------
  // Sessions and their simulations
  // ---------------------------------------------------------------------------

  lemma {:induction false} SameInstance(agentType: string, relays: bool, turns: seq<Turn>)
    ensures var s := Run(Initial(agentType, relays), turns); s.agentType == agentType && s.relays == relays
  {
    if turns != [] {
      SameInstance(agentType, relays, turns[..|turns| - 1]);
    }
  }

  ghost predicate IsMapped(s: State, x: string, sim: string)
  {
    x in s.sessionSim && s.sessionSim[x] == sim
  }

  lemma MappingStep(s: State, t: Turn, x: string, sim: string)
    ensures var heard := t.Received? && !Duplicate(s, t.message);
            var spawn := heard && t.message.event.Spawn? && t.message.event.agentType == s.agentType &&
                         t.message.event.session == x && t.message.event.sim != "";
            IsMapped(Handled(s, t), x, sim) <==>
              if spawn then t.message.event.sim == sim
              else IsMapped(s, x, sim) && t != Removed(x) &&
                   !(heard && t.message.event == EndSimulation(sim) && sim != "")
  {
  }

  /** After every run a session is mapped to the simulation of its latest spawn under one, unless it was
      removed or that simulation ended since. */
  lemma {:induction false} MappedIff(agentType: string, relays: bool, turns: seq<Turn>, x: string, sim: string)
    ensures IsMapped(Run(Initial(agentType, relays), turns), x, sim) <==>
            Mapped(Initial(agentType, relays), turns, x, sim)
  {
    var s := Initial(agentType, relays);
    if turns != [] {
      var n := |turns| - 1;
      MappedIff(agentType, relays, turns[..n], x, sim);
      MappedStep(s, turns, x, sim);
      SameInstance(agentType, relays, turns[..n]);
      MappingStep(Run(s, turns[..n]), turns[n], x, sim);
      NamedSims(agentType, relays, turns[..n], x);
    }
  }

  lemma {:induction false} NamedSims(agentType: string, relays: bool, turns: seq<Turn>, x: string)
    ensures !IsMapped(Run(Initial(agentType, relays), turns), x, "")
  {
    if turns != [] {
      NamedSims(agentType, relays, turns[..|turns| - 1], x);
      MappingStep(Run(Initial(agentType, relays), turns[..|turns| - 1]), turns[|turns| - 1], x, "");
    }
  }

  lemma ActivityStep(s: State, t: Turn, x: string)
    ensures var heard := t.Received? && !Duplicate(s, t.message);
            var spawn := heard && t.message.event.Spawn? && t.message.event.agentType == s.agentType &&
                         t.message.event.session == x;
            x in Handled(s, t).active <==>
              spawn ||
              (x in s.active && t != Removed(x) && !(heard && t.message.event.Reset?) &&
               !(heard && t.message.event.EndSimulation? && t.message.event.ended != "" &&
                 IsMapped(s, x, t.message.event.ended)))
  {
  }

  /** After every run the active sessions are those spawned and not deactivated since, under a
      simulation or not. */
  lemma {:induction false} ActiveIff(agentType: string, relays: bool, turns: seq<Turn>, x: string)
    ensures x in Run(Initial(agentType, relays), turns).active <==> Active(Initial(agentType, relays), turns, x)
  {
    var s := Initial(agentType, relays);
    if turns != [] {
      var n := |turns| - 1;
      ActiveIff(agentType, relays, turns[..n], x);
      ActiveStep(s, turns, x);
      SameInstance(agentType, relays, turns[..n]);
      ActivityStep(Run(s, turns[..n]), turns[n], x);
      if turns[n].Received? && turns[n].message.event.EndSimulation? {
        MappedIff(agentType, relays, turns[..n], x, turns[n].message.event.ended);
        NamedSims(agentType, relays, turns[..n], x);
      }
    }
  }

  // ---------------------------------------------------------------------------
  // Broadcasts
  // ---------------------------------------------------------------------------

  /** Whom a broadcast triggers after any run. One for a simulation: each active session mapped to it,
      once, and no session of another. Otherwise: without targets, or with the instance's agent type
      among them, every active session once; else each active one as often as it is a target. Excluded
      sessions never. */
  lemma BroadcastTriggers(agentType: string, relays: bool, turns: seq<Turn>, e: Event, x: string)
    requires e.Broadcast?
    ensures var s := Initial(agentType, relays);
            TriggerCount(Run(s, turns), e, x) ==
              if !Active(s, turns, x) || x in e.excluded then 0
              else if e.scope != "" then if Mapped(s, turns, x, e.scope) then 1 else 0
              else if e.targets == [] || agentType in e.targets then 1
              else multiset(e.targets)[x]
  {
    SameInstance(agentType, relays, turns);
    ActiveIff(agentType, relays, turns, x);
    MappedIff(agentType, relays, turns, x, e.scope);
  }

  /** A broadcast is relayed to exactly the targets it does not trigger here: those not active, those
      excluded, and in one for a simulation those not mapped to it. */
  lemma BroadcastRelays(agentType: string, relays: bool, turns: seq<Turn>, e: Event, x: string)
    requires e.Broadcast?
    ensures var s := Initial(agentType, relays);
            x in Unmatched(Run(s, turns), e) <==>
              x in e.targets &&
              (!Active(s, turns, x) || x in e.excluded || (e.scope != "" && !Mapped(s, turns, x, e.scope)))
    ensures Relays(Run(Initial(agentType, relays), turns), e) <==>
            relays && !e.relayed && exists y :: y in Unmatched(Run(Initial(agentType, relays), turns), e)
  {
    SameInstance(agentType, relays, turns);
    BroadcastTriggers(agentType, relays, turns, e, x);
  }

  // ---------------------------------------------------------------------------
  // Seen ids
  // ---------------------------------------------------------------------------

  /** Turn i publishes a relay under this id. */
  predicate RelaysAs(s: State, turns: seq<Turn>, i: nat, id: string)
    requires i < |turns|
  {
    turns[i].Received? && Publishes(Run(s, turns[..i]), turns[i].message) && turns[i].relayId == id
  }

  /** Turn i, when the id is its own or seen before, does not leave it: a reset, or an eviction of it
      because there would be more than 1000. */
  predicate Forgets(s: State, turns: seq<Turn>, i: nat, id: string)
    requires i < |turns|
  {
    Heard(s, turns, i) && !RelaysAs(s, turns, i, id) &&
    (turns[i].message.event.Reset? ||
     (turns[i].message.id != "" && turns[i].victim == id &&
      |Run(s, turns[..i]).seen + {turns[i].message.id}| > 1000))
  }

  predicate Records(s: State, turns: seq<Turn>, i: nat, id: string)
    requires i < |turns|
  {
    RelaysAs(s, turns, i, id) ||
    (Heard(s, turns, i) && turns[i].message.id == id != "" && !Forgets(s, turns, i, id))
  }

  ghost predicate SeenSince(s: State, turns: seq<Turn>, i: nat, id: string)
  {
    i < |turns| && Records(s, turns, i, id) && forall j :: i < j < |turns| ==> !Forgets(s, turns, j, id)
  }

  ghost predicate Seen(s: State, turns: seq<Turn>, id: string)
  {
    exists i: nat :: SeenSince(s, turns, i, id)
  }

  lemma SeenSinceStep(s: State, turns: seq<Turn>, i: nat, id: string)
    requires i < |turns| - 1
    ensures SeenSince(s, turns, i, id) <==>
            SeenSince(s, turns[..|turns| - 1], i, id) && !Forgets(s, turns, |turns| - 1, id)
  {
    var n := |turns| - 1;
    forall j: nat | j < n ensures Forgets(s, turns[..n], j, id) <==> Forgets(s, turns, j, id) {
      HeardBefore(s, turns, j);
    }
    HeardBefore(s, turns, i);
  }

  lemma SeenStep(s: State, turns: seq<Turn>, id: string)
    requires turns != []
    ensures var n := |turns| - 1;
            Seen(s, turns, id) <==>
              Records(s, turns, n, id) || (Seen(s, turns[..n], id) && !Forgets(s, turns, n, id))
  {
    var n := |turns| - 1;
    if i: nat :| SeenSince(s, turns, i, id) {
      if i < n {
        SeenSinceStep(s, turns, i, id);
      }
    }
    if Records(s, turns, n, id) {
      assert SeenSince(s, turns, n, id);
    }
    if i: nat :| SeenSince(s, turns[..n], i, id) {
      SeenSinceStep(s, turns, i, id);
    }
  }

  lemma RecordedSeen(seen: set<string>, own: string, victim: string, id: string)
    ensures id in Record(seen, own, victim) <==>
            (id in seen || id == own != "") && !(own != "" && victim == id && |seen + {own}| > 1000)
  {
  }

  lemma HandledSeen(s: State, e: Event, relayId: string, id: string)
    ensures id in Handle(s, e, relayId).seen <==>
            (e.Broadcast? && Relays(s, e) && relayId == id) || (id in s.seen && !e.Reset?)
  {
  }

  lemma OneTurnSeen(s: State, t: Turn, id: string)
    ensures var heard := t.Received? && !Duplicate(s, t.message);
            id in Handled(s, t).seen <==>
              (heard && Publishes(s, t.message) && t.relayId == id) ||
              ((id in s.seen || (heard && t.message.id == id != "")) &&
               !(heard && (t.message.event.Reset? ||
                           (t.message.id != "" && t.victim == id && |s.seen + {t.message.id}| > 1000))))
  {
    if t.Received? && !Duplicate(s, t.message) {
      var recorded := s.(seen := Record(s.seen, t.message.id, t.victim));
      RecordedSeen(s.seen, t.message.id, t.victim, id);
      HandledSeen(recorded, t.message.event, t.relayId, id);
      if t.message.event.Broadcast? {
        SeenDoesNotMatter(s, recorded, t.message.event);
      }
    }
  }

  /** After every run a message is a duplicate exactly if its id was recorded, as an event's or as that of
      a relay published here, and neither evicted nor reset since. */
  lemma {:induction false} SeenIff(agentType: string, relays: bool, turns: seq<Turn>, id: string)
    ensures id in Run(Initial(agentType, relays), turns).seen <==> Seen(Initial(agentType, relays), turns, id)
  {
    var s := Initial(agentType, relays);
    if turns != [] {
      var n := |turns| - 1;
      SeenIff(agentType, relays, turns[..n], id);
      SeenStep(s, turns, id);
      OneTurnSeen(Run(s, turns[..n]), turns[n], id);
    }
  }
}
