/** The session registry's two implementations as states: the Redis keys with their expiries, and
    the in-memory maps. Each operation is one step. */
module RegistryState {
  import opened Multimaps

  /** Session ids are UUIDs; the key layout relies on their having no colon. */
  type SessionId = s: string | ':' !in s witness ""

  datatype Entry = Entry(session: SessionId, agentType: string, simulation: string)

  datatype Timed = Timed(value: string, deadline: nat)

  type Sets = map<string, set<SessionId>>

  /** A family of sets and the set that names its non-empty members. */
  datatype Index = Index(sets: Sets, active: set<string>)

  /** `sessions` and `sessionSims` are string keys with the session ttl, `simDeadline` is the expiry
      of each set in `sims`; the other keys never expire. A key in the state has not expired at
      `now`. */
  datatype Redis = Redis(
    ttl: nat,
    now: nat,
    sessions: map<SessionId, Timed>,
    sessionSims: map<SessionId, Timed>,
    agents: Index,
    sims: Index,
    simDeadline: map<string, nat>)

  datatype Memory = Memory(
    agentTypes: map<SessionId, string>,
    agentSessions: Sets,
    sessionSim: map<SessionId, string>,
    simSessions: Sets)

  datatype Op =
    | Track(entry: Entry)
    | Untrack(session: SessionId)
    | Flush
    | Reap
    | Advance(to: nat)

  // ---------------------------------------------------------------------------
  // Redis
  // ---------------------------------------------------------------------------

  /** SADD to a set and to the set of names. */
  function AddTo(x: Index, k: string, s: SessionId): Index
  {
    Index(Add(x.sets, k, s), x.active + {k})
  }

  /** SREM, and the name goes when SCARD is 0. */
  function RemoveFrom(x: Index, k: string, s: SessionId): Index
  {
    var rest := Remove(x.sets, k, s);
    Index(rest, if k in rest then x.active else x.active - {k})
  }

  /** SET with a ttl, SADD twice, and the simulation half when there is a simulation. */
  function TrackAgent(r: Redis, e: Entry): Redis
  {
    r.(sessions := r.sessions[e.session := Timed(e.agentType, r.now + r.ttl)],
       agents := AddTo(r.agents, e.agentType, e.session))
  }

  function TrackSim(r: Redis, e: Entry): Redis
  {
    r.(sims := AddTo(r.sims, e.simulation, e.session),
       simDeadline := r.simDeadline[e.simulation := r.now + 2 * r.ttl],
       sessionSims := r.sessionSims[e.session := Timed(e.simulation, r.now + r.ttl)])
  }

  function TrackRedis(r: Redis, e: Entry): Redis
  {
    if e.simulation == "" then TrackAgent(r, e) else TrackSim(TrackAgent(r, e), e)
  }

  function UntrackAgent(r: Redis, s: SessionId): Redis
  {
    if s in r.sessions then r.(agents := RemoveFrom(r.agents, r.sessions[s].value, s)) else r
  }

  function UntrackSim(r: Redis, s: SessionId): Redis
  {
    if s !in r.sessionSims then r
    else
      var m := r.sessionSims[s].value;
      var rest := RemoveFrom(r.sims, m, s);
      r.(sims := rest, simDeadline := if m in rest.sets then r.simDeadline else r.simDeadline - {m})
  }

  function UntrackRedis(r: Redis, s: SessionId): Redis
  {
    UntrackSim(UntrackAgent(r, s), s).(sessions := r.sessions - {s}, sessionSims := r.sessionSims - {s})
  }

  function FlushRedis(r: Redis): Redis
  {
    r.(sessions := map[], sessionSims := map[], agents := Index(r.agents.sets - r.agents.active, {}),
       sims := Index(map[], {}), simDeadline := map[])
  }

  /** `m` without the members outside `live`, in the sets named by `ks`. */
  function Prune(m: Sets, ks: set<string>, live: set<SessionId>): (r: Sets)
    ensures forall k, s :: Has(r, k, s) <==> Has(m, k, s) && (k in ks ==> s in live)
    ensures Pruned(m) ==> Pruned(r)
  {
    assert forall k, s :: Has(m, k, s) && s in live ==> s in m[k] * live;
    map k | k in m && (k in ks ==> m[k] * live != {}) :: if k in ks then m[k] * live else m[k]
  }

  /** Members whose session key is gone are dropped from the sets named by `ks`; of the names, only
      those of sets left empty by this go. */
  function PruneIndex(x: Index, ks: set<string>, live: set<SessionId>): Index
  {
    var rest := Prune(x.sets, ks, live);
    Index(rest, set k | k in x.active && (k in x.sets ==> k in rest))
  }

  function KeptDeadlines(deadline: map<string, nat>, sets: Sets, rest: Sets): (r: map<string, nat>)
    ensures forall m :: m in r <==> m in deadline && (m in sets ==> m in rest)
    ensures forall m :: m in r ==> r[m] == deadline[m]
  {
    map m | m in deadline && (m in sets ==> m in rest) :: deadline[m]
  }

  /** The simulation keys that survive: a stale member of any scanned set loses its own. */
  function KeptSims(keys: map<SessionId, Timed>, sets: Sets, live: set<SessionId>): (r: map<SessionId, Timed>)
    ensures forall s :: s in r <==> s in keys && (s in live || !InSome(sets, s))
    ensures forall s :: s in r ==> r[s] == keys[s]
  {
    map s | s in keys && (s in live || !InSome(sets, s)) :: keys[s]
  }

  /** The agent sets are found through their names, the simulation sets by scanning for their keys:
      the name of a simulation whose key has expired is never visited. */
  function ReapRedis(r: Redis): Redis
  {
    var live := r.sessions.Keys;
    var sims := PruneIndex(r.sims, r.sims.sets.Keys, live);
    r.(agents := PruneIndex(r.agents, r.agents.active, live),
       sims := sims,
       simDeadline := KeptDeadlines(r.simDeadline, r.sims.sets, sims.sets),
       sessionSims := KeptSims(r.sessionSims, r.sims.sets, live))
  }

  predicate InSome(m: Sets, s: SessionId)
  {
    exists k :: k in m && s in m[k]
  }

  function AliveAt(m: map<SessionId, Timed>, to: nat): (r: map<SessionId, Timed>)
    ensures forall s :: s in r <==> s in m && to < m[s].deadline
    ensures forall s :: s in r ==> r[s] == m[s]
  {
    map s | s in m && to < m[s].deadline :: m[s]
  }

  function AdvanceRedis(r: Redis, to: nat): Redis
  {
    r.(now := to,
       sessions := AliveAt(r.sessions, to),
       sessionSims := AliveAt(r.sessionSims, to),
       sims := r.sims.(sets := map m | m in r.sims.sets && (m in r.simDeadline ==> to < r.simDeadline[m]) ::
                                   r.sims.sets[m]),
       simDeadline := map m | m in r.simDeadline && to < r.simDeadline[m] :: r.simDeadline[m])
  }

  function StepRedis(r: Redis, op: Op): Redis
  {
    match op
    case Track(e) => TrackRedis(r, e)
    case Untrack(s) => UntrackRedis(r, s)
    case Flush => FlushRedis(r)
    case Reap => ReapRedis(r)
    case Advance(to) => AdvanceRedis(r, to)
  }

  function RunRedis(r: Redis, ops: seq<Op>): Redis
  {
    if ops == [] then r else StepRedis(RunRedis(r, ops[..|ops| - 1]), ops[|ops| - 1])
  }

  function EmptyRedis(ttl: nat): Redis
  {
    Redis(ttl, 0, map[], map[], Index(map[], {}), Index(map[], {}), map[])
  }

  lemma OneMoreRedis(ttl: nat, ops: seq<Op>, op: Op)
    ensures RunRedis(EmptyRedis(ttl), ops + [op]) == StepRedis(RunRedis(EmptyRedis(ttl), ops), op)
  {
    assert (ops + [op])[..|ops|] == ops;
  }

  // ---------------------------------------------------------------------------
  // In-memory
  // ---------------------------------------------------------------------------

  function TrackMemory(m: Memory, e: Entry): Memory
  {
    var m1 := m.(agentTypes := m.agentTypes[e.session := e.agentType],
                 agentSessions := Add(m.agentSessions, e.agentType, e.session));
    if e.simulation == "" then m1
    else
      m1.(sessionSim := m.sessionSim[e.session := e.simulation],
          simSessions := Add(m.simSessions, e.simulation, e.session))
  }

  function UntrackMemory(m: Memory, s: SessionId): Memory
  {
    Memory(
      m.agentTypes - {s},
      if s in m.agentTypes then Remove(m.agentSessions, m.agentTypes[s], s) else m.agentSessions,
      m.sessionSim - {s},
      if s in m.sessionSim then Remove(m.simSessions, m.sessionSim[s], s) else m.simSessions)
  }

  function StepMemory(m: Memory, op: Op): Memory
  {
    match op
    case Track(e) => TrackMemory(m, e)
    case Untrack(s) => UntrackMemory(m, s)
    case Flush => EMPTY_MEMORY
    case Reap => m
    case Advance(_) => m
  }

  function RunMemory(m: Memory, ops: seq<Op>): Memory
  {
    if ops == [] then m else StepMemory(RunMemory(m, ops[..|ops| - 1]), ops[|ops| - 1])
  }

  const EMPTY_MEMORY := Memory(map[], map[], map[], map[])

  lemma OneMoreMemory(ops: seq<Op>, op: Op)
    ensures RunMemory(EMPTY_MEMORY, ops + [op]) == StepMemory(RunMemory(EMPTY_MEMORY, ops), op)
  {
    assert (ops + [op])[..|ops|] == ops;
  }
}
