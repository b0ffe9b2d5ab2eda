/** The keys of the cross-instance subscription store, and what they hold after any run, read off the
    history alone. */
module SubscriptionRuns {
  import opened Options

  /** A Redis set under a key that expires at `deadline`. */
  datatype Entry = Entry(members: set<string>, deadline: nat)

  type Keys = map<string, Entry>

  predicate Listed(m: Keys, k: string, v: string)
  {
    k in m && v in m[k].members
  }

  function Members(m: Keys, k: string): (vs: set<string>)
    ensures forall v :: v in vs <==> Listed(m, k, v)
  {
    if k in m then m[k].members else {}
  }

  /** SADD followed by EXPIRE. */
  function AddAndExpire(m: Keys, k: string, v: string, deadline: nat): Keys
  {
    m[k := Entry(Members(m, k) + {v}, deadline)]
  }

  lemma Added(m: Keys, k: string, v: string, deadline: nat)
    ensures var r := AddAndExpire(m, k, v, deadline);
            && (forall k', v' :: Listed(r, k', v') <==> Listed(m, k', v') || (k' == k && v' == v))
            && (forall k' :: k' in r <==> k' in m || k' == k)
            && (forall k' :: k' in r ==> r[k'].deadline == if k' == k then deadline else m[k'].deadline)
  {
  }

  /** SREM; Redis drops a key whose set becomes empty. */
  function Remove(m: Keys, k: string, v: string): (r: Keys)
    ensures forall k', v' :: Listed(r, k', v') <==> Listed(m, k', v') && !(k' == k && v' == v)
    ensures forall k' :: k' in r ==> k' in m && r[k'].deadline == m[k'].deadline
  {
    if k !in m then m
    else if m[k].members - {v} == {} then
      assert m[k].members <= {v};
      m - {k}
    else m[k := m[k].(members := m[k].members - {v})]
  }

  /** The keys that have not expired at `now`. */
  function Alive(m: Keys, now: nat): (r: Keys)
    ensures forall k :: k in r <==> k in m && now < m[k].deadline
    ensures forall k :: k in r ==> r[k] == m[k]
  {
    map k | k in m && now < m[k].deadline :: m[k]
  }

  /** `fwd` without `session` in the sets named by `sims`. */
  function Sweep(fwd: Keys, sims: set<string>, session: string): (r: Keys)
    ensures forall k, v :: Listed(r, k, v) <==> Listed(fwd, k, v) && !(v == session && k in sims)
    ensures forall k :: k in r ==> k in fwd && r[k].deadline == fwd[k].deadline
  {
    assert forall k, v :: Listed(fwd, k, v) && v != session ==> v in fwd[k].members - {session};
    map k | k in fwd && (k in sims ==> fwd[k].members - {session} != {}) ::
      if k in sims then Entry(fwd[k].members - {session}, fwd[k].deadline) else fwd[k]
  }

  lemma SweepOneMore(fwd: Keys, sims: set<string>, sim: string, session: string)
    requires sim !in sims
    ensures Remove(Sweep(fwd, sims, session), sim, session) == Sweep(fwd, sims + {sim}, session)
  {
  }

  // ---------------------------------------------------------------------------
  // Runs
  // ---------------------------------------------------------------------------

  datatype Act =
    | Subscribed(sim: string, session: string)
    | Unsubscribed(sim: string, session: string)
    | Gone(session: string)
    | Elapsed(to: nat)

  datatype Sets = Sets(now: nat, fwd: Keys, rev: Keys)

  function Take(ttl: nat, s: Sets, a: Act): Sets
  {
    match a
    case Subscribed(sim, x) =>
      Sets(s.now, AddAndExpire(s.fwd, sim, x, s.now + ttl), AddAndExpire(s.rev, x, sim, s.now + ttl))
    case Unsubscribed(sim, x) => Sets(s.now, Remove(s.fwd, sim, x), Remove(s.rev, x, sim))
    case Gone(x) => Sets(s.now, Sweep(s.fwd, Members(s.rev, x), x), s.rev - {x})
    case Elapsed(to) => Sets(to, Alive(s.fwd, to), Alive(s.rev, to))
  }

  function Replay(ttl: nat, h: seq<Act>): Sets
  {
    if h == [] then Sets(0, map[], map[]) else Take(ttl, Replay(ttl, h[..|h| - 1]), h[|h| - 1])
  }

  // ---------------------------------------------------------------------------
  // What a run leaves in the sets
  // ---------------------------------------------------------------------------

  function Now(h: seq<Act>): nat
  {
    if h == [] then 0 else if h[|h| - 1].Elapsed? then h[|h| - 1].to else Now(h[..|h| - 1])
  }

  /** When the simulation was last subscribed to, by any session. */
  function LastTo(h: seq<Act>, sim: string): Option<nat>
  {
    if h == [] then None
    else
      var before, a := h[..|h| - 1], h[|h| - 1];
      if a.Subscribed? && a.sim == sim then Some(Now(before)) else LastTo(before, sim)
  }

  /** When the session last subscribed, to any simulation. */
  function LastBy(h: seq<Act>, x: string): Option<nat>
  {
    if h == [] then None
    else
      var before, a := h[..|h| - 1], h[|h| - 1];
      if a.Subscribed? && a.session == x then Some(Now(before)) else LastBy(before, x)
  }

  predicate Lapses(a: Act, last: Option<nat>, ttl: nat)
  {
    a.Elapsed? && last.Some? && last.value + ttl <= a.to
  }

  /** Act j takes the simulation out of the session's reverse set: the pair is unsubscribed, the
      session leaves, or a ttl has passed since the session last subscribed to anything. */
  predicate RevEnds(ttl: nat, h: seq<Act>, j: nat, sim: string, x: string)
    requires j < |h|
  {
    h[j] == Unsubscribed(sim, x) || h[j] == Gone(x) || Lapses(h[j], LastBy(h[..j], x), ttl)
  }

  ghost predicate RevHolds(ttl: nat, h: seq<Act>, sim: string, x: string)
  {
    exists i :: 0 <= i < |h| && h[i] == Subscribed(sim, x) && RevLasts(ttl, h, i, sim, x)
  }

  ghost predicate RevLasts(ttl: nat, h: seq<Act>, i: nat, sim: string, x: string)
  {
    forall j :: i < j < |h| ==> !RevEnds(ttl, h, j, sim, x)
  }

  /** Act j takes the session out of the simulation's forward set: the pair is unsubscribed, the session
      leaves while its reverse set has the simulation, or a ttl has passed since anybody subscribed to
      the simulation. */
  ghost predicate FwdEnds(ttl: nat, h: seq<Act>, j: nat, sim: string, x: string)
    requires j < |h|
  {
    h[j] == Unsubscribed(sim, x) || (h[j] == Gone(x) && RevHolds(ttl, h[..j], sim, x)) ||
    Lapses(h[j], LastTo(h[..j], sim), ttl)
  }

  ghost predicate FwdHolds(ttl: nat, h: seq<Act>, sim: string, x: string)
  {
    exists i :: 0 <= i < |h| && h[i] == Subscribed(sim, x) && FwdLasts(ttl, h, i, sim, x)
  }

  ghost predicate FwdLasts(ttl: nat, h: seq<Act>, i: nat, sim: string, x: string)
  {
    forall j :: i < j < |h| ==> !FwdEnds(ttl, h, j, sim, x)
  }

  lemma RevLastsStep(ttl: nat, h: seq<Act>, i: nat, sim: string, x: string)
    requires i < |h| - 1
    ensures RevLasts(ttl, h, i, sim, x) <==>
            RevLasts(ttl, h[..|h| - 1], i, sim, x) && !RevEnds(ttl, h, |h| - 1, sim, x)
  {
    var n := |h| - 1;
    forall j | 0 <= j < n ensures RevEnds(ttl, h[..n], j, sim, x) <==> RevEnds(ttl, h, j, sim, x) {
      assert h[..n][..j] == h[..j];
    }
  }

  lemma RevStep(ttl: nat, h: seq<Act>, sim: string, x: string)
    requires h != []
    ensures var n := |h| - 1;
            RevHolds(ttl, h, sim, x) <==>
              h[n] == Subscribed(sim, x) || (RevHolds(ttl, h[..n], sim, x) && !RevEnds(ttl, h, n, sim, x))
  {
    var n := |h| - 1;
    if i :| 0 <= i < n && h[i] == Subscribed(sim, x) && RevLasts(ttl, h, i, sim, x) {
      RevLastsStep(ttl, h, i, sim, x);
      assert h[..n][i] == Subscribed(sim, x);
    }
    if i :| 0 <= i < n && h[..n][i] == Subscribed(sim, x) && RevLasts(ttl, h[..n], i, sim, x) {
      RevLastsStep(ttl, h, i, sim, x);
      assert h[i] == Subscribed(sim, x);
    }
  }

  lemma FwdLastsStep(ttl: nat, h: seq<Act>, i: nat, sim: string, x: string)
    requires i < |h| - 1
    ensures FwdLasts(ttl, h, i, sim, x) <==>
            FwdLasts(ttl, h[..|h| - 1], i, sim, x) && !FwdEnds(ttl, h, |h| - 1, sim, x)
  {
    var n := |h| - 1;
    forall j | 0 <= j < n ensures FwdEnds(ttl, h[..n], j, sim, x) <==> FwdEnds(ttl, h, j, sim, x) {
      assert h[..n][..j] == h[..j];
    }
  }

  lemma FwdStep(ttl: nat, h: seq<Act>, sim: string, x: string)
    requires h != []
    ensures var n := |h| - 1;
            FwdHolds(ttl, h, sim, x) <==>
              h[n] == Subscribed(sim, x) || (FwdHolds(ttl, h[..n], sim, x) && !FwdEnds(ttl, h, n, sim, x))
  {
    var n := |h| - 1;
    if i :| 0 <= i < n && h[i] == Subscribed(sim, x) && FwdLasts(ttl, h, i, sim, x) {
      FwdLastsStep(ttl, h, i, sim, x);
      assert h[..n][i] == Subscribed(sim, x);
    }
    if i :| 0 <= i < n && h[..n][i] == Subscribed(sim, x) && FwdLasts(ttl, h[..n], i, sim, x) {
      FwdLastsStep(ttl, h, i, sim, x);
      assert h[i] == Subscribed(sim, x);
    }
  }

  lemma {:induction false} NowIs(ttl: nat, h: seq<Act>)
    ensures Replay(ttl, h).now == Now(h)
  {
    if h != [] {
      NowIs(ttl, h[..|h| - 1]);
    }
  }

  /** Each key expires a ttl after its last subscription. */
  lemma {:induction false} Deadlines(ttl: nat, h: seq<Act>, k: string)
    ensures k in Replay(ttl, h).fwd ==>
              LastTo(h, k).Some? && Replay(ttl, h).fwd[k].deadline == LastTo(h, k).value + ttl
    ensures k in Replay(ttl, h).rev ==>
              LastBy(h, k).Some? && Replay(ttl, h).rev[k].deadline == LastBy(h, k).value + ttl
  {
    if h != [] {
      Deadlines(ttl, h[..|h| - 1], k);
      NowIs(ttl, h[..|h| - 1]);
    }
  }

  /** After every run a session's reverse set has exactly the simulations the history says. */
  lemma {:induction false} RevExact(ttl: nat, h: seq<Act>, sim: string, x: string)
    ensures Listed(Replay(ttl, h).rev, x, sim) <==> RevHolds(ttl, h, sim, x)
  {
    if h != [] {
      RevExact(ttl, h[..|h| - 1], sim, x);
      RevStep(ttl, h, sim, x);
      Deadlines(ttl, h[..|h| - 1], x);
    }
  }

  /** And a simulation's forward set exactly the sessions. */
  lemma {:induction false} FwdExact(ttl: nat, h: seq<Act>, sim: string, x: string)
    ensures Listed(Replay(ttl, h).fwd, sim, x) <==> FwdHolds(ttl, h, sim, x)
  {
    if h != [] {
      FwdExact(ttl, h[..|h| - 1], sim, x);
      FwdStep(ttl, h, sim, x);
      RevExact(ttl, h[..|h| - 1], sim, x);
      Deadlines(ttl, h[..|h| - 1], sim);
    }
  }

  /** A session that leaves stays listed for a simulation if and only if at that time the forward set
      still had it and its reverse set had lost the simulation. */
  lemma StaysListedIff(ttl: nat, h: seq<Act>, sim: string, x: string)
    ensures Listed(Replay(ttl, h + [Gone(x)]).fwd, sim, x) <==>
            FwdHolds(ttl, h, sim, x) && !RevHolds(ttl, h, sim, x)
  {
    assert (h + [Gone(x)])[..|h|] == h;
    FwdExact(ttl, h, sim, x);
    RevExact(ttl, h, sim, x);
  }

  lemma StaleRun(ttl: nat, sim: string, a: string, b: string, h: seq<Act>)
    requires a != b && ttl > 1 && h == [Subscribed(sim, a), Elapsed(1), Subscribed(sim, b), Elapsed(ttl)]
    ensures FwdHolds(ttl, h, sim, a) && !RevHolds(ttl, h, sim, a)
  {
    assert h[..3][..2] == h[..2] && h[..2][..1] == h[..1] && h[..1][..0] == [];
    assert Now(h[..0]) == 0 && Now(h[..2]) == 1;
    assert LastBy(h[..1], a) == Some(0) && LastTo(h[..1], sim) == Some(0);
    assert h[..3][2] == Subscribed(sim, b) && h[..2][1] == Elapsed(1) && h[..1][0] == Subscribed(sim, a);
    assert LastBy(h[..2], a) == Some(0);
    assert LastBy(h[..3], a) == Some(0) && LastTo(h[..3], sim) == Some(1);
    assert RevEnds(ttl, h, 3, sim, a);
    assert h[0] == Subscribed(sim, a) && FwdLasts(ttl, h, 0, sim, a);
  }

  /** Stale entries exist: b keeps the forward key alive past the expiry of a's reverse key, and a is
      listed although it has left. */
  lemma StaleListing(ttl: nat, sim: string, a: string, b: string)
    requires a != b && ttl > 1
    ensures var h := [Subscribed(sim, a), Elapsed(1), Subscribed(sim, b), Elapsed(ttl)] + [Gone(a)];
            Listed(Replay(ttl, h).fwd, sim, a)
  {
    var h := [Subscribed(sim, a), Elapsed(1), Subscribed(sim, b), Elapsed(ttl)];
    StaleRun(ttl, sim, a, b, h);
    StaysListedIff(ttl, h, sim, a);
  }
}
