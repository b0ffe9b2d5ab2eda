/** Traffic on a route whose closure is swept open: the per-tick update of each segment's state, and
    a closed form of what it does over a whole run. */
module Congestion {
  import opened Options
  import opened Reals

  datatype Segment = Segment(name: string, start: real, end: real)

  /** The ticks a segment has been closed, and its decaying congestion while it reopens. */
  datatype Entry = Entry(closed: nat, peak: Option<real>)

  datatype Status = IsClosed | Reopening | IsOpen

  datatype Reading = Reading(status: Status, congestion: real, ticksClosed: nat, sinceReopened: nat)

  /** `maxTicks` closed ticks give full congestion; each reopening tick takes away a share `rate`. */
  datatype Params = Params(maxTicks: nat, rate: real)

  const DEFAULTS := Params(10, 0.3)
  const CUTOFF := 0.01
  const COST_PER_HOUR := 25.0
  const VEHICLES := 50.0

  function Midpoint(s: Segment): real
  {
    (s.start + s.end) / 2.0
  }

  /** What is left of a congestion level after one reopening tick. */
  function Factor(p: Params): real
  {
    if 1.0 - p.rate > 0.0 then 1.0 - p.rate else 0.0
  }

  function Peak(closed: nat, p: Params): real
    requires p.maxTicks > 0
  {
    Min(1.0, closed as real / p.maxTicks as real)
  }

  // ---------------------------------------------------------------------------
  // One tick
  // ---------------------------------------------------------------------------

  /** The level a reopening tick starts from. */
  function Level(e: Entry, p: Params): real
    requires p.maxTicks > 0
  {
    if e.closed > 0 then Peak(e.closed, p) else if e.peak.Some? then e.peak.value else 0.0
  }

  function Decayed(level: real, factor: real): real
  {
    level * factor
  }

  /** A reopening tick that ends at `congestion`. */
  function Settle(congestion: real): (Entry, Reading)
  {
    if congestion <= CUTOFF then (Entry(0, None), Reading(IsOpen, 0.0, 0, 0))
    else (Entry(0, Some(congestion)), Reading(Reopening, congestion, 0, 1))
  }

  /** One segment whose midpoint the sweep has reached. */
  function Reopen(e: Entry, p: Params): (Entry, Reading)
    requires p.maxTicks > 0
  {
    Settle(Decayed(Level(e, p), Factor(p)))
  }

  function Step(e: Entry, mid: real, sweep: real, p: Params): (Entry, Reading)
    requires p.maxTicks > 0
  {
    if mid <= sweep then Reopen(e, p)
    else (Entry(e.closed + 1, None), Reading(IsClosed, Peak(e.closed + 1, p), e.closed + 1, 0))
  }

  function Lookup(entries: map<string, Entry>, name: string): Entry
  {
    if name in entries then entries[name] else Entry(0, None)
  }

  /** The entries after a tick: the segments are visited in turn, those of one name sharing its entry. */
  function AfterTick(entries: map<string, Entry>, index: seq<Segment>, sweep: real, p: Params): map<string, Entry>
    requires p.maxTicks > 0
  {
    if index == [] then entries
    else
      var before, s := AfterTick(entries, index[..|index| - 1], sweep, p), index[|index| - 1];
      before[s.name := Step(Lookup(before, s.name), Midpoint(s), sweep, p).0]
  }

  function Readings(entries: map<string, Entry>, index: seq<Segment>, sweep: real, p: Params): (rs: seq<Reading>)
    requires p.maxTicks > 0
    ensures |rs| == |index|
  {
    if index == [] then []
    else
      var before, s := AfterTick(entries, index[..|index| - 1], sweep, p), index[|index| - 1];
      Readings(entries, index[..|index| - 1], sweep, p) + [Step(Lookup(before, s.name), Midpoint(s), sweep, p).1]
  }

  function Total(rs: seq<Reading>): real
  {
    if rs == [] then 0.0 else Total(rs[..|rs| - 1]) + rs[|rs| - 1].congestion
  }

  predicate IsAverage(a: real, rs: seq<Reading>)
  {
    if rs == [] then a == 0.0 else a * |rs| as real == Total(rs)
  }

  /** The total adds up the readings, in whatever parts they are taken. */
  lemma {:induction false} TotalAdds(rs: seq<Reading>, more: seq<Reading>, r: Reading)
    ensures Total([r]) == r.congestion
    ensures Total(rs + more) == Total(rs) + Total(more)
  {
    if more == [] {
      assert rs + more == rs;
    } else {
      assert (rs + more)[..|rs + more| - 1] == rs + more[..|more| - 1];
      TotalAdds(rs, more[..|more| - 1], r);
    }
  }

  class TrafficModel {
    var entries: map<string, Entry>

    constructor ()
      ensures entries == map[]
    {
      entries := map[];
    }

    /** compute_tick_traffic */
    method ComputeTick(index: seq<Segment>, sweep: real, p: Params)
      returns (readings: seq<Reading>, overall: real, tev: real)
      requires p.maxTicks > 0
      modifies this
      ensures entries == AfterTick(old(entries), index, sweep, p)
      ensures readings == Readings(old(entries), index, sweep, p)
      ensures IsAverage(overall, readings) && (index == [] ==> overall == 0.0)
      ensures tev == -1250.0 * overall
    {
      readings := [];
      var total := 0.0;
      for i := 0 to |index|
        invariant entries == AfterTick(old(entries), index[..i], sweep, p)
        invariant readings == Readings(old(entries), index[..i], sweep, p) && total == Total(readings)
      {
        assert index[..i + 1][..i] == index[..i];
        var state, r := StepSegment(Lookup(entries, index[i].name), Midpoint(index[i]), sweep, p);
        entries := entries[index[i].name := state];
        assert (readings + [r])[..|readings|] == readings;
        readings, total := readings + [r], total + r.congestion;
      }
      assert index[..|index|] == index;
      overall := Overall(readings, total);
      tev := -COST_PER_HOUR * VEHICLES * overall;
    }

    /** The average over all segments. */
    static method Overall(readings: seq<Reading>, total: real) returns (overall: real)
      requires total == Total(readings)
      ensures IsAverage(overall, readings)
    {
      overall := if readings != [] then total / |readings| as real else 0.0;
    }

    /** The body of the loop over segments. */
    static method StepSegment(entry: Entry, mid: real, sweep: real, p: Params) returns (state: Entry, r: Reading)
      requires p.maxTicks > 0
      ensures (state, r) == Step(entry, mid, sweep, p)
    {
      state := entry;
      var status, congestion, since := IsClosed, 0.0, 0;
      if mid <= sweep {
        if state.closed > 0 {
          state := Entry(0, Some(Min(1.0, state.closed as real / p.maxTicks as real)));
        }
        var peak := if state.peak.Some? then state.peak.value else 0.0;
        congestion := Decayed(peak, Factor(p));
        state := state.(peak := Some(congestion));
        if congestion <= CUTOFF {
          status, congestion, since := IsOpen, 0.0, 0;
          state := state.(peak := None);
        } else {
          status, since := Reopening, 1;
        }
      } else {
        state := Entry(state.closed + 1, None);
        congestion := Min(1.0, state.closed as real / p.maxTicks as real);
      }
      r := Reading(status, congestion, state.closed, since);
    }
  }

  // ---------------------------------------------------------------------------
  // Bounds, whatever the names and the sweep
  // ---------------------------------------------------------------------------

  predicate Sane(e: Entry)
  {
    e.peak.Some? ==> 0.0 <= e.peak.value <= 1.0
  }

  ghost predicate AllSane(entries: map<string, Entry>)
  {
    forall name :: name in entries ==> Sane(entries[name])
  }

  /** A tick keeps congestion between 0 and 1 from every sane state exactly when the rate is not
      negative. */
  lemma SaneStepIffRate(p: Params)
    requires p.maxTicks > 0
    ensures p.rate >= 0.0 <==>
            forall e, mid, sweep :: Sane(e) ==>
              Sane(Step(e, mid, sweep, p).0) && 0.0 <= Step(e, mid, sweep, p).1.congestion <= 1.0
  {
    if p.rate >= 0.0 {
      forall e, mid, sweep | Sane(e)
        ensures Sane(Step(e, mid, sweep, p).0) && 0.0 <= Step(e, mid, sweep, p).1.congestion <= 1.0
      {
        SaneStep(e, mid, sweep, p);
      }
    } else {
      var e := Entry(p.maxTicks, None);
      assert Peak(p.maxTicks, p) == 1.0;
      assert Step(e, 0.0, 0.0, p).1.congestion > 1.0;
    }
  }

  lemma SaneStep(e: Entry, mid: real, sweep: real, p: Params)
    requires p.maxTicks > 0 && p.rate >= 0.0 && Sane(e)
    ensures Sane(Step(e, mid, sweep, p).0) && 0.0 <= Step(e, mid, sweep, p).1.congestion <= 1.0
  {
  }

  lemma ProductBounds(x: real, g: real)
    requires 0.0 <= x && 0.0 <= g <= 1.0
    ensures 0.0 <= x * g <= x
  {
  }

  lemma {:induction false} SaneTick(entries: map<string, Entry>, index: seq<Segment>, sweep: real, p: Params)
    requires p.maxTicks > 0 && p.rate >= 0.0 && AllSane(entries)
    ensures AllSane(AfterTick(entries, index, sweep, p))
    ensures forall r :: r in Readings(entries, index, sweep, p) ==> 0.0 <= r.congestion <= 1.0
  {
    if index != [] {
      var s := index[|index| - 1];
      SaneTick(entries, index[..|index| - 1], sweep, p);
      SaneStep(Lookup(AfterTick(entries, index[..|index| - 1], sweep, p), s.name), Midpoint(s), sweep, p);
    }
  }

  /** The entries after a tick for each sweep distance in turn. */
  function Run(index: seq<Segment>, sweeps: seq<real>, p: Params): map<string, Entry>
    requires p.maxTicks > 0
  {
    if sweeps == [] then map[]
    else AfterTick(Run(index, sweeps[..|sweeps| - 1], p), index, sweeps[|sweeps| - 1], p)
  }

  lemma {:induction false} SaneRun(index: seq<Segment>, sweeps: seq<real>, p: Params)
    requires p.maxTicks > 0 && p.rate >= 0.0
    ensures AllSane(Run(index, sweeps, p))
  {
    if sweeps != [] {
      SaneRun(index, sweeps[..|sweeps| - 1], p);
      SaneTick(Run(index, sweeps[..|sweeps| - 1], p), index, sweeps[|sweeps| - 1], p);
    }
  }

  lemma {:induction false} TotalBounds(rs: seq<Reading>)
    requires forall r :: r in rs ==> 0.0 <= r.congestion <= 1.0
    ensures 0.0 <= Total(rs) <= |rs| as real
  {
    if rs != [] {
      TotalBounds(rs[..|rs| - 1]);
      assert rs[|rs| - 1] in rs;
    }
  }

  /** In every tick of every run, the average a tick reports is between 0 and 1 and its cost between
      -1250 and 0. */
  lemma BoundsAlways(index: seq<Segment>, sweeps: seq<real>, sweep: real, p: Params, overall: real)
    requires p.maxTicks > 0 && p.rate >= 0.0
    requires IsAverage(overall, Readings(Run(index, sweeps, p), index, sweep, p))
    ensures forall r :: r in Readings(Run(index, sweeps, p), index, sweep, p) ==> 0.0 <= r.congestion <= 1.0
    ensures 0.0 <= overall <= 1.0 && -1250.0 <= -COST_PER_HOUR * VEHICLES * overall <= 0.0
  {
    SaneRun(index, sweeps, p);
    SaneTick(Run(index, sweeps, p), index, sweep, p);
    AverageBounds(overall, Readings(Run(index, sweeps, p), index, sweep, p));
  }

  lemma AverageBounds(a: real, rs: seq<Reading>)
    requires IsAverage(a, rs) && forall r :: r in rs ==> 0.0 <= r.congestion <= 1.0
    ensures 0.0 <= a <= 1.0
  {
    TotalBounds(rs);
    if rs != [] {
      assert a == Total(rs) / |rs| as real;
    }
  }

  // ---------------------------------------------------------------------------
  // With distinct names, a segment's state depends on its own past only
  // ---------------------------------------------------------------------------

  ghost predicate DistinctNames(index: seq<Segment>)
  {
    forall i, j :: 0 <= i < j < |index| ==> index[i].name != index[j].name
  }

  /** One segment on its own. */
  function Alone(mid: real, sweeps: seq<real>, p: Params): Entry
    requires p.maxTicks > 0
  {
    if sweeps == [] then Entry(0, None)
    else Step(Alone(mid, sweeps[..|sweeps| - 1], p), mid, sweeps[|sweeps| - 1], p).0
  }

  function AloneReading(mid: real, sweeps: seq<real>, p: Params): Reading
    requires p.maxTicks > 0 && sweeps != []
  {
    Step(Alone(mid, sweeps[..|sweeps| - 1], p), mid, sweeps[|sweeps| - 1], p).1
  }

  lemma {:induction false} OtherNames(entries: map<string, Entry>, index: seq<Segment>, sweep: real, p: Params,
                                      name: string)
    requires p.maxTicks > 0 && forall i :: 0 <= i < |index| ==> index[i].name != name
    ensures Lookup(AfterTick(entries, index, sweep, p), name) == Lookup(entries, name)
  {
    if index != [] {
      OtherNames(entries, index[..|index| - 1], sweep, p, name);
    }
  }

  lemma {:induction false} TickIsLocal(entries: map<string, Entry>, index: seq<Segment>, sweep: real, p: Params, k: nat)
    requires p.maxTicks > 0 && DistinctNames(index) && k < |index|
    ensures var stepped := Step(Lookup(entries, index[k].name), Midpoint(index[k]), sweep, p);
            Lookup(AfterTick(entries, index, sweep, p), index[k].name) == stepped.0 &&
            Readings(entries, index, sweep, p)[k] == stepped.1
  {
    var n := |index| - 1;
    if k == n {
      OtherNames(entries, index[..n], sweep, p, index[k].name);
    } else {
      TickIsLocal(entries, index[..n], sweep, p, k);
      assert index[..n][k] == index[k];
    }
  }

  lemma {:induction false} RunIsLocal(index: seq<Segment>, sweeps: seq<real>, p: Params, k: nat)
    requires p.maxTicks > 0 && DistinctNames(index) && k < |index|
    ensures Lookup(Run(index, sweeps, p), index[k].name) == Alone(Midpoint(index[k]), sweeps, p)
  {
    if sweeps != [] {
      RunIsLocal(index, sweeps[..|sweeps| - 1], p, k);
      TickIsLocal(Run(index, sweeps[..|sweeps| - 1], p), index, sweeps[|sweeps| - 1], p, k);
    }
  }

  /** Segment k of a tick reads what its own entry from before the tick gives. */
  predicate OwnStep(entries: map<string, Entry>, index: seq<Segment>, sweep: real, p: Params, k: nat)
    requires p.maxTicks > 0 && k < |index|
  {
    Readings(entries, index, sweep, p)[k] == Step(Lookup(entries, index[k].name), Midpoint(index[k]), sweep, p).1
  }

  lemma {:induction false} SweepBelow(index: seq<Segment>) returns (sweep: real)
    ensures forall i :: 0 <= i < |index| ==> sweep < Midpoint(index[i])
  {
    if index == [] {
      sweep := 0.0;
    } else {
      var last := Midpoint(index[|index| - 1]);
      var before := SweepBelow(index[..|index| - 1]);
      sweep := if before < last then before else last - 1.0;
      assert forall i :: 0 <= i < |index| - 1 ==> index[i] == index[..|index| - 1][i];
    }
  }

  lemma {:induction false} CountedOnce(index: seq<Segment>, sweep: real, p: Params, i: nat)
    requires p.maxTicks > 0 && i < |index|
    requires forall j :: 0 <= j < |index| ==> sweep < Midpoint(index[j])
    ensures Lookup(AfterTick(map[], index, sweep, p), index[i].name).closed >= 1
  {
    if i < |index| - 1 {
      CountedOnce(index[..|index| - 1], sweep, p, i);
    }
  }

  lemma {:induction false} ReadingAt(entries: map<string, Entry>, index: seq<Segment>, sweep: real, p: Params, k: nat)
    requires p.maxTicks > 0 && k < |index|
    ensures Readings(entries, index, sweep, p)[k] ==
            Step(Lookup(AfterTick(entries, index[..k], sweep, p), index[k].name), Midpoint(index[k]), sweep, p).1
  {
    if k < |index| - 1 {
      ReadingAt(entries, index[..|index| - 1], sweep, p, k);
      assert index[..|index| - 1][..k] == index[..k];
    }
  }

  /** Every segment always reads its own step if and only if no two segments have one name. */
  lemma OwnStepsIffDistinct(index: seq<Segment>, p: Params)
    requires p.maxTicks > 0
    ensures DistinctNames(index) <==>
            forall entries, sweep, k :: 0 <= k < |index| ==> OwnStep(entries, index, sweep, p, k)
  {
    if DistinctNames(index) {
      forall entries, sweep, k | 0 <= k < |index| ensures OwnStep(entries, index, sweep, p, k) {
        TickIsLocal(entries, index, sweep, p, k);
      }
    } else {
      var i, j :| 0 <= i < j < |index| && index[i].name == index[j].name;
      var sweep := SweepBelow(index);
      CountedOnce(index[..j], sweep, p, i);
      ReadingAt(map[], index, sweep, p, j);
      assert !OwnStep(map[], index, sweep, p, j);
    }
  }

  /** Segments of one name share a counter, so that a single tick counts each of them. */
  lemma SharedNameCountsTwice(name: string)
    ensures var index := [Segment(name, 1.0, 1.0), Segment(name, 1.0, 1.0)];
            var rs := Readings(map[], index, 0.0, DEFAULTS);
            rs[0].congestion == 0.1 && rs[1].congestion == 0.2 && AloneReading(1.0, [0.0], DEFAULTS).congestion == 0.1
  {
  }

  // ---------------------------------------------------------------------------
  // The closed form
  // ---------------------------------------------------------------------------

  function Pow(g: real, k: nat): real
  {
    if k == 0 then 1.0 else Pow(g, k - 1) * g
  }

  lemma {:induction false} PowBounds(g: real, k: nat)
    requires 0.0 <= g <= 1.0
    ensures 0.0 <= Pow(g, k) <= 1.0
  {
    if k > 0 {
      PowBounds(g, k - 1);
      ProductBounds(Pow(g, k - 1), g);
    }
  }

  /** Congestion after n closed ticks and k ticks behind the sweep. */
  function ClosedForm(n: nat, k: nat, p: Params): real
    requires p.maxTicks > 0
  {
    var v := Peak(n, p) * Pow(Factor(p), k);
    if k > 0 && v <= CUTOFF then 0.0 else v
  }

  /** The closed form in numbers: after n of max closed ticks n / max, 1 at most; behind the sweep a share
      of rate less each tick, nothing from a rate of 1, and 0 once it is down to 0.01. */
  lemma ClosedFormIs(n: nat, k: nat, p: Params)
    requires p.maxTicks > 0
    ensures var peak := if n <= p.maxTicks then n as real / p.maxTicks as real else 1.0;
            var level := peak * Pow(if p.rate < 1.0 then 1.0 - p.rate else 0.0, k);
            ClosedForm(n, k, p) == if k > 0 && level <= 0.01 then 0.0 else level
    ensures Pow(p.rate, 0) == 1.0 && Pow(p.rate, k + 1) == Pow(p.rate, k) * p.rate
  {
    assert n >= p.maxTicks ==> n as real / p.maxTicks as real >= 1.0;
    assert n <= p.maxTicks ==> n as real / p.maxTicks as real <= 1.0;
  }

  /** The sweep reaches a segment in its middle. */
  lemma MidpointIs(s: Segment)
    ensures Midpoint(s) - s.start == s.end - Midpoint(s)
  {
  }

  /** A reading counts the closed ticks while the segment is closed, and says 1 while it reopens. */
  lemma {:induction false} CountsRead(mid: real, sweeps: seq<real>, p: Params)
    requires p.maxTicks > 0 && p.rate >= 0.0 && NonDecreasing(sweeps) && sweeps != []
    ensures var r := AloneReading(mid, sweeps, p);
            r.ticksClosed == (if Behind(mid, sweeps) == 0 then Ahead(mid, sweeps) else 0) &&
            r.sinceReopened == (if r.status == Reopening then 1 else 0)
  {
    var before := sweeps[..|sweeps| - 1];
    HeldAlways(mid, before, p);
    if sweeps[|sweeps| - 1] < mid {
      NotReached(mid, sweeps);
    }
  }

  predicate NonDecreasing(sweeps: seq<real>)
  {
    forall i, j :: 0 <= i < j < |sweeps| ==> sweeps[i] <= sweeps[j]
  }

  /** The number of ticks in which the sweep has not reached `mid`. */
  function Ahead(mid: real, sweeps: seq<real>): (n: nat)
    ensures n <= |sweeps|
  {
    if sweeps == [] then 0
    else Ahead(mid, sweeps[..|sweeps| - 1]) + if mid <= sweeps[|sweeps| - 1] then 0 else 1
  }

  function Behind(mid: real, sweeps: seq<real>): nat
  {
    |sweeps| - Ahead(mid, sweeps)
  }

  lemma {:induction false} NotReached(mid: real, sweeps: seq<real>)
    requires NonDecreasing(sweeps) && sweeps != [] && sweeps[|sweeps| - 1] < mid
    ensures Ahead(mid, sweeps) == |sweeps|
  {
    if |sweeps| > 1 {
      NotReached(mid, sweeps[..|sweeps| - 1]);
    }
  }

  /** What a segment's entry holds after n closed ticks and k ticks behind the sweep. */
  predicate Held(e: Entry, n: nat, k: nat, p: Params)
    requires p.maxTicks > 0
  {
    var v := Peak(n, p) * Pow(Factor(p), k);
    if k == 0 then e == Entry(n, None)
    else e == Entry(0, if v <= CUTOFF then None else Some(v))
  }

  /** Levels at or below the cut-off settle alike, and scaling keeps them there. */
  lemma BelowCutoff(l: real, v: real, g: real)
    requires l == 0.0 && 0.0 <= v <= CUTOFF && 0.0 <= g <= 1.0
    ensures Settle(Decayed(l, g)) == Settle(Decayed(v, g))
  {
    assert Decayed(l, g) == 0.0;
    ProductBounds(v, g);
  }

  /** The product of the closed form, one tick on. */
  lemma NextLevel(n: nat, k: nat, p: Params, v: real)
    requires p.maxTicks > 0 && p.rate >= 0.0 && v == Peak(n, p) * Pow(Factor(p), k)
    ensures 0.0 <= v && Decayed(v, Factor(p)) == Peak(n, p) * Pow(Factor(p), k + 1)
    ensures k == 0 ==> v == Peak(n, p)
  {
    var g, m, w := Factor(p), Peak(n, p), Pow(Factor(p), k);
    PowBounds(g, k);
    ProductBounds(m, w);
    assert (m * w) * g == m * (w * g);
  }

  lemma LevelHeld(e: Entry, n: nat, k: nat, p: Params, v: real)
    requires p.maxTicks > 0 && p.rate >= 0.0 && v == Peak(n, p) * Pow(Factor(p), k) && Held(e, n, k, p)
    ensures Level(e, p) == if k > 0 && v <= CUTOFF then 0.0 else v
  {
  }

  lemma ReopensFrom(e: Entry, p: Params, v: real)
    requires p.maxTicks > 0 && p.rate >= 0.0 && 0.0 <= v
    requires Level(e, p) == v || (Level(e, p) == 0.0 && v <= CUTOFF)
    ensures Reopen(e, p) == Settle(Decayed(v, Factor(p)))
  {
    if Level(e, p) != v {
      BelowCutoff(Level(e, p), v, Factor(p));
    }
  }

  lemma SettledHolds(n: nat, k: nat, p: Params, v: real)
    requires p.maxTicks > 0 && k > 0 && v == Peak(n, p) * Pow(Factor(p), k)
    ensures Held(Settle(v).0, n, k, p)
    ensures Settle(v).1.congestion == ClosedForm(n, k, p)
    ensures Settle(v).1.status == if ClosedForm(n, k, p) == 0.0 then IsOpen else Reopening
  {
  }

  lemma HeldReopens(e: Entry, n: nat, k: nat, p: Params)
    requires p.maxTicks > 0 && p.rate >= 0.0 && Held(e, n, k, p)
    ensures Held(Reopen(e, p).0, n, k + 1, p)
    ensures Reopen(e, p).1.congestion == ClosedForm(n, k + 1, p)
    ensures Reopen(e, p).1.status == if ClosedForm(n, k + 1, p) == 0.0 then IsOpen else Reopening
  {
    var v := Peak(n, p) * Pow(Factor(p), k);
    NextLevel(n, k, p, v);
    LevelHeld(e, n, k, p, v);
    ReopensFrom(e, p, v);
    SettledHolds(n, k + 1, p, Decayed(v, Factor(p)));
  }

  lemma {:induction false} HeldAlways(mid: real, sweeps: seq<real>, p: Params)
    requires p.maxTicks > 0 && p.rate >= 0.0 && NonDecreasing(sweeps)
    ensures Held(Alone(mid, sweeps, p), Ahead(mid, sweeps), Behind(mid, sweeps), p)
    ensures sweeps != [] ==>
              AloneReading(mid, sweeps, p).congestion == ClosedForm(Ahead(mid, sweeps), Behind(mid, sweeps), p) &&
              AloneReading(mid, sweeps, p).status ==
                if Behind(mid, sweeps) == 0 then IsClosed
                else if ClosedForm(Ahead(mid, sweeps), Behind(mid, sweeps), p) == 0.0 then IsOpen
                else Reopening
  {
    if sweeps == [] {
      assert Peak(0, p) * Pow(Factor(p), 0) == 0.0;
    } else {
      var before := sweeps[..|sweeps| - 1];
      HeldAlways(mid, before, p);
      if mid <= sweeps[|sweeps| - 1] {
        HeldReopens(Alone(mid, before, p), Ahead(mid, before), Behind(mid, before), p);
      } else {
        NotReached(mid, sweeps);
        assert Pow(Factor(p), 0) == 1.0;
      }
    }
  }

  /** A segment closed n ticks and then behind the sweep for k reads min(1, n / max) * (1 - rate)^k,
      cut to 0 at 0.01. */
  lemma CongestionClosedForm(index: seq<Segment>, sweeps: seq<real>, p: Params, i: nat)
    requires p.maxTicks > 0 && p.rate >= 0.0
    requires DistinctNames(index) && NonDecreasing(sweeps) && sweeps != [] && i < |index|
    ensures var mid, before := Midpoint(index[i]), sweeps[..|sweeps| - 1];
            Readings(Run(index, before, p), index, sweeps[|sweeps| - 1], p)[i].congestion ==
            ClosedForm(Ahead(mid, sweeps), Behind(mid, sweeps), p)
  {
    var before := sweeps[..|sweeps| - 1];
    RunIsLocal(index, before, p, i);
    TickIsLocal(Run(index, before, p), index, sweeps[|sweeps| - 1], p, i);
    HeldAlways(Midpoint(index[i]), sweeps, p);
  }

  // ---------------------------------------------------------------------------
  // Statuses: closed, then reopening, then open
  // ---------------------------------------------------------------------------

  /** The status of segment i in the tick with the last of the sweeps. */
  function StatusAt(index: seq<Segment>, sweeps: seq<real>, p: Params, i: nat): Status
    requires p.maxTicks > 0 && sweeps != [] && i < |index|
  {
    Readings(Run(index, sweeps[..|sweeps| - 1], p), index, sweeps[|sweeps| - 1], p)[i].status
  }

  function Rank(s: Status): nat
  {
    match s
    case IsClosed => 0
    case Reopening => 1
    case IsOpen => 2
  }

  lemma StatusIs(index: seq<Segment>, sweeps: seq<real>, p: Params, i: nat)
    requires p.maxTicks > 0 && p.rate >= 0.0
    requires DistinctNames(index) && NonDecreasing(sweeps) && sweeps != [] && i < |index|
    ensures var n, k := Ahead(Midpoint(index[i]), sweeps), Behind(Midpoint(index[i]), sweeps);
            StatusAt(index, sweeps, p, i) ==
              if k == 0 then IsClosed else if ClosedForm(n, k, p) == 0.0 then IsOpen else Reopening
  {
    var before := sweeps[..|sweeps| - 1];
    RunIsLocal(index, before, p, i);
    TickIsLocal(Run(index, before, p), index, sweeps[|sweeps| - 1], p, i);
    HeldAlways(Midpoint(index[i]), sweeps, p);
  }

  lemma {:induction false} PowFalls(g: real, a: nat, b: nat)
    requires 0.0 <= g <= 1.0 && a <= b
    ensures Pow(g, b) <= Pow(g, a)
  {
    if a < b {
      PowFalls(g, a, b - 1);
      PowBounds(g, b - 1);
      ProductBounds(Pow(g, b - 1), g);
    }
  }

  lemma ProductOrder(m: real, x: real, y: real)
    requires 0.0 <= m && 0.0 <= x <= y
    ensures 0.0 <= m * x <= m * y
  {
  }

  /** Behind the sweep, congestion never rises. */
  lemma ClosedFormFalls(n: nat, a: nat, b: nat, p: Params)
    requires p.maxTicks > 0 && p.rate >= 0.0 && a <= b
    ensures ClosedForm(n, b, p) <= ClosedForm(n, a, p)
    ensures 0.0 <= ClosedForm(n, b, p)
  {
    var g, m := Factor(p), Peak(n, p);
    PowFalls(g, a, b);
    PowBounds(g, a);
    PowBounds(g, b);
    ProductOrder(m, Pow(g, b), Pow(g, a));
  }

  lemma {:induction false} TicksAddUp(mid: real, sweeps: seq<real>, t: nat)
    requires NonDecreasing(sweeps) && t <= |sweeps|
    ensures Ahead(mid, sweeps[..t]) <= Ahead(mid, sweeps) && Behind(mid, sweeps[..t]) <= Behind(mid, sweeps)
    ensures Behind(mid, sweeps[..t]) > 0 ==> Ahead(mid, sweeps[..t]) == Ahead(mid, sweeps)
  {
    if t == |sweeps| {
      assert sweeps[..t] == sweeps;
    } else {
      var before := sweeps[..|sweeps| - 1];
      TicksAddUp(mid, before, t);
      assert before[..t] == sweeps[..t];
      if sweeps[|sweeps| - 1] < mid {
        NotReached(mid, sweeps);
        assert t > 0 ==> sweeps[..t][t - 1] < mid;
        if t > 0 {
          NotReached(mid, sweeps[..t]);
        }
      }
    }
  }

  /** From an earlier tick to a later one the status moves only from closed to reopening to open. */
  lemma StatusAdvances(index: seq<Segment>, sweeps: seq<real>, p: Params, i: nat, t: nat)
    requires p.maxTicks > 0 && p.rate >= 0.0
    requires DistinctNames(index) && NonDecreasing(sweeps) && 0 < t <= |sweeps| && i < |index|
    ensures Rank(StatusAt(index, sweeps[..t], p, i)) <= Rank(StatusAt(index, sweeps, p, i))
  {
    var mid := Midpoint(index[i]);
    StatusIs(index, sweeps[..t], p, i);
    StatusIs(index, sweeps, p, i);
    TicksAddUp(mid, sweeps, t);
    if Behind(mid, sweeps[..t]) > 0 {
      ClosedFormFalls(Ahead(mid, sweeps), Behind(mid, sweeps[..t]), Behind(mid, sweeps), p);
    }
  }

  lemma DefaultPowers()
    ensures Pow(Factor(DEFAULTS), 13) <= CUTOFF
  {
    var g := Factor(DEFAULTS);
    assert g == 0.7;
    assert Pow(g, 3) == 0.343 by {
      assert Pow(g, 0) == 1.0 && Pow(g, 1) == 0.7 && Pow(g, 2) == 0.49;
    }
    assert Pow(g, 6) == 0.117649 by {
      assert Pow(g, 4) == 0.2401 && Pow(g, 5) == 0.16807;
    }
    assert Pow(g, 9) <= 0.0403536071 by {
      assert Pow(g, 7) == 0.0823543 && Pow(g, 8) == 0.05764801;
    }
    assert Pow(g, 10) <= 0.02825 && Pow(g, 11) <= 0.01978 && Pow(g, 12) <= 0.01385;
  }

  lemma GoneAfterThirteen(n: nat, k: nat)
    requires k >= 13
    ensures ClosedForm(n, k, DEFAULTS) == 0.0
  {
    var m, v := Peak(n, DEFAULTS), Pow(Factor(DEFAULTS), k);
    PowFalls(Factor(DEFAULTS), 13, k);
    PowBounds(Factor(DEFAULTS), k);
    DefaultPowers();
    assert v <= CUTOFF;
    assert 0.0 <= m <= 1.0;
    ProductBounds(v, m);
    var product := m * v;
    assert product == v * m <= v;
    assert ClosedForm(n, k, DEFAULTS) == if product <= CUTOFF then 0.0 else product;
  }

  /** With the defaults a segment reopens for at most 12 ticks. */
  lemma TwelveTicksToOpen(index: seq<Segment>, sweeps: seq<real>, i: nat)
    requires DistinctNames(index) && NonDecreasing(sweeps) && sweeps != [] && i < |index|
    ensures StatusAt(index, sweeps, DEFAULTS, i) == Reopening ==> 1 <= Behind(Midpoint(index[i]), sweeps) <= 12
  {
    var n, k := Ahead(Midpoint(index[i]), sweeps), Behind(Midpoint(index[i]), sweeps);
    StatusIs(index, sweeps, DEFAULTS, i);
    if k >= 13 {
      GoneAfterThirteen(n, k);
    }
  }

  /** So it is in that status in at most 12 ticks of a run: two such ticks are less than 12 apart. */
  lemma ReopeningTicksAreClose(index: seq<Segment>, sweeps: seq<real>, i: nat, t: nat)
    requires DistinctNames(index) && NonDecreasing(sweeps) && 0 < t <= |sweeps| && i < |index|
    requires StatusAt(index, sweeps[..t], DEFAULTS, i) == Reopening && StatusAt(index, sweeps, DEFAULTS, i) == Reopening
    ensures |sweeps| - t < 12
  {
    TwelveTicksToOpen(index, sweeps[..t], i);
    TwelveTicksToOpen(index, sweeps, i);
    TicksAddUp(Midpoint(index[i]), sweeps, t);
  }
}
