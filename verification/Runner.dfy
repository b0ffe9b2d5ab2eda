/** A runner's physics: pace, distance, water, stations and the finish, over the session state. */
module Runner {
  import opened Options
  import opened Reals

  const SPEED_SCALE := 6.2137
  const STATION_INTERVAL := 1.8641
  const STATION_REFILL := 25.0
  const BASE_DEPLETION := 3.2187
  const DEPLETION_GROWTH := 0.0322
  const EXHAUSTION := 30.0
  const COLLAPSE := 10.0
  const FATIGUE_RATE := 0.002
  const MIN_FATIGUE := 0.75

  datatype Status = Running | Exhausted | Collapsed | Finished

  /** What a runner is created with. */
  datatype Profile = Profile(hitsWall: bool, wall: real, severity: real, efficiency: real, crowd: real)

  /** The parameters of a tick; in arguments a negative number stands for one not given. */
  datatype Timing = Timing(tick: int, minutes: real, elapsed: real, race: real)

  datatype Stored = Stored(tick: Option<int>, minutes: Option<real>, elapsed: Option<real>, race: Option<real>)

  datatype State = State(
    velocity: real,
    distance: real,
    water: real,
    exhausted: bool,
    collapsed: bool,
    finished: bool,
    finishTime: Option<real>,
    pace: Option<real>,
    status: Option<Status>,
    stored: Stored)

  datatype Op =
    | Tick(args: Timing)
    | Deplete(amount: real)
    | Rehydrate(amount: real)
    | Accelerate(intensity: real)
    | Brake(intensity: real)
    | Store(params: Stored)

  // ---------------------------------------------------------------------------
  // One tick
  // ---------------------------------------------------------------------------

  /** A given parameter, else the stored one; a tick with neither is refused. */
  function Resolve(args: Timing, stored: Stored): Option<Timing>
  {
    var tick := if args.tick < 0 then stored.tick else Some(args.tick);
    var minutes := if args.minutes < 0.0 then stored.minutes else Some(args.minutes);
    var elapsed := if args.elapsed < 0.0 then stored.elapsed else Some(args.elapsed);
    var race := if args.race < 0.0 then stored.race else Some(args.race);
    if tick.None? || minutes.None? || elapsed.None? || race.None? then None
    else Some(Timing(tick.value, minutes.value, elapsed.value, race.value))
  }

  function HydrationFactor(water: real): real
  {
    0.5 + 0.5 * (water / 100.0)
  }

  function WallFactor(pf: Profile, distance: real): real
  {
    if pf.hitsWall && distance > pf.wall then 1.0 - pf.severity else 1.0
  }

  function FatigueFactor(tick: int): real
  {
    Max(MIN_FATIGUE, 1.0 - FATIGUE_RATE * tick as real)
  }

  function Degraded(velocity: real, hydration: real, wall: real, fatigue: real): real
  {
    velocity * hydration * wall * fatigue
  }

  function EffectiveVelocity(pf: Profile, s: State, tick: int): real
  {
    Degraded(s.velocity, HydrationFactor(s.water), WallFactor(pf, s.distance), FatigueFactor(tick))
  }

  /** The miles run at a speed for some minutes. */
  function Covered(speed: real, minutes: real): real
  {
    speed * SPEED_SCALE / 60.0 * minutes
  }

  function Miles(pf: Profile, s: State, t: Timing): real
  {
    Covered(EffectiveVelocity(pf, s, t.tick), t.minutes)
  }

  function Depletion(pf: Profile, miles: real, distance: real): real
  {
    BASE_DEPLETION * miles * pf.efficiency * (1.0 + DEPLETION_GROWTH * distance)
  }

  /** Truncation toward zero. */
  function Trunc(x: real): int
  {
    if x >= 0.0 then x.Floor else -(-x).Floor
  }

  /** The number of the last station passed. */
  function Marker(distance: real): int
  {
    Trunc(distance / STATION_INTERVAL)
  }

  predicate Drinks(water: real, exhausted: bool, roll: real)
  {
    water <= 40.0 || exhausted || (water <= 60.0 && roll < 0.5) || (water > 60.0 && roll < 0.3)
  }

  /** The water left after the stations from `first` up to but not including `end`. */
  function Stations(water: real, exhausted: bool, roll: int -> real, first: int, end: int): real
    decreases end - first
  {
    if end <= first then water
    else
      var before := Stations(water, exhausted, roll, first, end - 1);
      if Drinks(before, exhausted, roll(end - 1)) then Min(100.0, before + STATION_REFILL) else before
  }

  /** The finish time, interpolated within the tick. */
  function FinishTime(t: Timing, raw: real, miles: real): real
  {
    var fraction := if miles > 0.0 then 1.0 - (raw - t.race) / miles else 1.0;
    t.elapsed - t.minutes * (1.0 - fraction)
  }

  function Pace(time: real, race: real): real
  {
    if race > 0.0 then time / race else 0.0
  }

  /** The runner further along the course: distance, stations, exhaustion and collapse. */
  function Along(pf: Profile, roll: int -> real, s: State, race: real, miles: real): State
  {
    var distance := Min(s.distance + miles, race);
    var drained := Max(0.0, s.water - Depletion(pf, miles, distance));
    var water := Stations(drained, s.exhausted, roll, Marker(s.distance) + 1, Marker(distance) + 1);
    s.(distance := distance, water := water, exhausted := water < EXHAUSTION,
       collapsed := s.collapsed || water < COLLAPSE)
  }

  /** The finish, if the runner is there, and the status. */
  function Judged(s: State, t: Timing, raw: real, miles: real): State
  {
    if s.distance >= t.race && !s.finished then
      var time := FinishTime(t, raw, miles);
      s.(finished := true, finishTime := Some(time), pace := Some(Pace(time, t.race)), status := Some(Finished))
    else s.(status := Some(if s.collapsed then Collapsed else if s.exhausted then Exhausted else Running))
  }

  function Move(pf: Profile, roll: int -> real, s: State, t: Timing): State
  {
    var miles := Miles(pf, s, t);
    Judged(Along(pf, roll, s, t.race, miles), t, s.distance + miles, miles)
  }

  /** A tick moves the runner unless it is refused or the runner has finished or collapsed. */
  predicate Moves(s: State, args: Timing)
  {
    Resolve(args, s.stored).Some? && !s.finished && !s.collapsed
  }

  function Step(pf: Profile, roll: int -> real, s: State, op: Op): State
  {
    match op
    case Tick(args) => if Moves(s, args) then Move(pf, roll, s, Resolve(args, s.stored).value) else s
    case Deplete(amount) =>
      var water := Max(0.0, s.water - amount);
      s.(water := water, exhausted := water < EXHAUSTION, collapsed := s.collapsed || water < COLLAPSE)
    case Rehydrate(amount) =>
      var water := Min(100.0, s.water + amount);
      if water >= EXHAUSTION then s.(water := water, exhausted := false, collapsed := false) else s.(water := water)
    case Accelerate(intensity) =>
      s.(velocity := s.velocity + intensity * 0.1 * HydrationFactor(s.water) * pf.crowd)
    case Brake(intensity) => s.(velocity := Max(0.0, s.velocity - intensity * 1.5))
    case Store(params) => s.(stored := params)
  }

  /** What a tick reports. */
  datatype Report =
    | NotReady
    | Idle(status: Status)
    | Moved(status: Status, effectiveVelocity: real, miles: real)

  function ReportOf(pf: Profile, roll: int -> real, s: State, args: Timing): Report
  {
    var t := Resolve(args, s.stored);
    if t.None? then NotReady
    else if s.finished || s.collapsed then Idle(if s.finished then Finished else Collapsed)
    else
      var status := Move(pf, roll, s, t.value).status;
      Moved(if status.Some? then status.value else Running,
            EffectiveVelocity(pf, s, t.value.tick), Miles(pf, s, t.value))
  }

  /** The station markers from `first` up to but not including `end`. */
  function Range(first: int, end: int): seq<int>
    decreases end - first
  {
    if end <= first then [] else Range(first, end - 1) + [end - 1]
  }

  /** The stations from one place to another. */
  function Passed(from: real, to: real): seq<int>
  {
    Range(Marker(from) + 1, Marker(to) + 1)
  }

  const START := State(0.0, 0.0, 100.0, false, false, false, None, None, None, Stored(None, None, None, None))

  // ---------------------------------------------------------------------------
  // The vitals invariant
  // ---------------------------------------------------------------------------

  predicate Vital(s: State)
  {
    && 0.0 <= s.water <= 100.0
    && (s.exhausted <==> s.water < 30.0)
    && (s.water < 10.0 ==> s.collapsed)
    && (s.collapsed ==> s.water < 30.0)
  }

  /** A race of `race` miles under way. */
  predicate Valid(s: State, race: real)
  {
    && Vital(s) && 0.0 <= s.velocity && 0.0 <= s.distance <= race
    && (s.finished ==> s.distance == race) && (s.finishTime.Some? <==> s.finished)
  }

  predicate Fit(pf: Profile)
  {
    pf.efficiency >= 0.0 && pf.crowd >= 0.0 && 0.0 <= pf.severity <= 1.0
  }

  /** No argument is negative, and a tick that is not refused is one of the same race. */
  predicate Fair(s: State, op: Op, race: real)
  {
    match op
    case Tick(args) =>
      var t := Resolve(args, s.stored);
      t.Some? ==> t.value.minutes >= 0.0 && t.value.race == race
    case Deplete(amount) => amount >= 0.0
    case Rehydrate(amount) => amount >= 0.0
    case Accelerate(intensity) => intensity >= 0.0
    case Brake(intensity) => intensity >= 0.0
    case Store(_) => true
  }

  lemma Product(x: real, y: real, x0: real, y0: real)
    requires 0.0 <= x0 <= x && 0.0 <= y0 <= y
    ensures 0.0 <= x0 * y0 <= x * y
  {
  }

  /** The slowest a runner of velocity at least v can go with at least 10 water. */
  function LeastSpeed(pf: Profile, v: real): real
  {
    v * 0.55 * (1.0 - pf.severity) * 0.75
  }

  lemma SpeedAtLeast(pf: Profile, s: State, tick: int, v: real, water: real)
    requires Fit(pf) && 0.0 <= v <= s.velocity && 0.0 <= water <= s.water
    ensures 0.0 <= v * HydrationFactor(water) * (1.0 - pf.severity) * 0.75 <= EffectiveVelocity(pf, s, tick)
  {
    var h, h0 := HydrationFactor(s.water), HydrationFactor(water);
    var w, w0, f := WallFactor(pf, s.distance), 1.0 - pf.severity, FatigueFactor(tick);
    Product(s.velocity, h, v, h0);
    Product(s.velocity * h, w, v * h0, w0);
    Product(s.velocity * h * w, f, v * h0 * w0, 0.75);
  }

  lemma CoveredGrows(a: real, b: real, minutes: real)
    requires 0.0 <= a <= b && 0.0 <= minutes
    ensures 0.0 <= Covered(a, minutes) <= Covered(b, minutes)
  {
  }

  lemma MilesNotNegative(pf: Profile, s: State, t: Timing)
    requires Fit(pf) && 0.0 <= s.velocity && 0.0 <= s.water && 0.0 <= t.minutes
    ensures 0.0 <= Miles(pf, s, t)
  {
    SpeedAtLeast(pf, s, t.tick, 0.0, 0.0);
    CoveredGrows(0.0, EffectiveVelocity(pf, s, t.tick), t.minutes);
    assert Covered(0.0, t.minutes) == 0.0;
  }

  lemma DepletionNotNegative(pf: Profile, miles: real, distance: real)
    requires Fit(pf) && 0.0 <= miles && 0.0 <= distance
    ensures 0.0 <= Depletion(pf, miles, distance)
  {
  }

  lemma {:induction false} StationsRefill(water: real, exhausted: bool, roll: int -> real, first: int, end: int)
    requires 0.0 <= water <= 100.0
    ensures water <= Stations(water, exhausted, roll, first, end) <= 100.0
    decreases end - first
  {
    if first < end {
      StationsRefill(water, exhausted, roll, first, end - 1);
    }
  }

  lemma MoveKeeps(pf: Profile, roll: int -> real, s: State, t: Timing)
    requires Fit(pf) && Valid(s, t.race) && !s.finished && !s.collapsed && 0.0 <= t.minutes
    ensures Valid(Move(pf, roll, s, t), t.race)
    ensures s.distance <= Move(pf, roll, s, t).distance
  {
    MilesNotNegative(pf, s, t);
    var miles := Miles(pf, s, t);
    var distance := Min(s.distance + miles, t.race);
    DepletionNotNegative(pf, miles, distance);
    StationsRefill(Max(0.0, s.water - Depletion(pf, miles, distance)), s.exhausted, roll,
                   Marker(s.distance) + 1, Marker(distance) + 1);
  }

  lemma StepKeeps(pf: Profile, roll: int -> real, s: State, op: Op, race: real)
    requires Fit(pf) && Valid(s, race) && Fair(s, op, race)
    ensures Valid(Step(pf, roll, s, op), race)
    ensures s.distance <= Step(pf, roll, s, op).distance
  {
    match op
    case Tick(args) =>
      if Moves(s, args) {
        MoveKeeps(pf, roll, s, Resolve(args, s.stored).value);
      }
    case Accelerate(intensity) =>
      Product(intensity * 0.1, HydrationFactor(s.water), 0.0, 0.0);
      Product(intensity * 0.1 * HydrationFactor(s.water), pf.crowd, 0.0, 0.0);
    case _ =>
  }

  /** What any caller with fair arguments can rely on: the vitals stay consistent and the runner does
      not move back. */
  ghost predicate Keeps(pf: Profile, s: State, op: Op, s': State)
  {
    forall race :: Fit(pf) && Valid(s, race) && Fair(s, op, race) ==> Valid(s', race) && s.distance <= s'.distance
  }

  lemma StepKeepsAny(pf: Profile, roll: int -> real, s: State, op: Op)
    ensures Keeps(pf, s, op, Step(pf, roll, s, op))
  {
    forall race | Fit(pf) && Valid(s, race) && Fair(s, op, race)
      ensures Valid(Step(pf, roll, s, op), race) && s.distance <= Step(pf, roll, s, op).distance
    {
      StepKeeps(pf, roll, s, op, race);
    }
  }

  // ---------------------------------------------------------------------------
  // The tools
  // ---------------------------------------------------------------------------

  class RunnerTools {
    const profile: Profile
    const roll: int -> real
    var velocity: real
    var distance: real
    var water: real
    var exhausted: bool
    var collapsed: bool
    var finished: bool
    var finishTime: Option<real>
    var pace: Option<real>
    var status: Option<Status>
    var stored: Stored

    ghost function Snapshot(): State
      reads this
    {
      State(velocity, distance, water, exhausted, collapsed, finished, finishTime, pace, status, stored)
    }

    constructor (profile: Profile, roll: int -> real)
      ensures this.profile == profile && this.roll == roll
      ensures Snapshot() == START
    {
      this.profile, this.roll := profile, roll;
      velocity, distance, water, exhausted, collapsed, finished := 0.0, 0.0, 100.0, false, false, false;
      finishTime, pace, status, stored := None, None, None, Stored(None, None, None, None);
    }

    /** process_tick */
    method ProcessTick(args: Timing) returns (report: Report, checked: seq<int>)
      modifies this
      ensures Snapshot() == Step(profile, roll, old(Snapshot()), Tick(args))
      ensures Keeps(profile, old(Snapshot()), Tick(args), Snapshot())
      ensures report == ReportOf(profile, roll, old(Snapshot()), args)
      ensures checked == Passed(old(distance), distance)
    {
      StepKeepsAny(profile, roll, Snapshot(), Tick(args));
      checked := [];
      var resolved := Resolve(args, stored);
      if resolved == None {
        return NotReady, [];
      }
      var t := resolved.value;
      if finished || collapsed {
        return Idle(if finished then Finished else Collapsed), [];
      }
      var hydration, wall, fatigue := HydrationFactor(water), WallFactor(profile, distance), FatigueFactor(t.tick);
      var effective := Degraded(velocity, hydration, wall, fatigue);
      var miles := Covered(effective, t.minutes);
      var raw := distance + miles;
      checked := GoAlong(t.race, miles);
      Judge(t, raw, miles);
      report := Moved(if status.Some? then status.value else Running, effective, miles);
    }

    method GoAlong(race: real, miles: real) returns (checked: seq<int>)
      modifies `distance, `water, `exhausted, `collapsed
      ensures Snapshot() == Along(profile, roll, old(Snapshot()), race, miles)
      ensures checked == Passed(old(distance), distance)
    {
      var newDistance := Min(distance + miles, race);
      var newWater := Max(0.0, water - Depletion(profile, miles, newDistance));
      newWater, checked := CheckStations(newWater, Marker(distance), Marker(newDistance));
      distance, water := newDistance, newWater;
      exhausted := newWater < EXHAUSTION;
      if exhausted && newWater < COLLAPSE {
        collapsed := true;
      }
    }

    method Judge(t: Timing, raw: real, miles: real)
      modifies `finished, `finishTime, `pace, `status
      ensures Snapshot() == Judged(old(Snapshot()), t, raw, miles)
    {
      var runnerStatus := Running;
      if distance >= t.race && !finished {
        finished, runnerStatus := true, Finished;
        var time := FinishTime(t, raw, miles);
        finishTime, pace := Some(time), Some(Pace(time, t.race));
      } else if collapsed {
        runnerStatus := Collapsed;
      } else if exhausted {
        runnerStatus := Exhausted;
      }
      status := Some(runnerStatus);
    }

    /** The loop over the stations passed in this tick. */
    method CheckStations(drained: real, prev: int, last: int) returns (left: real, checked: seq<int>)
      ensures left == Stations(drained, exhausted, roll, prev + 1, last + 1)
      ensures checked == Range(prev + 1, last + 1)
    {
      left, checked := drained, [];
      if last > prev {
        for marker := prev + 1 to last + 1
          invariant left == Stations(drained, exhausted, roll, prev + 1, marker)
          invariant checked == Range(prev + 1, marker)
        {
          var drinks := Drinks(left, exhausted, roll(marker));
          if drinks {
            left := Min(100.0, left + STATION_REFILL);
          }
          checked := checked + [marker];
        }
      }
    }

    /** deplete_water */
    method DepleteWater(amount: real)
      modifies this
      ensures Snapshot() == Step(profile, roll, old(Snapshot()), Deplete(amount))
      ensures Keeps(profile, old(Snapshot()), Deplete(amount), Snapshot())
    {
      StepKeepsAny(profile, roll, Snapshot(), Deplete(amount));
      water := Max(0.0, water - amount);
      if water < EXHAUSTION {
        exhausted := true;
      } else if water >= EXHAUSTION {
        exhausted := false;
      }
      if exhausted && water < COLLAPSE {
        collapsed := true;
      }
    }

    /** rehydrate */
    method RehydrateBy(amount: real)
      modifies this
      ensures Snapshot() == Step(profile, roll, old(Snapshot()), Rehydrate(amount))
      ensures Keeps(profile, old(Snapshot()), Rehydrate(amount), Snapshot())
    {
      StepKeepsAny(profile, roll, Snapshot(), Rehydrate(amount));
      water := Min(100.0, water + amount);
      if water >= EXHAUSTION {
        exhausted, collapsed := false, false;
      }
    }

    /** accelerate */
    method AccelerateBy(intensity: real)
      modifies this
      ensures Snapshot() == Step(profile, roll, old(Snapshot()), Accelerate(intensity))
      ensures Keeps(profile, old(Snapshot()), Accelerate(intensity), Snapshot())
    {
      StepKeepsAny(profile, roll, Snapshot(), Accelerate(intensity));
      velocity := velocity + intensity * 0.1 * HydrationFactor(water) * profile.crowd;
    }

    /** brake */
    method BrakeBy(intensity: real)
      modifies this
      ensures Snapshot() == Step(profile, roll, old(Snapshot()), Brake(intensity))
      ensures Keeps(profile, old(Snapshot()), Brake(intensity), Snapshot())
    {
      StepKeepsAny(profile, roll, Snapshot(), Brake(intensity));
      velocity := Max(0.0, velocity - intensity * 1.5);
    }
  }

  // ---------------------------------------------------------------------------
  // Whole runs
  // ---------------------------------------------------------------------------

  function Run(pf: Profile, roll: int -> real, s: State, ops: seq<Op>): State
  {
    if ops == [] then s else Step(pf, roll, Run(pf, roll, s, ops[..|ops| - 1]), ops[|ops| - 1])
  }

  predicate FairRun(pf: Profile, roll: int -> real, s: State, ops: seq<Op>, race: real)
  {
    ops == [] ||
    (FairRun(pf, roll, s, ops[..|ops| - 1], race) && Fair(Run(pf, roll, s, ops[..|ops| - 1]), ops[|ops| - 1], race))
  }

  /** Over any interleaving of the tools the vitals stay consistent, and the runner moves only
      forward and not past the finish. */
  lemma {:induction false} VitalsAlways(pf: Profile, roll: int -> real, s: State, ops: seq<Op>, race: real)
    requires Fit(pf) && Valid(s, race) && FairRun(pf, roll, s, ops, race)
    ensures Valid(Run(pf, roll, s, ops), race)
    ensures s.distance <= Run(pf, roll, s, ops).distance <= race
  {
    if ops != [] {
      var before := ops[..|ops| - 1];
      VitalsAlways(pf, roll, s, before, race);
      StepKeeps(pf, roll, Run(pf, roll, s, before), ops[|ops| - 1], race);
    }
  }

  // ---------------------------------------------------------------------------
  // Stations
  // ---------------------------------------------------------------------------

  /** The stations checked in a run, in order: a tick checks those it passes, nothing else moves. */
  function CheckedInRun(pf: Profile, roll: int -> real, s: State, ops: seq<Op>): seq<int>
  {
    if ops == [] then []
    else
      var before := ops[..|ops| - 1];
      CheckedInRun(pf, roll, s, before) + Passed(Run(pf, roll, s, before).distance, Run(pf, roll, s, ops).distance)
  }

  lemma {:induction false} RangesMeet(a: int, b: int, c: int)
    requires a <= b <= c
    ensures Range(a, b) + Range(b, c) == Range(a, c)
    decreases c - b
  {
    if b < c {
      RangesMeet(a, b, c - 1);
      assert Range(a, b) + (Range(b, c - 1) + [c - 1]) == Range(a, b) + Range(b, c - 1) + [c - 1];
    }
  }

  lemma MarkersGrow(a: real, b: real)
    requires 0.0 <= a <= b
    ensures 0 <= Marker(a) <= Marker(b)
  {
  }

  lemma StillMarker(pf: Profile, roll: int -> real, s: State, op: Op)
    requires !(op.Tick? && Moves(s, op.args))
    ensures Step(pf, roll, s, op).distance == s.distance
  {
  }

  lemma RunAdvances(pf: Profile, roll: int -> real, s: State, ops: seq<Op>, race: real)
    requires Fit(pf) && Valid(s, race) && ops != [] && FairRun(pf, roll, s, ops, race)
    ensures 0.0 <= Run(pf, roll, s, ops[..|ops| - 1]).distance <= Run(pf, roll, s, ops).distance
  {
    VitalsAlways(pf, roll, s, ops[..|ops| - 1], race);
    StepKeeps(pf, roll, Run(pf, roll, s, ops[..|ops| - 1]), ops[|ops| - 1], race);
  }

  lemma PassedMeet(a: real, b: real)
    requires 0.0 <= a <= b
    ensures Range(1, Marker(a) + 1) + Passed(a, b) == Range(1, Marker(b) + 1)
  {
    MarkersGrow(a, b);
    RangesMeet(1, Marker(a) + 1, Marker(b) + 1);
  }

  /** However the ticks cut the distance, the stations checked are exactly 1, 2, ... up to the last one
      passed. */
  lemma {:induction false} EveryStationOnce(pf: Profile, roll: int -> real, s: State, ops: seq<Op>, race: real)
    requires Fit(pf) && Valid(s, race) && s.distance == 0.0 && FairRun(pf, roll, s, ops, race)
    ensures CheckedInRun(pf, roll, s, ops) == Range(1, Marker(Run(pf, roll, s, ops).distance) + 1)
  {
    if ops == [] {
      assert Marker(0.0) == 0;
    } else {
      EveryStationOnce(pf, roll, s, ops[..|ops| - 1], race);
      RunAdvances(pf, roll, s, ops, race);
      PassedMeet(Run(pf, roll, s, ops[..|ops| - 1]).distance, Run(pf, roll, s, ops).distance);
    }
  }

  /** What that range is: as many stations as there are, the k-th being number k. */
  lemma {:induction false} RangeIs(end: int)
    requires 1 <= end
    ensures |Range(1, end)| == end - 1
    ensures forall k :: 0 <= k < end - 1 ==> Range(1, end)[k] == k + 1
    decreases end
  {
    if 1 < end {
      RangeIs(end - 1);
    }
  }

  // ---------------------------------------------------------------------------
  // The finish
  // ---------------------------------------------------------------------------

  /** A runner crosses the line within the tick exactly when it was short of it before, or stands. */
  lemma FinishWithinTick(pf: Profile, roll: int -> real, s: State, t: Timing)
    requires Fit(pf) && Valid(s, t.race) && !s.finished && !s.collapsed && 0.0 < t.minutes
    requires Move(pf, roll, s, t).finished
    ensures var time := Move(pf, roll, s, t).finishTime.value;
            t.elapsed - t.minutes < time <= t.elapsed <==> s.distance < t.race || Miles(pf, s, t) == 0.0
  {
    MilesNotNegative(pf, s, t);
    var miles := Miles(pf, s, t);
    if miles > 0.0 {
      Interpolated(t, s.distance + miles, miles);
    }
  }

  /** Past the line by less than the miles of the tick, or by all of them. */
  lemma Interpolated(t: Timing, raw: real, miles: real)
    requires 0.0 < miles && 0.0 < t.minutes && 0.0 <= raw - t.race <= miles
    ensures t.elapsed - t.minutes < FinishTime(t, raw, miles) <= t.elapsed <==> raw - t.race < miles
  {
  }

  /** A runner that starts short of the line is at all times finished or short of it. */
  lemma {:induction false} ShortOrFinished(pf: Profile, roll: int -> real, s: State, ops: seq<Op>, race: real)
    requires Fit(pf) && Valid(s, race) && s.distance < race && FairRun(pf, roll, s, ops, race)
    ensures Run(pf, roll, s, ops).finished || Run(pf, roll, s, ops).distance < race
  {
    if ops != [] {
      var before, op := ops[..|ops| - 1], ops[|ops| - 1];
      ShortOrFinished(pf, roll, s, before, race);
      VitalsAlways(pf, roll, s, before, race);
      var mid := Run(pf, roll, s, before);
      if op.Tick? && Moves(mid, op.args) {
        MilesNotNegative(pf, mid, Resolve(op.args, mid.stored).value);
      } else {
        StillMarker(pf, roll, mid, op);
      }
    }
  }

  /** So in every run a finish is recorded with a time after the start of its tick and not after its
      end. */
  lemma FinishAlwaysWithinTick(pf: Profile, roll: int -> real, s: State, before: seq<Op>, args: Timing, race: real)
    requires Fit(pf) && Valid(s, race) && s.distance < race && FairRun(pf, roll, s, before, race)
    requires var mid := Run(pf, roll, s, before);
             Moves(mid, args) && Fair(mid, Tick(args), race) && Step(pf, roll, mid, Tick(args)).finished &&
             0.0 < Resolve(args, mid.stored).value.minutes
    ensures var mid := Run(pf, roll, s, before);
            var t := Resolve(args, mid.stored).value;
            var end := Step(pf, roll, mid, Tick(args));
            end.finishTime.Some? && t.elapsed - t.minutes < end.finishTime.value <= t.elapsed
  {
    var mid := Run(pf, roll, s, before);
    ShortOrFinished(pf, roll, s, before, race);
    VitalsAlways(pf, roll, s, before, race);
    FinishWithinTick(pf, roll, mid, Resolve(args, mid.stored).value);
  }

  /** Once finished, nothing changes the distance, the finish time or the pace. */
  lemma FinishIsFinal(pf: Profile, roll: int -> real, s: State, op: Op)
    requires s.finished
    ensures var s' := Step(pf, roll, s, op);
            s'.finished && s'.distance == s.distance && s'.finishTime == s.finishTime && s'.pace == s.pace
  {
  }

  /** How often a run records a finish. */
  function Finishes(pf: Profile, roll: int -> real, s: State, ops: seq<Op>): nat
  {
    if ops == [] then 0
    else
      var before, op := Run(pf, roll, s, ops[..|ops| - 1]), ops[|ops| - 1];
      Finishes(pf, roll, s, ops[..|ops| - 1]) +
      if op.Tick? && Moves(before, op.args) && Step(pf, roll, before, op).finished then 1 else 0
  }

  lemma {:induction false} FinishOnce(pf: Profile, roll: int -> real, s: State, ops: seq<Op>)
    requires !s.finished
    ensures Finishes(pf, roll, s, ops) == if Run(pf, roll, s, ops).finished then 1 else 0
  {
    if ops != [] {
      FinishOnce(pf, roll, s, ops[..|ops| - 1]);
    }
  }

  // ---------------------------------------------------------------------------
  // Progress
  // ---------------------------------------------------------------------------

  /** The number of ticks of a run that move the runner. */
  function Moving(pf: Profile, roll: int -> real, s: State, ops: seq<Op>): nat
  {
    if ops == [] then 0
    else
      var before, op := Run(pf, roll, s, ops[..|ops| - 1]), ops[|ops| - 1];
      Moving(pf, roll, s, ops[..|ops| - 1]) + if op.Tick? && Moves(before, op.args) then 1 else 0
  }

  /** Every moving tick lasts at least `minutes` and starts at velocity v or more. */
  predicate Paced(pf: Profile, roll: int -> real, s: State, ops: seq<Op>, v: real, minutes: real)
  {
    ops == [] ||
    var before, op := Run(pf, roll, s, ops[..|ops| - 1]), ops[|ops| - 1];
    Paced(pf, roll, s, ops[..|ops| - 1], v, minutes) &&
    (op.Tick? && Moves(before, op.args) ==>
       v <= before.velocity && minutes <= Resolve(op.args, before.stored).value.minutes)
  }

  /** The miles a moving tick covers at least. */
  function LeastMiles(pf: Profile, v: real, minutes: real): real
  {
    Covered(LeastSpeed(pf, v), minutes)
  }

  lemma MilesAtLeast(pf: Profile, s: State, t: Timing, v: real, minutes: real)
    requires Fit(pf) && Vital(s) && !s.collapsed && 0.0 <= v <= s.velocity && 0.0 <= minutes <= t.minutes
    ensures LeastMiles(pf, v, minutes) <= Miles(pf, s, t)
  {
    SpeedAtLeast(pf, s, t.tick, v, 10.0);
    assert HydrationFactor(10.0) == 0.55;
    CoveredGrows(LeastSpeed(pf, v), EffectiveVelocity(pf, s, t.tick), minutes);
    var e := EffectiveVelocity(pf, s, t.tick);
    Product(e * SPEED_SCALE / 60.0, t.minutes, e * SPEED_SCALE / 60.0, minutes);
  }

  lemma MoveProgress(pf: Profile, roll: int -> real, s: State, t: Timing, v: real, minutes: real)
    requires Fit(pf) && Valid(s, t.race) && !s.finished && !s.collapsed
    requires 0.0 <= v <= s.velocity && 0.0 <= minutes <= t.minutes
    ensures var s' := Move(pf, roll, s, t);
            s'.finished || (s'.distance < t.race && s.distance + LeastMiles(pf, v, minutes) <= s'.distance)
  {
    MilesAtLeast(pf, s, t, v, minutes);
  }

  /** After k moving ticks the runner has covered k times the least miles, or has finished. */
  lemma {:induction false} Progress(pf: Profile, roll: int -> real, s: State, ops: seq<Op>, race: real, v: real,
                                    minutes: real)
    requires Fit(pf) && Valid(s, race) && !s.finished && FairRun(pf, roll, s, ops, race)
    requires 0.0 <= v && 0.0 <= minutes && Paced(pf, roll, s, ops, v, minutes)
    ensures Run(pf, roll, s, ops).finished ||
            s.distance + Times(Moving(pf, roll, s, ops), LeastMiles(pf, v, minutes)) <= Run(pf, roll, s, ops).distance
    ensures Moving(pf, roll, s, ops) > 0 && !Run(pf, roll, s, ops).finished ==> Run(pf, roll, s, ops).distance < race
  {
    if ops != [] {
      var before, op := ops[..|ops| - 1], ops[|ops| - 1];
      var mid := Run(pf, roll, s, before);
      Progress(pf, roll, s, before, race, v, minutes);
      VitalsAlways(pf, roll, s, before, race);
      if op.Tick? && Moves(mid, op.args) {
        MoveProgress(pf, roll, mid, Resolve(op.args, mid.stored).value, v, minutes);
        OnceMore(Moving(pf, roll, s, before), LeastMiles(pf, v, minutes));
      } else {
        StillMarker(pf, roll, mid, op);
      }
    }
  }

  /** A runner that keeps moving at velocity v finishes within ceil(race / least miles) moving ticks,
      whatever else happens in between. */
  lemma FinishesInTime(pf: Profile, roll: int -> real, s: State, ops: seq<Op>, race: real, v: real, minutes: real)
    requires Fit(pf) && Valid(s, race) && s.distance == 0.0 && !s.finished && FairRun(pf, roll, s, ops, race)
    requires 0.0 <= v && 0.0 <= minutes && Paced(pf, roll, s, ops, v, minutes)
    ensures Moving(pf, roll, s, ops) > 0 && race <= Times(Moving(pf, roll, s, ops), LeastMiles(pf, v, minutes)) ==>
              Run(pf, roll, s, ops).finished
  {
    Progress(pf, roll, s, ops, race, v, minutes);
  }

  lemma {:induction false} TicksMove(pf: Profile, roll: int -> real, s: State, ops: seq<Op>)
    requires forall op :: op in ops ==> op.Tick? && Resolve(op.args, s.stored).Some?
    ensures Run(pf, roll, s, ops).stored == s.stored && Run(pf, roll, s, ops).velocity == s.velocity
    ensures var end := Run(pf, roll, s, ops); end.finished || end.collapsed || Moving(pf, roll, s, ops) == |ops|
  {
    if ops != [] {
      assert ops[|ops| - 1] in ops;
      TicksMove(pf, roll, s, ops[..|ops| - 1]);
    }
  }

  lemma {:induction false} TicksPaced(pf: Profile, roll: int -> real, s: State, ops: seq<Op>, race: real, minutes: real)
    requires forall op :: op in ops ==> op.Tick? && Resolve(op.args, s.stored).Some?
    requires forall op :: op in ops ==>
      var t := Resolve(op.args, s.stored).value; t.race == race && t.minutes == minutes
    requires 0.0 <= minutes
    ensures FairRun(pf, roll, s, ops, race) && Paced(pf, roll, s, ops, s.velocity, minutes)
  {
    if ops != [] {
      assert ops[|ops| - 1] in ops;
      TicksMove(pf, roll, s, ops[..|ops| - 1]);
      TicksPaced(pf, roll, s, ops[..|ops| - 1], race, minutes);
    }
  }

  /** A run of nothing but ticks ends finished or collapsed once there are that many of them. */
  lemma FinishesOrCollapses(pf: Profile, roll: int -> real, s: State, ops: seq<Op>, race: real, minutes: real)
    requires Fit(pf) && Valid(s, race) && s.distance == 0.0 && !s.finished && 0.0 < race
    requires forall op :: op in ops ==> op.Tick? && Resolve(op.args, s.stored).Some?
    requires forall op :: op in ops ==>
      var t := Resolve(op.args, s.stored).value; t.race == race && t.minutes == minutes
    requires 0.0 < minutes && 0.0 < s.velocity && pf.severity < 1.0
    requires race <= Times(|ops|, LeastMiles(pf, s.velocity, minutes))
    ensures Run(pf, roll, s, ops).finished || Run(pf, roll, s, ops).collapsed
  {
    TicksMove(pf, roll, s, ops);
    TicksPaced(pf, roll, s, ops, race, minutes);
    if Moving(pf, roll, s, ops) == |ops| {
      assert |ops| > 0;
      FinishesInTime(pf, roll, s, ops, race, s.velocity, minutes);
    }
  }
}
