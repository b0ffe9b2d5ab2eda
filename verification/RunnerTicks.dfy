/** What a tick and the other tools do to a runner, in numbers: who drinks at a station and what that
    leaves, how far a tick goes, when the line is crossed. */
module RunnerTicks {
  import opened Options
  import opened Reals
  import opened Runner

  // ---------------------------------------------------------------------------
  // Stations
  // ---------------------------------------------------------------------------

  /** At one station: with 40 water or less, or exhausted, the runner drinks; with up to 60 if its number
      is below 0.5; with more if it is below 0.3. A drink is 25, up to 100. */
  lemma OneStation(water: real, exhausted: bool, roll: int -> real, k: int)
    requires 0.0 <= water <= 100.0
    ensures water <= 40.0 || exhausted ==>
              Stations(water, exhausted, roll, k, k + 1) == if water <= 75.0 then water + 25.0 else 100.0
    ensures 40.0 < water <= 60.0 && !exhausted ==>
              Stations(water, exhausted, roll, k, k + 1) == if roll(k) < 0.5 then water + 25.0 else water
    ensures 60.0 < water && !exhausted ==>
              Stations(water, exhausted, roll, k, k + 1) ==
              if roll(k) >= 0.3 then water else if water <= 75.0 then water + 25.0 else 100.0
  {
    assert Stations(water, exhausted, roll, k, k) == water;
  }

  /** Stations are passed one after another. */
  lemma {:induction false} StationsMeet(water: real, exhausted: bool, roll: int -> real, a: int, b: int, c: int)
    requires a <= b <= c
    ensures Stations(water, exhausted, roll, a, c) ==
            Stations(Stations(water, exhausted, roll, a, b), exhausted, roll, b, c)
    decreases c - b
  {
    if b < c {
      StationsMeet(water, exhausted, roll, a, b, c - 1);
    }
  }

  lemma NextStation(water: real, exhausted: bool, roll: int -> real, first: int, end: int)
    requires 0.0 <= water <= 100.0 && first < end
    ensures var before := Stations(water, exhausted, roll, first, end - 1);
            water <= before <= 100.0 &&
            Stations(water, exhausted, roll, first, end) == Stations(before, exhausted, roll, end - 1, end - 1 + 1)
  {
    StationsRefill(water, exhausted, roll, first, end - 1);
    StationsMeet(water, exhausted, roll, first, end - 1, end);
  }

  /** An exhausted runner drinks at every station. */
  lemma {:induction false} ExhaustedDrinks(water: real, roll: int -> real, first: int, end: int)
    requires 0.0 <= water <= 100.0 && first <= end
    ensures var full := water + 25.0 * (end - first) as real;
            Stations(water, true, roll, first, end) == if full <= 100.0 then full else 100.0
    decreases end - first
  {
    if first < end {
      ExhaustedDrinks(water, roll, first, end - 1);
      NextStation(water, true, roll, first, end);
      OneStation(Stations(water, true, roll, first, end - 1), true, roll, end - 1);
    }
  }

  /** A runner with at most 40 water drinks at the first station. */
  lemma ThirstyDrinks(water: real, exhausted: bool, roll: int -> real, first: int, end: int)
    requires 0.0 <= water <= 40.0 && first < end
    ensures Stations(water, exhausted, roll, first, end) >= water + 25.0
  {
    OneStation(water, exhausted, roll, first);
    StationsMeet(water, exhausted, roll, first, first + 1, end);
    StationsRefill(water + 25.0, exhausted, roll, first + 1, end);
  }

  /** A runner with more does without when its numbers are high enough. */
  lemma {:induction false} SkipsStations(water: real, roll: int -> real, first: int, end: int)
    requires 40.0 < water <= 100.0 && first <= end
    requires forall k :: first <= k < end ==> roll(k) >= if water <= 60.0 then 0.5 else 0.3
    ensures Stations(water, false, roll, first, end) == water
    decreases end - first
  {
    if first < end {
      SkipsStations(water, roll, first, end - 1);
      NextStation(water, false, roll, first, end);
      OneStation(water, false, roll, end - 1);
    }
  }

  // ---------------------------------------------------------------------------
  // A tick
  // ---------------------------------------------------------------------------

  /** The station numbers, one for each 1.8641 miles begun. */
  lemma MarkerIs(distance: real, k: nat)
    requires 0.0 <= distance
    ensures Marker(distance) == k <==> k as real * 1.8641 <= distance < (k + 1) as real * 1.8641
  {
    var q := distance / 1.8641;
    assert q * 1.8641 == distance;
    assert q >= 0.0;
    assert Marker(distance) == q.Floor;
    assert q.Floor == k <==> k as real <= q < (k + 1) as real;
  }

  /** The speed in miles an hour: 6.2137 times the velocity, of which no water costs half, the wall its
      severity, and each tick a five hundredth, a quarter at most. */
  function SpeedOf(pf: Profile, s: State, tick: int): real
  {
    var wall := if pf.hitsWall && s.distance > pf.wall then 1.0 - pf.severity else 1.0;
    var fatigue := if tick <= 125 then 1.0 - 0.002 * tick as real else 0.75;
    s.velocity * (0.5 + 0.5 * (s.water / 100.0)) * wall * fatigue * 6.2137
  }

  lemma FatigueIs(tick: int)
    ensures FatigueFactor(tick) == if tick <= 125 then 1.0 - 0.002 * tick as real else 0.75
  {
  }

  lemma MilesAre(pf: Profile, s: State, t: Timing)
    ensures EffectiveVelocity(pf, s, t.tick) * 6.2137 == SpeedOf(pf, s, t.tick)
    ensures Miles(pf, s, t) == SpeedOf(pf, s, t.tick) / 60.0 * t.minutes
  {
    FatigueIs(t.tick);
  }

  /** A mile drains 3.2187 times the runner's efficiency, and 3.22 hundredths more of that for each mile
      behind. */
  lemma DepletionIs(pf: Profile, miles: real, distance: real)
    ensures Depletion(pf, miles, distance) == 3.2187 * miles * pf.efficiency * (1.0 + 0.0322 * distance)
  {
  }

  /** What a tick that moves the runner does: distance at that speed up to the finish; water drained on the
      way and refilled at each station passed; exhausted below 30, collapsed below 10. */
  lemma TickMoves(pf: Profile, roll: int -> real, s: State, args: Timing)
    requires Moves(s, args)
    ensures var t, s' := Resolve(args, s.stored).value, Step(pf, roll, s, Tick(args));
            var miles := Miles(pf, s, t);
            var drained := s.water - Depletion(pf, miles, s'.distance);
            && s'.distance == (if s.distance + miles <= t.race then s.distance + miles else t.race)
            && s'.water == Stations(if drained >= 0.0 then drained else 0.0, s.exhausted, roll,
                                    Marker(s.distance) + 1, Marker(s'.distance) + 1)
            && (s'.exhausted <==> s'.water < 30.0) && (s'.collapsed <==> s'.water < 10.0)
            && s'.velocity == s.velocity && s'.stored == s.stored
  {
  }

  /** The water after a tick that passes stations. Exhausted at its start, the runner has drunk 25 at each,
      up to 100; with at most 40 left it has drunk at the first; not exhausted and with more than 40, it
      has drunk nothing if its numbers were all 0.5 or more, or 0.3 or more with more than 60 left. */
  lemma TickStations(pf: Profile, roll: int -> real, s: State, args: Timing, drained: real, n: nat)
    requires Fit(pf) && Moves(s, args) && 0.0 <= s.water <= 100.0 && 0.0 <= s.distance && 0.0 <= s.velocity
    requires 0.0 <= Resolve(args, s.stored).value.minutes && s.distance <= Resolve(args, s.stored).value.race
    requires var t, s' := Resolve(args, s.stored).value, Step(pf, roll, s, Tick(args));
             drained == Max(0.0, s.water - Depletion(pf, Miles(pf, s, t), s'.distance)) &&
             n == |Passed(s.distance, s'.distance)|
    ensures var s' := Step(pf, roll, s, Tick(args));
            && drained <= s'.water <= 100.0
            && (s.exhausted ==> s'.water == Min(100.0, drained + 25.0 * n as real))
            && (n > 0 && drained <= 40.0 ==> s'.water >= drained + 25.0)
            && (!s.exhausted && drained > 40.0 &&
                (forall k :: k in Passed(s.distance, s'.distance) ==> roll(k) >= if drained <= 60.0 then 0.5 else 0.3)
                ==> s'.water == drained)
  {
    var t, s' := Resolve(args, s.stored).value, Step(pf, roll, s, Tick(args));
    MilesNotNegative(pf, s, t);
    DepletionNotNegative(pf, Miles(pf, s, t), s'.distance);
    MarkersGrow(s.distance, s'.distance);
    var first, end := Marker(s.distance) + 1, Marker(s'.distance) + 1;
    RangeHas(first, end);
    StationsRefill(drained, s.exhausted, roll, first, end);
    if s.exhausted {
      ExhaustedDrinks(drained, roll, first, end);
    }
    if n > 0 && drained <= 40.0 {
      ThirstyDrinks(drained, s.exhausted, roll, first, end);
    }
    if !s.exhausted && drained > 40.0 && (forall k :: k in Range(first, end) ==>
                                            roll(k) >= if drained <= 60.0 then 0.5 else 0.3) {
      SkipsStations(drained, roll, first, end);
    }
  }

  lemma {:induction false} RangeHas(first: int, end: int)
    ensures |Range(first, end)| == if first <= end then end - first else 0
    ensures forall k :: k in Range(first, end) <==> first <= k < end
    decreases end - first
  {
    if first < end {
      RangeHas(first, end - 1);
    }
  }

  /** A tick is refused exactly if a parameter is neither given nor stored; given ones win. */
  lemma RefusedIff(args: Timing, stored: Stored)
    ensures Resolve(args, stored).None? <==>
            (args.tick < 0 && stored.tick.None?) || (args.minutes < 0.0 && stored.minutes.None?) ||
            (args.elapsed < 0.0 && stored.elapsed.None?) || (args.race < 0.0 && stored.race.None?)
    ensures Resolve(args, stored).Some? ==>
              var t := Resolve(args, stored).value;
              && (if args.tick >= 0 then t.tick == args.tick else Some(t.tick) == stored.tick)
              && (if args.minutes >= 0.0 then t.minutes == args.minutes else Some(t.minutes) == stored.minutes)
              && (if args.elapsed >= 0.0 then t.elapsed == args.elapsed else Some(t.elapsed) == stored.elapsed)
              && (if args.race >= 0.0 then t.race == args.race else Some(t.race) == stored.race)
  {
  }

  /** `params` are those that the last Store of a run brings, or those of before it without one. */
  predicate StoredLast(before: Stored, ops: seq<Op>, params: Stored)
  {
    if exists k :: 0 <= k < |ops| && ops[k].Store? then
      exists k :: 0 <= k < |ops| && ops[k] == Store(params) && forall j :: k < j < |ops| ==> !ops[j].Store?
    else params == before
  }

  /** A tick without parameters takes those that were stored last, however long ago and whatever came since. */
  lemma {:induction false} StoredAre(pf: Profile, roll: int -> real, s: State, ops: seq<Op>)
    ensures StoredLast(s.stored, ops, Run(pf, roll, s, ops).stored)
  {
    if ops != [] {
      var n := |ops| - 1;
      var before, op := ops[..n], ops[n];
      StoredAre(pf, roll, s, before);
      if op.Store? {
        assert ops[n] == Store(op.params);
      } else {
        assert Run(pf, roll, s, ops).stored == Run(pf, roll, s, before).stored;
        StoredStays(s.stored, ops, Run(pf, roll, s, ops).stored);
      }
    }
  }

  lemma StoredStays(before: Stored, ops: seq<Op>, params: Stored)
    requires ops != [] && !ops[|ops| - 1].Store? && StoredLast(before, ops[..|ops| - 1], params)
    ensures StoredLast(before, ops, params)
  {
    var most := ops[..|ops| - 1];
    if k :| 0 <= k < |ops| && ops[k].Store? {
      assert most[k].Store?;
      var l :| 0 <= l < |most| && most[l] == Store(params) && forall j :: l < j < |most| ==> !most[j].Store?;
      assert ops[l] == Store(params) && forall j :: l < j < |ops| ==> !ops[j].Store?;
    }
  }

  // ---------------------------------------------------------------------------
  // The finish and the status
  // ---------------------------------------------------------------------------

  lemma LineCrossed(t: Timing, distance: real, miles: real)
    requires 0.0 < miles
    ensures (FinishTime(t, distance + miles, miles) - (t.elapsed - t.minutes)) * miles ==
            t.minutes * (t.race - distance)
  {
    var over := (distance + miles - t.race) / miles;
    assert over * miles == distance + miles - t.race;
    var gone := FinishTime(t, distance + miles, miles) - (t.elapsed - t.minutes);
    assert gone == t.minutes * (1.0 - over);
    assert gone * miles == t.minutes * (miles - over * miles);
  }

  lemma PaceTimesRace(time: real, race: real)
    ensures race > 0.0 ==> Pace(time, race) * race == time
  {
  }

  /** Of a runner that is judged `miles` after `distance`. */
  lemma JudgedOnTheLine(s: State, t: Timing, distance: real, miles: real, after: State)
    requires after == Judged(s, t, distance + miles, miles)
    requires !s.finished && after.finished && 0.0 < miles
    ensures after.finishTime.Some? && after.pace.Some?
    ensures (after.finishTime.value - (t.elapsed - t.minutes)) * miles == t.minutes * (t.race - distance)
    ensures t.race > 0.0 ==> after.pace.value * t.race == after.finishTime.value
    ensures t.race <= 0.0 ==> after.pace.value == 0.0
  {
    LineCrossed(t, distance, miles);
    PaceTimesRace(FinishTime(t, distance + miles, miles), t.race);
  }

  /** The finish time is when the runner, at the speed of the tick, is on the line; the pace is that time a
      mile. */
  lemma FinishOnTheLine(pf: Profile, roll: int -> real, s: State, t: Timing, miles: real, after: State)
    requires miles == Miles(pf, s, t) && after == Move(pf, roll, s, t)
    requires !s.finished && after.finished && 0.0 < miles
    ensures after.finishTime.Some? && after.pace.Some?
    ensures (after.finishTime.value - (t.elapsed - t.minutes)) * miles == t.minutes * (t.race - s.distance)
    ensures t.race > 0.0 ==> after.pace.value * t.race == after.finishTime.value
    ensures t.race <= 0.0 ==> after.pace.value == 0.0
  {
    JudgedOnTheLine(Along(pf, roll, s, t.race, miles), t, s.distance, miles, after);
  }

  /** A tick finishes the race if it reaches the line, and its status is finished then, else collapsed,
      else exhausted, else running, which it reports. */
  lemma StatusAfter(pf: Profile, roll: int -> real, s: State, args: Timing)
    requires Moves(s, args)
    ensures var t, s' := Resolve(args, s.stored).value, Step(pf, roll, s, Tick(args));
            && (s'.finished <==> s'.distance >= t.race)
            && s'.status == Some(if s'.distance >= t.race then Finished
                                 else if s'.water < 10.0 then Collapsed
                                 else if s'.water < 30.0 then Exhausted else Running)
            && (!s'.finished ==> s'.finishTime == s.finishTime && s'.pace == s.pace)
            && ReportOf(pf, roll, s, args) ==
               Moved(s'.status.value, EffectiveVelocity(pf, s, t.tick), Miles(pf, s, t))
  {
  }

  /** A tick that does not move the runner changes nothing and says why. */
  lemma StandsStill(pf: Profile, roll: int -> real, s: State, args: Timing)
    requires !Moves(s, args)
    ensures Step(pf, roll, s, Tick(args)) == s
    ensures ReportOf(pf, roll, s, args) ==
            if Resolve(args, s.stored).None? then NotReady else Idle(if s.finished then Finished else Collapsed)
  {
  }

  // ---------------------------------------------------------------------------
  // The other tools
  // ---------------------------------------------------------------------------

  /** Water taken can be given back, within 0 and 100. */
  lemma DepleteAndRehydrate(pf: Profile, roll: int -> real, s: State, amount: real)
    requires 0.0 <= amount
    ensures 0.0 <= amount <= s.water <= 100.0 ==>
              Step(pf, roll, Step(pf, roll, s, Deplete(amount)), Rehydrate(amount)).water == s.water
    ensures s.water <= amount ==> Step(pf, roll, s, Deplete(amount)).water == 0.0
    ensures s.water <= 100.0 <= s.water + amount ==> Step(pf, roll, s, Rehydrate(amount)).water == 100.0
    ensures s.water + amount <= 100.0 ==> Step(pf, roll, s, Rehydrate(amount)).water == s.water + amount
  {
  }

  /** A runner that loses water is exhausted exactly below 30, and collapses below 10; water brings it back
      exactly when it reaches 30. */
  lemma LosesAndRecovers(pf: Profile, roll: int -> real, s: State, amount: real)
    ensures var low := Step(pf, roll, s, Deplete(amount));
            (low.exhausted <==> low.water < 30.0) && (low.collapsed <==> s.collapsed || low.water < 10.0)
    ensures var back := Step(pf, roll, s, Rehydrate(amount));
            && (back.water >= 30.0 ==> !back.exhausted && !back.collapsed)
            && (back.water < 30.0 ==> back.exhausted == s.exhausted && back.collapsed == s.collapsed)
  {
  }

  /** A push gains a tenth of its intensity and of the response to the crowd, half of that without water;
      a brake loses one and a half of its intensity, and stops the runner if that is all its velocity.
      Nothing else changes. */
  lemma PushesAndBrakes(pf: Profile, roll: int -> real, s: State, intensity: real)
    ensures Step(pf, roll, s, Accelerate(intensity)) ==
            s.(velocity := s.velocity + intensity * 0.1 * (0.5 + 0.5 * (s.water / 100.0)) * pf.crowd)
    ensures Step(pf, roll, s, Brake(intensity)) ==
            s.(velocity := if s.velocity >= intensity * 1.5 then s.velocity - intensity * 1.5 else 0.0)
  {
  }

  /** A runner starts standing at the line, with all its water. */
  lemma Starts(race: real)
    requires 0.0 <= race
    ensures Valid(START, race) && START.water == 100.0 && START.distance == 0.0 && START.velocity == 0.0
    ensures START.status == None && START.pace == None && forall args :: !Moves(START, args) <==>
              args.tick < 0 || args.minutes < 0.0 || args.elapsed < 0.0 || args.race < 0.0
  {
  }

  /** The least miles of a tick, in numbers. */
  lemma LeastMilesAre(pf: Profile, v: real, minutes: real)
    ensures LeastMiles(pf, v, minutes) == v * 0.55 * (1.0 - pf.severity) * 0.75 * 6.2137 / 60.0 * minutes
  {
  }
}
