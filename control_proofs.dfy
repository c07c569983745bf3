/** Properties of the control law in control.dfy: per-tick facts about Step
    and facts about every run from the constructor. */
module ControlProofs {
  import opened Control

  // ---------------------------------------------------------------------
  // Power aggregation

  lemma {:induction false} SumNonNegative(outputs: seq<real>)
    requires AllReadable(outputs)
    ensures Sum(outputs) >= 0.0
    decreases |outputs|
  {
    if outputs != [] {
      SumNonNegative(outputs[..|outputs| - 1]);
    }
  }

  /** Reading one more panel: the prefix stays readable exactly when the new
      output is non-negative, and the sum grows by that output. */
  lemma ReadSnoc(outputs: seq<real>, x: real)
    ensures AllReadable(outputs + [x]) <==> AllReadable(outputs) && x >= 0.0
    ensures Sum(outputs + [x]) == Sum(outputs) + x
  {
    assert (outputs + [x])[..|outputs|] == outputs;
    assert (outputs + [x])[|outputs|] == x;
  }

  /** A panel that failed among the first k fails the whole array. */
  lemma ReadablePrefix(outputs: seq<real>, k: nat)
    requires k <= |outputs|
    ensures AllReadable(outputs) ==> AllReadable(outputs[..k])
  {
    if AllReadable(outputs) {
      forall j | 0 <= j < k
        ensures outputs[..k][j] >= 0.0
      {
        assert outputs[..k][j] == outputs[j];
      }
    }
  }

  /** The aggregate fails exactly when some panel output is negative, and
      otherwise is the non-negative sum of all outputs. */
  lemma ArrayPowerSpec(outputs: seq<real>)
    ensures ArrayPower(outputs) == None <==> exists i :: 0 <= i < |outputs| && outputs[i] < 0.0
    ensures ArrayPower(outputs) != None ==>
              ArrayPower(outputs).value == Sum(outputs) && ArrayPower(outputs).value >= 0.0
  {
    if AllReadable(outputs) {
      SumNonNegative(outputs);
    }
  }

  // ---------------------------------------------------------------------
  // Entry actions

  /** Entering Stopped or Idle locks the rotor, entering Reset or
      SearchingForMax unlocks it and entering GoingTowardsMax leaves the lock
      alone; only entering GoingTowardsMax or Reset changes the velocity. */
  lemma EntryLock(c: Snapshot, s: State, angle: real)
    ensures Enter(c, s, angle).state == s
    ensures Enter(c, s, angle).rotor.locked ==
              match s
              case Stopped => true
              case Idle => true
              case Reset => false
              case SearchingForMax => false
              case GoingTowardsMax => c.rotor.locked
    ensures s != GoingTowardsMax && s != Reset ==>
              Enter(c, s, angle).rotor.velocity == c.rotor.velocity
  {
  }

  // ---------------------------------------------------------------------
  // Sensor failure

  /** A tick on which some panel output is negative ends in Stopped with the
      rotor locked, its velocity and limits as they were, the peak unchanged
      and a remembered reading of 0. */
  lemma SensorFailure(c: Snapshot, t: Tick)
    requires exists i :: 0 <= i < |t.outputs| && t.outputs[i] < 0.0
    requires c.maxPower >= 0.0
    ensures Step(c, t).state == Stopped
    ensures Step(c, t).rotor == c.rotor.(locked := true)
    ensures Step(c, t).maxPower == c.maxPower && Step(c, t).maxPowerAngle == c.maxPowerAngle
    ensures Step(c, t).maxPowerFound == c.maxPowerFound
    ensures Step(c, t).lastPower == 0.0
  {
    ArrayPowerSpec(t.outputs);
  }

  // ---------------------------------------------------------------------
  // Stopped is absorbing

  /** A tick from Stopped stays Stopped; the rotor commands change only in
      that a failed panel (re)locks the rotor. */
  lemma StoppedStep(c: Snapshot, t: Tick)
    requires c.state == Stopped
    ensures Step(c, t).state == Stopped
    ensures Step(c, t).rotor == (if AllReadable(t.outputs) then c.rotor else c.rotor.(locked := true))
  {
  }

  /** Once Stopped with the rotor locked, every later run stays Stopped and
      never touches the rotor again. */
  lemma {:induction false} StoppedForever(c: Snapshot, ticks: seq<Tick>)
    requires c.state == Stopped && c.rotor.locked
    ensures Run(c, ticks).state == Stopped && Run(c, ticks).rotor == c.rotor
    decreases |ticks|
  {
    if ticks != [] {
      StoppedForever(c, ticks[..|ticks| - 1]);
      StoppedStep(Run(c, ticks[..|ticks| - 1]), ticks[|ticks| - 1]);
    }
  }

  // ---------------------------------------------------------------------
  // The invariant of reachable snapshots, lock invariant included

  lemma InitialInv(rotor: RotorCommand, angle: real)
    ensures Inv(Initial(rotor, angle))
    ensures Initial(rotor, angle).state == SearchingForMax
  {
  }

  lemma InvStep(c: Snapshot, t: Tick)
    requires Inv(c)
    ensures Inv(Step(c, t))
  {
    ArrayPowerSpec(t.outputs);
  }

  lemma {:induction false} InvRun(c: Snapshot, ticks: seq<Tick>)
    requires Inv(c)
    ensures Inv(Run(c, ticks))
    decreases |ticks|
  {
    if ticks != [] {
      InvRun(c, ticks[..|ticks| - 1]);
      InvStep(Run(c, ticks[..|ticks| - 1]), ticks[|ticks| - 1]);
    }
  }

  /** After any ticks from the constructor: the rotor is locked exactly in
      Idle and Stopped, the powers are non-negative, and in SearchingForMax
      the last reading does not exceed the peak. */
  lemma ReachableInvariant(rotor: RotorCommand, angle: real, ticks: seq<Tick>)
    ensures Inv(Run(Initial(rotor, angle), ticks))
    ensures var c := Run(Initial(rotor, angle), ticks);
              c.rotor.locked <==> c.state == Idle || c.state == Stopped
  {
    InitialInv(rotor, angle);
    InvRun(Initial(rotor, angle), ticks);
  }

  /** No tick enters Reset. */
  lemma {:induction false} NeverReset(c: Snapshot, ticks: seq<Tick>)
    requires c.state != Reset
    ensures Run(c, ticks).state != Reset
    decreases |ticks|
  {
    if ticks != [] {
      NeverReset(c, ticks[..|ticks| - 1]);
    }
  }

  // ---------------------------------------------------------------------
  // Peak bookkeeping

  /** After a tick whose panels all reported, the peak is at least the reading. */
  lemma PeakCoversReading(c: Snapshot, t: Tick)
    requires AllReadable(t.outputs)
    ensures Step(c, t).maxPower >= Sum(t.outputs)
    ensures Step(c, t).lastPower == Sum(t.outputs)
  {
  }

  /** Whenever the peak rises, its angle becomes this tick's angle. */
  lemma PeakRiseRecordsAngle(c: Snapshot, t: Tick)
    requires c.maxPower >= 0.0
    ensures Step(c, t).maxPower > c.maxPower ==> Step(c, t).maxPowerAngle == t.angle
  {
    ArrayPowerSpec(t.outputs);
  }

  /** The peak angle changes only when the peak rises, and then to this
      tick's angle, or when a new search starts and clears the peak. */
  lemma PeakAngleFrame(c: Snapshot, t: Tick)
    requires Inv(c)
    ensures var c' := Step(c, t);
      c'.maxPowerAngle != c.maxPowerAngle ==>
        (c'.maxPowerAngle == t.angle && c'.maxPower == Reading(t.outputs)) ||
        (c.state in {Reset, Idle} && c'.state == SearchingForMax &&
         c'.maxPowerAngle == 0.0 && c'.maxPower == 0.0)
  {
    ArrayPowerSpec(t.outputs);
  }

  /** The peak falls only on entering SearchingForMax (from Reset or Idle)
      or on GoingTowardsMax -> Idle, and then it becomes this tick's reading. */
  lemma PeakFallsOnlyOnRestart(c: Snapshot, t: Tick)
    requires c.maxPower >= 0.0
    ensures Step(c, t).maxPower < c.maxPower ==>
              AllReadable(t.outputs) && Step(c, t).maxPower == Sum(t.outputs) &&
              ((c.state in {Reset, Idle} && Step(c, t).state == SearchingForMax) ||
               (c.state == GoingTowardsMax && Step(c, t).state == Idle))
  {
    ArrayPowerSpec(t.outputs);
  }

  // ---------------------------------------------------------------------
  // Transitions, state by state, on a tick whose panels all reported

  /** SearchingForMax turns to GoingTowardsMax exactly when power fell below
      the previous reading after some reading beat the peak; the turn reverses
      the velocity and clamps both limits to the peak angle. Otherwise it
      keeps searching, reversing the velocity in place when power fell. */
  lemma SearchingStep(c: Snapshot, t: Tick)
    requires c.state == SearchingForMax && AllReadable(t.outputs)
    ensures var p, c' := Sum(t.outputs), Step(c, t);
      (c'.state == GoingTowardsMax <==> p < c.lastPower && (c.maxPowerFound || p > c.maxPower)) &&
      (c'.state != GoingTowardsMax ==> c'.state == SearchingForMax) &&
      c'.rotor == (if c'.state == GoingTowardsMax
                   then c.rotor.(velocity := -c.rotor.velocity,
                                 lower := c.maxPowerAngle, upper := c.maxPowerAngle)
                   else if p < c.lastPower then c.rotor.(velocity := -c.rotor.velocity)
                   else c.rotor) &&
      c'.maxPowerFound == (c.maxPowerFound || p > c.maxPower)
    ensures Reverses(c, t) <==> Step(c, t).state == SearchingForMax && Sum(t.outputs) < c.lastPower
  {
  }

  /** Reset moves on to SearchingForMax exactly when the angle is 0. */
  lemma ResetStep(c: Snapshot, t: Tick)
    requires c.state == Reset && AllReadable(t.outputs)
    ensures Step(c, t).state == (if t.angle == 0.0 then SearchingForMax else Reset)
    ensures t.angle != 0.0 ==> Step(c, t).rotor == c.rotor
  {
  }

  /** GoingTowardsMax comes to rest in Idle exactly when the angle equals the
      peak angle; the rotor is then locked and the peak becomes this reading. */
  lemma GoingStep(c: Snapshot, t: Tick)
    requires c.state == GoingTowardsMax && AllReadable(t.outputs)
    ensures Step(c, t).state == (if t.angle == c.maxPowerAngle then Idle else GoingTowardsMax)
    ensures Step(c, t).state == Idle ==>
              Step(c, t).rotor == c.rotor.(locked := true) && Step(c, t).maxPower == Sum(t.outputs)
    ensures Step(c, t).state == GoingTowardsMax ==> Step(c, t).rotor == c.rotor
  {
  }

  /** Idle starts a new search exactly when power is below 80% of the peak:
      the rotor is unlocked and its limits opened wide, the velocity kept. */
  lemma IdleStep(c: Snapshot, t: Tick)
    requires c.state == Idle && AllReadable(t.outputs)
    ensures Step(c, t).state ==
              (if Sum(t.outputs) < c.maxPower * RetriggerRatio then SearchingForMax else Idle)
    ensures Step(c, t).state == SearchingForMax ==>
              Step(c, t).rotor == RotorCommand(c.rotor.velocity, false, FloatMin, FloatMax)
    ensures Step(c, t).state == Idle ==> Step(c, t).rotor == c.rotor
  {
  }

  /** With a peak of 100 in Idle, 79.9 restarts the search and 80 does not. */
  lemma IdleThreshold(c: Snapshot, angle: real)
    requires c.state == Idle && c.maxPower == 100.0
    ensures Step(c, Tick(angle, [79.9])).state == SearchingForMax
    ensures Step(c, Tick(angle, [79.9])).rotor == RotorCommand(c.rotor.velocity, false, FloatMin, FloatMax)
    ensures Step(c, Tick(angle, [80.0])).state == Idle
  {
    assert Sum([79.9]) == 79.9 by { assert [79.9][..0] == []; }
    assert Sum([80.0]) == 80.0 by { assert [80.0][..0] == []; }
    IdleStep(c, Tick(angle, [79.9]));
    IdleStep(c, Tick(angle, [80.0]));
  }

  // ---------------------------------------------------------------------
  // Crest-then-reverse

  lemma SumSingle(p: real)
    ensures Sum([p]) == p && AllReadable([p]) == (p >= 0.0)
  {
    assert [p][..0] == [];
  }

  /** From the constructor, readings 10, 20, 30, 25 at angles 0, 1, 2, 3
      keep the search going until the reading of 25, which turns to
      GoingTowardsMax with the velocity reversed, both limits at 2 and the
      peak still 30. */
  lemma CrestThenReverse(rotor: RotorCommand, angle: real)
    ensures var c0 := Initial(rotor, angle);
      var c1 := Step(c0, Tick(0.0, [10.0]));
      var c2 := Step(c1, Tick(1.0, [20.0]));
      var c3 := Step(c2, Tick(2.0, [30.0]));
      var c4 := Step(c3, Tick(3.0, [25.0]));
      c1.state == SearchingForMax && c2.state == SearchingForMax && c3.state == SearchingForMax &&
      c4.state == GoingTowardsMax &&
      c4.rotor.velocity == -rotor.velocity && c4.rotor.lower == 2.0 && c4.rotor.upper == 2.0 &&
      c4.maxPower == 30.0 && c4.maxPowerAngle == 2.0
  {
    SumSingle(10.0);
    SumSingle(20.0);
    SumSingle(30.0);
    SumSingle(25.0);
  }

  // ---------------------------------------------------------------------
  // The direction-reversal branch

  lemma FirstPassStep(c: Snapshot, t: Tick)
    requires FirstPass(c)
    ensures !Reverses(c, t)
    ensures Step(c, t).state == SearchingForMax ==> FirstPass(Step(c, t))
  {
    ArrayPowerSpec(t.outputs);
  }

  lemma {:induction false} FirstPassPrefix(rotor: RotorCommand, angle: real, ticks: seq<Tick>, k: nat)
    requires k <= |ticks|
    requires forall j :: 0 <= j <= k ==> Run(Initial(rotor, angle), ticks[..j]).state == SearchingForMax
    ensures FirstPass(Run(Initial(rotor, angle), ticks[..k]))
  {
    var c0 := Initial(rotor, angle);
    if k == 0 {
      assert ticks[..0] == [];
    } else {
      FirstPassPrefix(rotor, angle, ticks, k - 1);
      var prev, t := Run(c0, ticks[..k - 1]), ticks[k - 1];
      assert ticks[..k][..k - 1] == ticks[..k - 1] && ticks[..k][k - 1] == t;
      assert Run(c0, ticks[..k]) == Step(prev, t);
      FirstPassStep(prev, t);
    }
  }

  /** In the first search pass after the constructor the reversal branch is
      never taken: panel outputs are non-negative and the peak starts at 0,
      so any drop comes after a reading that beat the peak. */
  lemma NoReversalInFirstPass(rotor: RotorCommand, angle: real, ticks: seq<Tick>)
    requires forall j :: 0 <= j < |ticks| ==> Run(Initial(rotor, angle), ticks[..j]).state == SearchingForMax
    ensures forall j :: 0 <= j < |ticks| ==> !Reverses(Run(Initial(rotor, angle), ticks[..j]), ticks[j])
  {
    forall j | 0 <= j < |ticks|
      ensures !Reverses(Run(Initial(rotor, angle), ticks[..j]), ticks[j])
    {
      FirstPassPrefix(rotor, angle, ticks, j);
      FirstPassStep(Run(Initial(rotor, angle), ticks[..j]), ticks[j]);
    }
  }

  /** After Idle -> SearchingForMax the branch is reachable: in Idle with a
      peak of 100, readings 70 and then 60 reverse the velocity and stay in
      SearchingForMax. */
  lemma ReversalAfterIdle(c: Snapshot, a1: real, a2: real)
    requires c.state == Idle && c.maxPower == 100.0
    ensures var c1 := Step(c, Tick(a1, [70.0]));
      var c2 := Step(c1, Tick(a2, [60.0]));
      c1.state == SearchingForMax && Reverses(c1, Tick(a2, [60.0])) &&
      c2.state == SearchingForMax && c2.rotor.velocity == -c.rotor.velocity &&
      !c2.rotor.locked
  {
    SumSingle(70.0);
    SumSingle(60.0);
  }

  /** And it is reachable from the constructor: readings 100, 50, 100 at
      angles 0, 1, 0 climb, turn back and come to rest in Idle; 70 then
      restarts the search and 60 takes the reversal branch. */
  lemma ReversalReachable(rotor: RotorCommand, angle: real)
    ensures var c1 := Step(Initial(rotor, angle), Tick(0.0, [100.0]));
      var c2 := Step(c1, Tick(1.0, [50.0]));
      var c3 := Step(c2, Tick(0.0, [100.0]));
      var c4 := Step(c3, Tick(0.0, [70.0]));
      c2.state == GoingTowardsMax && c3.state == Idle && c4.state == SearchingForMax &&
      Reverses(c4, Tick(0.0, [60.0]))
  {
    SumSingle(100.0);
    SumSingle(50.0);
    SumSingle(70.0);
    SumSingle(60.0);
  }

  // ---------------------------------------------------------------------
  // GoingTowardsMax limits can lag the peak angle

  /** The limits are set once, on entering GoingTowardsMax; a later higher
      reading away from them moves the peak angle while the limits stay.
      From the constructor, readings 10, 20, 15, 30 at angles 0, 1, 2, 1.5
      leave GoingTowardsMax clamped at 1 with the peak angle at 1.5. */
  lemma LimitsCanLagPeak(rotor: RotorCommand, angle: real)
    ensures var c1 := Step(Initial(rotor, angle), Tick(0.0, [10.0]));
      var c2 := Step(c1, Tick(1.0, [20.0]));
      var c3 := Step(c2, Tick(2.0, [15.0]));
      var c4 := Step(c3, Tick(1.5, [30.0]));
      c3.state == GoingTowardsMax && c3.rotor.lower == 1.0 && c3.rotor.upper == 1.0 &&
      c4.state == GoingTowardsMax && c4.rotor.lower == 1.0 && c4.rotor.upper == 1.0 &&
      c4.maxPowerAngle == 1.5 && c4.maxPower == 30.0
  {
    SumSingle(10.0);
    SumSingle(20.0);
    SumSingle(15.0);
    SumSingle(30.0);
  }
}
