/** The solar tracker's control law on values: the controller's fields and
    the rotor commands as one snapshot, the entry action of each state, and
    one tick of SolarArray.Update as a function of the snapshot before it,
    the rotor's angle reading and the panels' outputs. The class in
    solar_array.dfy is proved to perform exactly these steps. */
module Control {

  datatype Option<T> = None | Some(value: T)

  datatype State = Stopped | Reset | SearchingForMax | GoingTowardsMax | Idle

  /** What the controller sets on the rotor: target velocity, lock and the
      two angular limits. */
  datatype RotorCommand = RotorCommand(velocity: real, locked: bool, lower: real, upper: real)

  /** The controller's fields together with the rotor's commanded values. */
  datatype Snapshot = Snapshot(
    state: State,
    lastPower: real,
    maxPower: real,
    maxPowerAngle: real,
    maxPowerFound: bool,
    rotor: RotorCommand)

  /** One invocation: the rotor's angle and each panel's output, a negative
      output standing for a panel whose output could not be read. */
  datatype Tick = Tick(angle: real, outputs: seq<real>)

  /** float.MaxValue, exactly; float.MinValue is its negation. */
  const FloatMax: real := 340282346638528859811704183484516925440.0
  const FloatMin: real := -FloatMax

  /** The double nearest to pi (Math.PI), exactly. */
  const Pi: real := 3.141592653589793115997963468544185161590576171875

  /** Idle starts a new search once power drops below this share of the peak. */
  const RetriggerRatio: real := 0.8

  /** ChangeState: the entry action of `s`, then `s` becomes the state.
      `angle` is the rotor's angle at that moment, read only on entering Reset. */
  ghost function Enter(c: Snapshot, s: State, angle: real): Snapshot {
    var entered := match s
      case Stopped => c.(rotor := c.rotor.(locked := true))
      case Reset =>
        c.(rotor := RotorCommand(if angle < Pi then 1.0 else -1.0, false, 0.0, 0.0))
      case SearchingForMax =>
        c.(maxPowerFound := false, maxPower := 0.0, maxPowerAngle := 0.0, lastPower := 0.0,
           rotor := c.rotor.(locked := false, lower := FloatMin, upper := FloatMax))
      case GoingTowardsMax =>
        c.(rotor := c.rotor.(velocity := -c.rotor.velocity,
                             lower := c.maxPowerAngle, upper := c.maxPowerAngle))
      case Idle => c.(rotor := c.rotor.(locked := true));
    entered.(state := s)
  }

  /** The snapshot the constructor leaves: all fields at their defaults, the
      rotor as it was found, then ChangeState(SearchingForMax). */
  ghost function Initial(rotor: RotorCommand, angle: real): Snapshot {
    Enter(Snapshot(Stopped, 0.0, 0.0, 0.0, false, rotor), SearchingForMax, angle)
  }

  /** No panel reported a negative output. */
  predicate AllReadable(outputs: seq<real>) {
    forall i :: 0 <= i < |outputs| ==> outputs[i] >= 0.0
  }

  /** The outputs added up in panel order. */
  function Sum(outputs: seq<real>): real {
    if outputs == [] then 0.0 else Sum(outputs[..|outputs| - 1]) + outputs[|outputs| - 1]
  }

  /** GetCurrentArrayPower's verdict: the sum of all outputs, or None when
      some panel failed. */
  function ArrayPower(outputs: seq<real>): Option<real> {
    if AllReadable(outputs) then Some(Sum(outputs)) else None
  }

  /** The state-specific part of Update (its switch statement), given the
      power of this tick. Stopped has no case in it. */
  ghost function Decide(c: Snapshot, angle: real, power: real): Snapshot {
    match c.state
    case Reset =>
      if angle == 0.0 then Enter(c, SearchingForMax, angle) else c
    case SearchingForMax =>
      var c1 := if power > c.maxPower then c.(maxPowerFound := true) else c;
      if power < c1.lastPower then
        if c1.maxPowerFound then Enter(c1, GoingTowardsMax, angle)
        else c1.(rotor := c1.rotor.(velocity := -c1.rotor.velocity))
      else c1
    case GoingTowardsMax =>
      if angle == c.maxPowerAngle then Enter(c.(maxPower := power), Idle, angle) else c
    case Idle =>
      if power < c.maxPower * RetriggerRatio then Enter(c, SearchingForMax, angle) else c
    case Stopped => c
  }

  /** The end of every Update: remember the reading and raise the peak. */
  ghost function Finish(c: Snapshot, angle: real, power: real): Snapshot {
    var c1 := c.(lastPower := power);
    if power > c1.maxPower then c1.(maxPower := power, maxPowerAngle := angle) else c1
  }

  /** The reading Update works with: the aggregate, or 0 after a failure. */
  function Reading(outputs: seq<real>): real {
    match ArrayPower(outputs)
    case None => 0.0
    case Some(p) => p
  }

  /** The snapshot once the power has been read: unchanged, or Stopped
      when some panel failed. */
  ghost function AfterRead(c: Snapshot, t: Tick): Snapshot {
    if AllReadable(t.outputs) then c else Enter(c, Stopped, t.angle)
  }

  /** One Update. A failed panel forces Stopped and a reading of 0, and the
      rest of the tick still runs on that reading. */
  ghost function Step(c: Snapshot, t: Tick): Snapshot {
    var power := Reading(t.outputs);
    Finish(Decide(AfterRead(c, t), t.angle, power), t.angle, power)
  }

  /** Ticks applied in order. */
  ghost function Run(c: Snapshot, ticks: seq<Tick>): Snapshot
    decreases |ticks|
  {
    if ticks == [] then c else Step(Run(c, ticks[..|ticks| - 1]), ticks[|ticks| - 1])
  }

  /** What holds of every snapshot reachable from the constructor (and of
      Reset's, although nothing enters Reset). */
  ghost predicate Inv(c: Snapshot) {
    c.maxPower >= 0.0 && c.lastPower >= 0.0 &&
    (c.rotor.locked <==> c.state == Idle || c.state == Stopped) &&
    (c.state == SearchingForMax ==> c.lastPower <= c.maxPower)
  }

  /** The reversal branch of SearchingForMax fires on this tick: power fell
      below the previous reading before any reading had beaten the peak. */
  ghost predicate Reverses(c: Snapshot, t: Tick) {
    c.state == SearchingForMax && AllReadable(t.outputs) &&
    Sum(t.outputs) < c.lastPower && !c.maxPowerFound && !(Sum(t.outputs) > c.maxPower)
  }

  /** A snapshot in the first search pass after the constructor: while no
      reading has beaten the peak, peak and last reading are still 0. */
  ghost predicate FirstPass(c: Snapshot) {
    c.state == SearchingForMax && c.maxPower >= 0.0 && c.lastPower >= 0.0 &&
    (!c.maxPowerFound ==> c.maxPower == 0.0 && c.lastPower == 0.0)
  }
}
