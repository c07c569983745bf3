/** The per-array controller as the program keeps it: a SolarArray object
    whose methods update its fields and the fields of its rotor in place.
    Each method is proved to do what the matching function of Control says,
    so the properties in control_proofs.dfy hold of every SolarArray. */
module SolarArrays {
  import opened Control
  import ControlProofs
  import PanelInfo

  /** What each panel's detailed info reports, in panel order. */
  function PanelOutputs(infos: seq<string>, parseNum: string -> real): (outputs: seq<real>)
    ensures |outputs| == |infos|
    ensures forall i :: 0 <= i < |infos| ==> outputs[i] == PanelInfo.PanelOutput(infos[i], parseNum)
    decreases |infos|
  {
    if infos == [] then []
    else PanelOutputs(infos[..|infos| - 1], parseNum) + [PanelInfo.PanelOutput(infos[|infos| - 1], parseNum)]
  }

  /** Reading the first k panels gives the first k outputs. */
  lemma {:induction false} PanelOutputsPrefix(infos: seq<string>, parseNum: string -> real, k: nat)
    requires k <= |infos|
    ensures PanelOutputs(infos, parseNum)[..k] == PanelOutputs(infos[..k], parseNum)
    decreases |infos|
  {
    if k < |infos| {
      var init := infos[..|infos| - 1];
      PanelOutputsPrefix(init, parseNum, k);
      assert init[..k] == infos[..k];
      assert PanelOutputs(infos, parseNum)[..k] == PanelOutputs(init, parseNum)[..k];
    } else {
      assert infos[..k] == infos;
    }
  }

  /** The rotor (a motor stator) the array turns. `angle` is its position,
      moved by the game between ticks; the rest is what the controller sets. */
  class Rotor {
    var angle: real
    var velocity: real
    var locked: bool
    var lower: real
    var upper: real

    constructor (angle: real, velocity: real, locked: bool, lower: real, upper: real)
      ensures this.angle == angle && Command() == RotorCommand(velocity, locked, lower, upper)
    {
      this.angle := angle;
      this.velocity := velocity;
      this.locked := locked;
      this.lower := lower;
      this.upper := upper;
    }

    ghost function Command(): RotorCommand
      reads this
    {
      RotorCommand(velocity, locked, lower, upper)
    }
  }

  class SolarArray {
    /** The number of panels found in the group; one output each per tick. */
    const panelCount: nat
    const rotor: Rotor

    var state: State
    var lastPower: real
    var maxPower: real
    var maxPowerAngle: real
    var maxPowerFound: bool

    ghost function Current(): Snapshot
      reads this, rotor
    {
      Snapshot(state, lastPower, maxPower, maxPowerAngle, maxPowerFound, rotor.Command())
    }

    /** What holds after the constructor and after every Update: there is a
      panel, and the snapshot satisfies the invariant of reachable snapshots
      (among others, the rotor is locked exactly in Idle and Stopped). */
    ghost predicate Valid()
      reads this, rotor
    {
      panelCount > 0 && Inv(Current())
    }

    /** The constructor once the group has been found with its panels and
      its rotor: it enters SearchingForMax. */
    constructor (panelCount: nat, rotor: Rotor)
      requires panelCount > 0
      modifies rotor
      ensures Valid()
      ensures this.panelCount == panelCount && this.rotor == rotor
      ensures Current() == Initial(old(rotor.Command()), old(rotor.angle))
      ensures rotor.angle == old(rotor.angle)
    {
      this.panelCount := panelCount;
      this.rotor := rotor;
      state := Stopped;
      lastPower, maxPower, maxPowerAngle := 0.0, 0.0, 0.0;
      maxPowerFound := false;
      new;
      ChangeState(SearchingForMax);
      ControlProofs.InitialInv(old(rotor.Command()), old(rotor.angle));
    }

    /** The entry action of `newState`, then the state change. */
    method ChangeState(newState: State)
      modifies this, rotor
      ensures Current() == Enter(old(Current()), newState, old(rotor.angle))
      ensures rotor.angle == old(rotor.angle)
    {
      match newState {
        case Stopped =>
          rotor.locked := true;
        case Reset =>
          if rotor.angle < Pi {
            rotor.velocity := 1.0;
          } else {
            rotor.velocity := -1.0;
          }
          rotor.locked := false;
          rotor.upper := 0.0;
          rotor.lower := 0.0;
        case SearchingForMax =>
          rotor.upper := FloatMax;
          rotor.lower := FloatMin;
          maxPowerFound := false;
          maxPower := 0.0;
          maxPowerAngle := 0.0;
          lastPower := 0.0;
          rotor.locked := false;
        case GoingTowardsMax =>
          rotor.velocity := -rotor.velocity;
          rotor.upper := maxPowerAngle;
          rotor.lower := maxPowerAngle;
        case Idle =>
          rotor.locked := true;
      }
      state := newState;
    }

    /** Each panel's output read from its detailed info `infos[i]` and added
      up in panel order; at the first panel whose output cannot be read the
      array is stopped and the reading is 0. */
    method GetCurrentArrayPower(infos: seq<string>, parseNum: string -> real) returns (power: real)
      modifies this, rotor
      ensures power == Reading(PanelOutputs(infos, parseNum))
      ensures Current() == AfterRead(old(Current()), Tick(old(rotor.angle), PanelOutputs(infos, parseNum)))
      ensures rotor.angle == old(rotor.angle)
      ensures old(Valid()) ==> Valid()
    {
      power := 0.0;
      for i := 0 to |infos|
        invariant power == Sum(PanelOutputs(infos[..i], parseNum))
        invariant AllReadable(PanelOutputs(infos[..i], parseNum))
        invariant Current() == old(Current()) && rotor.angle == old(rotor.angle)
      {
        ghost var read := PanelOutputs(infos[..i], parseNum);
        var panelOutput := PanelInfo.PowerOutput(infos[i], parseNum);
        assert infos[..i + 1][..i] == infos[..i];
        assert PanelOutputs(infos[..i + 1], parseNum) == read + [panelOutput];
        ControlProofs.ReadSnoc(read, panelOutput);
        if panelOutput >= 0.0 {
          power := power + panelOutput;
        } else {
          PanelOutputsPrefix(infos, parseNum, i + 1);
          ControlProofs.ReadablePrefix(PanelOutputs(infos, parseNum), i + 1);
          ChangeState(Stopped);
          return 0.0;
        }
      }
      assert infos[..|infos|] == infos;
    }

    /** One tick: read the angle and the power, then act on the reading. */
    method Update(infos: seq<string>, parseNum: string -> real)
      requires Valid() && |infos| == panelCount
      modifies this, rotor
      ensures Valid()
      ensures Current() == Step(old(Current()), Tick(old(rotor.angle), PanelOutputs(infos, parseNum)))
      ensures rotor.angle == old(rotor.angle)
    {
      ghost var before := Current();
      var currentAngle := rotor.angle;
      var currentPower := GetCurrentArrayPower(infos, parseNum);
      Respond(currentAngle, currentPower);
      ControlProofs.InvStep(before, Tick(currentAngle, PanelOutputs(infos, parseNum)));
    }

    /** The rest of Update once the power has been read: the current state's
      logic (its switch statement), then remember the reading and raise the
      peak. `currentAngle` is the angle read at the start of the tick, which
      the rotor still shows. */
    method Respond(currentAngle: real, currentPower: real)
      requires rotor.angle == currentAngle
      modifies this, rotor
      ensures Current() == Finish(Decide(old(Current()), currentAngle, currentPower), currentAngle, currentPower)
      ensures rotor.angle == currentAngle
    {
      match state {
        case Reset =>
          if currentAngle == 0.0 {
            ChangeState(SearchingForMax);
          }
        case SearchingForMax =>
          if currentPower > maxPower {
            maxPowerFound := true;
          }
          if currentPower < lastPower {
            if maxPowerFound {
              ChangeState(GoingTowardsMax);
            } else {
              rotor.velocity := -rotor.velocity;
            }
          }
        case GoingTowardsMax =>
          if rotor.angle == maxPowerAngle {
            maxPower := currentPower;
            ChangeState(Idle);
          }
        case Idle =>
          if currentPower < maxPower * RetriggerRatio {
            ChangeState(SearchingForMax);
          }
        case Stopped =>
      }
      lastPower := currentPower;
      if currentPower > maxPower {
        maxPower := currentPower;
        maxPowerAngle := currentAngle;
      }
    }
  }
}
