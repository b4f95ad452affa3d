/**
 * The rocket of src/rockets/base_rocket.ts: control-type dispatch, the force
 * formulas, the one-slot cargo, the collision-explosion rule and the foot point.
 *
 * The physics body is not modelled. Its state is kept as fields that only the
 * engine writes (EngineStep); what applyInput asks of the engine is returned as a
 * ForceCommand. The two concrete rocket classes only fix the control type.
 */
module Rockets {
  import opened Geometry

  /** src/rockets/rocket.ts: how a rocket interprets its two input axes. */
  datatype ControlType = Directional | Rotational

  /** ReversibleRocket is ROTATIONAL, OminRocket is DIRECTIONAL. */
  const ReversibleControl: ControlType := Rotational
  const OminControl: ControlType := Directional

  /** The cargo slot; NoGood is GoodsType.NONE, Water the good that lakes hand out. */
  datatype Good = NoGood | Water | Other(name: string)

  /** A rotation angle θ, carried as (cos θ, sin θ). */
  datatype Rotation = Rotation(cos: real, sin: real)

  const ZeroRotation: Rotation := Rotation(1.0, 0.0)

  /** (cos θ, sin θ) of a real angle θ lies on the unit circle. */
  predicate UnitRotation(r: Rotation)
  {
    Mul(r.cos, r.cos) + Mul(r.sin, r.sin) == 1.0
  }

  const MaxTorque: real := 0.005
  const MaxForwardsAcceleration: real := 0.0005
  const MaxBackwardsAcceleration: real := 0.00025

  /** v rotated by r. */
  function Rotate(v: Vec, r: Rotation): Vec
  {
    Vec(v.x * r.cos - v.y * r.sin, v.x * r.sin + v.y * r.cos)
  }

  /** (cos(θ − π/2), sin(θ − π/2)), the direction the rotational engine pushes in. */
  function ThrustHeading(r: Rotation): Vec
  {
    Vec(r.sin, -r.cos)
  }

  function Abs(v: real): (r: real)
    ensures r >= 0.0
    ensures r == v || r == -v
  {
    if v < 0.0 then -v else v
  }

  /** What one applyInput asks the physics engine to do. */
  datatype ForceCommand =
    | Thrust(torque: real, acceleration: real, force: Vec)
      /** A force along direction, of squared magnitude magnitudeSq. */
    | Push(direction: Vec, magnitudeSq: real)
    | NoForce

  /** The signed thrust for accelerator input y: the backward limit applies unless y > 0. */
  function ThrustAcceleration(y: real): real
  {
    y * (if y > 0.0 then MaxForwardsAcceleration else MaxBackwardsAcceleration)
  }

  /** applyRotationalInput: torque x·MAX_TORQUE, thrust along the rocket's heading. */
  function RotationalCommand(x: real, y: real, r: Rotation): (c: ForceCommand)
    ensures c.Thrust?
    ensures c.torque == x * MaxTorque
    ensures c.acceleration == ThrustAcceleration(y)
  {
    var acceleration := ThrustAcceleration(y);
    Thrust(x * MaxTorque, acceleration, Scale(ThrustHeading(r), acceleration))
  }

  /**
   * Clamp(|v|, 0, 1), squared: the squared length of v, capped at 1. It is zero
   * exactly for the zero vector.
   */
  function ClampedMagnitudeSq(v: Vec): (s: real)
    ensures 0.0 <= s <= 1.0
    ensures s == 0.0 <==> v == Vec(0.0, 0.0)
    ensures LenSq(v) <= 1.0 ==> s == LenSq(v)
    ensures LenSq(v) >= 1.0 ==> s == 1.0
  {
    LenSqZero(v);
    if LenSq(v) < 1.0 then LenSq(v) else 1.0
  }

  /** A clamped magnitude in (0, 1] gives a force magnitude in (0, MAX_FORWARDS_ACCELERATION]. */
  lemma WithinForwardsLimit(m: real)
    requires 0.0 < m <= 1.0
    ensures 0.0 < m * (MaxForwardsAcceleration * MaxForwardsAcceleration)
                <= MaxForwardsAcceleration * MaxForwardsAcceleration
  {
  }

  /**
   * applyDirectionalInput: the vector (x, −y) with its length clamped to [0, 1]
   * gives the force magnitude, in units of MAX_FORWARDS_ACCELERATION; a vector of
   * magnitude 0 (the zero vector) applies no force at all.
   */
  function DirectionalCommand(x: real, y: real): (c: ForceCommand)
    ensures c.NoForce? <==> x == 0.0 && y == 0.0
    ensures c.Push? ==> c.direction == Vec(x, -y)
    ensures c.Push? ==> 0.0 < c.magnitudeSq <= MaxForwardsAcceleration * MaxForwardsAcceleration
    ensures c.Push? ==> c.magnitudeSq == ClampedMagnitudeSq(Vec(x, -y)) * (MaxForwardsAcceleration * MaxForwardsAcceleration)
    ensures c.Push? && LenSq(Vec(x, -y)) <= 1.0
         ==> c.magnitudeSq == LenSq(Vec(x, -y)) * (MaxForwardsAcceleration * MaxForwardsAcceleration)
    ensures c.Push? && LenSq(Vec(x, -y)) >= 1.0
         ==> c.magnitudeSq == MaxForwardsAcceleration * MaxForwardsAcceleration
    ensures !c.Thrust?
  {
    var v := Vec(x, -y);
    if v == Vec(0.0, 0.0) then NoForce
    else
      var m := ClampedMagnitudeSq(v);
      WithinForwardsLimit(m);
      Push(v, m * (MaxForwardsAcceleration * MaxForwardsAcceleration))
  }

  /** applyInput's switch on the control type. */
  function ControlCommand(ct: ControlType, x: real, y: real, r: Rotation): (c: ForceCommand)
    ensures ct == Rotational ==> c == RotationalCommand(x, y, r)
    ensures ct == Directional ==> c == DirectionalCommand(x, y)
  {
    match ct
    case Rotational => RotationalCommand(x, y, r)
    case Directional => DirectionalCommand(x, y)
  }

  /**
   * For inputs in [−1, 1] the thrust stays within the limits, has the sign of the
   * input, and the backward limit is half the forward one.
   */
  lemma ThrustBounds(y: real)
    requires -1.0 <= y <= 1.0
    ensures -MaxBackwardsAcceleration <= ThrustAcceleration(y) <= MaxForwardsAcceleration
    ensures ThrustAcceleration(y) > 0.0 <==> y > 0.0
    ensures ThrustAcceleration(y) < 0.0 <==> y < 0.0
    ensures 2.0 * MaxBackwardsAcceleration == MaxForwardsAcceleration
  {
  }

  /** Full backward input gives exactly half of full forward thrust, reversed. */
  lemma BackwardHalfOfForward()
    ensures ThrustAcceleration(-1.0) == -ThrustAcceleration(1.0) / 2.0
  {
  }

  /** At rotation 0 the rotational engine pushes straight up the screen (−y). */
  lemma RotationalAtZeroRotation(x: real, y: real)
    ensures RotationalCommand(x, y, ZeroRotation).force == Vec(0.0, -ThrustAcceleration(y))
  {
  }

  /** At any real angle the rotational thrust has the magnitude of the signed acceleration. */
  lemma RotationalThrustMagnitude(x: real, y: real, r: Rotation)
    requires UnitRotation(r)
    ensures LenSq(RotationalCommand(x, y, r).force) == Mul(ThrustAcceleration(y), ThrustAcceleration(y))
  {
    var a := ThrustAcceleration(y);
    assert Mul(r.sin * a, r.sin * a) + Mul(-r.cos * a, -r.cos * a)
        == (Mul(r.cos, r.cos) + Mul(r.sin, r.sin)) * Mul(a, a);
  }

  /** Inputs inside the unit disc are applied unclamped: the force is the input vector times MAX_FORWARDS_ACCELERATION. */
  lemma DirectionalUnclamped(x: real, y: real)
    requires LenSq(Vec(x, -y)) <= 1.0
    requires x != 0.0 || y != 0.0
    ensures DirectionalCommand(x, y)
         == Push(Vec(x, -y), LenSq(Scale(Vec(x, -y), MaxForwardsAcceleration)))
  {
    var v := Vec(x, -y);
    var k := MaxForwardsAcceleration;
    assert LenSq(Scale(v, k)) == LenSq(v) * (k * k) by {
      assert Mul(x * k, x * k) == Mul(x, x) * (k * k);
      assert Mul(-y * k, -y * k) == Mul(-y, -y) * (k * k);
    }
  }

  /** The rocket's foot in world coordinates: position + footLocal rotated by the rotation. */
  function FootOf(position: Vec, footLocal: Vec, r: Rotation): Vec
  {
    Add(position, Rotate(footLocal, r))
  }

  /** Rotating by a real angle keeps a vector's length. */
  lemma RotatePreservesLength(v: Vec, r: Rotation)
    requires UnitRotation(r)
    ensures LenSq(Rotate(v, r)) == LenSq(v)
  {
    var a, b, c, s := v.x, v.y, r.cos, r.sin;
    calc {
      LenSq(Rotate(v, r));
      Mul(a * c - b * s, a * c - b * s) + Mul(a * s + b * c, a * s + b * c);
      (a * a) * (c * c) + (b * b) * (s * s) + (a * a) * (s * s) + (b * b) * (c * c);
      (a * a) * (Mul(c, c) + Mul(s, s)) + (b * b) * (Mul(c, c) + Mul(s, s));
      LenSq(v);
    }
  }

  /** Unrotated, the foot is the body centre plus the offset. */
  lemma FootUnrotated(position: Vec, footLocal: Vec)
    ensures FootOf(position, footLocal, ZeroRotation) == Add(position, footLocal)
  {
  }

  /** At any real angle the foot lies as far from the body centre as the offset is long. */
  lemma FootDistance(position: Vec, footLocal: Vec, r: Rotation)
    requires UnitRotation(r)
    ensures DistSq(FootOf(position, footLocal, r), position) == LenSq(footLocal)
  {
    var w := Rotate(footLocal, r);
    assert Sub(Add(position, w), position) == w;
    RotatePreservesLength(footLocal, r);
  }

  /**
   * setPositionAndRotation(p, 0) places the foot exactly at p; it subtracts the
   * unrotated foot offset, so for any other rotation the foot can be elsewhere.
   */
  lemma SetPositionZeroRotationFoot(p: Vec, footLocal: Vec)
    ensures FootOf(Sub(p, footLocal), footLocal, ZeroRotation) == p
  {
  }

  /** Whether a cargo operation succeeded, and the slot afterwards. */
  datatype CargoOutcome = CargoOutcome(succeeded: bool, slot: Good)

  /** tryStoreGood on a slot: it succeeds exactly when the slot is empty, and then holds good. */
  function StoreGood(slot: Good, good: Good): (o: CargoOutcome)
    ensures o.succeeded <==> slot == NoGood
    ensures o.slot == if o.succeeded then good else slot
  {
    if slot != NoGood then CargoOutcome(false, slot) else CargoOutcome(true, good)
  }

  /** tryTakeGood on a slot: it succeeds exactly when the slot holds good, and then is empty. */
  function TakeGood(slot: Good, good: Good): (o: CargoOutcome)
    ensures o.succeeded <==> slot == good
    ensures o.slot == if o.succeeded then NoGood else slot
  {
    if slot != good then CargoOutcome(false, slot) else CargoOutcome(true, NoGood)
  }

  /** Storing a good in an empty slot and taking it back leaves the slot empty again. */
  lemma StoreThenTake(good: Good)
    ensures StoreGood(NoGood, good).succeeded
    ensures TakeGood(StoreGood(NoGood, good).slot, good) == CargoOutcome(true, NoGood)
  {
  }

  /** Taking the loaded good and storing it again restores the slot. */
  lemma TakeThenStore(good: Good)
    ensures TakeGood(good, good).succeeded
    ensures StoreGood(TakeGood(good, good).slot, good) == CargoOutcome(true, good)
  {
  }

  /** After one store of a real good, a second store of anything fails and changes nothing. */
  lemma SecondStoreFails(slot: Good, good: Good, another: Good)
    requires good != NoGood
    ensures var first := StoreGood(slot, good);
      StoreGood(first.slot, another) == CargoOutcome(false, first.slot)
  {
  }

  /** After one take of a real good, a second take of it fails: the slot is empty. */
  lemma SecondTakeFails(slot: Good, good: Good)
    requires good != NoGood
    ensures var first := TakeGood(slot, good);
      first.succeeded ==> TakeGood(first.slot, good) == CargoOutcome(false, NoGood)
  {
  }

  /** Storing NONE in an empty slot reports success and leaves it empty. */
  lemma StoreNothing()
    ensures StoreGood(NoGood, NoGood) == CargoOutcome(true, NoGood)
  {
  }

  /** A body of a collision pair; the parent body's id and label. */
  datatype BodyInfo = BodyInfo(id: int, bodyLabel: string)

  datatype CollisionPair = CollisionPair(bodyA: BodyInfo, bodyB: BodyInfo)

  const RocketLabel: string := "rocket"

  predicate Involves(pair: CollisionPair, id: int)
  {
    pair.bodyA.id == id || pair.bodyB.id == id
  }

  predicate BetweenRockets(pair: CollisionPair)
  {
    pair.bodyA.bodyLabel == RocketLabel && pair.bodyB.bodyLabel == RocketLabel
  }

  /**
   * Whether a collision pair makes the rocket with body id explode, given its
   * cached speeds: it must involve that body, and either both bodies are rockets
   * or 15·angular + linear is strictly above 1.5.
   */
  predicate ExplodesOn(pair: CollisionPair, id: int, linearAbs: real, angularAbs: real)
  {
    Involves(pair, id) && (BetweenRockets(pair) || 15.0 * angularAbs + linearAbs > 1.5)
  }

  /** Exactly at the threshold nothing explodes; rocket–rocket contact always does. */
  lemma ExplosionThreshold(pair: CollisionPair, id: int, linearAbs: real, angularAbs: real)
    requires Involves(pair, id)
    ensures BetweenRockets(pair) ==> ExplodesOn(pair, id, linearAbs, angularAbs)
    ensures !BetweenRockets(pair) && 15.0 * angularAbs + linearAbs == 1.5
         ==> !ExplodesOn(pair, id, linearAbs, angularAbs)
  {
  }

  class BaseRocket {
    const controlType: ControlType
    /** The foot relative to the body centre; the source derives its y from the lowest vertex. */
    const footLocal: Vec
    const bodyId: int

    /** State of the physics body, written by the engine. */
    var position: Vec
    var rotation: Rotation
    var bodySpeed: real
    var bodyAngularVelocity: real

    /** Speeds cached at the last applyInput. */
    var linearVelocityAbs: real
    var angularVelocityAbs: real
    var loadedGood: Good
    var isDestroyed: bool

    /** A rocket whose foot is at initial, unrotated, at rest and empty. */
    constructor (controlType: ControlType, initial: Vec, footDy: real, bodyId: int)
      ensures this.controlType == controlType && this.bodyId == bodyId
      ensures footLocal == Vec(0.0, footDy)
      ensures position == Sub(initial, footLocal) && rotation == ZeroRotation
      ensures bodySpeed == 0.0 && bodyAngularVelocity == 0.0
      ensures linearVelocityAbs == 0.0 && angularVelocityAbs == 0.0
      ensures loadedGood == NoGood && !isDestroyed
      ensures FootPosition() == initial
    {
      this.controlType := controlType;
      this.bodyId := bodyId;
      footLocal := Vec(0.0, footDy);
      position := Sub(initial, Vec(0.0, footDy));
      rotation := ZeroRotation;
      bodySpeed := 0.0;
      bodyAngularVelocity := 0.0;
      linearVelocityAbs := 0.0;
      angularVelocityAbs := 0.0;
      loadedGood := NoGood;
      isDestroyed := false;
      new;
      SetPositionZeroRotationFoot(initial, footLocal);
    }

    /**
     * getFootPosition: the foot offset turned with the body; unrotated it is the
     * plain offset. FootDistance states that at any real angle the foot keeps its
     * distance from the centre.
     */
    function FootPosition(): (f: Vec)
      reads this`position, this`rotation
      ensures rotation == ZeroRotation ==> f == Add(position, footLocal)
    {
      FootUnrotated(position, footLocal);
      FootOf(position, footLocal, rotation)
    }

    /**
     * applyInput: dispatch on the control type, then cache the body's current
     * speeds for the collision rule.
     */
    method ApplyInput(x: real, y: real) returns (cmd: ForceCommand)
      modifies this`linearVelocityAbs, this`angularVelocityAbs
      ensures cmd == ControlCommand(controlType, x, y, rotation)
      ensures linearVelocityAbs == bodySpeed
      ensures angularVelocityAbs == Abs(bodyAngularVelocity)
    {
      match controlType {
        case Rotational =>
          cmd := RotationalCommand(x, y, rotation);
        case Directional =>
          cmd := DirectionalCommand(x, y);
      }
      linearVelocityAbs := bodySpeed;
      angularVelocityAbs := Abs(bodyAngularVelocity);
    }

    /** One physics step: the engine moves the body as it likes. */
    method EngineStep(newPosition: Vec, newRotation: Rotation, newSpeed: real, newAngularVelocity: real)
      requires newSpeed >= 0.0
      modifies this`position, this`rotation, this`bodySpeed, this`bodyAngularVelocity
      ensures position == newPosition && rotation == newRotation
      ensures bodySpeed == newSpeed && bodyAngularVelocity == newAngularVelocity
    {
      position, rotation := newPosition, newRotation;
      bodySpeed, bodyAngularVelocity := newSpeed, newAngularVelocity;
    }

    /** setPositionAndRotation: moves the body by the unrotated foot offset and stops it. */
    method SetPositionAndRotation(p: Vec, r: Rotation)
      modifies this`position, this`rotation, this`bodySpeed, this`bodyAngularVelocity
      ensures position == Sub(p, footLocal) && rotation == r
      ensures bodySpeed == 0.0 && bodyAngularVelocity == 0.0
      ensures r == ZeroRotation ==> FootPosition() == p
    {
      position := Sub(p, footLocal);
      rotation := r;
      bodySpeed := 0.0;
      bodyAngularVelocity := 0.0;
      SetPositionZeroRotationFoot(p, footLocal);
    }

    /** tryStoreGood: succeeds exactly when the slot is empty. */
    method TryStoreGood(good: Good) returns (stored: bool)
      modifies this`loadedGood
      ensures CargoOutcome(stored, loadedGood) == StoreGood(old(loadedGood), good)
    {
      if loadedGood != NoGood {
        return false;
      }
      loadedGood := good;
      return true;
    }

    /** tryTakeGood: succeeds exactly when the slot holds that good, and empties it. */
    method TryTakeGood(good: Good) returns (taken: bool)
      modifies this`loadedGood
      ensures CargoOutcome(taken, loadedGood) == TakeGood(old(loadedGood), good)
    {
      if loadedGood != good {
        return false;
      }
      loadedGood := NoGood;
      return true;
    }

    /** explode: the rocket is destroyed for good. */
    method Explode()
      modifies this`isDestroyed
      ensures isDestroyed
    {
      isDestroyed := true;
    }

    /**
     * The collisionstart handler, for one event: each pair that involves this
     * rocket explodes it by the rule of ExplodesOn unless it is already destroyed,
     * and every explosion notifies the scene once. So the scene hears of this
     * rocket at most once, and only if it was not destroyed before.
     */
    method HandleCollisionEvent(pairs: seq<CollisionPair>) returns (notifications: nat)
      modifies this`isDestroyed
      ensures notifications <= 1
      ensures notifications == 1 <==>
        !old(isDestroyed)
        && exists j :: 0 <= j < |pairs| && ExplodesOn(pairs[j], bodyId, linearVelocityAbs, angularVelocityAbs)
      ensures isDestroyed == (old(isDestroyed) || notifications == 1)
    {
      notifications := 0;
      var i := 0;
      while i < |pairs|
        invariant 0 <= i <= |pairs|
        invariant notifications <= 1
        invariant isDestroyed == (old(isDestroyed) || notifications == 1)
        invariant notifications == 1 <==>
          !old(isDestroyed)
          && exists j :: 0 <= j < i && ExplodesOn(pairs[j], bodyId, linearVelocityAbs, angularVelocityAbs)
      {
        var pair := pairs[i];
        if Involves(pair, bodyId) && !isDestroyed {
          if BetweenRockets(pair) {
            Explode();
            notifications := notifications + 1;
          } else if 15.0 * angularVelocityAbs + linearVelocityAbs > 1.5 {
            Explode();
            notifications := notifications + 1;
          }
        }
        i := i + 1;
      }
    }
  }
}
