/**
 A hinged door with two states. Opening or closing only chooses the target
 rotation; the door then turns towards it frame by frame. The target is
 always built from the rotation the door had when the scene was loaded, so it
 depends on the last call alone.

 Rotations are abstracted: a target is a turn of some whole number of degrees
 about the world up axis composed with a base orientation, which is never
 computed with. A bare orientation is the zero-degree turn composed with it.
 */
module Doors {

  /** Yaw of the open door relative to its initial rotation, in degrees. */
  const OpenYaw: int := 90
  /** Yaw of the closed door relative to its initial rotation, in degrees. */
  const ClosedYaw: int := 0

  /** A world orientation, as the engine reports it (a unit quaternion). */
  datatype Orientation = Orientation(w: real, x: real, y: real, z: real)

  /** The rotation AngleAxis(degrees, up) composed with base. */
  datatype Rotation = AboutUp(degrees: int, base: Orientation)

  /** The two public operations a switch or trigger may invoke. */
  datatype Call = Open | Close

  /** The door's fields: whether it is open, its target and its initial rotation. */
  datatype DoorState = DoorState(isOpen: bool, targetAngle: Rotation, initialRotation: Orientation)

  /** The field initialiser and Awake: the door starts closed, aiming at where it stands. */
  function Awake(standing: Orientation): (r: DoorState)
    ensures !r.isOpen && r.initialRotation == standing
    ensures Consistent(r)
  {
    DoorState(false, AboutUp(ClosedYaw, standing), standing)
  }

  /**
   OpenDoor or CloseDoor. Whatever the state before, the call decides isOpen,
   keeps the initial rotation and leaves the target the turn of it that isOpen
   calls for.
   */
  function Apply(s: DoorState, c: Call): (r: DoorState)
    ensures r.isOpen == (c == Open)
    ensures r.initialRotation == s.initialRotation
    ensures Consistent(r)
  {
    match c
    case Open => DoorState(true, AboutUp(OpenYaw, s.initialRotation), s.initialRotation)
    case Close => DoorState(false, AboutUp(ClosedYaw, s.initialRotation), s.initialRotation)
  }

  /** The state after the calls of trace t, in order, starting from s. */
  function Replay(s: DoorState, t: seq<Call>): DoorState
    decreases |t|
  {
    if t == [] then s else Apply(Replay(s, t[..|t| - 1]), t[|t| - 1])
  }

  /**
   The door's invariant: its target is a turn of its initial rotation, by 90
   degrees when it is open and by none when it is closed.
   */
  ghost predicate Consistent(s: DoorState) {
    s.targetAngle.base == s.initialRotation
    && s.targetAngle.degrees == (if s.isOpen then OpenYaw else ClosedYaw)
  }

  /** Right after Awake the target is the initial rotation itself. */
  lemma AwakeAimsAtInitial(standing: Orientation)
    ensures Awake(standing).targetAngle == AboutUp(0, standing)
    ensures Awake(standing).initialRotation == standing && !Awake(standing).isOpen
    ensures Consistent(Awake(standing))
  {
  }

  /** Opening and closing never change the initial rotation. */
  lemma {:induction false} ReplayKeepsInitial(s: DoorState, t: seq<Call>)
    ensures Replay(s, t).initialRotation == s.initialRotation
    decreases |t|
  {
    if t != [] {
      ReplayKeepsInitial(s, t[..|t| - 1]);
    }
  }

  /**
   The state after a non-empty sequence of calls is what the last call alone
   would have made of the starting state: nothing earlier leaves a trace.
   */
  lemma {:induction false} LastCallDecides(s: DoorState, t: seq<Call>)
    requires |t| > 0
    ensures Replay(s, t) == Apply(s, t[|t| - 1])
  {
    ReplayKeepsInitial(s, t[..|t| - 1]);
  }

  /** A call overrides the one before it; in particular repeating a call changes nothing. */
  lemma CallsOverride(s: DoorState, first: Call, second: Call)
    ensures Apply(Apply(s, first), second) == Apply(s, second)
  {
  }

  /**
   After Awake and any sequence of calls the door is open exactly when its
   target is the 90-degree turn of the initial rotation, and closed exactly
   when its target is the initial rotation.
   */
  lemma {:induction false} ReplayConsistent(standing: Orientation, t: seq<Call>)
    ensures Consistent(Replay(Awake(standing), t))
    ensures Replay(Awake(standing), t).isOpen
            <==> Replay(Awake(standing), t).targetAngle == AboutUp(OpenYaw, standing)
    ensures !Replay(Awake(standing), t).isOpen
            <==> Replay(Awake(standing), t).targetAngle == AboutUp(ClosedYaw, standing)
    decreases |t|
  {
    if t != [] {
      ReplayConsistent(standing, t[..|t| - 1]);
    }
  }

  /** The door object; OpenDoor and CloseDoor overwrite its state fields. */
  class Door {
    var isOpen: bool
    var targetAngle: Rotation
    var initialRotation: Orientation

    /** Every call received since Awake. */
    ghost var calls: seq<Call>

    function Observed(): DoorState
      reads this
    {
      DoorState(isOpen, targetAngle, initialRotation)
    }

    /**
     The fields are those reached by replaying the calls on the initial
     rotation, and the target is the turn of the initial rotation that
     isOpen calls for.
     */
    ghost predicate Valid()
      reads this
    {
      Observed() == Replay(Awake(initialRotation), calls) && Consistent(Observed())
    }

    /** The field initialiser and Awake, given the child's world rotation. */
    constructor (standing: Orientation)
      ensures Valid() && calls == []
      ensures !isOpen && initialRotation == standing && targetAngle == AboutUp(ClosedYaw, standing)
    {
      isOpen := false;
      initialRotation := standing;
      targetAngle := AboutUp(ClosedYaw, standing);
      calls := [];
    }

    method OpenDoor()
      requires Valid()
      modifies this
      ensures Valid() && calls == old(calls) + [Open]
      ensures isOpen && initialRotation == old(initialRotation)
      ensures targetAngle == AboutUp(OpenYaw, initialRotation)
    {
      isOpen := true;
      targetAngle := AboutUp(OpenYaw, initialRotation);
      calls := calls + [Open];
      assert calls[..|calls| - 1] == old(calls);
    }

    method CloseDoor()
      requires Valid()
      modifies this
      ensures Valid() && calls == old(calls) + [Close]
      ensures !isOpen && initialRotation == old(initialRotation)
      ensures targetAngle == AboutUp(ClosedYaw, initialRotation)
    {
      isOpen := false;
      targetAngle := AboutUp(ClosedYaw, initialRotation);
      calls := calls + [Close];
      assert calls[..|calls| - 1] == old(calls);
    }
  }
}
