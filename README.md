# Pressure button and door of a forced-perspective puzzle game

This project models the two interactive scene objects of a Unity puzzle game
whose behaviour is state kept between engine callbacks.

- **Button** (`button.dfy`, module `Buttons`). A trigger volume counts the
  objects resting on it in `objectsColliding`. Each trigger enter adds one and
  each trigger exit subtracts one. When the count reaches 1 on an enter, the
  "pressed" action fires and the cap drops to height 0.04. When the count
  reaches 0 on an exit, the "exit" action fires and the cap rises to height
  0.07. Nothing keeps the count from going negative. The callbacks are given as
  a pure transition function `Step`, replayed over a trace of callbacks by
  `Run` (final state) and `Fired` (invoked actions). The class `Button` has the
  counter and the cap's y coordinate as fields, and the four callbacks as
  methods; the two heights are module constants. A ghost history of received callbacks ties its
  fields to `Run`, and a ghost list of invoked actions ties them to `Fired`.
- **Door** (`door.dfy`, module `Doors`). `OpenDoor` and `CloseDoor` set
  `isOpen` and choose a target rotation. The target is always a turn of the
  rotation captured in `Awake` about the up axis: 90 degrees when opening,
  0 degrees when closing. A rotation is abstracted as `AboutUp(degrees, base)`,
  meaning `AngleAxis(degrees, up) * base`. The initial rotation itself is
  `AboutUp(0, initial)`, because the zero-degree turn is the identity. The
  class `Door` keeps a ghost list of calls. Its invariant `Valid()` says its
  fields are always those reached by replaying that list from `Awake`, and
  that the target is the 90-degree turn exactly when the door is open.

Engine events (`UnityEvent.Invoke`) are modelled as returned action tags.
The colliders passed to the callbacks are ignored, as they are in the source.

## Model

| member | source | states |
|---|---|---|
| `Buttons.Initial` | Assets/Scripts/Interactibles/Button.cs:11 | a fresh button keeps the scene's cap height, its first enter fires the pressed action, and an exit on it fires nothing (the counter starts at 0) |
| `Buttons.Step` | Assets/Scripts/Interactibles/Button.cs:21-51 | an enter moves the counter up by one and an exit moves it down by one; "pressed" fires exactly on an enter from 0, "exit" fires exactly on an exit from 1; the cap moves to 0.04 or 0.07 when an action fires and stays put otherwise |
| `Buttons.CountIsEntersMinusExits` | Assets/Scripts/Interactibles/Button.cs:21-37 | after any trace, the counter equals its starting value plus the number of enters minus the number of exits |
| `Buttons.FiredAlternates` | Assets/Scripts/Interactibles/Button.cs:21-51 | from a zero counter, on every trace (including ones that go negative), the fired actions alternate between pressed and exit, starting with pressed; an odd number has fired exactly when the counter is positive |
| `Buttons.CapTracksCount` | Assets/Scripts/Interactibles/Button.cs:39-51 | once any action has fired, the cap is at 0.04 when the counter is positive and at 0.07 otherwise |
| `Buttons.FirstEnterFires` | Assets/Scripts/Interactibles/Button.cs:21-28 | a trace that starts with an enter on an idle button fires at least one action |
| `Buttons.BalancedTrace` | Assets/Scripts/Interactibles/Button.cs:11-51 | the counter starts at 0; on a non-empty trace where no prefix has more exits than enters, the counter stays non-negative, the cap is pressed exactly when the counter is positive and normal exactly when it is zero, and the fired actions alternate starting with pressed |
| `Buttons.NoLowerBound` | Assets/Scripts/Interactibles/Button.cs:21-37 | an exit on an idle button takes the counter to -1 and fires nothing; the next enter brings it back to 0 and also fires nothing |
| `Buttons.Button.constructor` | Assets/Scripts/Interactibles/Button.cs:11-19 | a new button has counter 0, keeps the cap height the scene gave it, and has received no callbacks yet |
| `Buttons.Button.OnTriggerEnter` | Assets/Scripts/Interactibles/Button.cs:21-28 | the counter grows by one; if it is now 1, the pressed action fires and the cap drops to 0.04, and otherwise nothing fires and the cap stays; the object stays in step with `Run` and `Fired` over its history |
| `Buttons.Button.OnTriggerExit` | Assets/Scripts/Interactibles/Button.cs:30-37 | the counter shrinks by one; if it is now 0, the exit action fires and the cap rises to 0.07, and otherwise nothing fires and the cap stays; the object stays in step with `Run` and `Fired` over its history |
| `Buttons.Button.OnFirstObjectEnter` | Assets/Scripts/Interactibles/Button.cs:39-43 | fires the pressed action and sets the cap to the pressed height 0.04, touching nothing else |
| `Buttons.Button.OnLastObjectExit` | Assets/Scripts/Interactibles/Button.cs:45-51 | fires the exit action and sets the cap to the normal height 0.07, touching nothing else |
| `Doors.Awake` | Assets/Scripts/Interactibles/Door.cs:8-18 | after the field initialiser and `Awake` the door is closed, the initial rotation is the one the door stands at, and the target is the turn of it that a closed door calls for (the 0-degree turn) |
| `Doors.Apply` | Assets/Scripts/Interactibles/Door.cs:25-39 | from any state, Open sets `isOpen` and aims at the 90-degree turn of the initial rotation, Close clears it and aims at the 0-degree turn; the initial rotation is kept |
| `Doors.AwakeAimsAtInitial` | Assets/Scripts/Interactibles/Door.cs:8-18 | right after `Awake` the door is closed, its target is the initial rotation (a 0-degree turn of it), and the invariant holds |
| `Doors.ReplayKeepsInitial` | Assets/Scripts/Interactibles/Door.cs:25-39 | no sequence of open and close calls changes the initial rotation |
| `Doors.LastCallDecides` | Assets/Scripts/Interactibles/Door.cs:25-39 | after a non-empty sequence of calls the whole state is what the last call alone produces |
| `Doors.CallsOverride` | Assets/Scripts/Interactibles/Door.cs:25-39 | any call overrides the one before it; in particular open after open is open and close after close is close |
| `Doors.ReplayConsistent` | Assets/Scripts/Interactibles/Door.cs:8-39 | after `Awake` and any calls, the door is open exactly when its target is the 90-degree turn of the initial rotation, and closed exactly when the target is the initial rotation |
| `Doors.Door.constructor` | Assets/Scripts/Interactibles/Door.cs:8-18 | the door starts closed; it records the child's rotation as the initial rotation and aims at it |
| `Doors.Door.OpenDoor` | Assets/Scripts/Interactibles/Door.cs:25-31 | sets `isOpen`, aims at the initial rotation turned 90 degrees about up, keeps the initial rotation, and stays in step with the replay of its calls |
| `Doors.Door.CloseDoor` | Assets/Scripts/Interactibles/Door.cs:33-39 | clears `isOpen`, aims at the initial rotation (the 0-degree turn of it), keeps the initial rotation, and stays in step with the replay of its calls |

## Left out

- `Door.Update` (Assets/Scripts/Interactibles/Door.cs:20-23) is left out. It interpolates the rotation towards the target each frame in floating point, scaled by the engine's frame time. The `rotateSpeed` field it uses is left out too.
- Real quaternions are not modelled. A target is a whole-degree turn about up composed with an opaque base orientation, so quaternion arithmetic and its rounding are not captured.
- Buttons.CountIsEntersMinusExits: the counter is an unbounded integer, so the 32-bit wrap-around of the source's unchecked `int` at `int.MaxValue` and `int.MinValue` is not modelled. In the source the equation holds modulo 2^32; reaching the wrap takes 2^31 unmatched callbacks. The same holds for Buttons.FiredAlternates and Buttons.CapTracksCount: in the source 2^32 exits from 0 wrap round to 1 and then 0, firing the exit action with no press before it, and 2^32 - 1 exits after an exit action reach a counter of 1 with the cap still at 0.07. Both lemmas are claimed for the unbounded counter only.
- Doors.Door.constructor and Doors.ReplayConsistent: a call to `OpenDoor` or `CloseDoor` that arrives before `Awake` (possible when the door's object starts inactive) is not modelled. In that order the source leaves `isOpen` true while `Awake` resets the target to the initial rotation, so the invariant is claimed only for calls made after `Awake`.
- Both classes are modelled as objects that already exist. Finding the child transform in `Awake` (`transform.GetChild(0)`) is engine lookup and is not modelled. The cap height and the door rotation the scene provides are constructor parameters.
- The cap's position is modelled by its local y coordinate only. The source always writes x and z as 0.
- A null `onPressedAction` or `onExitAction` field is skipped by `?.Invoke`, so nothing is invoked. The model still reports the action tag.
- A non-null event with no listeners also invokes nothing. The model still reports the action tag here too, because who listens is outside both classes.
- `StopAllCoroutines` in `OnLastObjectExit` is a no-op here. Neither class starts a coroutine.
- The engine decides when callbacks run, and they arrive one at a time. Traces of callbacks stand in for that ordering.
- Trigger.cs, the anamorphic projection editor, the anamorphic decal camera and the pickup and scaling scripts are not part of this model. They are engine glue or floating-point geometry over physics raycasts.
