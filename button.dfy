/**
 A pressure button: a trigger volume that counts the objects resting on it.
 The first object to enter fires the "pressed" action and lowers the cap;
 the last object to leave fires the "exit" action and raises it again.

 The behaviour is given twice: as a pure transition function over traces of
 trigger callbacks (Step, Run, Fired), about which the properties are proved,
 and as the class Button, whose methods update their fields in place and are
 proved to follow that transition function.
 */
module Buttons {

  /** Local height of the cap while nothing rests on the button. */
  const NormalPosY: real := 0.07
  /** Local height of the cap while the button is held down. */
  const PressedPosY: real := 0.04

  /** One physics trigger callback; the collider it carries is ignored. */
  datatype Contact = Enter | Exit

  /** The action a callback invokes, if any. */
  datatype Action = NoAction | Pressed | Released

  /** The button's observable state: the counter and the cap's local height. */
  datatype State = State(objectsColliding: int, capY: real)

  /** What one callback leaves behind: the new state and the action it fired. */
  datatype Reaction = Reaction(after: State, fired: Action)

  /**
   The state of a freshly loaded button whose cap starts at height y: its
   first enter fires the pressed action, and an exit fires nothing.
   */
  function Initial(y: real): (r: State)
    ensures r.capY == y
    ensures Step(r, Enter).fired == Pressed && Step(r, Exit).fired == NoAction
  {
    State(0, y)
  }

  /** The cap height the button shows for a given action, when it sets one. */
  function CapFor(a: Action, current: real): real {
    match a
    case NoAction => current
    case Pressed => PressedPosY
    case Released => NormalPosY
  }

  /**
   One callback. Enter adds one to the counter and, if the counter is now 1,
   runs the first-object-enter handler; Exit subtracts one and, if the counter
   is now 0, runs the last-object-exit handler. There is no lower bound.
   */
  function Step(s: State, c: Contact): (r: Reaction)
    ensures r.after.objectsColliding - s.objectsColliding == (if c == Enter then 1 else -1)
    ensures r.fired == Pressed <==> c == Enter && s.objectsColliding == 0
    ensures r.fired == Released <==> c == Exit && s.objectsColliding == 1
    ensures r.fired == NoAction ==> r.after.capY == s.capY
    ensures r.fired == Pressed ==> r.after.capY == PressedPosY
    ensures r.fired == Released ==> r.after.capY == NormalPosY
  {
    match c
    case Enter =>
      var n := s.objectsColliding + 1;
      var a := if n == 1 then Pressed else NoAction;
      Reaction(State(n, CapFor(a, s.capY)), a)
    case Exit =>
      var n := s.objectsColliding - 1;
      var a := if n == 0 then Released else NoAction;
      Reaction(State(n, CapFor(a, s.capY)), a)
  }

  /** The state after the callbacks of trace t, in order, starting from s. */
  function Run(s: State, t: seq<Contact>): State
    decreases |t|
  {
    if t == [] then s else Step(Run(s, t[..|t| - 1]), t[|t| - 1]).after
  }

  /** The action as a list of invoked actions: empty when nothing fired. */
  function Emitted(a: Action): seq<Action> {
    if a == NoAction then [] else [a]
  }

  /** Everything the callbacks of trace t invoke, in order, starting from s. */
  function Fired(s: State, t: seq<Contact>): seq<Action>
    decreases |t|
  {
    if t == [] then []
    else Fired(s, t[..|t| - 1]) + Emitted(Step(Run(s, t[..|t| - 1]), t[|t| - 1]).fired)
  }

  /** How many callbacks of kind c trace t holds. */
  function Occurrences(t: seq<Contact>, c: Contact): nat
    decreases |t|
  {
    if t == [] then 0
    else Occurrences(t[..|t| - 1], c) + (if t[|t| - 1] == c then 1 else 0)
  }

  /** No prefix of t has more exits than enters. */
  ghost predicate NeverBelowZero(t: seq<Contact>) {
    forall k :: 0 <= k <= |t| ==> Occurrences(t[..k], Exit) <= Occurrences(t[..k], Enter)
  }

  /** Actions alternate Pressed, Released, Pressed, ... from the first on. */
  ghost predicate Alternating(e: seq<Action>) {
    forall i :: 0 <= i < |e| ==> e[i] == (if i % 2 == 0 then Pressed else Released)
  }

  /** After any trace the counter has moved by the enters minus the exits. */
  lemma {:induction false} CountIsEntersMinusExits(s: State, t: seq<Contact>)
    ensures Run(s, t).objectsColliding
            == s.objectsColliding + Occurrences(t, Enter) - Occurrences(t, Exit)
    decreases |t|
  {
    if t != [] {
      CountIsEntersMinusExits(s, t[..|t| - 1]);
    }
  }

  /**
   From a zero counter, the invoked actions alternate Pressed, Released, ...
   starting with Pressed, and an odd number of them has fired exactly when
   the counter is positive. This holds on every trace, including those that
   drive the counter negative: the actions fire only when the counter crosses
   between 0 and 1, and it moves by one at a time.
   */
  lemma {:induction false} FiredAlternates(s: State, t: seq<Contact>)
    requires s.objectsColliding == 0
    ensures Alternating(Fired(s, t))
    ensures |Fired(s, t)| % 2 == 1 <==> Run(s, t).objectsColliding > 0
    decreases |t|
  {
    if t != [] {
      var p := t[..|t| - 1];
      FiredAlternates(s, p);
      var e := Fired(s, p);
      var a := Step(Run(s, p), t[|t| - 1]).fired;
      assert Fired(s, t) == e + Emitted(a);
      if a != NoAction {
        assert a == (if |e| % 2 == 0 then Pressed else Released);
      }
    }
  }

  /**
   Once at least one action has fired, the cap is at the pressed height
   exactly when the counter is positive, and at the normal height otherwise.
   */
  lemma {:induction false} CapTracksCount(s: State, t: seq<Contact>)
    requires |Fired(s, t)| > 0
    ensures Run(s, t).capY == (if Run(s, t).objectsColliding > 0 then PressedPosY else NormalPosY)
    decreases |t|
  {
    var p := t[..|t| - 1];
    if |Fired(s, p)| > 0 {
      CapTracksCount(s, p);
    }
  }

  /** A trace that begins with an enter from a zero counter fires something. */
  lemma {:induction false} FirstEnterFires(s: State, t: seq<Contact>)
    requires s.objectsColliding == 0
    requires |t| > 0 && t[0] == Enter
    ensures |Fired(s, t)| > 0
    decreases |t|
  {
    var p := t[..|t| - 1];
    if |t| == 1 {
      assert p == [];
    } else {
      assert p[0] == Enter;
      FirstEnterFires(s, p);
    }
  }

  /**
   On a non-empty trace whose exits never outnumber its enters, a button that
   starts at rest ends with its cap pressed exactly when something rests on
   it, and has fired alternating actions beginning with Pressed.
   */
  lemma BalancedTrace(y: real, t: seq<Contact>)
    requires |t| > 0 && NeverBelowZero(t)
    ensures Run(Initial(y), t).objectsColliding >= 0
    ensures Run(Initial(y), t).capY == PressedPosY <==> Run(Initial(y), t).objectsColliding > 0
    ensures Run(Initial(y), t).capY == NormalPosY <==> Run(Initial(y), t).objectsColliding == 0
    ensures |Fired(Initial(y), t)| > 0 && Alternating(Fired(Initial(y), t))
  {
    var s := Initial(y);
    var one := t[..1];
    assert one[..|one| - 1] == [] && one[|one| - 1] == t[0];
    assert Occurrences(one, Enter) == (if t[0] == Enter then 1 else 0);
    assert Occurrences(one, Exit) <= Occurrences(one, Enter);
    FirstEnterFires(s, t);
    CapTracksCount(s, t);
    FiredAlternates(s, t);
    CountIsEntersMinusExits(s, t);
    assert t[..|t|] == t;
  }

  /**
   Nothing stops the counter going negative: an exit on an idle button takes
   it to -1 without firing, and the following enter brings it back to 0,
   again without firing.
   */
  lemma NoLowerBound(s: State)
    requires s.objectsColliding == 0
    ensures Step(s, Exit) == Reaction(State(-1, s.capY), NoAction)
    ensures Step(Step(s, Exit).after, Enter) == Reaction(State(0, s.capY), NoAction)
  {
  }

  /** The button object; its two callbacks update the counter and the cap. */
  class Button {
    var objectsColliding: int
    /** Local y coordinate of the cap (the first child's position). */
    var capY: real

    /** Cap height when the scene was loaded. */
    ghost var startY: real
    /** Every trigger callback received so far. */
    ghost var history: seq<Contact>
    /** Every action invoked so far. */
    ghost var actions: seq<Action>

    function Observed(): State
      reads this
    {
      State(objectsColliding, capY)
    }

    /** The fields are those reached by replaying the callbacks received. */
    ghost predicate Valid()
      reads this
    {
      Observed() == Run(Initial(startY), history) && actions == Fired(Initial(startY), history)
    }

    /** The field initialiser (no object on the button) and Awake. */
    constructor (y: real)
      ensures Valid()
      ensures objectsColliding == 0 && capY == y
      ensures startY == y && history == [] && actions == []
    {
      objectsColliding := 0;
      capY := y;
      startY := y;
      history := [];
      actions := [];
    }

    method OnTriggerEnter() returns (fired: Action)
      requires Valid()
      modifies this
      ensures Valid()
      ensures objectsColliding == old(objectsColliding) + 1
      ensures fired == (if objectsColliding == 1 then Pressed else NoAction)
      ensures capY == (if objectsColliding == 1 then PressedPosY else old(capY))
      ensures startY == old(startY) && history == old(history) + [Enter]
      ensures actions == old(actions) + Emitted(fired)
    {
      ghost var before := Observed();
      objectsColliding := objectsColliding + 1;
      fired := NoAction;
      if objectsColliding == 1 {
        fired := OnFirstObjectEnter();
      }
      history := history + [Enter];
      actions := actions + Emitted(fired);
      assert history[..|history| - 1] == old(history);
      assert Step(before, Enter) == Reaction(Observed(), fired);
    }

    method OnTriggerExit() returns (fired: Action)
      requires Valid()
      modifies this
      ensures Valid()
      ensures objectsColliding == old(objectsColliding) - 1
      ensures fired == (if objectsColliding == 0 then Released else NoAction)
      ensures capY == (if objectsColliding == 0 then NormalPosY else old(capY))
      ensures startY == old(startY) && history == old(history) + [Exit]
      ensures actions == old(actions) + Emitted(fired)
    {
      ghost var before := Observed();
      objectsColliding := objectsColliding - 1;
      fired := NoAction;
      if objectsColliding == 0 {
        fired := OnLastObjectExit();
      }
      history := history + [Exit];
      actions := actions + Emitted(fired);
      assert history[..|history| - 1] == old(history);
      assert Step(before, Exit) == Reaction(Observed(), fired);
    }

    /** Invokes the pressed action and lowers the cap. */
    method OnFirstObjectEnter() returns (fired: Action)
      modifies this`capY
      ensures fired == Pressed && capY == PressedPosY
    {
      fired := Pressed;
      capY := PressedPosY;
    }

    /** Invokes the exit action and raises the cap; stopping coroutines is a no-op here. */
    method OnLastObjectExit() returns (fired: Action)
      modifies this`capY
      ensures fired == Released && capY == NormalPosY
    {
      fired := Released;
      capY := NormalPosY;
    }
  }
}
