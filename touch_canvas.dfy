/** The canvas object of touch.js: the gesture fields `main` attaches to it
    and the five event handlers that update them in place. Each handler is
    proved to do what the matching transition function of TouchGesture
    says, so every property proved there holds of the object. */
module TouchCanvas {
  import opened Wrappers
  import opened TouchGesture

  class Canvas {
    // Set by the page layout; the handlers only read them.
    var offsetLeft: int
    var offsetTop: int

    var menuactive: bool
    var menutouchid: Option<int>
    var coords: Option<Point>
    var movecoords: Option<Point>

    /** The gesture fields as a value. */
    function Snapshot(): Fields
      reads this
    {
      Fields(menuactive, menutouchid, coords, movecoords)
    }

    /** The offset `translateCoords` subtracts. */
    function Position(): Offset
      reads this
    {
      Offset(offsetLeft, offsetTop)
    }

    predicate Valid()
      reads this
    {
      TouchGesture.Valid(Snapshot())
    }

    /** What `main` sets up before registering the handlers. */
    constructor (left: int, top: int)
      ensures Valid() && Snapshot() == Initial && Phase(Snapshot()) == Idle
      ensures offsetLeft == left && offsetTop == top
    {
      offsetLeft, offsetTop := left, top;
      menuactive := false;
      menutouchid := None;
      coords, movecoords := None, None;
    }

    method OnTouchStart(changed: seq<TouchRecord>) returns (prevented: bool, effects: seq<Effect>)
      requires Valid()
      modifies this`menuactive, this`menutouchid, this`coords, this`movecoords
      ensures Valid()
      ensures Outcome(Snapshot(), prevented, effects)
           == StepTouchStart(old(Snapshot()), changed, Position())
    {
      prevented, effects := false, [];
      if !menuactive {
        if |changed| == 1 {
          prevented := true;
          menuactive := true;
          var t := changed[0];
          menutouchid := Some(t.identifier);
          effects := effects + [SetStatus(Description)];
          coords := Some(TranslateCoords(Position(), t.pageX, t.pageY));
          effects := effects + [Circle(coords.value)];
        }
      }
    }

    method OnMouseDown(pageX: int, pageY: int) returns (prevented: bool, effects: seq<Effect>)
      requires Valid()
      modifies this`menuactive, this`menutouchid, this`coords
      ensures Valid()
      ensures Outcome(Snapshot(), prevented, effects)
           == StepMouseDown(old(Snapshot()), pageX, pageY, Position())
    {
      prevented, effects := false, [];
      if !menuactive {
        prevented := true;
        menuactive := true;
        effects := effects + [SetStatus(Description)];
        coords := Some(TranslateCoords(Position(), pageX, pageY));
        effects := effects + [Circle(coords.value)];
        menutouchid := None;
      } else {
        effects := effects + [SetStatus(MousedownWhileActive)];
      }
    }

    method OnTouchMove(changed: seq<TouchRecord>) returns (prevented: bool, effects: seq<Effect>)
      requires Valid()
      modifies this`movecoords
      ensures Valid()
      ensures Outcome(Snapshot(), prevented, effects)
           == StepTouchMove(old(Snapshot()), changed, Position())
    {
      prevented, effects := false, [];
      if menuactive && menutouchid.Some? {
        var i := 0;
        while i < |changed|
          invariant 0 <= i <= |changed|
          invariant forall j :: 0 <= j < i ==> changed[j].identifier != menutouchid.value
          invariant !prevented && Snapshot() == old(Snapshot())
        {
          var t := changed[i];
          if menutouchid.value == t.identifier {
            prevented := true;
            movecoords := Some(TranslateCoords(Position(), t.pageX, t.pageY));
            assert FirstMatch(changed, menutouchid.value) == Some(i);
            break;
          }
          i := i + 1;
        }
      }
    }

    method OnTouchEnd(changed: seq<TouchRecord>) returns (prevented: bool, effects: seq<Effect>)
      requires Valid()
      modifies this`menuactive, this`menutouchid, this`coords, this`movecoords
      ensures Valid()
      ensures Outcome(Snapshot(), prevented, effects) == StepTouchEnd(old(Snapshot()), changed)
    {
      prevented, effects := false, [];
      if menuactive && menutouchid.Some? {
        var i := 0;
        while i < |changed|
          invariant 0 <= i <= |changed|
          invariant forall j :: 0 <= j < i ==> changed[j].identifier != menutouchid.value
          invariant !prevented && Snapshot() == old(Snapshot())
        {
          var t := changed[i];
          if menutouchid.value == t.identifier {
            prevented := true;
            menuactive := false;
            menutouchid := None;
            coords := None;
            movecoords := None;
            effects := effects + [Clear];
            break;
          }
          i := i + 1;
        }
      }
    }

    method OnTouchCancel(changed: seq<TouchRecord>) returns (prevented: bool, effects: seq<Effect>)
      requires Valid()
      modifies this`menuactive, this`menutouchid, this`coords, this`movecoords
      ensures Valid()
      ensures Outcome(Snapshot(), prevented, effects) == StepTouchCancel(old(Snapshot()), changed)
    {
      prevented, effects := false, [];
      var t: Option<TouchRecord> := None;
      if menuactive && menutouchid.Some? {
        // The source's loop takes the first record, whatever its identifier.
        for i := 0 to |changed|
          invariant t.None?
        {
          t := Some(changed[i]);
          break;
        }
      }
      menuactive := false;
      menutouchid := None;
      coords := None;
      movecoords := None;
      effects := effects + [Clear];
      if t.Some? {
        effects := effects + [SetStatus(CancelWithTouch(|changed|))];
      } else {
        effects := effects + [SetStatus(CancelWithoutTouch(|changed|))];
      }
    }

    method OnMouseUp(pageX: int, pageY: int) returns (prevented: bool, effects: seq<Effect>)
      requires Valid()
      modifies this`menuactive, this`menutouchid, this`coords, this`movecoords
      ensures Valid()
      ensures Outcome(Snapshot(), prevented, effects) == StepMouseUp(old(Snapshot()))
    {
      prevented, effects := false, [];
      if menuactive {
        if menutouchid.Some? {
          effects := effects + [Alert(MouseupWhileTouchPending)];
        }
        prevented := true;
        menuactive := false;
        menutouchid := None;
        coords := None;
        movecoords := None;
        effects := effects + [Clear];
      }
    }

    /** Dispatches one event to its handler. */
    method Handle(ev: Event) returns (prevented: bool, effects: seq<Effect>)
      requires Valid()
      modifies this`menuactive, this`menutouchid, this`coords, this`movecoords
      ensures Valid()
      ensures Outcome(Snapshot(), prevented, effects) == Step(old(Snapshot()), ev, Position())
    {
      match ev
      case TouchStart(c) => prevented, effects := OnTouchStart(c);
      case MouseDown(x, y) => prevented, effects := OnMouseDown(x, y);
      case TouchMove(c) => prevented, effects := OnTouchMove(c);
      case TouchEnd(c) => prevented, effects := OnTouchEnd(c);
      case TouchCancel(c) => prevented, effects := OnTouchCancel(c);
      case MouseUp(x, y) => prevented, effects := OnMouseUp(x, y);
    }

    /** Dispatches a sequence of events; the object ends where Run says. */
    method HandleAll(evs: seq<Event>) returns (effects: seq<Effect>)
      requires Valid()
      modifies this`menuactive, this`menutouchid, this`coords, this`movecoords
      ensures Valid()
      ensures Trace(Snapshot(), effects) == Run(old(Snapshot()), evs, Position())
    {
      effects := [];
      ghost var start := Snapshot();
      var off := Position();
      var k := 0;
      while k < |evs|
        invariant 0 <= k <= |evs| && Valid() && Position() == off
        invariant Run(start, evs, off).final == Run(Snapshot(), evs[k..], off).final
        invariant Run(start, evs, off).effects == effects + Run(Snapshot(), evs[k..], off).effects
      {
        ghost var before := Snapshot();
        ghost var rest := evs[k..];
        var _, more := Handle(evs[k]);
        RunUnfold(before, rest, off);
        assert rest[1..] == evs[k + 1..];
        ghost var tail := Run(Snapshot(), evs[k + 1..], off).effects;
        assert effects + (more + tail) == (effects + more) + tail;
        effects := effects + more;
        k := k + 1;
      }
    }
  }

  lemma RunUnfold(s: Fields, evs: seq<Event>, off: Offset)
    requires evs != []
    ensures Run(s, evs, off).final == Run(Step(s, evs[0], off).fields, evs[1..], off).final
    ensures Run(s, evs, off).effects
         == Step(s, evs[0], off).effects + Run(Step(s, evs[0], off).fields, evs[1..], off).effects
  {
  }
}
