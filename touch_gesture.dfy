/** The gesture logic of touch.js as values: the four gesture fields of the
    canvas, one transition function per event handler, and what holds over
    any sequence of events. The class in touch_canvas.dfy runs the same
    handlers in place and is proved equal to these functions. */
module TouchGesture {
  import opened Wrappers

  /** A point in canvas coordinates. */
  datatype Point = Point(x: int, y: int)

  /** The canvas's position on the page (`offsetLeft`, `offsetTop`). */
  datatype Offset = Offset(left: int, top: int)

  /** One entry of a touch event's `changedTouches` list. */
  datatype TouchRecord = TouchRecord(identifier: int, pageX: int, pageY: int)

  /** translateCoords: page coordinates to canvas coordinates. Adding the
      offset back gives the page coordinates again. */
  function TranslateCoords(off: Offset, pageX: int, pageY: int): (p: Point)
    ensures p.x + off.left == pageX && p.y + off.top == pageY
  {
    Point(pageX - off.left, pageY - off.top)
  }

  function TranslateTouch(off: Offset, t: TouchRecord): Point
  {
    TranslateCoords(off, t.pageX, t.pageY)
  }

  // ---------------------------------------------------------------------
  // State

  /** The gesture fields the handlers keep on the canvas object. A field
      that is `undefined` or `false` in the source is None here: the source
      only ever tests them for being set. */
  datatype Fields = Fields(
    menuactive: bool,
    menutouchid: Option<int>,
    coords: Option<Point>,
    movecoords: Option<Point>)

  /** The fields as `main` leaves them, and as every reset leaves them. */
  const Initial := Fields(false, None, None, None)

  /** The three gestures the fields encode. */
  datatype Gesture = Idle | TouchActive(id: int) | MouseActive

  function Phase(f: Fields): Gesture
  {
    if !f.menuactive then Idle
    else if f.menutouchid.Some? then TouchActive(f.menutouchid.value)
    else MouseActive
  }

  /** What every handler keeps: an idle canvas tracks nothing, an active
      one has its start point, and a tracked point exists only during a
      touch gesture. */
  predicate Valid(f: Fields)
  {
    if f.menuactive then
      f.coords.Some? && (f.movecoords.Some? ==> f.menutouchid.Some?)
    else
      f == Initial
  }

  // ---------------------------------------------------------------------
  // Effects

  /** Which message a handler writes to the status paragraph. */
  datatype Status =
    | Description                      // "Touch events demo (mouse works too)"
    | MousedownWhileActive
    | CancelWithTouch(length: nat)     // "... changedTouches.length is N"
    | CancelWithoutTouch(length: nat)  // "... does not contain our touch"

  datatype AlertKind = MouseupWhileTouchPending

  /** Calls a handler makes on the canvas and the page, in order. */
  datatype Effect =
    | Circle(center: Point)
    | Clear
    | SetStatus(status: Status)
    | Alert(alert: AlertKind)

  /** The result of one handler: the new fields, whether it called
      `preventDefault`, and the effects it caused. */
  datatype Outcome = Outcome(fields: Fields, prevented: bool, effects: seq<Effect>)

  function Ignored(f: Fields): Outcome
  {
    Outcome(f, false, [])
  }

  // ---------------------------------------------------------------------
  // Searching changedTouches

  /** The index at which the handlers' `for` loop over `changedTouches`
      stops: the first record whose identifier is `id`. */
  function FirstMatch(changed: seq<TouchRecord>, id: int): (r: Option<nat>)
    ensures r.Some? ==> r.value < |changed| && changed[r.value].identifier == id
    ensures r.Some? ==> forall j :: 0 <= j < r.value ==> changed[j].identifier != id
    ensures r.None? <==> forall j :: 0 <= j < |changed| ==> changed[j].identifier != id
  {
    if changed == [] then None
    else if changed[0].identifier == id then Some(0)
    else
      match FirstMatch(changed[1..], id)
      case None => None
      case Some(k) => Some(k + 1)
  }

  /** The event names a record of the active touch gesture. */
  predicate HasOwnTouch(f: Fields, changed: seq<TouchRecord>)
  {
    Phase(f).TouchActive? &&
    exists i :: 0 <= i < |changed| && changed[i].identifier == Phase(f).id
  }

  // ---------------------------------------------------------------------
  // The handlers

  /** touchstart: only an idle canvas with exactly one changed touch starts
      a touch gesture; anything else, a second touchstart included, is
      ignored. */
  function StepTouchStart(s: Fields, changed: seq<TouchRecord>, off: Offset): (r: Outcome)
    ensures Phase(s) == Idle && |changed| == 1 ==>
      var p := TranslateTouch(off, changed[0]);
      && Phase(r.fields) == TouchActive(changed[0].identifier)
      && r.fields.coords == Some(p) && r.fields.movecoords == s.movecoords
      && r.prevented && r.effects == [SetStatus(Description), Circle(p)]
    ensures Phase(s) != Idle || |changed| != 1 ==> r == Ignored(s)
  {
    if !s.menuactive && |changed| == 1 then
      var t := changed[0];
      var p := TranslateTouch(off, t);
      Outcome(s.(menuactive := true, menutouchid := Some(t.identifier), coords := Some(p)),
              true, [SetStatus(Description), Circle(p)])
    else
      Ignored(s)
  }

  /** mousedown: an idle canvas starts a mouse gesture; on an active one
      only the status message changes. */
  function StepMouseDown(s: Fields, pageX: int, pageY: int, off: Offset): (r: Outcome)
    ensures Phase(s) == Idle ==>
      var p := TranslateCoords(off, pageX, pageY);
      && Phase(r.fields) == MouseActive
      && r.fields.coords == Some(p) && r.fields.movecoords == s.movecoords
      && r.prevented && r.effects == [SetStatus(Description), Circle(p)]
    ensures Phase(s) != Idle ==> r == Outcome(s, false, [SetStatus(MousedownWhileActive)])
  {
    if !s.menuactive then
      var p := TranslateCoords(off, pageX, pageY);
      Outcome(s.(menuactive := true, coords := Some(p), menutouchid := None),
              true, [SetStatus(Description), Circle(p)])
    else
      Outcome(s, false, [SetStatus(MousedownWhileActive)])
  }

  /** touchmove: during a touch gesture, the first record of the active
      touch becomes the tracked point; nothing else changes. */
  function StepTouchMove(s: Fields, changed: seq<TouchRecord>, off: Offset): (r: Outcome)
    ensures r.prevented <==> HasOwnTouch(s, changed)
    ensures r.prevented ==>
      && r.fields == s.(movecoords := r.fields.movecoords) && r.effects == []
      && exists i :: 0 <= i < |changed| && changed[i].identifier == Phase(s).id
           && (forall j :: 0 <= j < i ==> changed[j].identifier != Phase(s).id)
           && r.fields.movecoords == Some(TranslateTouch(off, changed[i]))
    ensures !r.prevented ==> r == Ignored(s)
  {
    if s.menuactive && s.menutouchid.Some? then
      match FirstMatch(changed, s.menutouchid.value)
      case Some(i) => Outcome(s.(movecoords := Some(TranslateTouch(off, changed[i]))), true, [])
      case None => Ignored(s)
    else
      Ignored(s)
  }

  /** touchend: a record of the active touch ends the gesture and clears
      the canvas; any other touchend is ignored. */
  function StepTouchEnd(s: Fields, changed: seq<TouchRecord>): (r: Outcome)
    ensures r.prevented <==> HasOwnTouch(s, changed)
    ensures r.prevented ==> r.fields == Initial && r.effects == [Clear]
    ensures !r.prevented ==> r == Ignored(s)
  {
    if s.menuactive && s.menutouchid.Some? then
      match FirstMatch(changed, s.menutouchid.value)
      case Some(_) => Outcome(Initial, true, [Clear])
      case None => Ignored(s)
    else
      Ignored(s)
  }

  /** touchcancel: always resets and clears, without looking at
      identifiers and without `preventDefault`. The message says "length
      is N" exactly when a touch gesture was active and the list was not
      empty. */
  function StepTouchCancel(s: Fields, changed: seq<TouchRecord>): (r: Outcome)
    ensures r.fields == Initial && !r.prevented
    ensures |r.effects| == 2 && r.effects[0] == Clear && r.effects[1].SetStatus?
    ensures r.effects[1].status.CancelWithTouch? || r.effects[1].status.CancelWithoutTouch?
    ensures r.effects[1].status.CancelWithTouch? <==> Phase(s).TouchActive? && changed != []
    ensures r.effects[1].status.length == |changed|
  {
    var sawTouch := s.menuactive && s.menutouchid.Some? && |changed| > 0;
    var status := if sawTouch then CancelWithTouch(|changed|) else CancelWithoutTouch(|changed|);
    Outcome(Initial, false, [Clear, SetStatus(status)])
  }

  /** mouseup: ends whatever gesture is active, a touch gesture too (with
      an alert); on an idle canvas it does nothing. */
  function StepMouseUp(s: Fields): (r: Outcome)
    ensures Phase(s) == Idle ==> r == Ignored(s)
    ensures Phase(s) != Idle ==> r.fields == Initial && r.prevented
    ensures Phase(s).TouchActive? ==> r.effects == [Alert(MouseupWhileTouchPending), Clear]
    ensures Phase(s) == MouseActive ==> r.effects == [Clear]
  {
    if s.menuactive then
      var alert := if s.menutouchid.Some? then [Alert(MouseupWhileTouchPending)] else [];
      Outcome(Initial, true, alert + [Clear])
    else
      Ignored(s)
  }

  // ---------------------------------------------------------------------
  // Event sequences

  /** One dispatched event with its payload. (mouseup's coordinates are
      translated by the source and then never used.) */
  datatype Event =
    | TouchStart(changed: seq<TouchRecord>)
    | MouseDown(pageX: int, pageY: int)
    | TouchMove(changed: seq<TouchRecord>)
    | TouchEnd(changed: seq<TouchRecord>)
    | TouchCancel(changed: seq<TouchRecord>)
    | MouseUp(pageX: int, pageY: int)

  function Step(s: Fields, ev: Event, off: Offset): Outcome
  {
    match ev
    case TouchStart(c) => StepTouchStart(s, c, off)
    case MouseDown(x, y) => StepMouseDown(s, x, y, off)
    case TouchMove(c) => StepTouchMove(s, c, off)
    case TouchEnd(c) => StepTouchEnd(s, c)
    case TouchCancel(c) => StepTouchCancel(s, c)
    case MouseUp(_, _) => StepMouseUp(s)
  }

  /** The fields after a sequence of events and every effect on the way. */
  datatype Trace = Trace(final: Fields, effects: seq<Effect>)

  function Run(s: Fields, evs: seq<Event>, off: Offset): Trace
    decreases |evs|
  {
    if evs == [] then Trace(s, [])
    else
      var o := Step(s, evs[0], off);
      var rest := Run(o.fields, evs[1..], off);
      Trace(rest.final, o.effects + rest.effects)
  }

  // ---------------------------------------------------------------------
  // Properties

  /** Every handler keeps the invariant. */
  lemma StepKeepsValid(s: Fields, ev: Event, off: Offset)
    requires Valid(s)
    ensures Valid(Step(s, ev, off).fields)
  {
  }

  /** So does every sequence of events: touch and mouse gestures never
      overlap, and Idle never keeps a point. */
  lemma {:induction false} RunKeepsValid(s: Fields, evs: seq<Event>, off: Offset)
    requires Valid(s)
    ensures Valid(Run(s, evs, off).final)
    decreases |evs|
  {
    if evs != [] {
      StepKeepsValid(s, evs[0], off);
      RunKeepsValid(Step(s, evs[0], off).fields, evs[1..], off);
    }
  }

  /** The handler acts on the event; an independent statement of each
      handler's guard. */
  predicate Acts(s: Fields, ev: Event)
  {
    match ev
    case TouchStart(c) => Phase(s) == Idle && |c| == 1
    case MouseDown(_, _) => Phase(s) == Idle
    case TouchMove(c) => HasOwnTouch(s, c)
    case TouchEnd(c) => HasOwnTouch(s, c)
    case TouchCancel(_) => false
    case MouseUp(_, _) => Phase(s) != Idle
  }

  /** `preventDefault` is called exactly when the handler acts. */
  lemma PreventDefaultIffActs(s: Fields, ev: Event, off: Offset)
    ensures Step(s, ev, off).prevented <==> Acts(s, ev)
  {
  }

  /** An event the handler does not act on (touchcancel aside, which
      always resets) leaves the fields alone and draws nothing; at most
      the status message changes. */
  lemma IgnoredEventIsInert(s: Fields, ev: Event, off: Offset)
    requires !ev.TouchCancel? && !Acts(s, ev)
    ensures Step(s, ev, off).fields == s
    ensures forall k :: 0 <= k < |Step(s, ev, off).effects| ==> Step(s, ev, off).effects[k].SetStatus?
    ensures !ev.MouseDown? ==> Step(s, ev, off) == Ignored(s)
  {
  }

  /** A circle is drawn only when a gesture starts, at its start point. */
  lemma CircleOnlyOnStart(s: Fields, ev: Event, off: Offset, p: Point)
    requires Valid(s)
    ensures Circle(p) in Step(s, ev, off).effects ==>
      && Phase(s) == Idle && Phase(Step(s, ev, off).fields) != Idle
      && Step(s, ev, off).fields.coords == Some(p)
  {
  }

  /** The canvas is cleared exactly when a gesture ends, and on every
      touchcancel. */
  lemma ClearIffGestureEnds(s: Fields, ev: Event, off: Offset)
    requires Valid(s)
    ensures Clear in Step(s, ev, off).effects <==>
      ev.TouchCancel? || (Phase(s) != Idle && Phase(Step(s, ev, off).fields) == Idle)
  {
  }

  /** The start point changes only when a gesture starts or ends. */
  lemma StartPointFixedWhileActive(s: Fields, ev: Event, off: Offset)
    requires Valid(s)
    ensures Phase(s) != Idle && Phase(Step(s, ev, off).fields) != Idle ==>
      Step(s, ev, off).fields.coords == s.coords
  {
  }

  /** A new tracked point comes only from a touchmove record of the touch
      that owns the gesture. */
  lemma TrackedPointOnlyFromOwner(s: Fields, ev: Event, off: Offset)
    requires Valid(s)
    ensures var f := Step(s, ev, off).fields;
      f.movecoords.Some? && f.movecoords != s.movecoords ==>
        && ev.TouchMove? && Phase(s).TouchActive? && Phase(f) == Phase(s)
        && exists i :: 0 <= i < |ev.changed| && ev.changed[i].identifier == Phase(s).id
             && f.movecoords == Some(TranslateTouch(off, ev.changed[i]))
  {
  }

  /** An event that leaves an active touch gesture in place. */
  predicate KeepsTouch(ev: Event, id: int)
  {
    match ev
    case TouchStart(_) => true
    case MouseDown(_, _) => true
    case TouchMove(_) => true
    case TouchEnd(c) => forall i :: 0 <= i < |c| ==> c[i].identifier != id
    case TouchCancel(_) => false
    case MouseUp(_, _) => false
  }

  /** Without a matching touchend, a touchcancel or a mouseup the touch
      gesture never ends: other touchstarts and mousedowns are refused, so
      a lost touchend blocks the canvas. */
  lemma {:induction false} MissedTouchEndBlocks(s: Fields, evs: seq<Event>, off: Offset)
    requires Valid(s) && Phase(s).TouchActive?
    requires forall k :: 0 <= k < |evs| ==> KeepsTouch(evs[k], Phase(s).id)
    ensures Phase(Run(s, evs, off).final) == Phase(s)
    ensures Run(s, evs, off).final.coords == s.coords
    decreases |evs|
  {
    if evs != [] {
      var f := Step(s, evs[0], off).fields;
      assert KeepsTouch(evs[0], Phase(s).id);
      assert Phase(f) == Phase(s) && f.coords == s.coords && Valid(f);
      MissedTouchEndBlocks(f, evs[1..], off);
    }
  }

  /** A tap with a move: circle at the start, then a clear, and back to
      Idle. The tracked point is dropped: no line and no second circle. */
  lemma TapWithMove(t0: TouchRecord, t1: TouchRecord, t2: TouchRecord, off: Offset)
    requires t1.identifier == t0.identifier && t2.identifier == t0.identifier
    ensures Run(Initial, [TouchStart([t0]), TouchMove([t1]), TouchEnd([t2])], off)
         == Trace(Initial, [SetStatus(Description), Circle(TranslateTouch(off, t0)), Clear])
  {
    var evs := [TouchStart([t0]), TouchMove([t1]), TouchEnd([t2])];
    var f1 := Step(Initial, evs[0], off).fields;
    var f2 := Step(f1, evs[1], off).fields;
    assert Step(f2, evs[2], off) == Outcome(Initial, true, [Clear]);
    assert Run(f2, evs[2..], off) == Trace(Initial, [Clear]) by {
      assert evs[2..][1..] == [];
    }
    assert evs[1..][1..] == evs[2..];
    assert Run(f1, evs[1..], off) == Trace(Initial, [Clear]);
  }

  /** Two mousedowns without a mouseup: the second only reports the
      anomaly; the gesture keeps its first start point. */
  lemma MouseDownTwice(x0: int, y0: int, x1: int, y1: int, off: Offset)
    ensures var p := TranslateCoords(off, x0, y0);
      Run(Initial, [MouseDown(x0, y0), MouseDown(x1, y1)], off)
        == Trace(Fields(true, None, Some(p), None),
                 [SetStatus(Description), Circle(p), SetStatus(MousedownWhileActive)])
  {
    var evs := [MouseDown(x0, y0), MouseDown(x1, y1)];
    var f1 := Step(Initial, evs[0], off).fields;
    assert evs[1..][1..] == [];
    assert Run(f1, evs[1..], off) == Trace(f1, [SetStatus(MousedownWhileActive)]);
  }
}
