# Touch gestures and the interval quiz, in Dafny

This project models two small browser scripts of the sightreading repository.

**touch.js** tracks one drag gesture on a canvas. The gesture can be started by a touch or by the mouse. Five handlers keep four fields on the canvas object:
- `menuactive`, whether a gesture is in progress;
- `menutouchid`, the identifier of the touch that started it (null for a mouse gesture);
- `coords`, the start point;
- `movecoords`, the last tracked touch point.

Between them these fields encode three gestures: Idle, TouchActive(id) and MouseActive.

The model has two layers:
- `TouchGesture` (touch_gesture.dfy) holds the fields as a value, one transition function per handler, `Step`/`Run` over event sequences, and the lemmas.
- `TouchCanvas.Canvas` (touch_canvas.dfy) is a class with the same fields. Its handler methods update them in place with the source's `for`/`break` scans over `changedTouches`. Each method is proved equal to its transition function, so the lemmas hold of the object as well.

A handler's visible output is:
- whether it called `preventDefault`;
- a list of effects: `Circle(p)`, `Clear`, `SetStatus(tag)` (a write to the message paragraph) and `Alert(tag)`.

**sightreading.js** is an interval quiz. `dyad` draws two notes, retrying until the pair differs from the previous one. `ask` shows the two notes in random order. `check` compares the number the player pressed with the interval. Digit keys and a 3×3 on-screen keypad supply that number. All of this is modelled in module `SightReading` (sightreading.dfy). `rand` becomes an oracle: a list of `Attempt(interval0, lo)` values, one per pass of the do-while. Each value lies in the range `rand` was asked for. The coin flip in `ask` is a boolean parameter.

## Behaviour worth noting

touch.js behaves as follows, and the model does the same:
- Neither touchend nor mouseup draws a line or an end circle. Both only clear the canvas (`drawLine` is never called). See `TapWithMove`.
- A mousedown during a gesture does not restart it. Only the status message changes, and the start point is kept. See `MouseDownTwice`.
- A touchstart during a gesture is ignored silently, with no error report.
- touchcancel never compares identifiers. It resets from any state and never calls `preventDefault`.
- mouseup ends a touch gesture too, with an alert.
- touchstart looks at `changedTouches`, not at `touches`.

## Model

| member | source | states |
|---|---|---|
| TouchGesture.TranslateCoords | touch.js:5-10 | the canvas point plus the canvas offset gives back the page point |
| TouchGesture.FirstMatch | touch.js:142-151 | the scan stops at the first record with the active identifier; None exactly when no record has it |
| TouchGesture.StepTouchStart | touch.js:92-108 | from Idle with exactly one changed touch: TouchActive(its id), start point = translated touch, status then one circle there, preventDefault; otherwise nothing changes and no preventDefault |
| TouchGesture.StepMouseDown | touch.js:110-130 | from Idle: MouseActive, start point = translated mouse point, status then circle, preventDefault; while active: only the "mousedown while active" status, no preventDefault, fields untouched |
| TouchGesture.StepTouchMove | touch.js:137-154 | preventDefault iff in TouchActive and some changed record has the active id; then only movecoords changes, to the first such record's point; otherwise nothing changes |
| TouchGesture.StepTouchEnd | touch.js:156-179 | preventDefault iff in TouchActive with a record of the active id; then all fields reset and one Clear; otherwise nothing changes |
| TouchGesture.StepTouchCancel | touch.js:182-216 | always resets all fields, Clear then a status, no preventDefault; the "length is N" status exactly when a touch gesture was active and the list was non-empty, else "does not contain our touch"; both carry N |
| TouchGesture.StepMouseUp | touch.js:224-241 | while active: reset, preventDefault, Clear, preceded by the "mouseup while touch pending" alert when the gesture was a touch; in Idle nothing happens |
| TouchGesture.StepKeepsValid | touch.js:88-239 | every handler keeps the invariant: Idle holds no id and no points, an active gesture has its start point, a tracked point exists only in a touch gesture |
| TouchGesture.RunKeepsValid | touch.js:88-239 | the invariant holds after any sequence of events, so touch and mouse gestures never overlap |
| TouchGesture.PreventDefaultIffActs | touch.js:96-239 | preventDefault is called exactly when the handler's guard (stated independently) accepts the event |
| TouchGesture.IgnoredEventIsInert | touch.js:96-239 | an event a handler ignores (touchcancel aside) changes no field and draws nothing; at most the status changes |
| TouchGesture.CircleOnlyOnStart | touch.js:96-128 | a circle is drawn only when a gesture starts from Idle, at the recorded start point |
| TouchGesture.ClearIffGestureEnds | touch.js:160-239 | Clear is emitted exactly on touchcancel or when an active gesture returns to Idle |
| TouchGesture.StartPointFixedWhileActive | touch.js:110-130 | while a gesture stays active the start point never changes (a second mousedown does not restart it) |
| TouchGesture.TrackedPointOnlyFromOwner | touch.js:137-154 | a new tracked point comes only from a touchmove record carrying the active touch's id |
| TouchGesture.MissedTouchEndBlocks | touch.js:96-179 | with no matching touchend, no touchcancel and no mouseup, a touch gesture stays active with the same id and start point through any events |
| TouchGesture.TapWithMove | touch.js:92-179 | touchstart, touchmove and touchend of one id from Idle give exactly status, circle at the start, Clear, and end in Idle |
| TouchGesture.MouseDownTwice | touch.js:110-130 | two mousedowns give status, circle, "mousedown while active" status, and MouseActive with the first start point |
| TouchCanvas.Canvas.constructor | touch.js:88-89 | a new canvas is Idle with no id and no points |
| TouchCanvas.Canvas.OnTouchStart | touch.js:92-108 | updates the fields in place exactly as StepTouchStart and keeps the invariant |
| TouchCanvas.Canvas.OnMouseDown | touch.js:110-130 | updates the fields in place exactly as StepMouseDown and keeps the invariant |
| TouchCanvas.Canvas.OnTouchMove | touch.js:137-154 | its loop stops at the first record of the active touch; the result is StepTouchMove's |
| TouchCanvas.Canvas.OnTouchEnd | touch.js:156-179 | its loop stops at the first record of the active touch; the result is StepTouchEnd's |
| TouchCanvas.Canvas.OnTouchCancel | touch.js:182-216 | its loop takes the first record if a touch gesture is active; the result is StepTouchCancel's |
| TouchCanvas.Canvas.OnMouseUp | touch.js:224-241 | updates the fields in place exactly as StepMouseUp and keeps the invariant |
| SightReading.RetryCanSucceed | sightreading.js:123-139 | for every interval 0..7 the low note's range is non-empty and holds a note giving a dyad other than the previous one |
| SightReading.ChooseDyad | sightreading.js:134-140 | the do-while returns the first draw whose dyad differs from the previous one; every earlier draw repeated it; hi = lo + interval0 with 0 ≤ interval0 ≤ 7 and −5 ≤ lo ≤ hi ≤ 5 |
| SightReading.Model.constructor | sightreading.js:122-127 | a new model has no previous dyad |
| SightReading.Model.MakeDyad | sightreading.js:129-149 | returns a well-formed dyad other than the previous one and records it as the new previous dyad |
| SightReading.Order | sightreading.js:159-165 | the left and right notes are lo and hi in the order the coin chose, so {left, right} = {lo, hi} as multisets |
| SightReading.Model.Ask | sightreading.js:156-167 | draws a fresh dyad and displays its two notes in the chosen order |
| SightReading.CheckVerdict | sightreading.js:169-183 | CORRECT iff n = hi − lo + 1; otherwise INCORRECT with the expected and the pressed number |
| SightReading.Model.Check | sightreading.js:169-183 | shows the verdict for the current dyad; with no dyad yet it throws and shows nothing |
| SightReading.AnswerOnKeypad | sightreading.js:170-182 | for every dyad `dyad` can return the expected answer lies in 1..8 and some unmodified digit key gives it and is judged correct |
| SightReading.KeyToNumber | sightreading.js:224-233 | key codes 49–57 and 97–105 give 1–9 (the code minus 48 or 96); every other code, 48 and 96 included, gives nothing |
| SightReading.KeyAnswer | sightreading.js:235-238 | a number is answered iff the key gives a digit and none of shift, ctrl and alt is held |
| SightReading.Controller.OnKeyDown | sightreading.js:224-239 | an unmodified digit key checks the digit and then asks a new question with a fresh well-formed dyad; before the first dyad the check throws and nothing changes; any other key changes nothing |
| SightReading.Controller.Answer | sightreading.js:235-238 | check then ask; when check throws, ask is not reached |
| SightReading.Controller.OnButtonClick | sightreading.js:215-221 | a button click checks the button's number and then shows a new question with a fresh well-formed dyad; before the first dyad the check throws and nothing changes |
| SightReading.ButtonRows | sightreading.js:197-211 | three rows of three, row r column c holds 7 − 3r + c: [7,8,9], [4,5,6], [1,2,3] |
| SightReading.KeypadFlattened | sightreading.js:198-210 | read row by row the keypad is 7,8,9,4,5,6,1,2,3 |
| SightReading.KeypadHasEachDigitOnce | sightreading.js:198-210 | the keypad holds each of 1..9 exactly once and nothing else |
| SightReading.Controller.constructor | sightreading.js:185-213 | the controller's button table is the keypad ButtonRows builds |
| SightReading.View.constructor | sightreading.js:9-16 | a new view shows no verdict and no notes; `message` and `notes` then record what `View.prototype.message` (sightreading.js:118-120) and `display` were last given |
| TouchCanvas.Canvas.Handle | touch.js:92-241 | dispatching one event to the listener registered for it changes the fields exactly as Step says and keeps the invariant |
| TouchCanvas.Canvas.HandleAll | touch.js:92-241 | dispatching a sequence of events leaves the fields and the effects exactly as Run says and keeps the invariant |

## Left out

- Canvas drawing (`drawCircle`, `drawLine`, `clear`, `View.drawnote`, `View.display`) uses floating point and the canvas API. It appears only as effect records, or as the notes and message the view was last given.
- `decoratesafe`, `exceptiontostring`, `addWrappedEventListener`, `alert` and both `main` functions are page setup and exception plumbing. The model has no exceptions apart from the TypeError in `check`.
- The wording of the HTML messages is not modelled. One tag per message kind is kept, with the length N where the message shows it.
- Run and Canvas.HandleAll take one canvas offset for the whole sequence of events. The source reads `offsetLeft` and `offsetTop` again on every event, so a canvas that moves between events is modelled only one event at a time (Step, Canvas.Handle).
- Page coordinates are integers. Browsers may report fractional coordinates, and floating-point subtraction is not modelled.
- The `mouse` field that mousedown writes is never read, and mouseup's `endcoords` is computed and never used. Neither is modelled.
- A field that is `undefined` and one set to `false` are both None. The source only tests these fields for being set.
- `check` compares a button's string value with `==`. The model takes the button's number as an integer.
- `rand` itself (`Math.floor(Math.random() * …)`) is not modelled. Neither are the random filled/open notehead choice and the float coin flip in `ask`. The draws and the coin are parameters.
- SightReading.ChooseDyad: the random draws are a finite list that must contain at least one draw differing from the previous dyad. A run of the do-while longer than the list is not modelled. With real randomness the loop ends with probability 1 (see RetryCanSucceed).
- SightReading.Model.MakeDyad: needs such a list of draws, as ChooseDyad does.
- SightReading.Model.Ask: needs such a list of draws, as ChooseDyad does.
- SightReading.Controller.Answer: needs such a list of draws for the ask it may make.
- SightReading.Controller.OnKeyDown: needs such a list of draws for the ask it may make.
- SightReading.Controller.OnButtonClick: needs such a list of draws for the ask it may make.
- The `prevdyad` accessor of `Model` is a read of the `prevdyad` field.
- The status messages `main` writes during setup ("Setting up event handlers", "Drawing buttons", and so on) are not modelled.
