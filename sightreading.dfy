/** The interval quiz of sightreading.js: how a pair of notes (a dyad) is
    drawn at random, shown in either order, and checked against the number
    the player presses, and how key codes and the on-screen keypad map to
    those numbers. Drawing on the canvas is left to the page; the view
    keeps only what it was last told to show. */
module SightReading {
  import opened Wrappers

  /** `this.range`: how far, in staff steps, a note may lie from the centre
      of the staff. */
  const Range := 5
  /** `maxinterval0`: the widest zero-based interval (7 = an octave). */
  const MaxInterval0 := 7

  /** Two notes as distances from the centre of the staff. */
  datatype Dyad = Dyad(lo: int, hi: int)

  /** A dyad `dyad` may return: within the staff, at most an octave wide. */
  predicate WellFormed(d: Dyad)
  {
    0 <= d.hi - d.lo <= MaxInterval0 && -Range <= d.lo && d.hi <= Range
  }

  /** The one-based interval the player must name. */
  function Interval1(d: Dyad): int
  {
    d.hi - d.lo + 1
  }

  // ---------------------------------------------------------------------
  // Drawing a dyad

  /** What the two calls of `rand` returned in one pass of the do-while:
      first the interval, then the low note. */
  datatype Attempt = Attempt(interval0: int, lo: int)

  /** Both values lie in the range `rand` was asked for, as its comment
      promises: `rand(0, maxinterval0)` and `rand(-range, range - interval0)`. */
  predicate InRandRange(a: Attempt)
  {
    0 <= a.interval0 <= MaxInterval0 && -Range <= a.lo <= Range - a.interval0
  }

  predicate AllInRandRange(attempts: seq<Attempt>)
  {
    forall k :: 0 <= k < |attempts| ==> InRandRange(attempts[k])
  }

  function DyadOf(a: Attempt): Dyad
  {
    Dyad(a.lo, a.lo + a.interval0)
  }

  /** The do-while's condition: the new dyad equals the previous one. */
  predicate Repeats(prev: Option<Dyad>, d: Dyad)
  {
    prev.Some? && d.lo == prev.value.lo && d.hi == prev.value.hi
  }

  /** The random draws eventually give a dyad other than the previous one,
      so the do-while ends. */
  predicate EventuallyFresh(prev: Option<Dyad>, attempts: seq<Attempt>)
  {
    exists k :: 0 <= k < |attempts| && !Repeats(prev, DyadOf(attempts[k]))
  }

  /** The low note's range is never empty and, for any previous dyad,
      holds a choice that differs from it: every pass of the do-while can
      end it. */
  lemma RetryCanSucceed(prev: Option<Dyad>, interval0: int)
    requires 0 <= interval0 <= MaxInterval0
    ensures -Range <= Range - interval0
    ensures exists lo :: InRandRange(Attempt(interval0, lo)) && !Repeats(prev, DyadOf(Attempt(interval0, lo)))
  {
    var lo := if prev.Some? && prev.value.lo == -Range then -Range + 1 else -Range;
    assert InRandRange(Attempt(interval0, lo)) && !Repeats(prev, DyadOf(Attempt(interval0, lo)));
  }

  /** The do-while of `dyad`: passes over the draws until one differs from
      the previous dyad, and returns it with the index of that draw. */
  method ChooseDyad(prev: Option<Dyad>, attempts: seq<Attempt>) returns (d: Dyad, used: nat)
    requires AllInRandRange(attempts) && EventuallyFresh(prev, attempts)
    ensures used < |attempts| && d == DyadOf(attempts[used])
    ensures forall k :: 0 <= k < used ==> Repeats(prev, DyadOf(attempts[k]))
    ensures !Repeats(prev, d) && WellFormed(d)
  {
    used := 0;
    var interval0 := attempts[0].interval0;
    var lo := attempts[0].lo;
    var hi := lo + interval0;
    while prev.Some? && lo == prev.value.lo && hi == prev.value.hi
      invariant used < |attempts|
      invariant interval0 == attempts[used].interval0 && lo == attempts[used].lo && hi == lo + interval0
      invariant forall k :: 0 <= k < used ==> Repeats(prev, DyadOf(attempts[k]))
      decreases |attempts| - used
    {
      used := used + 1;
      interval0 := attempts[used].interval0;
      lo := attempts[used].lo;
      hi := lo + interval0;
    }
    d := Dyad(lo, hi);
  }

  /** `ask`'s coin flip: which note is drawn on the left. */
  function Order(d: Dyad, loOnLeft: bool): (lr: (int, int))
    ensures multiset{lr.0, lr.1} == multiset{d.lo, d.hi}
    ensures loOnLeft ==> lr.0 == d.lo
    ensures !loOnLeft ==> lr.0 == d.hi
  {
    if loOnLeft then (d.lo, d.hi) else (d.hi, d.lo)
  }

  // ---------------------------------------------------------------------
  // Checking an answer

  datatype Verdict = Correct | Incorrect(expected: int, pressed: int)

  /** `check`'s comparison of the pressed number with the interval. */
  function CheckVerdict(d: Dyad, n: int): (v: Verdict)
    ensures v == Correct <==> n == d.hi - d.lo + 1
    ensures v.Incorrect? ==> v.expected == d.hi - d.lo + 1 && v.pressed == n && v.expected != n
  {
    var interval1 := Interval1(d);
    if n == interval1 then Correct else Incorrect(interval1, n)
  }

  // ---------------------------------------------------------------------
  // Keys and buttons

  const ZeroCode := 48
  const NumpadZeroCode := 96

  /** The digit a key code stands for: 1 to 9 on the main row or the
      number pad; 0 and every other key stand for nothing. */
  function KeyToNumber(keycode: int): (num: Option<int>)
    ensures num.Some? <==> 49 <= keycode <= 57 || 97 <= keycode <= 105
    ensures num.Some? ==> 1 <= num.value <= 9
    ensures num.Some? ==> keycode == 48 + num.value || keycode == 96 + num.value
  {
    if ZeroCode < keycode && keycode <= ZeroCode + 9 then Some(keycode - ZeroCode)
    else if NumpadZeroCode < keycode && keycode <= NumpadZeroCode + 9 then Some(keycode - NumpadZeroCode)
    else None
  }

  /** The number `onkeydown` answers with, if it answers at all: a digit
      key with none of shift, ctrl and alt held. */
  function KeyAnswer(keycode: int, shift: bool, ctrl: bool, alt: bool): (num: Option<int>)
    ensures num.Some? <==> KeyToNumber(keycode).Some? && !(shift || ctrl || alt)
    ensures num.Some? ==> num == KeyToNumber(keycode)
  {
    var num := KeyToNumber(keycode);
    if num.Some? && !(shift || ctrl || alt) then num else None
  }

  /** Every dyad `dyad` can return has its answer on the keypad, and that
      key is judged correct. */
  lemma AnswerOnKeypad(d: Dyad)
    requires WellFormed(d)
    ensures 1 <= Interval1(d) <= 8
    ensures exists keycode :: KeyAnswer(keycode, false, false, false) == Some(Interval1(d))
                              && CheckVerdict(d, KeyAnswer(keycode, false, false, false).value) == Correct
  {
    var keycode := ZeroCode + Interval1(d);
    assert KeyAnswer(keycode, false, false, false) == Some(Interval1(d));
  }

  /** The on-screen keypad, row by row: the nested loops of `Controller`.
      Row r holds 7 - 3r, 8 - 3r, 9 - 3r, as on a computer's number
      pad. */
  method ButtonRows() returns (rows: seq<seq<int>>)
    ensures |rows| == 3
    ensures forall r :: 0 <= r < 3 ==> |rows[r]| == 3
    ensures forall r, c :: 0 <= r < 3 && 0 <= c < 3 ==> rows[r][c] == 7 - 3 * r + c
  {
    rows := [];
    var rownum := 0;
    while rownum < 3
      invariant 0 <= rownum <= 3 && |rows| == rownum
      invariant forall r :: 0 <= r < rownum ==> |rows[r]| == 3
      invariant forall r, c :: 0 <= r < rownum && 0 <= c < 3 ==> rows[r][c] == 7 - 3 * r + c
    {
      var row := [];
      var num := 7 - rownum * 3;
      while num < 10 - rownum * 3
        invariant 7 - rownum * 3 <= num <= 10 - rownum * 3
        invariant |row| == num - (7 - rownum * 3)
        invariant forall c :: 0 <= c < |row| ==> row[c] == 7 - 3 * rownum + c
      {
        row := row + [num];
        num := num + 1;
      }
      rows := rows + [row];
      rownum := rownum + 1;
    }
  }

  function Flatten(rows: seq<seq<int>>): seq<int>
  {
    if rows == [] then [] else rows[0] + Flatten(rows[1..])
  }

  /** The keypad read row by row. */
  lemma KeypadFlattened(rows: seq<seq<int>>)
    requires |rows| == 3 && forall r :: 0 <= r < 3 ==> |rows[r]| == 3
    requires forall r, c :: 0 <= r < 3 && 0 <= c < 3 ==> rows[r][c] == 7 - 3 * r + c
    ensures Flatten(rows) == [7, 8, 9, 4, 5, 6, 1, 2, 3]
  {
    assert rows[0] == [7, 8, 9];
    assert rows[1] == [4, 5, 6];
    assert rows[2] == [1, 2, 3];
    assert Flatten(rows[2..]) == [1, 2, 3] by {
      assert rows[2..][1..] == [];
    }
    assert Flatten(rows[1..]) == [4, 5, 6, 1, 2, 3] by {
      assert rows[1..][1..] == rows[2..];
    }
  }

  /** The keypad shows each of 1 to 9 exactly once and nothing else. */
  lemma KeypadHasEachDigitOnce(rows: seq<seq<int>>)
    requires |rows| == 3 && forall r :: 0 <= r < 3 ==> |rows[r]| == 3
    requires forall r, c :: 0 <= r < 3 && 0 <= c < 3 ==> rows[r][c] == 7 - 3 * r + c
    ensures multiset(Flatten(rows)) == multiset{1, 2, 3, 4, 5, 6, 7, 8, 9}
  {
    KeypadFlattened(rows);
  }

  // ---------------------------------------------------------------------
  // Objects

  /** What the page shows: the last message (a verdict) and the two notes
      last passed to `display`, left first. */
  class View {
    var message: Option<Verdict>
    var notes: Option<(int, int)>

    constructor ()
      ensures message == None && notes == None
    {
      message, notes := None, None;
    }
  }

  class Model {
    const view: View
    /** The closure variable `prevdyad`: the dyad `dyad` last returned. */
    var prevdyad: Option<Dyad>

    constructor (view: View)
      ensures this.view == view && prevdyad == None
    {
      this.view := view;
      prevdyad := None;
    }

    /** `dyad`: a well-formed dyad other than the previous one, recorded as
      the new previous one. */
    method MakeDyad(attempts: seq<Attempt>) returns (d: Dyad, used: nat)
      requires AllInRandRange(attempts) && EventuallyFresh(prevdyad, attempts)
      modifies this`prevdyad
      ensures prevdyad == Some(d) && WellFormed(d) && !Repeats(old(prevdyad), d)
      ensures used < |attempts| && d == DyadOf(attempts[used])
      ensures forall k :: 0 <= k < used ==> Repeats(old(prevdyad), DyadOf(attempts[k]))
    {
      d, used := ChooseDyad(prevdyad, attempts);
      prevdyad := Some(d);
    }

    /** `ask`: draws a new dyad and displays its two notes in the order the
      coin chose. */
    method Ask(attempts: seq<Attempt>, loOnLeft: bool)
      requires AllInRandRange(attempts) && EventuallyFresh(prevdyad, attempts)
      modifies this`prevdyad, view`notes
      ensures prevdyad.Some? && WellFormed(prevdyad.value) && !Repeats(old(prevdyad), prevdyad.value)
      ensures view.notes == Some(Order(prevdyad.value, loOnLeft))
      ensures multiset{view.notes.value.0, view.notes.value.1}
           == multiset{prevdyad.value.lo, prevdyad.value.hi}
    {
      var d, _ := MakeDyad(attempts);
      var lr := Order(d, loOnLeft);
      view.notes := Some(lr);
    }

    /** `check`: shows whether `n` names the current dyad's interval. With
      no dyad yet, reading `prevdyad.hi` throws and nothing is shown. */
    method Check(n: int) returns (thrown: bool)
      modifies view`message
      ensures thrown <==> prevdyad.None?
      ensures thrown ==> view.message == old(view.message)
      ensures !thrown ==> view.message == Some(CheckVerdict(prevdyad.value, n))
    {
      if prevdyad.None? {
        return true;
      }
      thrown := false;
      view.message := Some(CheckVerdict(prevdyad.value, n));
    }
  }

  class Controller {
    const model: Model
    /** The keypad written into the button paragraph. */
    var buttons: seq<seq<int>>

    constructor (model: Model)
      ensures this.model == model
      ensures |buttons| == 3 && forall r :: 0 <= r < 3 ==> |buttons[r]| == 3
      ensures forall r, c :: 0 <= r < 3 && 0 <= c < 3 ==> buttons[r][c] == 7 - 3 * r + c
    {
      this.model := model;
      var rows := ButtonRows();
      buttons := rows;
    }

    /** Checks `num`, then asks the next question unless the check threw:
      what a key press with an answer and a button click both do. */
    method Answer(num: int, attempts: seq<Attempt>, loOnLeft: bool)
      requires AllInRandRange(attempts) && EventuallyFresh(model.prevdyad, attempts)
      modifies model`prevdyad, model.view`notes, model.view`message
      ensures old(model.prevdyad).None? ==>
        && model.prevdyad == old(model.prevdyad)
        && model.view.message == old(model.view.message)
        && model.view.notes == old(model.view.notes)
      ensures old(model.prevdyad).Some? ==>
        && model.view.message == Some(CheckVerdict(old(model.prevdyad).value, num))
        && model.prevdyad.Some? && WellFormed(model.prevdyad.value)
        && model.prevdyad.value != old(model.prevdyad).value
        && model.view.notes == Some(Order(model.prevdyad.value, loOnLeft))
    {
      var thrown := model.Check(num);
      if !thrown {
        model.Ask(attempts, loOnLeft);
      }
    }

    /** `onkeydown`: answers with the digit of an unmodified digit key and
      ignores every other key. */
    method OnKeyDown(keycode: int, shift: bool, ctrl: bool, alt: bool,
                     attempts: seq<Attempt>, loOnLeft: bool)
      requires AllInRandRange(attempts) && EventuallyFresh(model.prevdyad, attempts)
      modifies model`prevdyad, model.view`notes, model.view`message
      ensures KeyAnswer(keycode, shift, ctrl, alt).None? ==>
        && model.prevdyad == old(model.prevdyad)
        && model.view.message == old(model.view.message)
        && model.view.notes == old(model.view.notes)
      ensures KeyAnswer(keycode, shift, ctrl, alt).Some? && old(model.prevdyad).None? ==>
        && model.prevdyad == old(model.prevdyad)
        && model.view.message == old(model.view.message)
        && model.view.notes == old(model.view.notes)
      ensures KeyAnswer(keycode, shift, ctrl, alt).Some? && old(model.prevdyad).Some? ==>
        && model.view.message == Some(CheckVerdict(old(model.prevdyad).value, KeyAnswer(keycode, shift, ctrl, alt).value))
        && model.prevdyad.Some? && WellFormed(model.prevdyad.value)
        && model.prevdyad.value != old(model.prevdyad).value
        && model.view.notes == Some(Order(model.prevdyad.value, loOnLeft))
    {
      var zerocode, numpadzerocode := ZeroCode, NumpadZeroCode;
      var num: Option<int> := None;
      if zerocode < keycode && keycode <= zerocode + 9 {
        num := Some(keycode - zerocode);
      } else if numpadzerocode < keycode && keycode <= numpadzerocode + 9 {
        num := Some(keycode - numpadzerocode);
      }
      if num.Some? && !(shift || ctrl || alt) {
        Answer(num.value, attempts, loOnLeft);
      }
    }

    /** A keypad button's click handler: answers with the button's number. */
    method OnButtonClick(num: int, attempts: seq<Attempt>, loOnLeft: bool)
      requires AllInRandRange(attempts) && EventuallyFresh(model.prevdyad, attempts)
      modifies model`prevdyad, model.view`notes, model.view`message
      ensures old(model.prevdyad).None? ==>
        && model.prevdyad == old(model.prevdyad)
        && model.view.message == old(model.view.message)
        && model.view.notes == old(model.view.notes)
      ensures old(model.prevdyad).Some? ==>
        && model.view.message == Some(CheckVerdict(old(model.prevdyad).value, num))
        && model.prevdyad.Some? && WellFormed(model.prevdyad.value)
        && model.prevdyad.value != old(model.prevdyad).value
        && model.view.notes == Some(Order(model.prevdyad.value, loOnLeft))
    {
      Answer(num, attempts, loOnLeft);
    }
  }
}
