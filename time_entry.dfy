/** EnterTimeRotary (src/main.cpp:153-258): a two-field mm:ss editor. Detents change
    the active field with wrap-around at 59 and no carry into the other field; a short
    press swaps the active field and moves the cursor column; a press held
    LONG_PRESS_DURATION_MS or longer commits (0, minutes, seconds). */
module TimeEntry {
  import opened Wrappers
  import opened Polling
  import opened Decoder
  import opened Press
  import opened TimeValue

  /** Columns between the minutes and the seconds sub-field of the MM:SS text. */
  const COLUMN_SHIFT: int := 3

  /** The locals of EnterTimeRotary that outlive one pass. `column` is `loc_cursor.row`,
      which SetCursor hands to the display as the column (src/main.cpp:93).
      The flags read as in the source: `!isMinutesSet` means the minutes are edited. */
  datatype Editor = Editor(minutes: int, seconds: int, isMinutesSet: bool, isSecondsSet: bool,
                           encPrevState: int, column: int, doExit: bool)

  /** Seeded fields, minutes active, reference = the count read on entry. */
  function Start(seed: Time, start: int, column: int): Editor
  {
    Editor(seed.minutes, seed.seconds, false, true, start, column, false)
  }

  /** Exactly one of the two fields is active. */
  predicate Coherent(e: Editor)
  {
    e.isMinutesSet != e.isSecondsSet
  }

  predicate FieldsInRange(e: Editor)
  {
    0 <= e.minutes <= MAX_FIELD && 0 <= e.seconds <= MAX_FIELD
  }

  /** The value the widget returns: hours 0 with the two edited fields. */
  function Result(e: Editor): Time
  {
    Time(0, e.minutes, e.seconds)
  }

  /** What a detent adds to the active field, modulo 60. */
  function Advance(d: Detent): nat
  {
    match d
    case Up => 1
    case Down => MAX_FIELD
    case NoDetent => 0
  }

  /** One detent applied to whichever field the flags select (lines 171-174, 186-189). */
  function Turn(e: Editor, up: bool): Editor
  {
    if !e.isMinutesSet then
      e.(minutes := if up then WrapUp(e.minutes, MAX_FIELD) else WrapDown(e.minutes, MAX_FIELD))
    else if !e.isSecondsSet then
      e.(seconds := if up then WrapUp(e.seconds, MAX_FIELD) else WrapDown(e.seconds, MAX_FIELD))
    else e
  }

  /** A short press: swap the active field and move the cursor (lines 212-225). */
  function Toggle(e: Editor): Editor
  {
    if !e.isMinutesSet then
      e.(isMinutesSet := true, isSecondsSet := false, column := e.column + COLUMN_SHIFT)
    else if !e.isSecondsSet then
      e.(isSecondsSet := true, isMinutesSet := false, column := e.column - COLUMN_SHIFT)
    else e
  }

  /** One pass of `while (!doExit)`: the +4 test, then the -4 test against the
      reference as the first test left it, then the button. */
  function Step(e: Editor, s: Sample): (r: Editor)
    ensures e.doExit ==> r == e
    ensures !e.doExit ==> (r.doExit <==> s.press.Some? && IsLong(s.press.value))
    ensures !e.doExit ==>
      r.encPrevState == if Decode(e.encPrevState, s.pos) == NoDetent then e.encPrevState else s.pos
    ensures !e.doExit && Coherent(e) && FieldsInRange(e) && !e.isMinutesSet ==>
      r.minutes == (e.minutes + Advance(Decode(e.encPrevState, s.pos))) % (MAX_FIELD + 1) &&
      r.seconds == e.seconds
    ensures !e.doExit && Coherent(e) && FieldsInRange(e) && e.isMinutesSet ==>
      r.seconds == (e.seconds + Advance(Decode(e.encPrevState, s.pos))) % (MAX_FIELD + 1) &&
      r.minutes == e.minutes
    ensures !e.doExit && Coherent(e) && s.press.Some? && !IsLong(s.press.value) ==>
      r.isMinutesSet == !e.isMinutesSet && r.isSecondsSet == !e.isSecondsSet &&
      r.column == e.column + (if e.isMinutesSet then -COLUMN_SHIFT else COLUMN_SHIFT)
    ensures s.press.None? || IsLong(s.press.value) ==>
      r.isMinutesSet == e.isMinutesSet && r.isSecondsSet == e.isSecondsSet && r.column == e.column
    ensures Coherent(e) ==> Coherent(r)
    ensures FieldsInRange(e) ==> FieldsInRange(r)
  {
    if e.doExit then e
    else
      var afterUp :=
        if s.pos - e.encPrevState == DETENT_DELTA then Turn(e, true).(encPrevState := s.pos) else e;
      var afterDown :=
        if s.pos - afterUp.encPrevState == -DETENT_DELTA then Turn(afterUp, false).(encPrevState := s.pos)
        else afterUp;
      match s.press
      case None => afterDown
      case Some(held) => if IsLong(held) then afterDown.(doExit := true) else Toggle(afterDown)
  }

  /** The editor after the given passes, in order. */
  function Run(e: Editor, passes: seq<Sample>): Editor
  {
    Fold(Step, e, passes)
  }

  function Finished(e: Editor): bool
  {
    e.doExit
  }

  /** The fields keep their range, exactly one field is active, and the cursor column
      is the start column while minutes are active and three further while seconds are. */
  predicate Invariant(e: Editor, column: int)
  {
    Coherent(e) && FieldsInRange(e) &&
    e.column == column + (if e.isMinutesSet then COLUMN_SHIFT else 0)
  }

  lemma {:induction false} RunKeepsInvariant(e: Editor, passes: seq<Sample>, column: int)
    requires Invariant(e, column)
    ensures Invariant(Run(e, passes), column)
    decreases |passes|
  {
    if passes != [] {
      RunKeepsInvariant(e, passes[..|passes| - 1], column);
    }
  }

  /** What one invocation of the widget has reached after its session. */
  function Outcome(session: Session, seed: Time, column: int): (e: Editor)
    ensures InRange(seed) ==> Invariant(e, column)
  {
    var e := Run(Start(seed, session.start, column), session.passes);
    assert InRange(seed) ==> Invariant(e, column) by {
      if InRange(seed) {
        RunKeepsInvariant(Start(seed, session.start, column), session.passes, column);
      }
    }
    e
  }

  predicate HasLongPress(passes: seq<Sample>)
  {
    exists i :: 0 <= i < |passes| && passes[i].press.Some? && IsLong(passes[i].press.value)
  }

  /** Entry ends exactly when some pass saw a long press; short presses never end it. */
  lemma {:induction false} RunExits(e: Editor, passes: seq<Sample>)
    requires !e.doExit
    ensures Run(e, passes).doExit <==> HasLongPress(passes)
    decreases |passes|
  {
    if passes != [] {
      var init := passes[..|passes| - 1];
      RunExits(e, init);
      if HasLongPress(init) {
        var i :| 0 <= i < |init| && init[i].press.Some? && IsLong(init[i].press.value);
        assert passes[i] == init[i];
      }
      var last := passes[|passes| - 1];
      if HasLongPress(passes) && !(last.press.Some? && IsLong(last.press.value)) {
        var i :| 0 <= i < |passes| && passes[i].press.Some? && IsLong(passes[i].press.value);
        assert init[i] == passes[i];
      }
    }
  }

  /** The first long press commits, and the widget returns the fields as they stood in
      the pass of that press, whatever passes follow. */
  lemma CommitsAtFirstLongPress(e: Editor, passes: seq<Sample>, i: nat)
    requires !e.doExit && i < |passes|
    requires passes[i].press.Some? && IsLong(passes[i].press.value)
    requires !HasLongPress(passes[..i])
    ensures !Run(e, passes[..i]).doExit && Run(e, passes).doExit
    ensures Result(Run(e, passes)) == Result(Run(e, passes[..i + 1]))
  {
    assert passes[..i + 1][i] == passes[i];
    RunExits(e, passes[..i]);
    RunExits(e, passes[..i + 1]);
    FoldFrozen(Step, Finished, e, passes, i + 1);
  }

  /** Every state the editor reaches from a seed in range redraws as exactly `MM:SS`. */
  lemma RedrawIsMMSS(e: Editor, column: int)
    requires Invariant(e, column)
    ensures var text := Render(e.minutes, e.seconds);
      |text| == 5 && text[2] == ':' && ReadTwo(text[..2]) == e.minutes && ReadTwo(text[3..]) == e.seconds
  {
  }

  /** Number of short presses among the passes. */
  function ShortPresses(passes: seq<Sample>): nat
    decreases |passes|
  {
    if passes == [] then 0
    else
      var last := passes[|passes| - 1];
      ShortPresses(passes[..|passes| - 1]) + (if last.press.Some? && !IsLong(last.press.value) then 1 else 0)
  }

  /** Without a long press, an odd number of short presses leaves the seconds active with
      the cursor three columns on, an even number the minutes with the cursor at its start. */
  lemma {:induction false} ShortPressParity(seed: Time, start: int, column: int, passes: seq<Sample>)
    requires !HasLongPress(passes)
    ensures var e := Run(Start(seed, start, column), passes);
      !e.doExit &&
      e.isMinutesSet == (ShortPresses(passes) % 2 == 1) &&
      e.isSecondsSet == (ShortPresses(passes) % 2 == 0) &&
      e.column == column + COLUMN_SHIFT * (ShortPresses(passes) % 2)
    decreases |passes|
  {
    if passes != [] {
      var init := passes[..|passes| - 1];
      ShortPressParity(seed, start, column, init);
    }
  }

  /** Run over the concatenation of two pass sequences. */
  lemma {:induction false} RunAppend(e: Editor, a: seq<Sample>, b: seq<Sample>)
    ensures Run(e, a + b) == Run(Run(e, a), b)
    decreases |b|
  {
    if b == [] {
      assert a + b == a;
    } else {
      assert (a + b)[..|a + b| - 1] == a + b[..|b| - 1];
      RunAppend(e, a, b[..|b| - 1]);
    }
  }

  /** k passes, each reading a count 4 above the previous one, starting from `from`. */
  function UpTurns(from: int, k: nat): seq<Sample>
    decreases k
  {
    if k == 0 then [] else UpTurns(from, k - 1) + [Sample(from + DETENT_DELTA * k, None)]
  }

  /** k detents in a row advance the active field by k modulo 60 and leave the other
      field alone: no carry from seconds into minutes or back. */
  lemma {:induction false} TurnsWrapWithoutCarry(e: Editor, k: nat)
    requires !e.doExit && Coherent(e) && FieldsInRange(e)
    ensures Run(e, UpTurns(e.encPrevState, k)) ==
      if !e.isMinutesSet
      then e.(minutes := (e.minutes + k) % (MAX_FIELD + 1), encPrevState := e.encPrevState + DETENT_DELTA * k)
      else e.(seconds := (e.seconds + k) % (MAX_FIELD + 1), encPrevState := e.encPrevState + DETENT_DELTA * k)
    decreases k
  {
    if k > 0 {
      var turns := UpTurns(e.encPrevState, k);
      assert turns[..|turns| - 1] == UpTurns(e.encPrevState, k - 1);
      TurnsWrapWithoutCarry(e, k - 1);
      var before := Run(e, UpTurns(e.encPrevState, k - 1));
      var pos := e.encPrevState + DETENT_DELTA * k;
      assert before.encPrevState == e.encPrevState + DETENT_DELTA * (k - 1);
      assert Decode(before.encPrevState, pos) == Up;
      assert Run(e, turns) == Step(before, Sample(pos, None));
      if !e.isMinutesSet {
        WrapAdvance(e.minutes, k);
      } else {
        WrapAdvance(e.seconds, k);
      }
    }
  }

  /** Adding one to a field reduced modulo 60 is adding one before reducing. */
  lemma WrapAdvance(v: int, k: nat)
    requires k > 0
    ensures ((v + (k - 1)) % (MAX_FIELD + 1) + 1) % (MAX_FIELD + 1) == (v + k) % (MAX_FIELD + 1)
  {
  }

  /** From 00:00, one short press and then 90 detents show seconds 30 and minutes 00. */
  lemma NinetyDetentsOnSeconds(start: int)
    ensures var e := Run(Start(Time(0, 0, 0), start, 0), [Sample(start, Some(0))] + UpTurns(start, 90));
      !e.doExit && e.minutes == 0 && e.seconds == 30
  {
    var e0 := Start(Time(0, 0, 0), start, 0);
    var press := [Sample(start, Some(0))];
    assert press[..|press| - 1] == [];
    var e1 := Run(e0, press);
    assert e1 == Step(Run(e0, []), press[0]);
    assert !e1.doExit && e1.isMinutesSet && !e1.isSecondsSet && e1.encPrevState == start;
    RunAppend(e0, press, UpTurns(start, 90));
    TurnsWrapWithoutCarry(e1, 90);
  }

  method EnterTimeRotary(session: Session, cursorColumn: int, initialTime: Time) returns (t: Time, doExit: bool)
    ensures doExit == Outcome(session, initialTime, cursorColumn).doExit
    ensures t == Result(Outcome(session, initialTime, cursorColumn))
    ensures doExit <==> HasLongPress(session.passes)
    ensures InRange(initialTime) ==> InRange(t)
  {
    var passes := session.passes;
    var encPrevState := session.start;
    var column := cursorColumn;
    var minutes, seconds := initialTime.minutes, initialTime.seconds;
    var isMinutesSet, isSecondsSet := false, true;
    doExit := false;
    var i := 0;
    while !doExit && i < |passes|
      invariant 0 <= i <= |passes|
      invariant Run(Start(initialTime, session.start, cursorColumn), passes[..i]) ==
        Editor(minutes, seconds, isMinutesSet, isSecondsSet, encPrevState, column, doExit)
    {
      var encNewState := passes[i].pos;
      if encNewState - encPrevState == DETENT_DELTA {
        if !isMinutesSet {
          if minutes < MAX_FIELD { minutes := minutes + 1; } else { minutes := 0; }
        } else if !isSecondsSet {
          if seconds < MAX_FIELD { seconds := seconds + 1; } else { seconds := 0; }
        }
        encPrevState := encNewState;
      }
      if encNewState - encPrevState == -DETENT_DELTA {
        if !isMinutesSet {
          if minutes > 0 { minutes := minutes - 1; } else { minutes := MAX_FIELD; }
        } else if !isSecondsSet {
          if seconds > 0 { seconds := seconds - 1; } else { seconds := MAX_FIELD; }
        }
        encPrevState := encNewState;
      }
      match passes[i].press {
        case Some(held) =>
          if IsLong(held) {
            doExit := true;
          } else if !isMinutesSet {
            isMinutesSet, isSecondsSet := true, false;
            column := column + COLUMN_SHIFT;
          } else if !isSecondsSet {
            isSecondsSet, isMinutesSet := true, false;
            column := column - COLUMN_SHIFT;
          }
        case None =>
      }
      assert passes[..i + 1][..i] == passes[..i];
      i := i + 1;
    }
    var start := Start(initialTime, session.start, cursorColumn);
    if doExit {
      FoldFrozen(Step, Finished, start, passes, i);
    } else {
      assert passes[..i] == passes;
    }
    RunExits(start, passes);
    t := Time(0, minutes, seconds);
  }
}
