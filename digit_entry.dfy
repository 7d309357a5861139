/** EnterNumberRotary (src/main.cpp:105-149): the operator picks one decimal digit,
    starting from 0, by turning the encoder; any press ends entry. */
module DigitEntry {
  import opened Wrappers
  import opened Polling
  import opened Decoder

  const MAX_DIGIT: nat := 9

  /** The locals of EnterNumberRotary that outlive one pass of its loop. */
  datatype Entry = Entry(result: int, encPrevState: int, doExit: bool)

  /** The digit starts at 0 and the reference at the count read on entry. */
  function Start(start: int): Entry
  {
    Entry(0, start, false)
  }

  /** One pass of `while (!doExit)`; once entry has ended no further pass runs. */
  function Step(e: Entry, s: Sample): (r: Entry)
    ensures e.doExit ==> r == e
    ensures !e.doExit ==> (r.doExit <==> s.press.Some?)
    ensures !e.doExit && 0 <= e.result <= 9 && s.pos - e.encPrevState == 4 ==>
      r.result == (e.result + 1) % 10 && r.encPrevState == s.pos
    ensures !e.doExit && 0 <= e.result <= 9 && s.pos - e.encPrevState == -4 ==>
      r.result == (e.result + 9) % 10 && r.encPrevState == s.pos
    ensures s.pos - e.encPrevState != 4 && s.pos - e.encPrevState != -4 ==>
      r.result == e.result && r.encPrevState == e.encPrevState
    ensures 0 <= e.result <= 9 ==> 0 <= r.result <= 9
  {
    if e.doExit then e
    else
      var turned :=
        match Decode(e.encPrevState, s.pos)
        case Up => e.(result := WrapUp(e.result, MAX_DIGIT), encPrevState := s.pos)
        case Down => e.(result := WrapDown(e.result, MAX_DIGIT), encPrevState := s.pos)
        case NoDetent => e;
      turned.(doExit := s.press.Some?)
  }

  /** The state after the given passes, in order. */
  function Run(e: Entry, passes: seq<Sample>): Entry
  {
    Fold(Step, e, passes)
  }

  function Finished(e: Entry): bool
  {
    e.doExit
  }

  /** What one invocation of the widget has reached after its session. */
  function Outcome(session: Session): Entry
  {
    Run(Start(session.start), session.passes)
  }

  predicate HasPress(passes: seq<Sample>)
  {
    exists i :: 0 <= i < |passes| && passes[i].press.Some?
  }

  /** The digit never leaves [0,9]. */
  lemma {:induction false} RunKeepsDigit(e: Entry, passes: seq<Sample>)
    requires 0 <= e.result <= 9
    ensures 0 <= Run(e, passes).result <= 9
    decreases |passes|
  {
    if passes != [] {
      RunKeepsDigit(e, passes[..|passes| - 1]);
    }
  }

  /** Entry ends exactly when some pass saw the button pressed. */
  lemma {:induction false} RunExits(e: Entry, passes: seq<Sample>)
    requires !e.doExit
    ensures Run(e, passes).doExit <==> HasPress(passes)
    decreases |passes|
  {
    if passes != [] {
      var init := passes[..|passes| - 1];
      RunExits(e, init);
      if HasPress(init) {
        var i :| 0 <= i < |init| && init[i].press.Some?;
        assert passes[i].press.Some?;
      }
      if HasPress(passes) && !passes[|passes| - 1].press.Some? {
        var i :| 0 <= i < |passes| && passes[i].press.Some?;
        assert init[i].press.Some?;
      }
    }
  }

  /** The first pass with a press ends entry, and the widget returns the digit as that
      pass left it, whatever passes follow. */
  lemma ReturnsDigitAtFirstPress(e: Entry, passes: seq<Sample>, i: nat)
    requires !e.doExit && i < |passes| && passes[i].press.Some?
    requires !HasPress(passes[..i])
    ensures !Run(e, passes[..i]).doExit && Run(e, passes).doExit
    ensures Run(e, passes).result == Run(e, passes[..i + 1]).result
  {
    assert passes[..i + 1][i] == passes[i];
    RunExits(e, passes[..i]);
    RunExits(e, passes[..i + 1]);
    FoldFrozen(Step, Finished, e, passes, i + 1);
  }

  /** A +4 detent followed by a -4 detent back to the same count restores digit and reference. */
  lemma UpThenDownRestores(e: Entry)
    requires !e.doExit && 0 <= e.result <= 9
    ensures Run(e, [Sample(e.encPrevState + 4, None), Sample(e.encPrevState, None)]) == e
  {
    var up, down := Sample(e.encPrevState + 4, None), Sample(e.encPrevState, None);
    var passes := [up, down];
    assert passes[..1][..0] == [] && passes[..1] == [up];
    var mid := Step(e, up);
    assert Run(e, passes[..1]) == Step(Run(e, []), up) == mid;
    assert Run(e, passes) == Step(mid, down);
    assert Step(mid, down).result == e.result;
  }

  method EnterNumberRotary(session: Session) returns (result: int, doExit: bool)
    ensures result == Outcome(session).result && doExit == Outcome(session).doExit
    ensures 0 <= result <= 9
    ensures doExit <==> HasPress(session.passes)
  {
    var passes := session.passes;
    result := 0;
    doExit := false;
    var encPrevState := session.start;
    var i := 0;
    while !doExit && i < |passes|
      invariant 0 <= i <= |passes|
      invariant Run(Start(session.start), passes[..i]) == Entry(result, encPrevState, doExit)
    {
      var encNewState := passes[i].pos;
      if encNewState - encPrevState == DETENT_DELTA {
        if result < MAX_DIGIT { result := result + 1; } else { result := 0; }
        encPrevState := encNewState;
      } else if encNewState - encPrevState == -DETENT_DELTA {
        if result > 0 { result := result - 1; } else { result := MAX_DIGIT; }
        encPrevState := encNewState;
      }
      if passes[i].press.Some? {
        doExit := true;
      }
      assert passes[..i + 1][..i] == passes[..i];
      i := i + 1;
    }
    if doExit {
      FoldFrozen(Step, Finished, Start(session.start), passes, i);
    } else {
      assert passes[..i] == passes;
    }
    RunKeepsDigit(Start(session.start), passes);
    RunExits(Start(session.start), passes);
  }
}
