/** EnterPasscode (src/main.cpp:260-269) and the gate of setup() (src/main.cpp:285-304):
    PASSCODE_LENGTH digit entries are composed into one number, most significant digit
    first, and setup() repeats whole attempts until the number equals PASSCODE. */
module Passcode {
  import opened Wrappers
  import opened Polling
  import DigitEntry

  const PASSCODE: int := 451
  const PASSCODE_LENGTH: nat := 3

  /** The exact power of ten the source obtains as `round(pow(10, k))`. */
  function Pow10(k: nat): (r: nat)
    ensures r >= 1
  {
    if k == 0 then 1 else 10 * Pow10(k - 1)
  }

  predicate AllDigits(ds: seq<int>)
  {
    forall i :: 0 <= i < |ds| ==> 0 <= ds[i] <= 9
  }

  /** The composed code: the sum of ds[i] * 10^(n-1-i), first digit most significant. */
  function WeightedSum(ds: seq<int>): int
    decreases |ds|
  {
    if ds == [] then 0 else ds[0] * Pow10(|ds| - 1) + WeightedSum(ds[1..])
  }

  /** The same number read left to right, each digit shifting the ones before it. */
  function Value(ds: seq<int>): int
    decreases |ds|
  {
    if ds == [] then 0 else 10 * Value(ds[..|ds| - 1]) + ds[|ds| - 1]
  }

  /** The n decimal digits of v, most significant first. */
  function ToDigits(v: int, n: nat): (ds: seq<int>)
    ensures |ds| == n
    decreases n
  {
    if n == 0 then [] else ToDigits(v / 10, n - 1) + [v % 10]
  }

  lemma {:induction false} WeightedSumAppend(ds: seq<int>, d: int)
    ensures WeightedSum(ds + [d]) == 10 * WeightedSum(ds) + d
    decreases |ds|
  {
    if ds != [] {
      assert (ds + [d])[1..] == ds[1..] + [d];
      WeightedSumAppend(ds[1..], d);
      calc {
        WeightedSum(ds + [d]);
        ds[0] * Pow10(|ds|) + WeightedSum(ds[1..] + [d]);
        ds[0] * (10 * Pow10(|ds| - 1)) + 10 * WeightedSum(ds[1..]) + d;
        10 * (ds[0] * Pow10(|ds| - 1) + WeightedSum(ds[1..])) + d;
      }
    } else {
      assert [d][1..] == [];
    }
  }

  /** The left-to-right reading is the positional sum. */
  lemma {:induction false} ValueIsWeightedSum(ds: seq<int>)
    ensures Value(ds) == WeightedSum(ds)
    decreases |ds|
  {
    if ds != [] {
      var init := ds[..|ds| - 1];
      assert ds == init + [ds[|ds| - 1]];
      ValueIsWeightedSum(init);
      WeightedSumAppend(init, ds[|ds| - 1]);
    }
  }

  /** n digits compose to a number in [0, 10^n - 1]. */
  lemma {:induction false} ValueBounds(ds: seq<int>)
    requires AllDigits(ds)
    ensures 0 <= Value(ds) <= Pow10(|ds|) - 1
    decreases |ds|
  {
    if ds != [] {
      ValueBounds(ds[..|ds| - 1]);
    }
  }

  /** Decomposing the composed number gives back the digits in entry order. */
  lemma {:induction false} DigitsRoundTrip(ds: seq<int>)
    requires AllDigits(ds)
    ensures ToDigits(Value(ds), |ds|) == ds
    decreases |ds|
  {
    if ds != [] {
      var init, last := ds[..|ds| - 1], ds[|ds| - 1];
      DigitsRoundTrip(init);
      assert Value(ds) / 10 == Value(init) && Value(ds) % 10 == last;
      assert ds == init + [last];
    }
  }

  /** Two digit sequences of one length that compose to the same number are equal. */
  lemma ComposeInjective(a: seq<int>, b: seq<int>)
    requires AllDigits(a) && AllDigits(b) && |a| == |b|
    requires WeightedSum(a) == WeightedSum(b)
    ensures a == b
  {
    ValueIsWeightedSum(a);
    ValueIsWeightedSum(b);
    DigitsRoundTrip(a);
    DigitsRoundTrip(b);
  }

  /** 4, 5, 1 compose to the accepted code; 4, 5, 2 to 452, which is refused. */
  lemma ReferenceCodes()
    ensures WeightedSum([4, 5, 1]) == PASSCODE
    ensures WeightedSum([4, 5, 2]) == 452 != PASSCODE
  {
  }

  /** The digits the widget invocations of one attempt returned, in order. */
  function Entered(entries: seq<Session>): (ds: seq<int>)
    ensures |ds| == |entries| && AllDigits(ds)
  {
    var ds := seq(|entries|, i requires 0 <= i < |entries| => DigitEntry.Outcome(entries[i]).result);
    assert AllDigits(ds) by {
      forall i | 0 <= i < |entries|
        ensures 0 <= ds[i] <= 9
      {
        DigitEntry.RunKeepsDigit(DigitEntry.Start(entries[i].start), entries[i].passes);
      }
    }
    ds
  }

  /** Every widget invocation of the attempt ended with a press. */
  predicate AllCommitted(entries: seq<Session>)
  {
    forall i :: 0 <= i < |entries| ==> DigitEntry.Outcome(entries[i]).doExit
  }

  method EnterPasscode(entries: seq<Session>, cursorColumn: int, passcodeLength: nat)
    returns (result: int, complete: bool, column: int)
    ensures complete <==> |entries| >= passcodeLength && AllCommitted(entries[..passcodeLength])
    ensures complete ==> result == WeightedSum(Entered(entries[..passcodeLength]))
    ensures complete ==> 0 <= result <= Pow10(passcodeLength) - 1
    ensures complete ==> column == cursorColumn + passcodeLength
  {
    result, complete, column := 0, true, cursorColumn;
    var i := 0;
    while i < passcodeLength && complete
      invariant 0 <= i <= passcodeLength
      invariant complete ==> i <= |entries| && AllCommitted(entries[..i])
      invariant complete ==> result == Value(Entered(entries[..i])) * Pow10(passcodeLength - i)
      invariant complete ==> column == cursorColumn + i
      invariant !complete ==> !(|entries| >= passcodeLength && AllCommitted(entries[..passcodeLength]))
      decreases passcodeLength - i, if complete then 1 else 0
    {
      if i >= |entries| {
        complete := false;
      } else {
        var digit, exited := DigitEntry.EnterNumberRotary(entries[i]);
        if !exited {
          complete := false;
        } else {
          NextDigit(entries, i, passcodeLength - i - 1);
          result := result + digit * Pow10(passcodeLength - i - 1);
          column := column + 1;
          i := i + 1;
        }
      }
    }
    if complete {
      assert entries[..passcodeLength] == entries[..i];
      ValueIsWeightedSum(Entered(entries[..passcodeLength]));
      ValueBounds(Entered(entries[..passcodeLength]));
    }
  }

  /** The step of EnterPasscode's loop: a committed entry i extends the committed prefix
      and adds its digit at weight 10^k to the accumulator. */
  lemma NextDigit(entries: seq<Session>, i: nat, k: nat)
    requires i < |entries|
    requires AllCommitted(entries[..i]) && DigitEntry.Outcome(entries[i]).doExit
    ensures AllCommitted(entries[..i + 1])
    ensures Value(Entered(entries[..i])) * Pow10(k + 1) + DigitEntry.Outcome(entries[i]).result * Pow10(k) ==
      Value(Entered(entries[..i + 1])) * Pow10(k)
  {
    var before, digit := Entered(entries[..i]), DigitEntry.Outcome(entries[i]).result;
    assert Entered(entries[..i + 1]) == before + [digit];
    ShiftDigitIn(before, digit, k);
  }

  /** One more digit at weight 10^k in the accumulator of EnterPasscode. */
  lemma ShiftDigitIn(ds: seq<int>, d: int, k: nat)
    ensures Value(ds + [d]) * Pow10(k) == Value(ds) * Pow10(k + 1) + d * Pow10(k)
  {
    assert (ds + [d])[..|ds|] == ds;
    calc {
      Value(ds + [d]) * Pow10(k);
      (10 * Value(ds) + d) * Pow10(k);
      Value(ds) * (10 * Pow10(k)) + d * Pow10(k);
    }
  }

  /** The code one attempt of setup() composes, or None when one of its digit entries
      never saw a press (the source would wait in that widget for ever). */
  function Attempt(entries: seq<Session>): (r: Option<int>)
    ensures r.Some? <==> |entries| >= PASSCODE_LENGTH && AllCommitted(entries[..PASSCODE_LENGTH])
    ensures r.Some? ==> 0 <= r.value <= Pow10(PASSCODE_LENGTH) - 1
    ensures r.Some? ==> r.value == Value(Entered(entries[..PASSCODE_LENGTH]))
  {
    if |entries| >= PASSCODE_LENGTH && AllCommitted(entries[..PASSCODE_LENGTH]) then
      var digits := Entered(entries[..PASSCODE_LENGTH]);
      ValueIsWeightedSum(digits);
      ValueBounds(digits);
      Some(WeightedSum(digits))
    else None
  }

  predicate Rejected(entries: seq<Session>)
  {
    Attempt(entries).Some? && Attempt(entries).value != PASSCODE
  }

  /** The do-while of setup(): attempts run in order until one composes to PASSCODE.
      `tries` counts the completed attempts. */
  method PasscodeGate(attempts: seq<seq<Session>>) returns (isPwdCorrect: bool, tries: nat)
    ensures tries <= |attempts|
    ensures isPwdCorrect ==> tries >= 1 && Attempt(attempts[tries - 1]) == Some(PASSCODE)
    ensures forall j :: 0 <= j < tries - (if isPwdCorrect then 1 else 0) ==> Rejected(attempts[j])
    ensures !isPwdCorrect ==> tries == |attempts| || Attempt(attempts[tries]).None?
  {
    isPwdCorrect, tries := false, 0;
    var blocked := false;
    while !isPwdCorrect && !blocked && tries < |attempts|
      invariant tries <= |attempts|
      invariant isPwdCorrect ==> tries >= 1 && Attempt(attempts[tries - 1]) == Some(PASSCODE)
      invariant forall j :: 0 <= j < tries - (if isPwdCorrect then 1 else 0) ==> Rejected(attempts[j])
      invariant blocked ==> !isPwdCorrect && tries < |attempts| && Attempt(attempts[tries]).None?
    {
      var code, complete, column := EnterPasscode(attempts[tries], 0, PASSCODE_LENGTH);
      if !complete {
        blocked := true;
      } else {
        isPwdCorrect := code == PASSCODE;
        tries := tries + 1;
      }
    }
  }
}
