/** The device life cycle driven by loop() (src/main.cpp:311-389): a one-second tick
    flag, then one of three states. SettingTime runs the time entry seeded with the
    last committed time, Warming passes straight on, Radiating holds the relay on and
    counts down once per consumed tick until it meets 00:00. */
module Device {
  import opened Polling
  import opened TimeValue
  import TimeEntry
  import Relay

  datatype DeviceState = SettingTime | Warming | Radiating

  /** The only forward step of the cycle. */
  function Next(s: DeviceState): DeviceState
  {
    match s
    case SettingTime => Warming
    case Warming => Radiating
    case Radiating => SettingTime
  }

  /** `millis()` returns an unsigned long (32 bits). */
  const MILLIS_MODULUS: int := 0x1_0000_0000
  /** `prevMillis` is an unsigned long long, so the difference is taken modulo 2^64. */
  const ULL_MODULUS: int := 0x1_0000_0000_0000_0000
  const TICK_MS: nat := 1000
  /** Column on the second display line where the time entry starts (`cur.row = 0`). */
  const ENTRY_COLUMN: int := 0

  type Millis = x: int | 0 <= x < MILLIS_MODULUS

  /** `millis() - prevMillis` in unsigned arithmetic: a clock that wrapped reads as a
      huge difference. */
  function Elapsed(now: Millis, prev: Millis): (d: nat)
    ensures prev <= now ==> d == now - prev
    ensures now < prev ==> d > TICK_MS
  {
    (now - prev) % ULL_MODULUS
  }

  /** The globals loop() reads and writes, with the relay's remembered level. */
  datatype Snapshot = Snapshot(state: DeviceState, t: Time, setTime: Time, secondPassed: bool,
                               prevMillis: Millis, relayOn: bool)

  /** The globals as declared, the relay off. */
  function Initial(): Snapshot
  {
    Snapshot(SettingTime, Time(0, 0, 0), Time(0, 0, 0), false, 0, false)
  }

  predicate TickDue(s: Snapshot, now: Millis)
  {
    Elapsed(now, s.prevMillis) > TICK_MS
  }

  /** One call of loop() at clock reading `now`. `entry` is what the time entry sees if
      it runs in this call; `dec` stands for the Time record's `operator--`. A time
      entry that never commits within `entry` leaves the state as the tick left it. */
  function Step(s: Snapshot, now: Millis, entry: Session, dec: Time -> Time): (r: Snapshot)
    ensures r.state == s.state || r.state == Next(s.state)
    ensures r.prevMillis == if TickDue(s, now) then now else s.prevMillis
    ensures s.state != Radiating ==> (r.secondPassed <==> s.secondPassed || TickDue(s, now))
    ensures s.state != Radiating ==> r.relayOn == s.relayOn
    ensures s.state == Warming ==> r.state == Radiating && r.t == s.t
    ensures s.state == SettingTime ==>
      var e := TimeEntry.Outcome(entry, s.setTime, ENTRY_COLUMN);
      (r.state == Warming <==> e.doExit) &&
      (e.doExit ==> r.t == TimeEntry.Result(e) && r.setTime == TimeEntry.Result(e)) &&
      (!e.doExit ==> r.t == s.t && r.setTime == s.setTime)
    ensures s.state != SettingTime ==> r.setTime == s.setTime
    ensures s.state == Radiating ==> !r.secondPassed
    ensures s.state == Radiating ==>
      (r.state == SettingTime <==> (s.secondPassed || TickDue(s, now)) && IsZero(s.t))
    ensures s.state == Radiating ==> r.relayOn == (r.state == Radiating)
    ensures s.state == Radiating ==>
      r.t == if s.secondPassed || TickDue(s, now) then dec(s.t) else s.t
  {
    var ticked := if TickDue(s, now) then s.(secondPassed := true, prevMillis := now) else s;
    match ticked.state
    case SettingTime =>
      var e := TimeEntry.Outcome(entry, ticked.setTime, ENTRY_COLUMN);
      if e.doExit then
        var committed := TimeEntry.Result(e);
        ticked.(t := committed, setTime := committed, state := Warming)
      else ticked
    case Warming =>
      ticked.(state := Radiating)
    case Radiating =>
      var on := ticked.(relayOn := true);
      if !on.secondPassed then on
      else
        var consumed := on.(secondPassed := false);
        var stopped := if IsZero(consumed.t) then consumed.(relayOn := false, state := SettingTime) else consumed;
        stopped.(t := dec(stopped.t))
  }

  /** The levels one call of loop() writes to the relay pin, from the globals before and
      after it: nothing outside Radiating; in Radiating a high level when the relay was
      off, then a low level when the call leaves Radiating. */
  function PinWrites(before: Snapshot, after: Snapshot): seq<bool>
  {
    if before.state != Radiating then []
    else (if before.relayOn then [] else [true]) + (if after.state == Radiating then [] else [false])
  }

  /** The inputs of one call of loop(). */
  datatype LoopInput = LoopInput(now: Millis, entry: Session)

  /** The globals after the given calls of loop(), in order. */
  function Run(s: Snapshot, inputs: seq<LoopInput>, dec: Time -> Time): Snapshot
    decreases |inputs|
  {
    if inputs == [] then s
    else
      var last := inputs[|inputs| - 1];
      Step(Run(s, inputs[..|inputs| - 1], dec), last.now, last.entry, dec)
  }

  /** The relay is off outside Radiating, and the seed of the next time entry is a valid time. */
  predicate Invariant(s: Snapshot)
  {
    (s.state != Radiating ==> !s.relayOn) && InRange(s.setTime)
  }

  lemma {:induction false} RunKeepsInvariant(s: Snapshot, inputs: seq<LoopInput>, dec: Time -> Time)
    requires Invariant(s)
    ensures Invariant(Run(s, inputs, dec))
    decreases |inputs|
  {
    if inputs != [] {
      RunKeepsInvariant(s, inputs[..|inputs| - 1], dec);
    }
  }

  /** From power-up, whatever the inputs, the relay is off unless the device is Radiating. */
  lemma {:induction false} RelayOffOutsideRadiating(inputs: seq<LoopInput>, dec: Time -> Time)
    ensures var s := Run(Initial(), inputs, dec);
      s.state != Radiating ==> !s.relayOn
  {
    RunKeepsInvariant(Initial(), inputs, dec);
  }

  /** Radiating from 00:02 with the tick clock at `p`: the calls at p+1001 and p+2002
      count down to 00:01 and 00:00 with the relay on; the call at p+3003 finds 00:00,
      turns the relay off with the one pin write of the three calls, and goes back to
      SettingTime. */
  lemma CountdownFromTwoSeconds(p: Millis, entry: Session, dec: Time -> Time)
    requires p + 3003 < MILLIS_MODULUS
    requires dec(Time(0, 0, 2)) == Time(0, 0, 1) && dec(Time(0, 0, 1)) == Time(0, 0, 0)
    ensures var s0 := Snapshot(Radiating, Time(0, 0, 2), Time(0, 0, 2), false, p, true);
      var s1 := Step(s0, p + 1001, entry, dec);
      var s2 := Step(s1, p + 2002, entry, dec);
      var s3 := Step(s2, p + 3003, entry, dec);
      s1.state == Radiating && s1.t == Time(0, 0, 1) && s1.relayOn &&
      s2.state == Radiating && s2.t == Time(0, 0, 0) && s2.relayOn &&
      s3.state == SettingTime && !s3.relayOn &&
      PinWrites(s0, s1) == [] && PinWrites(s1, s2) == [] && PinWrites(s2, s3) == [false]
  {
  }

  class Controller {
    var state: DeviceState
    var t: Time
    var setTime: Time
    var secondPassed: bool
    var prevMillis: Millis
    const relay: Relay.RelayManager

    /** The relay's write trace is coherent, and the globals keep the loop invariant:
        the relay is off outside Radiating and the next entry seed is a valid time. */
    ghost predicate Valid()
      reads this, relay
    {
      relay.Valid() && Invariant(Snap())
    }

    function Snap(): Snapshot
      reads this, relay
    {
      Snapshot(state, t, setTime, secondPassed, prevMillis, relay.state)
    }

    constructor ()
      ensures Valid() && fresh(relay)
      ensures Snap() == Initial() && relay.written == [false]
    {
      state := SettingTime;
      t, setTime := Time(0, 0, 0), Time(0, 0, 0);
      secondPassed := false;
      prevMillis := 0;
      relay := new Relay.RelayManager(Relay.RELAY_PIN);
    }

    method Loop(now: Millis, entry: Session, dec: Time -> Time)
      requires Valid()
      modifies this, relay
      ensures Valid()
      ensures Snap() == Step(old(Snap()), now, entry, dec)
      ensures relay.written == old(relay.written) + PinWrites(old(Snap()), Snap())
    {
      if Elapsed(now, prevMillis) > TICK_MS {
        secondPassed := true;
        prevMillis := now;
      }
      match state {
        case SettingTime =>
          var committed, done := TimeEntry.EnterTimeRotary(entry, ENTRY_COLUMN, setTime);
          if done {
            t := committed;
            setTime := t;
            state := Warming;
          }
        case Warming =>
          state := Radiating;
        case Radiating =>
          relay.TurnOn();
          if secondPassed {
            secondPassed := false;
            if t.minutes == 0 && t.seconds == 0 {
              relay.TurnOff();
              state := SettingTime;
            }
            t := dec(t);
          }
      }
    }
  }
}
