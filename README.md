# Relay timer: verified model of the interaction core

This project models the control core of an Arduino relay timer (`src/main.cpp`).
An operator unlocks the device with a three-digit passcode entered on a rotary
encoder, sets a countdown as `MM:SS` with the same encoder and one push-button, and the
device then holds a relay on while it counts down once per second, returning to time
entry at 00:00.

Modules, one per component of the program:

- `Polling` (`polling.dfy`): a pass of a widget's polling loop (`Sample`: raw encoder
  count plus an optional held duration of the button), a widget invocation (`Session`),
  and the pass-by-pass fold both widgets are proved against.
- `Decoder` (`decoder.dfy`): the detent rule (exactly +4 or -4 against a reference
  count) and the wrap-around step up and step down of a bounded field.
- `Press` (`press.dfy`): `LONG_PRESS_DURATION_MS` = 2000 and the long/short test.
- `DigitEntry` (`digit_entry.dfy`): `EnterNumberRotary` as a `while` loop over passes,
  proved against `Step`/`Run`, a fold of one pass at a time.
- `TimeValue` (`time_value.dfy`): the (hours, minutes, seconds) record and the
  zero-padded `MM:SS` redraw.
- `TimeEntry` (`time_entry.dfy`): `EnterTimeRotary` as a `while` loop, proved against
  its own `Step`/`Run`; field selection, wrap without carry, long-press commit.
- `Passcode` (`passcode.dfy`): `EnterPasscode` (the weighted-sum loop calling the digit
  widget) and the retry gate of `setup()`.
- `Relay` (`relay.dfy`): class `RelayManager` with its `state` field and a ghost trace
  of the levels written to the pin.
- `Device` (`device.dfy`): the globals of `loop()` as class `Controller`, whose
  `Loop` method is proved against the pure transition `Step` on a `Snapshot`.

Each blocking widget reads a finite sequence of passes instead of polling hardware.
When no committing press occurs in that sequence, the widget reports `doExit == false`.
In the program, that widget would still be waiting.

Behaviour kept as the code has it:

- The reference count moves only when a detent is taken. Any other delta is ignored
  and stays pending against the old reference. A jump of 8 is never a detent.
- In the time entry the -4 test runs after the +4 test has already moved the reference,
  so a pass applies at most one detent.
- Seconds wrap 59 -> 0 without carrying into the minutes, and minutes wrap likewise.
- `isMinutesSet == false` means that the minutes are being edited. Entry starts that way.
- The `Cursor` field `row` is the display column (`SetCursor` swaps the arguments).
- On the tick that finds 00:00, `loop()` turns the relay off and still runs `t--`.
  The model keeps that decrement and leaves its result abstract.
- The one-second flag is not cleared outside Radiating. A tick that fell due during
  time entry is consumed on the first Radiating pass.
- A long press ends time entry as soon as 2000 ms have been measured, while the button
  is still down. Only the digit entry waits for the release.

## Model

| member | source | states |
|---|---|---|
| `Decoder.Decode` | src/main.cpp:117-125 | the detent rule both widgets use: Up exactly when the count is 4 above the reference, Down exactly when it is 4 below, no detent for any other delta, a jump of 8 included |
| `Polling.FoldFrozen` | src/main.cpp:113-146 | for a widget loop that runs only while it has not exited, passes after the exiting one change nothing, so the widget returns the state of the exiting pass |
| `Press.LongPressThreshold` | src/main.cpp:205 | long is a threshold at exactly 2000 ms: 2000 ms is long, 1999 ms is short, and holding longer never makes a long press short |
| `Decoder.WrapUp` | src/main.cpp:119 | for a value in [0,max], stepping up equals (v+1) mod (max+1), so max wraps to 0 |
| `Decoder.WrapDown` | src/main.cpp:127 | for a value in [0,max], stepping down equals (v+max) mod (max+1), so 0 wraps to max |
| `Decoder.WrapRoundTrip` | src/main.cpp:117-131 | a step up followed by a step down, or the reverse, restores any value in range |
| `DigitEntry.Step` | src/main.cpp:113-138 | one pass: +4 gives (d+1) mod 10 and moves the reference, -4 gives (d+9) mod 10 and moves it, any other delta changes neither; a press ends entry; no pass runs after the end; the digit stays in [0,9] |
| `DigitEntry.RunKeepsDigit` | src/main.cpp:107-131 | over any passes the digit stays in [0,9] |
| `DigitEntry.RunExits` | src/main.cpp:133-138 | entry has ended exactly when some pass saw a press |
| `DigitEntry.ReturnsDigitAtFirstPress` | src/main.cpp:133-148 | entry is still open before the first press and has ended after it, and the returned digit is the one that pass left |
| `DigitEntry.UpThenDownRestores` | src/main.cpp:117-131 | a +4 detent followed by a -4 detent back to the same count restores both digit and reference |
| `DigitEntry.EnterNumberRotary` | src/main.cpp:105-149 | the loop returns the digit and exit flag that the pass-by-pass fold gives; the digit is in [0,9]; it exits iff a press occurred |
| `TimeValue.Padded` | src/main.cpp:234-241 | a field below 100 is printed as exactly two digit characters that read back as the value, with a leading '0' exactly when it is below 10 |
| `TimeValue.Render` | src/main.cpp:234-249 | the redraw is 5 characters `MM:SS`: digits, ':' at index 2, both fields read back exactly, each zero-padded exactly when below 10 |
| `TimeEntry.Step` | src/main.cpp:165-228 | one pass: a long press (held >= 2000 ms) ends entry and a short one never does; the reference moves iff the delta is +-4; the active field moves by at most one detent, modulo 60, and the other field is unchanged; a short press swaps the flags and moves the column +3 from minutes or -3 from seconds; otherwise flags and column stay; coherent flags and in-range fields are kept |
| `TimeEntry.RunKeepsInvariant` | src/main.cpp:158-226 | over any passes the flags stay complementary, both fields stay in [0,59], and the column is the start column while minutes are active and start+3 while seconds are |
| `TimeEntry.Outcome` | src/main.cpp:153-163 | from a seed in range, with minutes active first, the state reached satisfies that invariant |
| `TimeEntry.RunExits` | src/main.cpp:199-208 | entry ends exactly when some pass saw a long press |
| `TimeEntry.CommitsAtFirstLongPress` | src/main.cpp:199-257 | entry is still open before the first long press and has ended after it, and the returned (0, minutes, seconds) are the fields as they stood in the pass of that press |
| `TimeEntry.RedrawIsMMSS` | src/main.cpp:229-254 | every state the editor reaches from a seed in range redraws as exactly five characters `MM:SS` that read back as its two fields |
| `TimeEntry.ShortPressParity` | src/main.cpp:209-226 | without a long press, an odd number of short presses leaves seconds active with the column at start+3; an even number leaves minutes active with the column restored |
| `TimeEntry.TurnsWrapWithoutCarry` | src/main.cpp:169-182 | k consecutive +4 detents advance the active field by k modulo 60 and leave the other field and the flags alone |
| `TimeEntry.NinetyDetentsOnSeconds` | src/main.cpp:169-226 | from 00:00, one short press and 90 detents give seconds 30 and minutes 0 |
| `TimeEntry.EnterTimeRotary` | src/main.cpp:153-258 | the loop returns (0, minutes, seconds) and the exit flag that the pass-by-pass fold gives; it exits iff a long press occurred; a seed in range gives a result in range |
| `Passcode.ValueIsWeightedSum` | src/main.cpp:262-268 | reading the digits left to right, each shifting the previous ones, equals the sum of d_i * 10^(n-1-i) |
| `Passcode.ValueBounds` | src/main.cpp:263-265 | n digits compose to a number in [0, 10^n - 1] |
| `Passcode.DigitsRoundTrip` | src/main.cpp:263-265 | decomposing the composed number into n decimal digits gives the digits back in entry order |
| `Passcode.ComposeInjective` | src/main.cpp:263-265 | two digit sequences of one length that compose to the same code are equal |
| `Passcode.ReferenceCodes` | src/main.cpp:22-23 | 4,5,1 compose to PASSCODE 451; 4,5,2 compose to 452, which differs from it |
| `Passcode.Pow10` | src/main.cpp:265 | the positional weight is an exact power of ten, at least 1, in place of the rounded floating-point power |
| `Passcode.Entered` | src/main.cpp:265 | the digits an attempt's widget invocations return are all in [0,9], one per invocation |
| `Passcode.EnterPasscode` | src/main.cpp:260-269 | completes iff each of the n widget invocations ended with a press; the result is the weighted sum of their digits, lies in [0,10^n-1], and the column has advanced by n |
| `Passcode.Attempt` | src/main.cpp:291 | an attempt yields a code iff its three digit entries all ended with a press; the code is the composed value of their digits and lies in [0, 999] |
| `Passcode.PasscodeGate` | src/main.cpp:285-304 | the gate opens at the first completed attempt composing to 451; every earlier attempt completed and was refused; when it has not opened, the attempts ran out or the next one never completed |
| `Relay.RelayManager.constructor` | src/main.cpp:45-52 | the relay starts off, with one low level written to its pin |
| `Relay.RelayManager.GetState` | src/main.cpp:53-56 | returns the level last written to the pin, which is the last requested state |
| `Relay.RelayManager.TurnOn` | src/main.cpp:57-64 | afterwards the relay is on; the pin gets one write only when it was off, so a second TurnOn changes nothing; consecutive writes always differ |
| `Relay.RelayManager.TurnOff` | src/main.cpp:65-72 | afterwards the relay is off; the pin gets one write only when it was on, so a second TurnOff changes nothing; consecutive writes always differ |
| `Device.Elapsed` | src/main.cpp:319 | the unsigned difference equals now - prevMillis when the clock has not wrapped and exceeds 1000 when it has |
| `Device.Step` | src/main.cpp:316-389 | the state only stays or moves one step along SettingTime -> Warming -> Radiating -> SettingTime; prevMillis becomes now exactly when the elapsed time exceeds 1000; outside Radiating the flag is set by a due tick and kept; a commit in SettingTime stores the entered time, seeded from setTime, as both t and the next seed; Radiating consumes the flag, holds the relay on, and leaves, with the relay off, exactly on a consumed tick with t at 00:00; t is decremented on every consumed tick |
| `Device.RunKeepsInvariant` | src/main.cpp:326-387 | over any calls of loop() the relay stays off outside Radiating and the seed stays a valid time |
| `Device.RelayOffOutsideRadiating` | src/main.cpp:355-387 | from power-up the relay is never on outside Radiating |
| `Device.CountdownFromTwoSeconds` | src/main.cpp:365-387 | Radiating from 00:02, two ticks count down to 00:01 and 00:00 with the relay on, and the next tick turns it off, with the only pin write of the three calls, and returns to SettingTime |
| `Device.Controller.constructor` | src/main.cpp:311-314 | the globals start in SettingTime with t, setTime at 00:00, no tick pending, prevMillis 0 and the relay off |
| `Device.Controller.Loop` | src/main.cpp:316-389 | one call of loop() changes the globals and the relay exactly as `Device.Step` says, keeps the relay's write trace coherent and the relay off outside Radiating (the class invariant `Valid`), and appends to the record of pin writes exactly `Device.PinWrites`: nothing outside Radiating, a high level when Radiating finds the relay off, a low level when it leaves Radiating |

## Left out

- LCD output is not modelled: `LiquidCrystal`, `SetCursor`, `ClearLine`, cursor on/off and every `print`/`println`. The `MM:SS` redraw text is modelled as `TimeValue.Render`, and cursor columns as plain integers.
- `Serial` logging is not modelled.
- GPIO is reduced to state. `pinMode` and `digitalRead` are not modelled. `digitalWrite` is recorded as the ghost trace `written`.
- `millis()`, `delay()` and the busy-waits at src/main.cpp:135-136 and 202-203 are replaced by data. A pass carries the held duration measured when the press is classified.
- The tick reads `millis()` twice (src/main.cpp:319 and 322). The model uses a single reading `now`.
- The widgets' `while (!doExit)` loops and the retry loop of `setup()` do not end on their own. They run over finite input sequences. A widget that sees no commit reports that it has not exited.
- `Device.Step`: when the time entry does not commit, the snapshot stays as the tick left it. Each call takes a fresh entry session, whereas the program would still be waiting in the first one.
- The `Time` class of `time.h` is not part of this model. Its constructor, `GetMinutes`/`GetSeconds` and `AsString` are not shown. `operator--` is the parameter `dec` of `Device.Step` and `Device.Controller.Loop`, so no property depends on its result. `Device.CountdownFromTwoSeconds` assumes only the two decrements it uses.
- The `Encoder` library is treated as a stream of integer counts. The counts are unbounded integers. The truncation of its 32-bit count into a 16-bit AVR `int` is not modelled.
- `Passcode.EnterPasscode`: the model sums in unbounded `int`. In the source `result` is a 16-bit AVR `int` (src/main.cpp:262), so the sum wraps from 5 digits on (five 9s give 99999, stored as -31073). The stated range [0, 10^n-1] holds in the source only for n <= 4; the program calls it only with `PASSCODE_LENGTH` = 3.
- `round(pow(10, k))` at src/main.cpp:265 uses floating point. It is modelled as the exact integer power `Passcode.Pow10`.
- Display bounds (2 lines, 16 columns) are not modelled. The column arithmetic is kept unbounded.
