/** RelayManager (src/main.cpp:39-73): a relay output that remembers its level and
    writes the pin only when the requested level differs from the remembered one. */
module Relay {

  /** RELAY_PIN of the source. */
  const RELAY_PIN: int := 13

  class RelayManager {
    const pin: int
    var state: bool
    /** The levels written to the pin so far, oldest first; the constructor writes once. */
    ghost var written: seq<bool>

    /** The pin starts low, always shows the remembered level, and no write repeats the
        level before it. */
    ghost predicate Valid()
      reads this
    {
      |written| >= 1 && !written[0] && written[|written| - 1] == state &&
      forall i :: 0 <= i < |written| - 1 ==> written[i] != written[i + 1]
    }

    constructor (pin: int)
      ensures Valid() && this.pin == pin
      ensures !state && written == [false]
    {
      this.pin := pin;
      state := false;
      written := [false];
    }

    /** The level last written to the pin. */
    function GetState(): (r: bool)
      reads this
      requires Valid()
      ensures r == written[|written| - 1]
    {
      state
    }

    method TurnOn()
      requires Valid()
      modifies this
      ensures Valid() && state
      ensures written == if old(state) then old(written) else old(written) + [true]
    {
      if !state {
        state := true;
        written := written + [state];
      }
    }

    method TurnOff()
      requires Valid()
      modifies this
      ensures Valid() && !state
      ensures written == if old(state) then old(written) + [false] else old(written)
    {
      if state {
        state := false;
        written := written + [state];
      }
    }
  }
}
