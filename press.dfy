/** Classification of a button press by how long it was held (src/main.cpp:199-207). */
module Press {

  /** LONG_PRESS_DURATION_MS of the source, in milliseconds. */
  const LONG_PRESS_DURATION_MS: nat := 2000

  /** A press is long when the time measured since it was detected has reached
      the threshold; anything shorter is a short press. */
  predicate IsLong(held: nat)
  {
    held >= LONG_PRESS_DURATION_MS
  }

  /** The classification is a threshold at exactly 2000 ms: holding longer never turns a
      long press short, 2000 ms is long and 1999 ms is short. */
  lemma LongPressThreshold(held: nat, longer: nat)
    requires held <= longer
    ensures IsLong(held) ==> IsLong(longer)
    ensures IsLong(LONG_PRESS_DURATION_MS) && !IsLong(LONG_PRESS_DURATION_MS - 1)
  {
  }
}
