/** The detent rule the entry widgets share, and the wrap-around steps of a bounded
    field. A detent is a change of exactly +4 or -4 of the raw encoder count against a
    reference position, which the widget moves to the new count only when a detent is
    taken. */
module Decoder {
  /** Raw quadrature transitions per mechanical click. */
  const DETENT_DELTA: int := 4

  /** Up is the source's turn to the "negative" side (+4), Down its "positive" side (-4). */
  datatype Detent = Up | Down | NoDetent

  /** The detent a pass reads against the reference: Up exactly on +4, Down exactly on
      -4, none for any other delta (a jump of 8 included). */
  function Decode(reference: int, pos: int): (d: Detent)
    ensures d == Up <==> pos - reference == DETENT_DELTA
    ensures d == Down <==> pos - reference == -DETENT_DELTA
    ensures d == NoDetent <==> pos - reference != DETENT_DELTA && pos - reference != -DETENT_DELTA
  {
    if pos - reference == DETENT_DELTA then Up
    else if pos - reference == -DETENT_DELTA then Down
    else NoDetent
  }

  /** One step up, wrapping past `max` to 0. */
  function WrapUp(v: int, max: nat): (r: int)
    ensures 0 <= v <= max ==> r == (v + 1) % (max + 1)
  {
    if v < max then v + 1 else 0
  }

  /** One step down, wrapping below 0 to `max`. */
  function WrapDown(v: int, max: nat): (r: int)
    ensures 0 <= v <= max ==> r == (v + max) % (max + 1)
  {
    if v > 0 then v - 1 else max
  }

  /** A step up followed by a step down (or the reverse) restores any value in range. */
  lemma WrapRoundTrip(v: int, max: nat)
    requires 0 <= v <= max
    ensures WrapDown(WrapUp(v, max), max) == v
    ensures WrapUp(WrapDown(v, max), max) == v
  {
  }
}
