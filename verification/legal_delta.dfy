/** The clamp applied to every movement of the pinned stack. */
module LegalDelta {

  /** x pulled back onto the bound it overshoots; the lower bound is checked first. */
  function Clamp(x: int, lo: int, hi: int): (r: int)
    ensures lo <= hi ==> lo <= r <= hi
    ensures lo <= x <= hi ==> r == x
  {
    if x < lo then lo else if x > hi then hi else x
  }

  /** The part of delta that keeps current + delta inside [min, max]. */
  function GetLegalDelta(current: int, min: int, max: int, delta: int): (r: int)
    ensures delta == 0 ==> r == 0
    ensures delta != 0 ==> current + r == Clamp(current + delta, min, max)
    ensures min <= max && delta != 0 ==> min <= current + r <= max
    ensures min <= current + delta <= max ==> r == delta
    ensures min <= current <= max && delta > 0 ==> 0 <= r <= delta
    ensures min <= current <= max && delta < 0 ==> delta <= r <= 0
  {
    if delta == 0 then 0
    else
      var future := current + delta;
      if future < min then delta + (min - future)
      else if future > max then delta + (max - future)
      else delta
  }
}
