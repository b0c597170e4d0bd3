/** The re-typing that every fetch loop applies to a 64-bit column integer: `int` if it
    fits, `long` otherwise. */
module Retyping {
  import opened Outcomes
  import opened Powers
  import opened Values
  import opened Decimal

  function Retype(w: Widths, v: int): Value {
    if v > Highest(w, Int) || v < Lowest(w, Int) then Number(Long, Cast(w, Long, v))
    else Number(Int, Cast(w, Int, v))
  }

  /** What `Get` of an integral type does with an integer `n` of any storage. */
  function GetOfInteger(w: Widths, n: int, k: IntKind): Outcome<Value> {
    if Fits(w, k, n) then Got(Number(k, n)) else Throws
  }

  /** Re-typing loses nothing that `long` can hold: `Get` sees the number itself. */
  lemma RetypeKeepsNumber(w: Widths, v: int, k: IntKind)
    requires Fits(w, Long, v)
    ensures WellTyped(w, Retype(w, v)) && Retype(w, v) == Number(if Fits(w, Int, v) then Int else Long, v)
    ensures Get(w, Retype(w, v), AsNumber(k)) == GetOfInteger(w, v, k)
  {
    CastExact(w, Int, v);
    CastExact(w, Long, v);
    IntegralGetIsExact(w, Retype(w, v), k);
  }

  lemma IntWithinLong(w: Widths)
    ensures Lowest(w, Long) <= Lowest(w, Int) && Highest(w, Int) <= Highest(w, Long)
    ensures Highest(w, UInt) <= Highest(w, ULong)
  {
    Pow2Monotone(w.intBits - 1, w.longBits - 1);
    Pow2Monotone(w.intBits, w.longBits);
  }

  /** A number in the upper half of `unsigned long` comes back negative. */
  lemma RetypeWrapsUpperHalf(w: Widths, v: int)
    requires Highest(w, Long) < v <= Highest(w, ULong)
    ensures Retype(w, v) == Number(Long, v - Pow2(w.longBits)) && v - Pow2(w.longBits) < 0
    ensures WellTyped(w, Retype(w, v))
  {
    IntWithinLong(w);
    WrapSignedUpperHalf(w.longBits, v);
    WrapSignedExact(w.longBits, v);
  }

  // ----- decimal text in between -----

  /** Printing an integer, parsing the text and re-typing the result, then `Get` of the
      original type: the value returns exactly when `long` holds it. */
  lemma DecimalTripIff(w: Widths, v: Value)
    requires v.Number? && WellTyped(w, v) && !v.kind.Bool?
    ensures Get(w, Retype(w, StollOrZero(ToString(v.n))), AsNumber(v.kind)) == Got(v)
            <==> v.n <= Highest(w, Long)
  {
    StollOfToString(v.n);
    IntWithinLong(w);
    LimitsWithin64(w, Long);
    if v.n <= Highest(w, Long) {
      RetypeKeepsNumber(w, v.n, v.kind);
    } else if v.n > INTMAX_MAX {
      RetypeKeepsNumber(w, 0, v.kind);
    } else {
      RetypeWrapsUpperHalf(w, v.n);
      IntegralGetIsExact(w, Retype(w, v.n), v.kind);
    }
  }

  /** On a platform with 64-bit `long`: `int`, `unsigned int` narrower than `long`, and
      `long` always return; an `unsigned long` above 2^63-1 returns as 0. */
  lemma DecimalTrip64(w: Widths, v: Value)
    requires w.longBits == INTMAX_BITS && w.intBits < w.longBits
    requires v.Number? && WellTyped(w, v) && !v.kind.Bool?
    ensures var back := Get(w, Retype(w, StollOrZero(ToString(v.n))), AsNumber(v.kind));
            if v.kind.ULong? && v.n > INTMAX_MAX then back == Got(Number(ULong, 0)) else back == Got(v)
  {
    IntmaxLimits();
    Pow2Monotone(w.intBits, INTMAX_BITS - 1);
    IntWithinLong(w);
    DecimalTripIff(w, v);
    StollOfToString(v.n);
    RetypeKeepsNumber(w, 0, v.kind);
  }
}
