/** Conversion of integers to binary64: roundTiesToEven, section 4.3.1 of IEEE 754-2019. */
module Rounding {
  import opened Powers

  const SIGNIFICAND_BITS: nat := 53

  /** A magnitude that binary64 holds exactly. (The exponent range is no limit here:
      integers of at most 64 bits never reach it.) */
  ghost predicate Representable(m: nat) {
    exists k: nat, e: nat :: IsScaled(m, k, e)
  }

  ghost predicate IsScaled(m: nat, k: nat, e: nat) {
    k < Pow2(SIGNIFICAND_BITS) && m == k * Pow2(e)
  }

  /** The exponent of the last significand bit of `m`. */
  function Exponent(m: nat): (e: nat)
    ensures m < Pow2(SIGNIFICAND_BITS + e)
    ensures e > 0 ==> Pow2(SIGNIFICAND_BITS + e - 1) <= m
  {
    if m < Pow2(SIGNIFICAND_BITS) then 0 else 1 + Exponent(m / 2)
  }

  function Times(k: nat, unit: nat): nat {
    k * unit
  }

  /** The significand, rounded to nearest, ties to even. */
  function RoundedSignificand(m: nat, unit: nat): nat
    requires unit > 0
  {
    var down := m / unit;
    var rest := m % unit;
    if 2 * rest > unit || (2 * rest == unit && down % 2 == 1) then down + 1 else down
  }

  function RoundMagnitude(m: nat): nat {
    var unit := Pow2(Exponent(m));
    Times(RoundedSignificand(m, unit), unit)
  }

  function Magnitude(n: int): nat {
    if n < 0 then -n else n
  }

  function RoundInteger(n: int): int {
    if n >= 0 then RoundMagnitude(n) else 0 - RoundMagnitude(-n)
  }

  lemma QuotientBounds(m: nat, e: nat)
    requires m < Pow2(SIGNIFICAND_BITS + e)
    ensures m / Pow2(e) < Pow2(SIGNIFICAND_BITS)
    ensures Pow2(e) > 0 && m == m / Pow2(e) * Pow2(e) + m % Pow2(e)
  {
    Pow2Sum(SIGNIFICAND_BITS, e);
    if m / Pow2(e) >= Pow2(SIGNIFICAND_BITS) {
      assert m / Pow2(e) * Pow2(e) >= Pow2(SIGNIFICAND_BITS) * Pow2(e) by {
        MulMonotone(Pow2(SIGNIFICAND_BITS), m / Pow2(e), Pow2(e));
      }
    }
  }

  lemma MulMonotone(a: int, b: int, c: int)
    requires a <= b && c >= 0
    ensures a * c <= b * c
  {
  }

  /** A representable magnitude is a multiple of its own last-bit unit, and of the
      unit of every smaller one. */
  lemma RepresentableIsMultiple(p: nat, e: nat)
    requires Representable(p)
    requires e == 0 || Pow2(SIGNIFICAND_BITS + e - 1) <= p
    ensures p % Pow2(e) == 0
  {
    if e == 0 {
      assert Pow2(0) == 1;
      return;
    }
    var k: nat, f: nat :| IsScaled(p, k, f);
    ScaledBound(p, k, f);
    if f < e {
      Pow2Monotone(SIGNIFICAND_BITS + f, SIGNIFICAND_BITS + e - 1);
      assert false;
    }
    Pow2Sum(f - e, e);
    ScaledDivides(k, Pow2(f - e), Pow2(e));
  }

  lemma ScaledBound(p: nat, k: nat, f: nat)
    requires IsScaled(p, k, f)
    ensures p < Pow2(SIGNIFICAND_BITS + f)
  {
    Pow2Sum(SIGNIFICAND_BITS, f);
    MulMonotone(k + 1, Pow2(SIGNIFICAND_BITS), Pow2(f));
    assert (k + 1) * Pow2(f) == k * Pow2(f) + Pow2(f);
  }

  lemma ScaledDivides(k: int, a: int, b: int)
    requires b > 0
    ensures k * (a * b) % b == 0
  {
    assert k * (a * b) == (k * a) * b;
    DivModUnique(k * (a * b), b, k * a, 0);
  }

  /** Rounding yields a representable magnitude. */
  lemma RoundedIsRepresentable(m: nat)
    ensures Representable(RoundMagnitude(m))
  {
    var e := Exponent(m);
    QuotientBounds(m, e);
    var k := RoundedSignificand(m, Pow2(e));
    if k < Pow2(SIGNIFICAND_BITS) {
      assert IsScaled(RoundMagnitude(m), k, e);
    } else {
      Pow2Sum(SIGNIFICAND_BITS, e);
      Pow2Sum(SIGNIFICAND_BITS - 1, e + 1);
      assert RoundMagnitude(m) == Pow2(SIGNIFICAND_BITS + e);
      assert IsScaled(RoundMagnitude(m), Pow2(SIGNIFICAND_BITS - 1), e + 1);
    }
  }

  /** No representable magnitude is nearer than the rounded one. */
  lemma RoundedIsNearest(m: nat, p: nat)
    requires Representable(p)
    ensures Distance(m, RoundMagnitude(m)) <= Distance(m, p)
  {
    var e := Exponent(m);
    var unit := Pow2(e);
    RoundedIsHalfUnitAway(m, unit);
    if p >= m || e == 0 || Pow2(SIGNIFICAND_BITS + e - 1) <= p {
      RepresentableIsMultiple(p, e);
      NearestMultiple(m, p, unit);
    } else {
      var floor := Pow2(SIGNIFICAND_BITS + e - 1);
      Pow2Sum(SIGNIFICAND_BITS - 1, e);
      DivModUnique(floor, unit, Pow2(SIGNIFICAND_BITS - 1), 0);
      NearestMultiple(m, floor, unit);
    }
  }

  lemma SplitByUnit(m: nat, unit: nat)
    requires unit > 0
    ensures m == m / unit * unit + m % unit && (m / unit + 1) * unit == m / unit * unit + unit
    ensures 0 <= m % unit < unit
  {
  }

  /** The rounded magnitude is the multiple below or the one above, whichever is not farther. */
  lemma RoundedIsNeighbour(m: nat, unit: nat)
    requires unit > 0
    ensures Times(RoundedSignificand(m, unit), unit) ==
            if RoundedSignificand(m, unit) == m / unit then m / unit * unit else m / unit * unit + unit
    ensures RoundedSignificand(m, unit) == m / unit ==> 2 * (m % unit) <= unit
    ensures RoundedSignificand(m, unit) != m / unit ==> 2 * (m % unit) >= unit
  {
    SplitByUnit(m, unit);
  }

  /** So it is at most as far away as the nearer of these multiples. */
  lemma RoundedIsHalfUnitAway(m: nat, unit: nat)
    requires unit > 0
    ensures Distance(m, Times(RoundedSignificand(m, unit), unit)) <= m - m / unit * unit
    ensures Distance(m, Times(RoundedSignificand(m, unit), unit)) <= (m / unit + 1) * unit - m
  {
    SplitByUnit(m, unit);
    RoundedIsNeighbour(m, unit);
  }

  function Distance(a: int, b: int): nat {
    if a < b then b - a else a - b
  }

  /** For integers of either sign: no representable integer is nearer than the rounded one. */
  lemma RoundedIntegerIsNearest(n: int, p: int)
    requires Representable(Magnitude(p))
    ensures Representable(Magnitude(RoundInteger(n)))
    ensures Distance(n, RoundInteger(n)) <= Distance(n, p)
  {
    RoundedIsRepresentable(Magnitude(n));
    RoundedIsNearest(Magnitude(n), Magnitude(p));
    SmallIsRepresentable(0);
    RoundedIsNearest(Magnitude(n), 0);
  }

  lemma NearestMultiple(m: nat, p: nat, unit: int)
    requires unit > 0 && p % unit == 0
    ensures p <= m / unit * unit || p >= (m / unit + 1) * unit
  {
    var q := p / unit;
    assert p == q * unit;
    if q <= m / unit {
      MulMonotone(q, m / unit, unit);
    } else {
      MulMonotone(m / unit + 1, q, unit);
    }
  }

  /** Rounding leaves a magnitude alone exactly when it is representable. */
  lemma RoundingIsExactIff(m: nat)
    ensures RoundMagnitude(m) == m <==> Representable(m)
  {
    if Representable(m) {
      RoundedIsNearest(m, m);
    } else {
      RoundedIsRepresentable(m);
    }
  }

  /** Every magnitude up to 2^53 is representable. */
  lemma SmallIsRepresentable(m: nat)
    requires m <= Pow2(SIGNIFICAND_BITS)
    ensures Representable(m)
  {
    if m < Pow2(SIGNIFICAND_BITS) {
      assert Pow2(0) == 1;
      assert IsScaled(m, m, 0);
    } else {
      assert Pow2(1) == 2;
      assert IsScaled(m, Pow2(SIGNIFICAND_BITS - 1), 1);
    }
  }

  /** A tie between two neighbours goes to the even significand. */
  lemma TieGoesToEven(m: nat)
    requires var unit := Pow2(Exponent(m)); 2 * (m % unit) == unit
    ensures RoundMagnitude(m) / Pow2(Exponent(m)) % 2 == 0
  {
    var unit := Pow2(Exponent(m));
    var k := RoundedSignificand(m, unit);
    assert k % 2 == 0;
    DivModUnique(Times(k, unit), unit, k, 0);
  }
}
