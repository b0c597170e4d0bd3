/** Powers of two, and the wrap-around of two's complement casts. */
module Powers {
  function Pow2(n: nat): (p: int)
    ensures p >= 1
  {
    if n == 0 then 1 else 2 * Pow2(n - 1)
  }

  lemma {:induction false} Pow2Monotone(a: nat, b: nat)
    requires a <= b
    ensures Pow2(a) <= Pow2(b)
    decreases b
  {
    if a < b {
      Pow2Monotone(a, b - 1);
    }
  }

  lemma {:induction false} Pow2Sum(a: nat, b: nat)
    ensures Pow2(a + b) == Pow2(a) * Pow2(b)
  {
    if a > 0 {
      Pow2Sum(a - 1, b);
      assert Pow2(a + b) == 2 * (Pow2(a - 1) * Pow2(b));
    }
  }

  lemma MulGrows(d: int, m: int)
    requires m > 0
    ensures d >= 1 ==> d * m >= m
    ensures d <= -1 ==> d * m <= -m
  {
  }

  /** Quotient and remainder are unique. */
  lemma DivModUnique(x: int, m: int, q: int, r: int)
    requires x == q * m + r && 0 <= r < m
    ensures x / m == q && x % m == r
  {
    var d := x / m - q;
    assert d * m == r - x % m by {
      assert x == x / m * m + x % m;
    }
    MulGrows(d, m);
  }

  /** The powers that name a machine width. */
  lemma PowerTable()
    ensures Pow2(1) == 2 && Pow2(16) == 0x1_0000
    ensures Pow2(31) == 0x8000_0000 && Pow2(32) == 0x1_0000_0000
    ensures Pow2(53) == 0x20_0000_0000_0000
    ensures Pow2(63) == 0x8000_0000_0000_0000 && Pow2(64) == 0x1_0000_0000_0000_0000
  {
    assert Pow2(5) == 32;
    assert Pow2(7) == 128 && Pow2(8) == 256;
    Pow2Sum(8, 8);
    Pow2Sum(16, 16);
    Pow2Sum(16, 5);
    Pow2Sum(32, 21);
    Pow2Sum(32, 32);
    assert Pow2(32) == 2 * Pow2(31);
    assert Pow2(64) == 2 * Pow2(63);
  }

  /** The value of a cast to a signed type of `bits` bits. */
  function WrapSigned(bits: nat, x: int): int
    requires bits >= 1
  {
    var m := x % Pow2(bits);
    if m < Pow2(bits - 1) then m else m - Pow2(bits)
  }

  /** The value of a cast to an unsigned type of `bits` bits. */
  function WrapUnsigned(bits: nat, x: int): int
  {
    x % Pow2(bits)
  }

  /** Casts are exact on the range of their target, and always land in it. */
  lemma WrapSignedExact(bits: nat, x: int)
    requires bits >= 1
    ensures -Pow2(bits - 1) <= WrapSigned(bits, x) < Pow2(bits - 1)
    ensures WrapSigned(bits, x) == x <==> -Pow2(bits - 1) <= x < Pow2(bits - 1)
  {
    var m := Pow2(bits);
    if 0 <= x < Pow2(bits - 1) {
      DivModUnique(x, m, 0, x);
    } else if -Pow2(bits - 1) <= x < 0 {
      DivModUnique(x, m, -1, x + m);
    }
  }

  /** A cast to an unsigned type is exact on its range, and only there. */
  lemma WrapUnsignedExact(bits: nat, x: int)
    ensures 0 <= WrapUnsigned(bits, x) < Pow2(bits)
    ensures WrapUnsigned(bits, x) == x <==> 0 <= x < Pow2(bits)
  {
    if 0 <= x < Pow2(bits) {
      DivModUnique(x, Pow2(bits), 0, x);
    }
  }

  /** The upper half of an unsigned type reads as negative when cast to the signed
      type of the same width. */
  lemma WrapSignedUpperHalf(bits: nat, x: int)
    requires bits >= 1 && Pow2(bits - 1) <= x < Pow2(bits)
    ensures WrapSigned(bits, x) == x - Pow2(bits) < 0
  {
    DivModUnique(x, Pow2(bits), 0, x);
  }
}
