/** Decimal text: `std::to_string` for integers, and `std::stoll`. */
module Decimal {
  import opened Outcomes
  import opened Values

  predicate IsDigit(c: char) {
    '0' <= c <= '9'
  }

  /** `isspace` of the C locale. */
  predicate IsSpace(c: char) {
    c == ' ' || '\t' <= c <= '\r'
  }

  ghost predicate AllDigits(s: string) {
    forall c <- s :: IsDigit(c)
  }

  function Digit(d: int): (c: char)
    requires 0 <= d < 10
    ensures IsDigit(c) && (c == '0' <==> d == 0)
  {
    ('0' as int + d) as char
  }

  function DigitValue(c: char): nat
    requires IsDigit(c)
  {
    c as int - '0' as int
  }

  function Digits(n: nat): string {
    if n < 10 then [Digit(n)] else Digits(n / 10) + [Digit(n % 10)]
  }

  function Zeros(k: nat): (s: string)
    ensures |s| == k && forall c <- s :: c == '0'
  {
    seq(k, i => '0')
  }

  /** A number printed with `pad` leading zeros (a server does so for ZEROFILL columns). */
  function Padded(n: int, pad: nat): string {
    if n < 0 then "-" + Zeros(pad) + Digits(-n) else Zeros(pad) + Digits(n)
  }

  function ToString(n: int): string {
    if n < 0 then "-" + Digits(-n) else Digits(n)
  }

  /** The number that a run of digits spells, read from the left. */
  function Numeral(s: string): nat
    requires AllDigits(s)
  {
    if s == [] then 0
    else 10 * Numeral(s[..|s| - 1]) + DigitValue(s[|s| - 1])
  }

  function SkipSpaces(s: string): string {
    if s != [] && IsSpace(s[0]) then SkipSpaces(s[1..]) else s
  }

  /** The longest prefix of digits. */
  function DigitRun(s: string): (r: string)
    ensures AllDigits(r) && r <= s
    ensures |r| == |s| || !IsDigit(s[|r|])
  {
    if s != [] && IsDigit(s[0]) then [s[0]] + DigitRun(s[1..]) else []
  }

  predicate HasMinus(t: string) {
    t != [] && t[0] == '-'
  }

  function AfterSign(t: string): string {
    if t != [] && (t[0] == '-' || t[0] == '+') then t[1..] else t
  }

  function ToLongLong(n: int): Option<int> {
    if INTMAX_MIN <= n <= INTMAX_MAX then Some(n) else None
  }

  function OfDigits(negative: bool, digits: string): Option<int>
    requires AllDigits(digits)
  {
    if digits == [] then None else ToLongLong(if negative then 0 - Numeral(digits) else Numeral(digits))
  }

  /** `std::stoll`, base 10: `None` stands for the exceptions it throws, for text without
      a number and for a number outside `long long`. Text after the number is ignored. */
  function Stoll(s: string): Option<int> {
    var t := SkipSpaces(s);
    OfDigits(HasMinus(t), DigitRun(AfterSign(t)))
  }

  /** The parsed number, or 0 where parsing throws. */
  function StollOrZero(s: string): int {
    match Stoll(s)
    case Some(n) => n
    case None => 0
  }

  // ----- printing then parsing -----

  lemma {:induction false} DigitsSpell(n: nat)
    ensures Digits(n) != [] && AllDigits(Digits(n)) && Numeral(Digits(n)) == n
    decreases n
  {
    if n >= 10 {
      DigitsSpell(n / 10);
      assert Digits(n)[..|Digits(n)| - 1] == Digits(n / 10);
    } else {
      assert Digits(n)[..0] == [];
    }
  }

  lemma {:induction false} LeadingZeros(k: nat, s: string)
    requires AllDigits(s)
    ensures AllDigits(Zeros(k) + s) && Numeral(Zeros(k) + s) == Numeral(s)
    decreases |s| + k
  {
    var t := Zeros(k) + s;
    if s != [] {
      assert t[..|t| - 1] == Zeros(k) + s[..|s| - 1];
      LeadingZeros(k, s[..|s| - 1]);
    } else if k > 0 {
      assert t[..|t| - 1] == Zeros(k - 1) + s;
      LeadingZeros(k - 1, s);
    } else {
      assert t == [];
    }
  }

  lemma {:induction false} DigitRunOfDigits(s: string)
    requires AllDigits(s)
    ensures DigitRun(s) == s
  {
  }

  /** The digits of a printed number, without its sign. */
  function Unsigned(n: int, pad: nat): string {
    Zeros(pad) + Digits(if n < 0 then -n else n)
  }

  lemma PaddedIsSigned(n: int, pad: nat)
    ensures Padded(n, pad) == if n < 0 then ['-'] + Unsigned(n, pad) else Unsigned(n, pad)
  {
  }

  lemma UnsignedSpells(n: int, pad: nat)
    ensures Unsigned(n, pad) != [] && AllDigits(Unsigned(n, pad))
    ensures Numeral(Unsigned(n, pad)) == if n < 0 then -n else n
  {
    var m := if n < 0 then -n else n;
    DigitsSpell(m);
    LeadingZeros(pad, Digits(m));
  }

  lemma DigitsHaveNoSign(digits: string)
    requires digits != [] && AllDigits(digits)
    ensures SkipSpaces(digits) == digits && AfterSign(digits) == digits && !HasMinus(digits)
  {
    assert IsDigit(digits[0]);
  }

  lemma SignIsStripped(digits: string)
    ensures SkipSpaces(['-'] + digits) == ['-'] + digits
    ensures HasMinus(['-'] + digits) && AfterSign(['-'] + digits) == digits
  {
  }

  lemma StollParts(s: string, digits: string)
    requires digits != [] && AllDigits(digits) && SkipSpaces(s) == s && AfterSign(s) == digits
    ensures Stoll(s) == ToLongLong(if HasMinus(s) then 0 - Numeral(digits) else Numeral(digits))
  {
    DigitRunOfDigits(digits);
  }

  /** Printing then parsing gives the number back exactly when `long long` holds it, and an
      exception otherwise; leading zeros make no difference. */
  lemma StollOfPadded(n: int, pad: nat)
    ensures Stoll(Padded(n, pad)) == ToLongLong(n)
  {
    var digits := Unsigned(n, pad);
    PaddedIsSigned(n, pad);
    UnsignedSpells(n, pad);
    if n < 0 {
      SignIsStripped(digits);
    } else {
      DigitsHaveNoSign(digits);
    }
    StollParts(Padded(n, pad), digits);
  }

  lemma PaddedWithoutZeros(n: int)
    ensures Padded(n, 0) == ToString(n)
  {
  }

  lemma StollOfToString(n: int)
    ensures Stoll(ToString(n)) == ToLongLong(n)
  {
    PaddedWithoutZeros(n);
    StollOfPadded(n, 0);
  }

  /** The first character of a printed number is '0' exactly for zero. */
  lemma FirstCharacterTellsZero(n: int)
    ensures ToString(n) != []
    ensures ToString(n)[0] == '0' <==> n == 0
  {
    if n > 0 {
      FirstDigitOfPositive(n);
    }
    DigitsSpell(if n < 0 then -n else n);
  }

  lemma {:induction false} FirstDigitOfPositive(n: nat)
    requires n > 0
    ensures Digits(n) != [] && Digits(n)[0] != '0'
    decreases n
  {
    if n >= 10 {
      FirstDigitOfPositive(n / 10);
    }
  }
}
