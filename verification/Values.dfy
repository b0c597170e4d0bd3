/** `Value`, its stored alternatives, and the checked conversions of `Value::Get`. */
module Values {
  import opened Outcomes
  import opened Powers
  import opened Rounding

  type byte = x: int | 0 <= x < 256

  const INTMAX_BITS: nat := 64
  const INTMAX_MIN: int := -0x8000_0000_0000_0000
  const INTMAX_MAX: int := 0x7FFF_FFFF_FFFF_FFFF

  /** The widths of `int` and `long` on a platform. */
  datatype Platform = Platform(intBits: nat, longBits: nat) {
    ghost predicate Valid() {
      16 <= intBits <= longBits && 32 <= longBits <= INTMAX_BITS
    }
  }

  type Widths = p: Platform | p.Valid() witness Platform(32, 64)

  /** The five integral alternatives of `ValuesVariant`. */
  datatype IntKind = Int | UInt | Long | ULong | Bool

  /** A `double`. Every real is allowed: the conversions are stated for all of them. */
  datatype Float = Finite(r: real) | Infinite(negative: bool) | NaN

  datatype Value =
    | Null
    | Number(kind: IntKind, n: int)
    | Real(d: Float)
    | Text(s: string)
    | Blob(bytes: seq<byte>)

  /** The type argument of `Get`. */
  datatype Target = AsNumber(kind: IntKind) | AsReal | AsText | AsBlob

  predicate IsSigned(k: IntKind) {
    k.Int? || k.Long?
  }

  function Bits(w: Widths, k: IntKind): (b: nat)
    ensures 1 <= b <= INTMAX_BITS
  {
    match k
    case Int => w.intBits
    case UInt => w.intBits
    case Long => w.longBits
    case ULong => w.longBits
    case Bool => 1
  }

  function Lowest(w: Widths, k: IntKind): int {
    if IsSigned(k) then -Pow2(Bits(w, k) - 1) else 0
  }

  function Highest(w: Widths, k: IntKind): int {
    if IsSigned(k) then Pow2(Bits(w, k) - 1) - 1 else Pow2(Bits(w, k)) - 1
  }

  predicate Fits(w: Widths, k: IntKind, n: int) {
    Lowest(w, k) <= n <= Highest(w, k)
  }

  /** What a `Value` can hold on a platform. */
  predicate WellTyped(w: Widths, v: Value) {
    v.Number? ==> Fits(w, v.kind, v.n)
  }

  function TypeOf(v: Value): Target
    requires !v.Null?
  {
    match v
    case Number(k, _) => AsNumber(k)
    case Real(_) => AsReal
    case Text(_) => AsText
    case Blob(_) => AsBlob
  }

  /** `static_cast<To>(x)` for an integral `To`. */
  function Cast(w: Widths, k: IntKind, x: int): int {
    if k.Bool? then (if x != 0 then 1 else 0)
    else if IsSigned(k) then WrapSigned(Bits(w, k), x)
    else WrapUnsigned(Bits(w, k), x)
  }

  /** `convert_numeric` between two integral types: the source is widened to `intmax_t`
      or `uintmax_t`, compared with the limits of the target, and cast. */
  function ConvertIntegral(w: Widths, from: IntKind, val: int, to: IntKind): Outcome<Value> {
    if IsSigned(from) then
      var wide := WrapSigned(INTMAX_BITS, val);
      if IsSigned(to) then
        if wide < WrapSigned(INTMAX_BITS, Lowest(w, to)) || wide > WrapSigned(INTMAX_BITS, Highest(w, to)) then Throws
        else Got(Number(to, Cast(w, to, wide)))
      else
        if wide < 0 then Throws
        else if WrapUnsigned(INTMAX_BITS, wide) > WrapUnsigned(INTMAX_BITS, Highest(w, to)) then Throws
        else Got(Number(to, Cast(w, to, wide)))
    else
      var wide := WrapUnsigned(INTMAX_BITS, val);
      if wide > WrapUnsigned(INTMAX_BITS, Highest(w, to)) then Throws
      else Got(Number(to, Cast(w, to, wide)))
  }

  /** `convert_numeric` from `double` to an integral type. The cast to `intmax_t` comes
      before any range check, so an integral value outside `intmax_t` has no defined result. */
  function ConvertFloat(w: Widths, d: Float, to: IntKind): Outcome<Value> {
    if !d.Finite? then Throws
    else if d.r.Floor as real != d.r then Throws
    else
      var wide := d.r.Floor;
      if !(INTMAX_MIN <= wide <= INTMAX_MAX) then Undefined
      else if IsSigned(to) then
        if wide < WrapSigned(INTMAX_BITS, Lowest(w, to)) || wide > WrapSigned(INTMAX_BITS, Highest(w, to)) then Throws
        else Got(Number(to, Cast(w, to, wide)))
      else
        if wide < 0 then Throws
        else if WrapUnsigned(INTMAX_BITS, wide) > WrapUnsigned(INTMAX_BITS, Highest(w, to)) then Throws
        else Got(Number(to, Cast(w, to, wide)))
  }

  function Get(w: Widths, v: Value, to: Target): Outcome<Value> {
    match v
    case Null => Throws
    case Number(from, n) =>
      (match to
       case AsNumber(k) => if k == from then Got(v) else ConvertIntegral(w, from, n, k)
       case AsReal => Got(Real(Finite(RoundInteger(n) as real)))
       case _ => Throws)
    case Real(d) =>
      (match to
       case AsNumber(k) => ConvertFloat(w, d, k)
       case AsReal => Got(v)
       case _ => Throws)
    case Text(_) => if to.AsText? then Got(v) else Throws
    case Blob(_) => if to.AsBlob? then Got(v) else Throws
  }

  // ----- limits and casts -----

  lemma IntmaxLimits()
    ensures Pow2(INTMAX_BITS - 1) == INTMAX_MAX + 1 == -INTMAX_MIN
    ensures Pow2(INTMAX_BITS) == 2 * (INTMAX_MAX + 1)
  {
    PowerTable();
  }

  /** The limits of every integral type lie within 64 bits. */
  lemma LimitsWithin64(w: Widths, k: IntKind)
    ensures INTMAX_MIN <= Lowest(w, k) <= 0 <= Highest(w, k) < Pow2(INTMAX_BITS)
    ensures IsSigned(k) || k.Bool? ==> Highest(w, k) <= INTMAX_MAX
  {
    IntmaxLimits();
    Pow2Monotone(Bits(w, k) - 1, INTMAX_BITS - 1);
    Pow2Monotone(Bits(w, k), INTMAX_BITS);
    assert Pow2(1) == 2;
  }

  lemma LimitsOfBool(w: Widths)
    ensures Lowest(w, Bool) == 0 && Highest(w, Bool) == 1
  {
  }

  /** A cast is exact on the range of its target. */
  lemma CastExact(w: Widths, k: IntKind, x: int)
    ensures Fits(w, k, x) ==> Cast(w, k, x) == x
  {
    assert Pow2(1) == 2;
    WrapSignedExact(Bits(w, k), x);
    WrapUnsignedExact(Bits(w, k), x);
  }

  lemma SignedCastIsTyped(w: Widths, k: IntKind, x: int)
    requires IsSigned(k)
    ensures Fits(w, k, Cast(w, k, x))
  {
    WrapSignedExact(Bits(w, k), x);
    assert Cast(w, k, x) == WrapSigned(Bits(w, k), x);
  }

  lemma UnsignedCastIsTyped(w: Widths, k: IntKind, x: int)
    requires !IsSigned(k) && !k.Bool?
    ensures Fits(w, k, Cast(w, k, x))
  {
    WrapUnsignedExact(Bits(w, k), x);
  }

  /** A cast lands in the range of its target. */
  lemma CastIsTyped(w: Widths, k: IntKind, x: int)
    ensures Fits(w, k, Cast(w, k, x))
  {
    if k.Bool? {
      LimitsOfBool(w);
    } else if IsSigned(k) {
      SignedCastIsTyped(w, k, x);
    } else {
      UnsignedCastIsTyped(w, k, x);
    }
  }

  /** So it is exact there only. */
  lemma CastFitsIff(w: Widths, k: IntKind, x: int)
    ensures Fits(w, k, Cast(w, k, x))
    ensures Cast(w, k, x) == x <==> Fits(w, k, x)
  {
    CastIsTyped(w, k, x);
    CastExact(w, k, x);
  }

  /** The byte by byte copy that binders make of a blob. */
  method CopyBytes(bytes: seq<byte>) returns (content: seq<byte>)
    ensures content == bytes
  {
    content := seq(|bytes|, i => 0);
    var i := 0;
    while i < |bytes|
      invariant 0 <= i <= |bytes| && |content| == |bytes|
      invariant content[..i] == bytes[..i]
    {
      content := content[i := bytes[i]];
      i := i + 1;
    }
  }

  /** The bytes that a client reads from a buffer when it is told the length as an `int`:
      all of them, or fewer. A negative length leaves what it does undefined. */
  function Announced(w: Widths, bytes: seq<byte>): Outcome<seq<byte>> {
    var size := Cast(w, Int, |bytes|);
    if 0 <= size <= |bytes| then Got(bytes[..size]) else Undefined
  }

  lemma CastOfSize(w: Widths, n: nat)
    ensures Cast(w, Int, n) <= n
  {
    RemainderAtMost(n, Pow2(w.intBits));
  }

  lemma RemainderAtMost(n: nat, m: int)
    requires m > 0
    ensures 0 <= n % m <= n
  {
    if n < m {
      DivModUnique(n, m, 0, n);
    }
  }

  /** It reads the whole buffer exactly when `int` holds the length. */
  lemma AnnouncedInFullIff(w: Widths, bytes: seq<byte>)
    ensures Announced(w, bytes) == Got(bytes) <==> Fits(w, Int, |bytes|)
    ensures Announced(w, bytes).Got? && Announced(w, bytes) != Got(bytes) ==> |Announced(w, bytes).value| < |bytes|
    ensures Announced(w, bytes).Got? ==> Announced(w, bytes).value <= bytes
    ensures !Announced(w, bytes).Got? ==> Announced(w, bytes) == Undefined
  {
    WrapSignedExact(w.intBits, |bytes|);
    assert bytes[..|bytes|] == bytes;
  }

  lemma WideLimits(w: Widths, k: IntKind)
    ensures IsSigned(k) ==> WrapSigned(INTMAX_BITS, Lowest(w, k)) == Lowest(w, k)
    ensures IsSigned(k) ==> WrapSigned(INTMAX_BITS, Highest(w, k)) == Highest(w, k)
    ensures WrapUnsigned(INTMAX_BITS, Highest(w, k)) == Highest(w, k)
  {
    IntmaxLimits();
    LimitsWithin64(w, k);
    WrapSignedExact(INTMAX_BITS, Lowest(w, k));
    WrapSignedExact(INTMAX_BITS, Highest(w, k));
    WrapUnsignedExact(INTMAX_BITS, Highest(w, k));
  }

  // ----- integral to integral -----

  /** Between any two integral types, `Get` succeeds exactly when the number fits the
      target, and then hands over that same number. */
  lemma IntegralGetIsExact(w: Widths, v: Value, to: IntKind)
    requires v.Number? && WellTyped(w, v)
    ensures Get(w, v, AsNumber(to)) == if Fits(w, to, v.n) then Got(Number(to, v.n)) else Throws
  {
    IntmaxLimits();
    LimitsWithin64(w, v.kind);
    LimitsWithin64(w, to);
    WideLimits(w, to);
    WrapSignedExact(INTMAX_BITS, v.n);
    WrapUnsignedExact(INTMAX_BITS, v.n);
    CastExact(w, to, v.n);
  }

  /** The outcome depends on the number alone, not on the type that stores it. */
  lemma IntegralGetIgnoresSource(w: Widths, a: Value, b: Value, to: Target)
    requires a.Number? && b.Number? && a.n == b.n && WellTyped(w, a) && WellTyped(w, b)
    ensures Get(w, a, to) == Get(w, b, to)
  {
    if to.AsNumber? {
      IntegralGetIsExact(w, a, to.kind);
      IntegralGetIsExact(w, b, to.kind);
    }
  }

  /** Successful conversions keep the order of the numbers, whatever types store them. */
  lemma IntegralGetKeepsOrder(w: Widths, a: Value, b: Value, to: IntKind)
    requires a.Number? && b.Number? && WellTyped(w, a) && WellTyped(w, b)
    ensures Get(w, a, AsNumber(to)).Got? && Get(w, b, AsNumber(to)).Got? ==>
              (a.n < b.n <==> Get(w, a, AsNumber(to)).value.n < Get(w, b, AsNumber(to)).value.n)
  {
    IntegralGetIsExact(w, a, to);
    IntegralGetIsExact(w, b, to);
  }

  /** `Get` applied along a chain of integral types. */
  function GetAlong(w: Widths, v: Value, path: seq<IntKind>): Outcome<Value>
    decreases path
  {
    if path == [] then Got(v)
    else
      match Get(w, v, AsNumber(path[0]))
      case Got(next) => GetAlong(w, next, path[1..])
      case failed => failed
  }

  predicate FitsAll(w: Widths, path: seq<IntKind>, n: int) {
    forall k <- path :: Fits(w, k, n)
  }

  lemma FitsAllUnfold(w: Widths, path: seq<IntKind>, n: int)
    requires path != []
    ensures FitsAll(w, path, n) <==> Fits(w, path[0], n) && FitsAll(w, path[1..], n)
  {
  }

  /** One step of a chain, by the first conversion's outcome. */
  lemma AlongStep(w: Widths, v: Value, path: seq<IntKind>)
    requires v.Number? && WellTyped(w, v) && path != []
    ensures GetAlong(w, v, path) ==
            if Fits(w, path[0], v.n) then GetAlong(w, Number(path[0], v.n), path[1..]) else Throws
  {
    IntegralGetIsExact(w, v, path[0]);
  }

  /** A chain of conversions succeeds exactly when the number fits every type on the way,
      and then holds the original number in the last type. */
  lemma {:induction false} ChainIsExact(w: Widths, v: Value, path: seq<IntKind>)
    requires v.Number? && WellTyped(w, v) && path != []
    ensures GetAlong(w, v, path) ==
            if FitsAll(w, path, v.n) then Got(Number(path[|path| - 1], v.n)) else Throws
    decreases path
  {
    AlongStep(w, v, path);
    FitsAllUnfold(w, path, v.n);
    if Fits(w, path[0], v.n) && |path| > 1 {
      ChainIsExact(w, Number(path[0], v.n), path[1..]);
    }
  }

  /** Hence a chain that succeeds gives what the direct conversion gives. */
  lemma ChainEqualsDirect(w: Widths, v: Value, path: seq<IntKind>)
    requires v.Number? && WellTyped(w, v) && path != []
    ensures GetAlong(w, v, path).Got? ==> GetAlong(w, v, path) == Get(w, v, AsNumber(path[|path| - 1]))
  {
    ChainIsExact(w, v, path);
    IntegralGetIsExact(w, v, path[|path| - 1]);
  }

  // ----- across kinds -----

  /** `Get` hands over a value of the requested type as it is, converts between numbers, and
      throws for everything else: from NULL to any type, between numbers and text or blobs,
      and between text and blobs. */
  lemma GetAcrossKinds(w: Widths, v: Value, t: Target)
    ensures v.Null? ==> Get(w, v, t) == Throws
    ensures !v.Null? && t == TypeOf(v) ==> Get(w, v, t) == Got(v)
    ensures (v.Number? || v.Real?) && (t.AsText? || t.AsBlob?) ==> Get(w, v, t) == Throws
    ensures v.Text? && !t.AsText? ==> Get(w, v, t) == Throws
    ensures v.Blob? && !t.AsBlob? ==> Get(w, v, t) == Throws
  {
  }

  /** An integer asked for as a double gives a representable number that none is nearer to. */
  lemma IntegerAsDouble(w: Widths, v: Value, p: int)
    requires v.Number? && Representable(Magnitude(p))
    ensures var d := Get(w, v, AsReal);
            && d.Got? && d.value.Real? && d.value.d.Finite?
            && d.value.d.r == d.value.d.r.Floor as real
            && Representable(Magnitude(d.value.d.r.Floor))
            && Distance(v.n, d.value.d.r.Floor) <= Distance(v.n, p)
  {
    RoundedIntegerIsNearest(v.n, p);
    assert (RoundInteger(v.n) as real).Floor == RoundInteger(v.n);
  }

  // ----- double to integral -----

  /** A double converts to an integral type exactly when it is a whole number that fits,
      as long as it lies within `intmax_t`. Outside, a whole number has no defined outcome. */
  lemma FloatGetIsExact(w: Widths, d: Float, to: IntKind)
    ensures Get(w, Real(d), AsNumber(to)) ==
            if !d.Finite? || d.r.Floor as real != d.r then Throws
            else if d.r < INTMAX_MIN as real || d.r > INTMAX_MAX as real then Undefined
            else if Fits(w, to, d.r.Floor) then Got(Number(to, d.r.Floor))
            else Throws
  {
    if d.Finite? && d.r.Floor as real == d.r && INTMAX_MIN <= d.r.Floor <= INTMAX_MAX {
      var n := d.r.Floor;
      IntmaxLimits();
      LimitsWithin64(w, to);
      WideLimits(w, to);
      WrapUnsignedExact(INTMAX_BITS, n);
      CastExact(w, to, n);
    }
  }

  /** `unsigned long` values from 2^63 up are never reached from a double, although on a
      platform with a 64-bit `long` they fit the target. */
  lemma LargeFloatIsUndefined(w: Widths, n: int)
    requires w.longBits == INTMAX_BITS && INTMAX_MAX < n <= Highest(w, ULong)
    ensures Fits(w, ULong, n) && Get(w, Real(Finite(n as real)), AsNumber(ULong)) == Undefined
  {
  }

  // ----- integral to double and back -----

  /** Integer to double and back: exact for precisely the numbers that binary64 holds,
      except that the way back is closed to those above `intmax_t`. */
  lemma IntegerThroughDoubleIff(w: Widths, v: Value)
    requires v.Number? && WellTyped(w, v)
    ensures Get(w, v, AsReal).Got?
    ensures Get(w, Get(w, v, AsReal).value, AsNumber(v.kind)) == Got(v)
            <==> Representable(Magnitude(v.n)) && v.n <= INTMAX_MAX
  {
    var m := Magnitude(v.n);
    var back := RoundInteger(v.n);
    FloatGetIsExact(w, Finite(back as real), v.kind);
    RoundingIsExactIff(m);
    LimitsWithin64(w, v.kind);
    IntmaxLimits();
    assert (back as real).Floor == back;
    assert back == v.n <==> RoundMagnitude(m) == m;
  }

  /** Every integer of magnitude at most 2^53 survives the trip. */
  lemma IntegerThroughDouble(w: Widths, v: Value)
    requires v.Number? && WellTyped(w, v) && Magnitude(v.n) <= Pow2(SIGNIFICAND_BITS)
    ensures Get(w, v, AsReal).Got?
    ensures Get(w, Get(w, v, AsReal).value, AsNumber(v.kind)) == Got(v)
  {
    SmallIsRepresentable(Magnitude(v.n));
    IntegerThroughDoubleIff(w, v);
    PowerTable();
  }

  lemma NarrowMagnitude(w: Widths, v: Value)
    requires v.Number? && WellTyped(w, v) && Bits(w, v.kind) <= SIGNIFICAND_BITS
    ensures Magnitude(v.n) <= Pow2(SIGNIFICAND_BITS)
  {
    Pow2Monotone(Bits(w, v.kind), SIGNIFICAND_BITS);
    Pow2Monotone(Bits(w, v.kind) - 1, SIGNIFICAND_BITS);
  }

  /** So `int`, `unsigned int` and `bool` always survive where `int` has at most 53 bits. */
  lemma IntThroughDouble(w: Widths, v: Value)
    requires w.intBits <= SIGNIFICAND_BITS
    requires v.Number? && WellTyped(w, v) && (v.kind.Int? || v.kind.UInt? || v.kind.Bool?)
    ensures Get(w, v, AsReal).Got?
    ensures Get(w, Get(w, v, AsReal).value, AsNumber(v.kind)) == Got(v)
  {
    NarrowMagnitude(w, v);
    IntegerThroughDouble(w, v);
  }
}
