/** The two MariaDB decoders: `StepResults` for the text protocol, and the fetch part of
    `DoExecute` for prepared statements. They read the same columns by different routes. */
module MariaDbFetch {
  import opened Outcomes
  import opened Powers
  import opened Values
  import opened Decimal
  import opened Retyping
  import opened Rows

  const BINARY_CHARSET: nat := 63

  datatype FieldType =
    | Tiny | Short | Int32 | Int24 | LongLong
    | SingleFloat | DoubleFloat | Decimal | NewDecimal
    | TinyBlob | MediumBlob | LongBlob | PlainBlob
    | VarString | FixedString | VarChar | OtherType

  /** The members of a `MYSQL_FIELD` that the decoders look at. */
  datatype Field = Field(name: string, ftype: FieldType, unsigned: bool, length: nat, charset: nat)

  function NameOf(f: Option<Field>): string {
    ColumnName(if f.Some? then Some(f.value.name) else None)
  }

  /** `field ? field->type : MYSQL_TYPE_STRING` */
  function TypeOfField(f: Option<Field>): FieldType {
    if f.Some? then f.value.ftype else FixedString
  }

  predicate IsUnsigned(f: Option<Field>) {
    f.Some? && f.value.unsigned
  }

  /** TINYINT(1) stands for a boolean. */
  predicate IsBoolColumn(f: Option<Field>) {
    f.Some? && !f.value.unsigned && f.value.length == 1
  }

  predicate IsBinaryBlob(f: Option<Field>) {
    f.Some? && f.value.charset == BINARY_CHARSET
  }

  /** The characters of a `std::string` as bytes. */
  function BytesOf(s: string): (bytes: seq<byte>)
    ensures |bytes| == |s|
    ensures forall i :: 0 <= i < |s| && s[i] as int < 256 ==> bytes[i] == s[i] as int
  {
    seq(|s|, i requires 0 <= i < |s| => s[i] as int % 256)
  }

  // ----- text protocol -----

  /** One cell of `StepResults`; `parseFloat` is `std::stod`, `None` where it throws. */
  function DecodeText(w: Widths, parseFloat: string -> Option<Float>, f: Option<Field>, cell: Option<string>): Value {
    match cell
    case None => Null
    case Some(text) =>
      match TypeOfField(f)
      case Tiny =>
        if IsBoolColumn(f) then Number(Bool, if text == [] || text[0] != '0' then 1 else 0)
        else Retype(w, StollOrZero(text))
      case Short => Retype(w, StollOrZero(text))
      case Int32 => Retype(w, StollOrZero(text))
      case Int24 => Retype(w, StollOrZero(text))
      case LongLong => Number(Long, Cast(w, Long, StollOrZero(text)))
      case SingleFloat => DecodeFloat(parseFloat, text)
      case DoubleFloat => DecodeFloat(parseFloat, text)
      case Decimal => DecodeFloat(parseFloat, text)
      case NewDecimal => DecodeFloat(parseFloat, text)
      case TinyBlob => DecodeBlob(f, text)
      case MediumBlob => DecodeBlob(f, text)
      case LongBlob => DecodeBlob(f, text)
      case PlainBlob => DecodeBlob(f, text)
      case VarString => Text(text)
      case FixedString => Text(text)
      case VarChar => Text(text)
      case OtherType => Text(text)
  }

  function DecodeFloat(parseFloat: string -> Option<Float>, text: string): Value {
    match parseFloat(text)
    case Some(d) => Real(d)
    case None => Real(Finite(0.0))
  }

  function DecodeBlob(f: Option<Field>, text: string): Value {
    if IsBinaryBlob(f) then Blob(BytesOf(text)) else Text(text)
  }

  // ----- prepared-statement protocol -----

  /** What the server holds in a cell. `pad` is the zero fill of its decimal form. */
  datatype Cell = NullCell | IntegerCell(n: int, pad: nat) | FloatCell(d: Float) | BytesCell(s: string)

  /** The seven output buffers that `DoExecute` keeps for each column. */
  datatype Buffers = Buffers(
    asBool: int, asInt: int, asUInt: int, asLong: int, asULong: int,
    asFloat: Float, asString: string
  )

  const ZEROED: Buffers := Buffers(0, 0, 0, 0, 0, Finite(0.0), "")

  datatype BufferName = BoolBuffer | IntBuffer | UIntBuffer | LongBuffer | ULongBuffer | FloatBuffer | StringBuffer

  /** The buffer that a column is bound to before the fetch. */
  function BoundBuffer(f: Option<Field>): BufferName {
    match TypeOfField(f)
    case Tiny => if IsBoolColumn(f) then BoolBuffer else if IsUnsigned(f) then UIntBuffer else IntBuffer
    case Short => if IsUnsigned(f) then UIntBuffer else IntBuffer
    case Int32 => if IsUnsigned(f) then UIntBuffer else IntBuffer
    case LongLong => if IsUnsigned(f) then ULongBuffer else LongBuffer
    case SingleFloat => FloatBuffer
    case DoubleFloat => FloatBuffer
    case _ => StringBuffer
  }

  /** The driver fills the bound buffer, in the width of that buffer, and no other. A number
      that goes to the string buffer arrives as its decimal text; `printFloat` is the
      server's rendering of a float. */
  function Deliver(printFloat: Float -> string, f: Option<Field>, cell: Cell): Buffers {
    match cell
    case NullCell => ZEROED
    case IntegerCell(n, pad) =>
      (match BoundBuffer(f)
       case BoolBuffer => ZEROED.(asBool := WrapSigned(8, n))
       case IntBuffer => ZEROED.(asInt := WrapSigned(32, n))
       case UIntBuffer => ZEROED.(asUInt := WrapUnsigned(32, n))
       case LongBuffer => ZEROED.(asLong := WrapSigned(64, n))
       case ULongBuffer => ZEROED.(asULong := WrapUnsigned(64, n))
       case FloatBuffer => ZEROED.(asFloat := Finite(n as real))
       case StringBuffer => ZEROED.(asString := Padded(n, pad)))
    case FloatCell(d) =>
      (match BoundBuffer(f)
       case FloatBuffer => ZEROED.(asFloat := d)
       case StringBuffer => ZEROED.(asString := printFloat(d))
       case _ => ZEROED)
    case BytesCell(s) => if BoundBuffer(f).StringBuffer? then ZEROED.(asString := s) else ZEROED
  }

  /** One cell of the fetch loop of `DoExecute`: which buffer is read, and as what. */
  function DecodeBuffers(w: Widths, f: Option<Field>, isNull: bool, b: Buffers): Value {
    if isNull then Null
    else
      match TypeOfField(f)
      case Tiny =>
        if IsBoolColumn(f) then Number(Bool, if b.asBool != 0 then 1 else 0)
        else if IsUnsigned(f) then Number(UInt, Cast(w, UInt, b.asUInt))
        else Number(Int, Cast(w, Int, b.asInt))
      case Short => DecodeInt(w, f, b)
      case Int32 => DecodeInt(w, f, b)
      case LongLong =>
        if IsUnsigned(f) then Number(ULong, Cast(w, ULong, b.asULong)) else Number(Long, Cast(w, Long, b.asLong))
      case SingleFloat => Real(b.asFloat)
      case DoubleFloat => Real(b.asFloat)
      case PlainBlob => DecodeBlob(f, b.asString)
      case _ => Text(b.asString)
  }

  function DecodeInt(w: Widths, f: Option<Field>, b: Buffers): Value {
    if IsUnsigned(f) then Number(UInt, Cast(w, UInt, b.asUInt)) else Number(Int, Cast(w, Int, b.asInt))
  }

  function DecodeBinary(w: Widths, printFloat: Float -> string, f: Option<Field>, cell: Cell): Value {
    DecodeBuffers(w, f, cell.NullCell?, Deliver(printFloat, f, cell))
  }

  // ----- the two decoders compared -----

  /** The text protocol's form of a cell. */
  function TextForm(printFloat: Float -> string, cell: Cell): Option<string> {
    match cell
    case NullCell => None
    case IntegerCell(n, pad) => Some(Padded(n, pad))
    case FloatCell(d) => Some(printFloat(d))
    case BytesCell(s) => Some(s)
  }

  /** The width of an integer column, in bits. */
  function ColumnBits(t: FieldType): nat {
    match t
    case Tiny => 8
    case Short => 16
    case Int32 => 32
    case LongLong => 64
    case _ => 0
  }

  /** The columns that both decoders treat alike by design, with the cells that they can hold.
      Only unsigned columns are filled with zeros. */
  ghost predicate InColumn(f: Option<Field>, cell: Cell) {
    var t := TypeOfField(f);
    match cell
    case NullCell => true
    case IntegerCell(n, pad) =>
      && ColumnBits(t) > 0
      && (if IsUnsigned(f) then 0 <= n < Pow2(ColumnBits(t))
          else pad == 0 && -Pow2(ColumnBits(t) - 1) <= n < Pow2(ColumnBits(t) - 1))
    case FloatCell(_) => false
    case BytesCell(_) => t.PlainBlob? || t.VarString? || t.FixedString? || t.VarChar? || t.OtherType?
  }

  /** No caller can tell the values apart through `Get` or `IsNull`. */
  ghost predicate Alike(w: Widths, a: Value, b: Value) {
    a.Null? == b.Null? && forall t :: Get(w, a, t) == Get(w, b, t)
  }

  lemma AlikeIffSameNumber(w: Widths, a: Value, b: Value)
    requires a.Number? && b.Number? && WellTyped(w, a) && WellTyped(w, b)
    ensures Alike(w, a, b) <==> a.n == b.n
  {
    if a.n == b.n {
      forall t ensures Get(w, a, t) == Get(w, b, t) {
        IntegralGetIgnoresSource(w, a, b, t);
      }
    } else {
      IntegralGetIsExact(w, a, b.kind);
      assert Get(w, a, AsNumber(b.kind)) != Get(w, b, AsNumber(b.kind));
    }
  }

  /** The type that the prepared-statement decoder gives an integer column. */
  function BinaryKind(f: Option<Field>): IntKind {
    var t := TypeOfField(f);
    if t.Tiny? && IsBoolColumn(f) then Bool
    else if IsUnsigned(f) then (if t.LongLong? then ULong else UInt)
    else (if t.LongLong? then Long else Int)
  }

  /** For which numbers of an integer column the decoders agree, whatever the widths of `int`
      and `long`: a signed number must fit the type that it gets; an unsigned one must fit
      that type and `long` too, which the text decoder goes through; LONGLONG goes through
      the same cast on both sides, but an unsigned one beyond `long long` makes `std::stoll`
      throw, so that the text decoder reports 0. */
  predicate AgreeOn(w: Widths, f: Option<Field>, n: int) {
    match BinaryKind(f)
    case Bool => true
    case Long => true
    case Int => Fits(w, Int, n)
    case UInt => Fits(w, UInt, n) && Fits(w, Long, n)
    case ULong => if n <= INTMAX_MAX then Cast(w, ULong, n) <= Highest(w, Long) else Cast(w, ULong, n) == 0
  }

  // ----- the number that the text decoder finds -----

  /** What `std::stoll` makes of a printed number. */
  function Parsed(n: int): int {
    if INTMAX_MIN <= n <= INTMAX_MAX then n else 0
  }

  lemma TextTellsZero(n: int)
    ensures var text := Padded(n, 0); text != [] && (text[0] != '0' <==> n != 0)
  {
    PaddedWithoutZeros(n);
    FirstCharacterTellsZero(n);
  }

  lemma RetypeIsTyped(w: Widths, n: int)
    ensures WellTyped(w, Retype(w, n)) && Retype(w, n).Number?
    ensures Retype(w, n).n == if Fits(w, Int, n) then n else Cast(w, Long, n)
  {
    CastIsTyped(w, Long, n);
    CastExact(w, Int, n);
  }

  lemma TextDecodesInteger(w: Widths, parseFloat: string -> Option<Float>, f: Option<Field>, text: string, n: int)
    requires StollOrZero(text) == n && ColumnBits(TypeOfField(f)) > 0 && !BinaryKind(f).Bool?
    ensures var v := DecodeText(w, parseFloat, f, Some(text));
            && v.Number? && WellTyped(w, v)
            && v.n == if TypeOfField(f).LongLong? || !Fits(w, Int, n) then Cast(w, Long, n) else n
  {
    CastIsTyped(w, Long, n);
    RetypeIsTyped(w, n);
  }

  lemma ParsedWithinLong(w: Widths, n: int)
    requires n <= INTMAX_MAX && Fits(w, Long, n)
    ensures Parsed(n) == n && Cast(w, Long, n) == n
  {
    LimitsWithin64(w, Long);
    CastExact(w, Long, n);
  }

  /** The text decoder finds the number of the cell whenever `long long` and `long` hold it. */
  lemma TextDecodesNumber(w: Widths, parseFloat: string -> Option<Float>, f: Option<Field>, n: int, pad: nat)
    requires InColumn(f, IntegerCell(n, pad))
    ensures var v := DecodeText(w, parseFloat, f, Some(Padded(n, pad)));
            && v.Number? && WellTyped(w, v)
            && (if BinaryKind(f).Bool? then v.n == if n != 0 then 1 else 0
                else if TypeOfField(f).LongLong? || !Fits(w, Int, Parsed(n)) then v.n == Cast(w, Long, Parsed(n))
                else v.n == Parsed(n))
            && (!BinaryKind(f).Bool? && n <= INTMAX_MAX && Fits(w, Long, n) ==> v.n == n)
  {
    if BinaryKind(f).Bool? {
      LimitsOfBool(w);
      TextTellsZero(n);
    } else {
      StollOfPadded(n, pad);
      TextDecodesInteger(w, parseFloat, f, Padded(n, pad), Parsed(n));
      if n <= INTMAX_MAX && Fits(w, Long, n) {
        ParsedWithinLong(w, n);
      }
    }
  }

  // ----- the number that the prepared-statement decoder finds -----

  /** The bits of the output buffer that a type is read from. */
  function OutputBits(k: IntKind): (bits: nat)
    ensures bits >= 1
  {
    match k
    case Bool => 8
    case Int => 32
    case UInt => 32
    case Long => 64
    case ULong => 64
  }

  /** The buffer that is bound is the buffer that is read. */
  lemma BinaryReadsBoundBuffer(w: Widths, printFloat: Float -> string, f: Option<Field>, n: int, pad: nat)
    requires ColumnBits(TypeOfField(f)) > 0
    ensures var k := BinaryKind(f);
            DecodeBinary(w, printFloat, f, IntegerCell(n, pad)) ==
            Number(k, Cast(w, k, if IsSigned(k) || k.Bool? then WrapSigned(OutputBits(k), n)
                                 else WrapUnsigned(OutputBits(k), n)))
  {
  }

  /** That buffer is wide enough for the column. */
  lemma BufferHoldsCell(f: Option<Field>, n: int, pad: nat)
    requires InColumn(f, IntegerCell(n, pad))
    ensures var k := BinaryKind(f);
            n == if IsSigned(k) || k.Bool? then WrapSigned(OutputBits(k), n) else WrapUnsigned(OutputBits(k), n)
  {
    var k, bits := BinaryKind(f), ColumnBits(TypeOfField(f));
    if IsUnsigned(f) {
      Pow2Monotone(bits, OutputBits(k));
      WrapUnsignedExact(OutputBits(k), n);
    } else {
      Pow2Monotone(bits - 1, OutputBits(k) - 1);
      WrapSignedExact(OutputBits(k), n);
    }
  }

  /** The prepared-statement decoder finds the number of the cell, as its type holds it. */
  lemma BinaryDecodesNumber(w: Widths, printFloat: Float -> string, f: Option<Field>, n: int, pad: nat)
    requires InColumn(f, IntegerCell(n, pad))
    ensures var v, k := DecodeBinary(w, printFloat, f, IntegerCell(n, pad)), BinaryKind(f);
            v == Number(k, Cast(w, k, n)) && WellTyped(w, v) && (Fits(w, k, n) ==> v.n == n)
  {
    BinaryReadsBoundBuffer(w, printFloat, f, n, pad);
    BufferHoldsCell(f, n, pad);
    CastIsTyped(w, BinaryKind(f), n);
    CastExact(w, BinaryKind(f), n);
  }

  // ----- exactly where they agree -----

  /** Columns narrower than LONGLONG hold nothing that `long long` does not. */
  lemma NarrowColumn(f: Option<Field>, n: int, pad: nat)
    requires InColumn(f, IntegerCell(n, pad)) && !TypeOfField(f).LongLong?
    ensures -Pow2(31) <= n < Pow2(32) && Parsed(n) == n
    ensures !IsUnsigned(f) ==> n < Pow2(31)
  {
    PowerTable();
    Pow2Monotone(ColumnBits(TypeOfField(f)), 32);
    Pow2Monotone(ColumnBits(TypeOfField(f)) - 1, 31);
  }

  lemma SignedColumn(w: Widths, n: int)
    requires -Pow2(31) <= n < Pow2(31)
    ensures Fits(w, Long, n)
    ensures (if Fits(w, Int, n) then n else Cast(w, Long, n)) == Cast(w, Int, n) <==> Fits(w, Int, n)
  {
    Pow2Monotone(31, w.longBits - 1);
    CastExact(w, Long, n);
    CastFitsIff(w, Int, n);
  }

  lemma UnsignedColumn(w: Widths, n: int)
    requires 0 <= n < Pow2(32)
    ensures (if Fits(w, Int, n) then n else Cast(w, Long, n)) == Cast(w, UInt, n)
            <==> Fits(w, UInt, n) && Fits(w, Long, n)
  {
    IntWithinLong(w);
    CastFitsIff(w, UInt, n);
    CastExact(w, Long, n);
    if !Fits(w, Long, n) {
      LongWraps(w, n);
    }
  }

  lemma LongWraps(w: Widths, n: int)
    requires 0 <= n < Pow2(32) && !Fits(w, Long, n)
    ensures Cast(w, Long, n) < 0
  {
    Pow2Monotone(32, w.longBits);
    WrapSignedUpperHalf(w.longBits, n);
  }

  lemma UnsignedLongColumn(w: Widths, n: int)
    ensures Cast(w, Long, n) == Cast(w, ULong, n) <==> Cast(w, ULong, n) <= Highest(w, Long)
    ensures Cast(w, Long, 0) == 0
  {
    CastIsTyped(w, Long, n);
    CastExact(w, Long, 0);
  }

  lemma ParsedLongLong(f: Option<Field>, n: int, pad: nat)
    requires InColumn(f, IntegerCell(n, pad)) && TypeOfField(f).LongLong?
    ensures Parsed(n) == n || (IsUnsigned(f) && n > INTMAX_MAX && Parsed(n) == 0)
  {
    IntmaxLimits();
  }

  lemma NumbersAgreeIff(w: Widths, f: Option<Field>, n: int, pad: nat, text: int)
    requires InColumn(f, IntegerCell(n, pad)) && !BinaryKind(f).Bool?
    requires text == if TypeOfField(f).LongLong? || !Fits(w, Int, Parsed(n)) then Cast(w, Long, Parsed(n))
                     else Parsed(n)
    ensures text == Cast(w, BinaryKind(f), n) <==> AgreeOn(w, f, n)
  {
    if TypeOfField(f).LongLong? {
      ParsedLongLong(f, n, pad);
      UnsignedLongColumn(w, n);
    } else {
      NarrowColumn(f, n, pad);
      if IsUnsigned(f) {
        UnsignedColumn(w, n);
      } else {
        SignedColumn(w, n);
      }
    }
  }

  /** Cells that both decoders turn into the same value. */
  predicate IsAgreed(w: Widths, f: Option<Field>, cell: Cell) {
    cell.IntegerCell? ==> AgreeOn(w, f, cell.n)
  }

  /** For every cell of those columns, whatever the widths of `int` and `long`, the two
      decoders give values that no `Get` can tell apart exactly where they agree. */
  lemma DecodersAgreeIff(w: Widths, parseFloat: string -> Option<Float>, printFloat: Float -> string,
                         f: Option<Field>, cell: Cell)
    requires InColumn(f, cell)
    ensures Alike(w, DecodeText(w, parseFloat, f, TextForm(printFloat, cell)), DecodeBinary(w, printFloat, f, cell))
            <==> IsAgreed(w, f, cell)
  {
    if cell.IntegerCell? {
      var IntegerCell(n, pad) := cell;
      var a := DecodeText(w, parseFloat, f, Some(Padded(n, pad)));
      TextDecodesNumber(w, parseFloat, f, n, pad);
      BinaryDecodesNumber(w, printFloat, f, n, pad);
      AlikeIffSameNumber(w, a, DecodeBinary(w, printFloat, f, cell));
      if !BinaryKind(f).Bool? {
        NumbersAgreeIff(w, f, n, pad, a.n);
      }
    }
  }

  /** An unsigned LONGLONG beyond `long long`. */
  predicate IsLostByText(cell: Cell) {
    cell.IntegerCell? && cell.n > INTMAX_MAX
  }

  lemma AgreedLongLong(w: Widths, f: Option<Field>, n: int, pad: nat)
    requires w.longBits == 64 && TypeOfField(f).LongLong? && InColumn(f, IntegerCell(n, pad))
    ensures AgreeOn(w, f, n) <==> n <= INTMAX_MAX
  {
    IntmaxLimits();
    WrapUnsignedExact(64, n);
  }

  lemma AgreedNarrow(w: Widths, f: Option<Field>, n: int, pad: nat)
    requires w.intBits == 32 && !TypeOfField(f).LongLong? && InColumn(f, IntegerCell(n, pad))
    ensures AgreeOn(w, f, n) <==> !IsUnsigned(f) || n <= Highest(w, Long)
  {
    NarrowColumn(f, n, pad);
    assert Highest(w, Int) == Pow2(31) - 1 && Highest(w, UInt) == Pow2(32) - 1;
  }

  lemma SmallColumn(w: Widths, f: Option<Field>, n: int, pad: nat)
    requires InColumn(f, IntegerCell(n, pad)) && (TypeOfField(f).Tiny? || TypeOfField(f).Short?)
    ensures n <= Highest(w, Long)
  {
    Pow2Monotone(ColumnBits(TypeOfField(f)), w.longBits - 1);
    Pow2Monotone(ColumnBits(TypeOfField(f)) - 1, w.longBits - 1);
  }

  lemma NarrowWithin64(w: Widths, f: Option<Field>, n: int, pad: nat)
    requires w.longBits == 64 && InColumn(f, IntegerCell(n, pad)) && !TypeOfField(f).LongLong?
    ensures n <= Highest(w, Long) == INTMAX_MAX
  {
    NarrowColumn(f, n, pad);
    Pow2Monotone(32, w.longBits - 1);
    IntmaxLimits();
  }

  /** With a 32-bit `int`, only unsigned INT and LONGLONG cells can be told apart: an INT
      that `long` cannot hold, and with a 64-bit `long` none but the LONGLONG cells that the
      text decoder loses. */
  lemma AgreedWith32BitInt(w: Widths, f: Option<Field>, n: int, pad: nat)
    requires w.intBits == 32 && InColumn(f, IntegerCell(n, pad))
    ensures !IsUnsigned(f) || TypeOfField(f).Tiny? || TypeOfField(f).Short? ==> AgreeOn(w, f, n)
    ensures IsUnsigned(f) && TypeOfField(f).Int32? ==> (AgreeOn(w, f, n) <==> n <= Highest(w, Long))
    ensures w.longBits == 64 ==> (AgreeOn(w, f, n) <==> !IsLostByText(IntegerCell(n, pad)))
  {
    if TypeOfField(f).LongLong? {
      if w.longBits == 64 {
        AgreedLongLong(w, f, n, pad);
      }
    } else {
      AgreedNarrow(w, f, n, pad);
      if TypeOfField(f).Tiny? || TypeOfField(f).Short? {
        SmallColumn(w, f, n, pad);
      }
      if w.longBits == 64 {
        NarrowWithin64(w, f, n, pad);
      }
    }
  }

  /** Where `long` has as few bits as `int`, the decoders part ways on every cell of an
      unsigned INT column that `long` cannot hold. */
  lemma DecodersDifferWithNarrowLong(w: Widths, parseFloat: string -> Option<Float>, printFloat: Float -> string,
                                     f: Option<Field>, n: int, pad: nat)
    requires w.intBits == w.longBits == 32
    requires TypeOfField(f).Int32? && IsUnsigned(f) && Highest(w, Long) < n <= Highest(w, UInt)
    ensures !Alike(w, DecodeText(w, parseFloat, f, Some(Padded(n, pad))),
                   DecodeBinary(w, printFloat, f, IntegerCell(n, pad)))
  {
    DecodersAgreeIff(w, parseFloat, printFloat, f, IntegerCell(n, pad));
  }

  // ----- what each route yields -----

  predicate IsFloatType(t: FieldType) {
    t.SingleFloat? || t.DoubleFloat?
  }

  predicate IsDecimalType(t: FieldType) {
    t.Decimal? || t.NewDecimal?
  }

  predicate IsBlobType(t: FieldType) {
    t.TinyBlob? || t.MediumBlob? || t.LongBlob? || t.PlainBlob?
  }

  /** The type that a column is known by: without a `MYSQL_FIELD`, a string. */
  function KnownType(f: Option<Field>): FieldType {
    match f
    case Some(field) => field.ftype
    case None => FixedString
  }

  /** A column that counts as a boolean: a signed TINYINT(1). */
  predicate IsTinyint1(f: Option<Field>) {
    f.Some? && f.value.ftype.Tiny? && !f.value.unsigned && f.value.length == 1
  }

  /** The cells that a column of each type holds. */
  ghost predicate CanHold(f: Option<Field>, cell: Cell) {
    var t := KnownType(f);
    match cell
    case NullCell => true
    case IntegerCell(n, _) =>
      InColumn(f, cell) || (t.Int24? && -Pow2(23) <= n < Pow2(24))
    case FloatCell(_) => IsFloatType(t) || IsDecimalType(t)
    case BytesCell(_) => !IsFloatType(t) && !IsDecimalType(t) && !t.Int24? && ColumnBits(t) == 0
  }

  /** The blob with the bytes of a cell, of the same length and in the same order. */
  ghost predicate IsBlobOf(s: string, v: Value) {
    && v.Blob? && |v.bytes| == |s|
    && forall i :: 0 <= i < |s| && s[i] as int < 256 ==> v.bytes[i] == s[i] as int
  }

  /** What a cell of bytes becomes: for the blob types that the route knows, a blob where the
      charset is the binary one; text of exactly the cell for everything else. */
  ghost predicate IsBytesValue(f: Option<Field>, known: bool, s: string, v: Value) {
    if known && f.Some? && f.value.charset == 63 then IsBlobOf(s, v) else v == Text(s)
  }

  /** What the text decoder yields for a cell of the server. An integer keeps its number where
      `long long` and `long` hold it; TINYINT(1) is true unless it is 0; a float or decimal is
      the parsed double, 0 if parsing throws. */
  ghost predicate IsTextValue(w: Widths, parseFloat: string -> Option<Float>, printFloat: Float -> string,
                              f: Option<Field>, cell: Cell, v: Value)
  {
    match cell
    case NullCell => v == Null
    case IntegerCell(n, _) =>
      if IsTinyint1(f) then v == Number(Bool, if n != 0 then 1 else 0)
      else v.Number? && WellTyped(w, v) && (n <= INTMAX_MAX && Fits(w, Long, n) ==> v.n == n)
    case FloatCell(d) =>
      (match parseFloat(printFloat(d)) case Some(p) => v == Real(p) case None => v == Real(Finite(0.0)))
    case BytesCell(s) => IsBytesValue(f, IsBlobType(KnownType(f)), s, v)
  }

  /** What the prepared-statement decoder yields. An integer has the type of its column and
      keeps its number where that type holds it; a float is the double delivered; INT24 and
      decimal columns come as text, and of the blob types only the plain one is known. */
  ghost predicate IsBinaryValue(w: Widths, printFloat: Float -> string, f: Option<Field>, cell: Cell, v: Value) {
    var t := KnownType(f);
    match cell
    case NullCell => v == Null
    case IntegerCell(n, pad) =>
      if t.Int24? || f.None? then v == Text(Padded(n, pad))
      else if IsTinyint1(f) then v == Number(Bool, if n != 0 then 1 else 0)
      else
        var k := if t.LongLong? then (if f.value.unsigned then ULong else Long)
                 else if f.value.unsigned then UInt else Int;
        v.Number? && v.kind == k && WellTyped(w, v) && (Fits(w, k, n) ==> v.n == n)
    case FloatCell(d) => if IsFloatType(t) then v == Real(d) else v == Text(printFloat(d))
    case BytesCell(s) => IsBytesValue(f, t.PlainBlob?, s, v)
  }

  lemma Int24WithinLong(w: Widths, n: int)
    requires -Pow2(23) <= n < Pow2(24)
    ensures Fits(w, Long, n)
  {
    Pow2Monotone(24, w.longBits - 1);
    Pow2Monotone(23, w.longBits - 1);
  }

  lemma RetypedText(w: Widths, n: int, pad: nat)
    requires Fits(w, Long, n)
    ensures var v := Retype(w, StollOrZero(Padded(n, pad))); v.Number? && WellTyped(w, v) && v.n == n
  {
    LimitsWithin64(w, Long);
    StollOfPadded(n, pad);
    RetypeKeepsNumber(w, n, Int);
  }

  lemma TextYields(w: Widths, parseFloat: string -> Option<Float>, printFloat: Float -> string,
                   f: Option<Field>, cell: Cell)
    requires CanHold(f, cell)
    ensures IsTextValue(w, parseFloat, printFloat, f, cell, DecodeText(w, parseFloat, f, TextForm(printFloat, cell)))
  {
    if cell.IntegerCell? {
      if TypeOfField(f).Int24? {
        Int24WithinLong(w, cell.n);
        RetypedText(w, cell.n, cell.pad);
      } else {
        TextDecodesNumber(w, parseFloat, f, cell.n, cell.pad);
      }
    }
  }

  lemma BinaryIntegerYields(w: Widths, printFloat: Float -> string, f: Option<Field>, n: int, pad: nat)
    requires InColumn(f, IntegerCell(n, pad))
    ensures IsBinaryValue(w, printFloat, f, IntegerCell(n, pad), DecodeBinary(w, printFloat, f, IntegerCell(n, pad)))
  {
    BinaryDecodesNumber(w, printFloat, f, n, pad);
  }

  lemma BinaryYields(w: Widths, printFloat: Float -> string, f: Option<Field>, cell: Cell)
    requires CanHold(f, cell)
    ensures IsBinaryValue(w, printFloat, f, cell, DecodeBinary(w, printFloat, f, cell))
  {
    if cell.IntegerCell? && !KnownType(f).Int24? {
      BinaryIntegerYields(w, printFloat, f, cell.n, cell.pad);
    }
  }

  // ----- the fetch loops -----

  /** A result set as the server holds it. */
  ghost predicate Rectangular(fields: seq<Option<Field>>, cells: seq<seq<Cell>>) {
    forall r <- cells :: |r| == |fields|
  }

  /** One Row per server row, one column per field, each named and decoded on its own. */
  ghost predicate IsDecoded(fields: seq<Option<Field>>, cells: seq<seq<Cell>>, rows: seq<Columns>,
                            decode: (Option<Field>, Cell) -> Value) {
    && |rows| == |cells|
    && forall r :: 0 <= r < |rows| ==> IsDecodedRow(fields, cells[r], rows[r], decode)
  }

  ghost predicate IsDecodedRow(fields: seq<Option<Field>>, cells: seq<Cell>, row: Columns,
                               decode: (Option<Field>, Cell) -> Value) {
    && |row| == |fields| == |cells|
    && forall c :: 0 <= c < |row| ==> row[c] == NamedValue(NameOf(fields[c]), decode(fields[c], cells[c]))
  }

  function TextRoute(w: Widths, parseFloat: string -> Option<Float>, printFloat: Float -> string)
    : (Option<Field>, Cell) -> Value
  {
    (f, cell) => DecodeText(w, parseFloat, f, TextForm(printFloat, cell))
  }

  function BinaryRoute(w: Widths, printFloat: Float -> string): (Option<Field>, Cell) -> Value {
    (f, cell) => DecodeBinary(w, printFloat, f, cell)
  }

  /** `StepResults` on a stored result; `None` is the null result that it refuses. */
  method StepResults(w: Widths, parseFloat: string -> Option<Float>, printFloat: Float -> string,
                     fields: seq<Option<Field>>, res: Option<seq<seq<Cell>>>)
    returns (result: Expected<seq<Columns>>)
    requires res.Some? ==> Rectangular(fields, res.value)
    ensures result.Success? <==> res.Some?
    ensures result.Success? ==> IsDecoded(fields, res.value, result.value, TextRoute(w, parseFloat, printFloat))
  {
    if res.None? {
      return Failure;
    }
    var cells := res.value;
    var rows: seq<Columns> := [];
    var r := 0;
    while r < |cells|
      invariant 0 <= r <= |cells| && |rows| == r
      invariant forall k :: 0 <= k < r ==> IsDecodedRow(fields, cells[k], rows[k], TextRoute(w, parseFloat, printFloat))
    {
      var row: Columns := [];
      var c := 0;
      assert cells[r] in cells;
      while c < |fields|
        invariant 0 <= c <= |fields| && |row| == c
        invariant forall k :: 0 <= k < c ==>
          row[k] == NamedValue(NameOf(fields[k]), TextRoute(w, parseFloat, printFloat)(fields[k], cells[r][k]))
      {
        var text := TextForm(printFloat, cells[r][c]);
        row := row + [NamedValue(NameOf(fields[c]), DecodeText(w, parseFloat, fields[c], text))];
        c := c + 1;
      }
      rows := rows + [row];
      r := r + 1;
    }
    result := Success(rows);
  }

  datatype FetchOutcome = Fetched(cells: seq<Cell>) | NoData | FetchError

  /** The answers begin with exactly `n` rows and then report the end of the data. */
  ghost predicate EndsAfter(answers: seq<FetchOutcome>, n: nat) {
    n < |answers| && answers[n].NoData? && forall k :: 0 <= k < n ==> answers[k].Fetched?
  }

  function CellsOf(answers: seq<FetchOutcome>, n: nat): seq<seq<Cell>>
    requires n <= |answers|
  {
    seq(n, k requires 0 <= k < |answers| => if answers[k].Fetched? then answers[k].cells else [])
  }

  /** The fetch loop of `DoExecute`, over what `mysql_stmt_fetch` answers call by call. */
  method FetchAll(w: Widths, printFloat: Float -> string, fields: seq<Option<Field>>, answers: seq<FetchOutcome>)
    returns (result: Expected<seq<Columns>>)
    requires forall a <- answers :: a.Fetched? ==> |a.cells| == |fields|
    ensures result.Success? <==> exists n :: EndsAfter(answers, n)
    ensures result.Success? ==>
              && EndsAfter(answers, |result.value|)
              && IsDecoded(fields, CellsOf(answers, |result.value|), result.value, BinaryRoute(w, printFloat))
  {
    var rows: seq<Columns> := [];
    while true
      invariant |rows| <= |answers|
      invariant forall k :: 0 <= k < |rows| ==>
        answers[k].Fetched? && IsDecodedRow(fields, answers[k].cells, rows[k], BinaryRoute(w, printFloat))
      decreases |answers| - |rows|
    {
      var rc := if |rows| < |answers| then answers[|rows|] else FetchError;
      if rc.NoData? {
        assert EndsAfter(answers, |rows|);
        return Success(rows);
      }
      if rc.FetchError? {
        return Failure;
      }
      assert rc in answers;
      var row: Columns := [];
      var i := 0;
      while i < |fields|
        invariant 0 <= i <= |fields| && |row| == i
        invariant forall k :: 0 <= k < i ==>
          row[k] == NamedValue(NameOf(fields[k]), BinaryRoute(w, printFloat)(fields[k], rc.cells[k]))
      {
        var buffers := Deliver(printFloat, fields[i], rc.cells[i]);
        row := row + [NamedValue(NameOf(fields[i]), DecodeBuffers(w, fields[i], rc.cells[i].NullCell?, buffers))];
        i := i + 1;
      }
      rows := rows + [row];
    }
  }

  /** A result set whose cells both decoders can hold gives the same rows by either route:
      the same shape, the same column names, and values that no `Get` can tell apart. */
  lemma ResultSetsAgree(w: Widths, parseFloat: string -> Option<Float>, printFloat: Float -> string,
                        fields: seq<Option<Field>>, cells: seq<seq<Cell>>, text: seq<Columns>, binary: seq<Columns>)
    requires IsDecoded(fields, cells, text, TextRoute(w, parseFloat, printFloat))
    requires IsDecoded(fields, cells, binary, BinaryRoute(w, printFloat))
    requires forall r, c :: 0 <= r < |cells| && 0 <= c < |cells[r]| && c < |fields| ==>
               InColumn(fields[c], cells[r][c]) && IsAgreed(w, fields[c], cells[r][c])
    ensures |text| == |binary|
    ensures forall r :: 0 <= r < |text| ==> |text[r]| == |binary[r]|
    ensures forall r, c :: 0 <= r < |text| && 0 <= c < |text[r]| ==>
              text[r][c].name == binary[r][c].name && Alike(w, text[r][c].value, binary[r][c].value)
  {
    forall r | 0 <= r < |text|
      ensures |text[r]| == |binary[r]|
    {
      assert IsDecodedRow(fields, cells[r], text[r], TextRoute(w, parseFloat, printFloat));
      assert IsDecodedRow(fields, cells[r], binary[r], BinaryRoute(w, printFloat));
    }
    forall r, c | 0 <= r < |text| && 0 <= c < |text[r]|
      ensures text[r][c].name == binary[r][c].name && Alike(w, text[r][c].value, binary[r][c].value)
    {
      assert IsDecodedRow(fields, cells[r], text[r], TextRoute(w, parseFloat, printFloat));
      assert IsDecodedRow(fields, cells[r], binary[r], BinaryRoute(w, printFloat));
      DecodersAgreeIff(w, parseFloat, printFloat, fields[c], cells[r][c]);
    }
  }

  /** Every cell can be in its column. */
  ghost predicate AllCanHold(fields: seq<Option<Field>>, cells: seq<seq<Cell>>) {
    forall r, c :: 0 <= r < |cells| && 0 <= c < |cells[r]| && c < |fields| ==> CanHold(fields[c], cells[r][c])
  }

  /** A column bears the name of its field, or an empty one. */
  ghost predicate IsNamed(f: Option<Field>, column: NamedValue) {
    column.name == match f case Some(field) => field.name case None => ""
  }

  /** The rows that `StepResults` returns: one for each row of the server, in order, one
      column for each field, with the field's own name and the value of its own cell. */
  lemma TextRowsMean(w: Widths, parseFloat: string -> Option<Float>, printFloat: Float -> string,
                     fields: seq<Option<Field>>, cells: seq<seq<Cell>>, rows: seq<Columns>)
    requires IsDecoded(fields, cells, rows, TextRoute(w, parseFloat, printFloat)) && AllCanHold(fields, cells)
    ensures |rows| == |cells|
    ensures forall r :: 0 <= r < |rows| ==> |rows[r]| == |cells[r]| == |fields|
    ensures forall r, c :: 0 <= r < |rows| && 0 <= c < |rows[r]| ==>
              && IsNamed(fields[c], rows[r][c])
              && IsTextValue(w, parseFloat, printFloat, fields[c], cells[r][c], rows[r][c].value)
  {
    forall r | 0 <= r < |rows| ensures |rows[r]| == |cells[r]| == |fields| {
      assert IsDecodedRow(fields, cells[r], rows[r], TextRoute(w, parseFloat, printFloat));
    }
    forall r, c | 0 <= r < |rows| && 0 <= c < |rows[r]|
      ensures IsNamed(fields[c], rows[r][c])
      ensures IsTextValue(w, parseFloat, printFloat, fields[c], cells[r][c], rows[r][c].value)
    {
      assert IsDecodedRow(fields, cells[r], rows[r], TextRoute(w, parseFloat, printFloat));
      TextYields(w, parseFloat, printFloat, fields[c], cells[r][c]);
    }
  }

  /** And those of the prepared statement's fetch loop. */
  lemma BinaryRowsMean(w: Widths, printFloat: Float -> string,
                       fields: seq<Option<Field>>, cells: seq<seq<Cell>>, rows: seq<Columns>)
    requires IsDecoded(fields, cells, rows, BinaryRoute(w, printFloat)) && AllCanHold(fields, cells)
    ensures |rows| == |cells|
    ensures forall r :: 0 <= r < |rows| ==> |rows[r]| == |cells[r]| == |fields|
    ensures forall r, c :: 0 <= r < |rows| && 0 <= c < |rows[r]| ==>
              && IsNamed(fields[c], rows[r][c])
              && IsBinaryValue(w, printFloat, fields[c], cells[r][c], rows[r][c].value)
  {
    forall r | 0 <= r < |rows| ensures |rows[r]| == |cells[r]| == |fields| {
      assert IsDecodedRow(fields, cells[r], rows[r], BinaryRoute(w, printFloat));
    }
    forall r, c | 0 <= r < |rows| && 0 <= c < |rows[r]|
      ensures IsNamed(fields[c], rows[r][c])
      ensures IsBinaryValue(w, printFloat, fields[c], cells[r][c], rows[r][c].value)
    {
      assert IsDecodedRow(fields, cells[r], rows[r], BinaryRoute(w, printFloat));
      BinaryYields(w, printFloat, fields[c], cells[r][c]);
    }
  }
}
