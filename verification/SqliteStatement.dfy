/** The SQLite `PreparedSTMT` and `StepResults`: what is bound, what is fetched, and the
    trip of a value from one to the other. */
module SqliteStatement {
  import opened Outcomes
  import opened Powers
  import opened Values
  import opened Retyping
  import opened Rows
  import opened CStrings

  /** A value of one of SQLite's storage classes. */
  datatype Stored = SNull | SInteger(n: int) | SFloat(d: Float) | SText(s: string) | SBlob(bytes: seq<byte>)

  // ----- one value in, one value out -----

  /** What the engine stores for one value given to it by `Binder`: `Undefined` for a blob
      that is announced with a negative size. */
  function Bound(w: Widths, v: Value): Outcome<Stored> {
    match v
    case Null => Got(SNull)
    case Number(kind, n) =>
      (match kind
       case Int => Got(SInteger(n))
       case UInt => Got(SInteger(Cast(w, Int, n)))
       case Long => Got(SInteger(n))
       case ULong => Got(SInteger(WrapSigned(INTMAX_BITS, n)))
       case Bool => Got(SInteger(if n != 0 then 1 else 0)))
    case Real(d) => Got(SFloat(d))
    case Text(s) => Got(SText(CString(s)))
    case Blob(bytes) =>
      if bytes == [] then Got(SNull)
      else
        match Announced(w, bytes)
        case Got(read) => Got(SBlob(read))
        case _ => Undefined
  }

  /** What the fetch loop makes of one cell. */
  function Decode(w: Widths, cell: Stored): Value {
    match cell
    case SNull => Null
    case SInteger(n) => Retype(w, n)
    case SFloat(d) => Real(d)
    case SText(s) => Text(CString(s))
    case SBlob(bytes) => Blob(bytes)
  }

  /** Bind a value, store it, fetch it. */
  function Trip(w: Widths, v: Value): Outcome<Value> {
    match Bound(w, v)
    case Got(cell) => Got(Decode(w, cell))
    case _ => Undefined
  }

  /** And call `Get` on what has been fetched. */
  function TripGet(w: Widths, v: Value, t: Target): Outcome<Value> {
    match Trip(w, v)
    case Got(back) => Get(w, back, t)
    case _ => Undefined
  }

  /** The values that return from the trip unchanged. */
  predicate Survives(w: Widths, v: Value) {
    match v
    case Null => true
    case Number(kind, n) =>
      if kind.UInt? then n <= Highest(w, Int) else if kind.ULong? then n <= Highest(w, Long) else true
    case Real(_) => true
    case Text(s) => '\0' !in s
    case Blob(bytes) => bytes != [] && Fits(w, Int, |bytes|)
  }

  lemma UnsignedIntTrip(w: Widths, v: Value)
    requires v.Number? && v.kind.UInt? && WellTyped(w, v)
    ensures TripGet(w, v, AsNumber(UInt)) == if v.n <= Highest(w, Int) then Got(v) else Throws
  {
    IntWithinLong(w);
    if v.n <= Highest(w, Int) {
      CastExact(w, Int, v.n);
      RetypeKeepsNumber(w, v.n, UInt);
    } else {
      WrapSignedUpperHalf(w.intBits, v.n);
      WrapSignedExact(w.intBits, v.n);
      RetypeKeepsNumber(w, Cast(w, Int, v.n), UInt);
    }
  }

  lemma HeldLongTrip(w: Widths, v: Value)
    requires v.Number? && v.kind.ULong? && WellTyped(w, v) && v.n <= Highest(w, Long)
    ensures TripGet(w, v, AsNumber(ULong)) == Got(v)
  {
    IntmaxLimits();
    LimitsWithin64(w, Long);
    WrapSignedExact(INTMAX_BITS, v.n);
    RetypeKeepsNumber(w, v.n, ULong);
  }

  lemma UpperHalfTrip(w: Widths, v: Value)
    requires v.Number? && v.kind.ULong? && WellTyped(w, v) && v.n > INTMAX_MAX
    ensures TripGet(w, v, AsNumber(ULong)) == Throws
  {
    IntmaxLimits();
    LongIs64(w, v.n);
    WrapSignedUpperHalf(INTMAX_BITS, v.n);
    WrapSignedExact(INTMAX_BITS, v.n);
    RetypeKeepsNumber(w, v.n - Pow2(INTMAX_BITS), ULong);
  }

  lemma BeyondLongTrip(w: Widths, v: Value)
    requires v.Number? && v.kind.ULong? && WellTyped(w, v) && Highest(w, Long) < v.n <= INTMAX_MAX
    ensures TripGet(w, v, AsNumber(ULong)) == Throws
  {
    IntmaxLimits();
    LimitsWithin64(w, Long);
    WrapSignedExact(INTMAX_BITS, v.n);
    RetypeWrapsUpperHalf(w, v.n);
    IntegralGetIsExact(w, Retype(w, v.n), ULong);
  }

  lemma UnsignedLongTrip(w: Widths, v: Value)
    requires v.Number? && v.kind.ULong? && WellTyped(w, v)
    ensures TripGet(w, v, AsNumber(ULong)) == if v.n <= Highest(w, Long) then Got(v) else Throws
  {
    if v.n <= Highest(w, Long) {
      HeldLongTrip(w, v);
    } else if v.n > INTMAX_MAX {
      UpperHalfTrip(w, v);
    } else {
      BeyondLongTrip(w, v);
    }
  }

  lemma LongIs64(w: Widths, n: int)
    requires INTMAX_MAX < n <= Highest(w, ULong)
    ensures w.longBits == INTMAX_BITS
  {
    IntmaxLimits();
    if w.longBits < INTMAX_BITS {
      Pow2Monotone(w.longBits, INTMAX_BITS - 1);
    }
  }

  lemma SignedTrip(w: Widths, v: Value)
    requires v.Number? && WellTyped(w, v) && (v.kind.Int? || v.kind.Long? || v.kind.Bool?)
    ensures TripGet(w, v, AsNumber(v.kind)) == Got(v)
  {
    IntWithinLong(w);
    if v.kind.Bool? {
      LimitsOfBool(w);
      LongHoldsBool(w);
    }
    RetypeKeepsNumber(w, v.n, v.kind);
  }

  lemma LongHoldsBool(w: Widths)
    ensures Lowest(w, Long) <= 0 && 1 <= Highest(w, Long)
  {
    assert Pow2(1) == 2;
    Pow2Monotone(1, w.longBits - 1);
  }

  lemma TextTrip(w: Widths, s: string)
    ensures Trip(w, Text(s)) == Got(Text(CString(s)))
    ensures CString(s) == s <==> '\0' !in s
  {
  }

  /** A bound value returns from `Get` of its own type exactly when it survives; NULL
      returns as NULL. */
  lemma TripIff(w: Widths, v: Value)
    requires WellTyped(w, v)
    ensures v.Null? ==> Trip(w, v) == Got(Null)
    ensures !v.Null? ==> (TripGet(w, v, TypeOf(v)) == Got(v) <==> Survives(w, v))
  {
    match v
    case Number(kind, _) =>
      if kind.UInt? {
        UnsignedIntTrip(w, v);
      } else if kind.ULong? {
        UnsignedLongTrip(w, v);
      } else {
        SignedTrip(w, v);
      }
    case Text(s) => TextTrip(w, s);
    case Blob(bytes) => AnnouncedInFullIff(w, bytes);
    case _ =>
  }

  /** What a value that does not survive turns into: an unsigned number is refused because
      it comes back negative, text loses its tail, an empty blob becomes NULL, and a blob
      whose size does not fit `int` loses its tail or has no defined result. */
  lemma LossyTrip(w: Widths, v: Value)
    requires WellTyped(w, v) && !Survives(w, v)
    ensures v.Number? ==> TripGet(w, v, TypeOf(v)) == Throws
    ensures v.Text? ==> Trip(w, v) == Got(Text(CString(v.s))) && |CString(v.s)| < |v.s|
    ensures v == Blob([]) ==> Trip(w, v) == Got(Null)
    ensures v.Blob? && v.bytes != [] && Trip(w, v).Got? ==>
              Trip(w, v).value.Blob? && Trip(w, v).value.bytes < v.bytes
    ensures v.Blob? && v.bytes != [] ==> (Trip(w, v) == Undefined <==> Cast(w, Int, |v.bytes|) < 0)
  {
    match v
    case Number(kind, _) =>
      if kind.UInt? {
        UnsignedIntTrip(w, v);
      } else {
        UnsignedLongTrip(w, v);
      }
    case Text(s) => TextTrip(w, s);
    case Blob(bytes) => AnnouncedInFullIff(w, bytes); CastOfSize(w, |bytes|);
    case _ =>
  }

  // ----- the fetch loop -----

  datatype Cell = Cell(name: Option<string>, stored: Stored)

  /** The outcomes of `sqlite3_step`. */
  datatype StepOutcome = RowReady(cells: seq<Cell>) | Done | Error

  /** A statement that is being stepped: `steps` is what the engine is going to answer. */
  class Cursor {
    const steps: seq<StepOutcome>
    var position: nat

    constructor (steps: seq<StepOutcome>)
      ensures this.steps == steps && position == 0
    {
      this.steps, position := steps, 0;
    }

    ghost function Remaining(): seq<StepOutcome>
      reads this
    {
      if position <= |steps| then steps[position..] else []
    }

    method Step() returns (rc: StepOutcome)
      modifies this
      ensures rc == if old(Remaining()) == [] then Error else old(Remaining())[0]
      ensures Remaining() == if old(Remaining()) == [] then [] else old(Remaining())[1..]
    {
      if position < |steps| {
        rc := steps[position];
        position := position + 1;
      } else {
        rc := Error;
      }
    }
  }

  /** What a fetched value is, by the storage class of its cell: an integer that `long` holds
      keeps its number, in `int` if that is enough, and `Get` of each integral type sees that
      number; one beyond `long` wraps around. */
  ghost predicate IsValueOf(w: Widths, cell: Stored, v: Value) {
    match cell
    case SNull => v == Null
    case SInteger(n) =>
      if Fits(w, Long, n) then
        && v == Number(if Fits(w, Int, n) then Int else Long, n)
        && forall k: IntKind :: Get(w, v, AsNumber(k)) == if Fits(w, k, n) then Got(Number(k, n)) else Throws
      else v == Number(Long, WrapSigned(w.longBits, n))
    case SFloat(d) => v == Real(d)
    case SText(s) => v.Text? && '\0' !in v.s && v.s <= s && (v.s == s || s[|v.s|] == '\0')
    case SBlob(bytes) => v == Blob(bytes)
  }

  lemma DecodeIsValue(w: Widths, cell: Stored)
    ensures IsValueOf(w, cell, Decode(w, cell))
  {
    IntWithinLong(w);
    if cell.SInteger? && Fits(w, Long, cell.n) {
      RetypeKeepsNumber(w, cell.n, Int);
      forall k: IntKind
        ensures Get(w, Decode(w, cell), AsNumber(k)) == if Fits(w, k, cell.n) then Got(Number(k, cell.n)) else Throws
      {
        RetypeKeepsNumber(w, cell.n, k);
      }
    }
  }

  /** One column for each cell, in order, with the cell's own name and value; a cell without
      a name gives an empty one. */
  ghost predicate IsRowOf(w: Widths, cells: seq<Cell>, row: Columns) {
    && |row| == |cells|
    && forall c :: 0 <= c < |row| ==>
         && row[c].name == (match cells[c].name case Some(name) => name case None => "")
         && IsValueOf(w, cells[c].stored, row[c].value)
  }

  function DecodeRow(w: Widths, cells: seq<Cell>): Columns {
    seq(|cells|, c requires 0 <= c < |cells| => NamedValue(ColumnName(cells[c].name), Decode(w, cells[c].stored)))
  }

  lemma DecodedRowIsRow(w: Widths, cells: seq<Cell>)
    ensures IsRowOf(w, cells, DecodeRow(w, cells))
  {
    forall c | 0 <= c < |cells|
      ensures IsValueOf(w, cells[c].stored, DecodeRow(w, cells)[c].value)
    {
      DecodeIsValue(w, cells[c].stored);
    }
  }

  /** The inner loop over the columns of one row. */
  method FetchRow(w: Widths, cells: seq<Cell>) returns (row: Columns)
    ensures row == DecodeRow(w, cells) && IsRowOf(w, cells, row)
  {
    row := [];
    var i := 0;
    while i < |cells|
      invariant 0 <= i <= |cells| && row == DecodeRow(w, cells)[..i]
    {
      row := row + [NamedValue(ColumnName(cells[i].name), Decode(w, cells[i].stored))];
      i := i + 1;
    }
    DecodedRowIsRow(w, cells);
  }

  /** The steps begin with exactly `n` rows and then report DONE. */
  ghost predicate DoneAfter(steps: seq<StepOutcome>, n: nat) {
    n < |steps| && steps[n].Done? && forall k :: 0 <= k < n ==> steps[k].RowReady?
  }

  /** The rows collected from the first steps. */
  ghost predicate Collected(w: Widths, steps: seq<StepOutcome>, rows: seq<Columns>) {
    rows == [] ||
    (var last := |rows| - 1;
     && |rows| <= |steps| && steps[last].RowReady? && IsRowOf(w, steps[last].cells, rows[last])
     && Collected(w, steps, rows[..last]))
  }

  lemma {:induction false} CollectedAt(w: Widths, steps: seq<StepOutcome>, rows: seq<Columns>)
    requires Collected(w, steps, rows)
    ensures |rows| <= |steps|
    ensures forall k :: 0 <= k < |rows| ==> steps[k].RowReady? && IsRowOf(w, steps[k].cells, rows[k])
    decreases |rows|
  {
    if rows != [] {
      var init := rows[..|rows| - 1];
      CollectedAt(w, steps, init);
      assert forall k :: 0 <= k < |init| ==> rows[k] == init[k];
    }
  }

  /** What the engine answers to step `k`, and what it is going to answer after that. */
  function Answer(steps: seq<StepOutcome>, k: nat): StepOutcome {
    if k < |steps| then steps[k] else Error
  }

  function AnswersFrom(steps: seq<StepOutcome>, k: nat): seq<StepOutcome> {
    if k <= |steps| then steps[k..] else []
  }

  lemma CollectNext(w: Widths, steps: seq<StepOutcome>, rows: seq<Columns>, row: Columns)
    requires Collected(w, steps, rows) && Answer(steps, |rows|).RowReady?
    requires IsRowOf(w, Answer(steps, |rows|).cells, row)
    ensures |rows| < |steps|
    ensures Collected(w, steps, rows + [row])
  {
    assert (rows + [row])[..|rows|] == rows;
  }

  lemma AnswerNext(steps: seq<StepOutcome>, k: nat)
    ensures Answer(steps, k) == if AnswersFrom(steps, k) == [] then Error else AnswersFrom(steps, k)[0]
    ensures AnswersFrom(steps, k + 1) == if AnswersFrom(steps, k) == [] then [] else AnswersFrom(steps, k)[1..]
  {
  }

  /** Rows come back exactly when the step sequence ends in DONE: one Row for each ROW step,
      in order, each of its columns named and valued by its own cell. Everything else is an
      error. */
  ghost predicate IsFetched(w: Widths, steps: seq<StepOutcome>, result: Expected<seq<Columns>>) {
    && (result.Success? <==> exists n :: DoneAfter(steps, n))
    && (result.Success? ==>
          && DoneAfter(steps, |result.value|)
          && forall k :: 0 <= k < |result.value| ==> IsRowOf(w, steps[k].cells, result.value[k]))
  }

  lemma RowsEndOnce(w: Widths, steps: seq<StepOutcome>, rows: seq<Columns>, n: nat)
    requires Collected(w, steps, rows) && !Answer(steps, |rows|).RowReady? && DoneAfter(steps, n)
    ensures n == |rows|
  {
    CollectedAt(w, steps, rows);
  }

  /** Where the rows end decides. */
  lemma CollectedIsFetched(w: Widths, steps: seq<StepOutcome>, rows: seq<Columns>)
    requires Collected(w, steps, rows) && !Answer(steps, |rows|).RowReady?
    ensures IsFetched(w, steps, if Answer(steps, |rows|).Done? then Success(rows) else Failure)
  {
    CollectedAt(w, steps, rows);
    assert Answer(steps, |rows|).Done? ==> DoneAfter(steps, |rows|);
    forall n: nat | DoneAfter(steps, n) ensures n == |rows| {
      RowsEndOnce(w, steps, rows, n);
    }
  }

  method StepResults(w: Widths, stmt: Cursor?) returns (result: Expected<seq<Columns>>)
    modifies stmt
    ensures stmt == null ==> result == Failure
    ensures stmt != null ==> IsFetched(w, old(stmt.Remaining()), result)
  {
    if stmt == null {
      return Failure;
    }
    ghost var all := stmt.Remaining();
    var rows: seq<Columns> := [];
    AnswerNext(all, 0);
    var rc := stmt.Step();
    while rc.RowReady?
      invariant Collected(w, all, rows)
      invariant rc == Answer(all, |rows|) && stmt.Remaining() == AnswersFrom(all, |rows| + 1)
      decreases |all| - |rows|
    {
      var row := FetchRow(w, rc.cells);
      CollectNext(w, all, rows, row);
      AnswerNext(all, |rows| + 1);
      rows := rows + [row];
      rc := stmt.Step();
    }
    CollectedIsFetched(w, all, rows);
    if rc.Done? {
      return Success(rows);
    }
    result := Failure;
  }

  // ----- binding, statement by statement -----

  /** The statement handle holds one slot for each parameter of its SQL text. Binding beyond
      them is an error that `Binder` ignores. */
  class PreparedStatement {
    const w: Widths
    var handle: Option<seq<Outcome<Stored>>>  // `m_stmt`, with its parameters

    constructor (w: Widths, handle: Option<seq<Outcome<Stored>>>)
      ensures this.w == w && this.handle == handle
    {
      this.w, this.handle := w, handle;
    }

    method Binder(index: nat, value: Value)
      modifies this
      ensures handle == match old(handle)
                        case None => None
                        case Some(params) => Some(BindAt(w, params, index, value))
    {
      if handle.None? {
        return;
      }
      if index < |handle.value| {
        handle := Some(handle.value[index := Bound(w, value)]);
      }
    }

    method Reset()
      modifies this
      ensures handle == match old(handle)
                        case None => None
                        case Some(params) => Some(AllNull(|params|))
    {
      if handle.Some? {
        handle := Some(AllNull(|handle.value|));
      }
    }

    /** `Execute(args...)`: the parameters the engine runs with, `None` without a handle. */
    method Execute(args: seq<Value>) returns (ran: Option<seq<Outcome<Stored>>>)
      modifies this
      ensures match old(handle)
              case None => ran == None
              case Some(params) =>
                && ran.Some? && |ran.value| == |params|
                && (forall i :: 0 <= i < |params| && i < |args| ==> ran.value[i] == Bound(w, args[i]))
                && (forall i :: |args| <= i < |params| ==> ran.value[i] == Got(SNull))
      ensures handle == match old(handle)
                        case None => None
                        case Some(params) => Some(AllNull(|params|))
    {
      Reset();
      ghost var count := if handle.Some? then |handle.value| else 0;
      var i := 0;
      while i < |args|
        invariant 0 <= i <= |args|
        invariant handle.Some? <==> old(handle).Some?
        invariant handle.Some? ==> count == |old(handle).value| && handle.value == Supplied(w, count, args[..i])
      {
        Binder(i, args[i]);
        i := i + 1;
      }
      assert args[..|args|] == args;
      ran := handle;
      Reset();
    }
  }

  function AllNull(n: nat): seq<Outcome<Stored>> {
    seq(n, i => Got(SNull))
  }

  function BindAt(w: Widths, params: seq<Outcome<Stored>>, index: nat, value: Value): seq<Outcome<Stored>> {
    if index < |params| then params[index := Bound(w, value)] else params
  }

  /** Exactly the arguments of one call: parameters without an argument are NULL, arguments
      without a parameter are dropped. */
  function Supplied(w: Widths, count: nat, args: seq<Value>): seq<Outcome<Stored>> {
    seq(count, i requires 0 <= i => if i < |args| then Bound(w, args[i]) else Got(SNull))
  }
}
