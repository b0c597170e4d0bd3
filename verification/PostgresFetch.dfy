/** The PostgreSQL `StepResults`, and what happens to a value on its way from `Binder`
    through an engine that echoes it to `Get`. */
module PostgresFetch {
  import opened Outcomes
  import opened Powers
  import opened Values
  import opened Decimal
  import opened CStrings
  import opened Retyping
  import opened Rows
  import PostgresBind
  import PostgresStatement

  const BOOL_OID: nat := 16
  const BYTEA_OID: nat := 17
  const INT8_OID: nat := 20
  const INT2_OID: nat := 21
  const INT4_OID: nat := 23
  const TEXT_OID: nat := 25
  const FLOAT4_OID: nat := 700
  const FLOAT8_OID: nat := 701

  datatype Column = Column(name: Option<string>, oid: nat)

  /** A `PGresult`: `ok` for the statuses TUPLES_OK and COMMAND_OK; a cell is `None` for NULL. */
  datatype PgResult = PgResult(ok: bool, columns: seq<Column>, cells: seq<seq<Option<string>>>)

  /** libpq gives every row one cell per column. */
  ghost predicate Rectangular(res: PgResult) {
    forall r <- res.cells :: |r| == |res.columns|
  }

  /** `std::stod` (`None` when it throws) and `PQunescapeBytea` (`None` when it fails). */
  datatype Library = Library(parseFloat: string -> Option<Float>, unescape: string -> Option<seq<byte>>)

  function ToLower(c: char): char {
    if 'A' <= c <= 'Z' then (c as int + 32) as char else c
  }

  predicate EqualIgnoringCase(s: string, lower: string) {
    |s| == |lower| && forall i :: 0 <= i < |s| ==> ToLower(s[i]) == lower[i]
  }

  /** A boolean column is true for text that starts with 't' or '1', and for "true" in
      any case. */
  predicate TextIsTrue(text: string) {
    || (text != [] && (text[0] == 't' || text[0] == '1'))
    || EqualIgnoringCase(CString(text), "true")
  }

  function Decode(w: Widths, lib: Library, oid: nat, cell: Option<string>): Value {
    match cell
    case None => Null
    case Some(text) =>
      if oid == BOOL_OID then Number(Bool, if TextIsTrue(text) then 1 else 0)
      else if oid == INT8_OID || oid == INT2_OID || oid == INT4_OID then Retype(w, StollOrZero(text))
      else if oid == FLOAT4_OID || oid == FLOAT8_OID then
        (match lib.parseFloat(text) case Some(d) => Real(d) case None => Real(Finite(0.0)))
      else if oid == BYTEA_OID then
        (match lib.unescape(text) case Some(bytes) => Blob(bytes) case None => Blob([]))
      else Text(text)
  }

  /** The loop that compares a boolean's text in lower case. */
  method DecodeBool(text: string) returns (b: bool)
    ensures b == TextIsTrue(text)
    ensures text != [] && (text[0] == 't' || text[0] == '1') ==> b
    ensures text == [] || (text[0] != 't' && text[0] != '1') ==>
              (b <==> |CString(text)| == 4 && forall k :: 0 <= k < 4 ==> ToLower(CString(text)[k]) == "true"[k])
  {
    if text != [] && (text[0] == 't' || text[0] == '1') {
      return true;
    }
    var original := CString(text);
    var s := original;
    var i := 0;
    while i < |s|
      invariant 0 <= i <= |s| == |original|
      invariant forall k :: 0 <= k < i ==> s[k] == ToLower(original[k])
      invariant forall k :: i <= k < |s| ==> s[k] == original[k]
    {
      s := s[i := ToLower(s[i])];
      i := i + 1;
    }
    b := s == "true";
  }

  method DecodeCell(w: Widths, lib: Library, oid: nat, cell: Option<string>) returns (v: Value)
    ensures v == Decode(w, lib, oid, cell)
  {
    match cell {
      case None => v := Null;
      case Some(text) =>
        if oid == BOOL_OID {
          var b := DecodeBool(text);
          v := Number(Bool, if b then 1 else 0);
        } else {
          v := Decode(w, lib, oid, cell);
        }
    }
  }

  /** One Row per tuple and one column per field, in order, each decoded on its own. */
  ghost predicate IsDecoded(w: Widths, lib: Library, res: PgResult, rows: seq<Columns>) {
    && |rows| == |res.cells|
    && forall r :: 0 <= r < |rows| ==> IsDecodedRow(w, lib, res.columns, res.cells[r], rows[r])
  }

  ghost predicate IsDecodedRow(w: Widths, lib: Library, columns: seq<Column>, cells: seq<Option<string>>,
                               row: Columns)
  {
    && |row| == |columns| == |cells|
    && forall c :: 0 <= c < |row| ==>
         row[c] == NamedValue(ColumnName(columns[c].name), Decode(w, lib, columns[c].oid, cells[c]))
  }

  method StepResults(w: Widths, lib: Library, res: Option<PgResult>) returns (result: Expected<seq<Columns>>)
    requires res.Some? ==> Rectangular(res.value)
    ensures result.Success? <==> res.Some? && res.value.ok
    ensures result.Success? ==> IsDecoded(w, lib, res.value, result.value)
  {
    if res.None? || !res.value.ok {
      return Failure;
    }
    var PgResult(_, columns, cells) := res.value;
    var rows: seq<Columns> := [];
    var r := 0;
    while r < |cells|
      invariant 0 <= r <= |cells| && |rows| == r
      invariant forall k :: 0 <= k < r ==> IsDecodedRow(w, lib, columns, cells[k], rows[k])
    {
      var row: Columns := [];
      var c := 0;
      assert cells[r] in cells;
      while c < |columns|
        invariant 0 <= c <= |columns| && |row| == c
        invariant forall k :: 0 <= k < c ==>
          row[k] == NamedValue(ColumnName(columns[k].name), Decode(w, lib, columns[k].oid, cells[r][k]))
      {
        var v := DecodeCell(w, lib, columns[c].oid, cells[r][c]);
        row := row + [NamedValue(ColumnName(columns[c].name), v)];
        c := c + 1;
      }
      rows := rows + [row];
      r := r + 1;
    }
    result := Success(rows);
  }

  // ----- what the rows mean -----

  /** What the server holds in a cell. Its text, by the server's own output form: `t` or `f`
      for a boolean, the decimal digits for an integer. */
  datatype Held = HeldNull | HeldBool(b: bool) | HeldInteger(n: int) | HeldText(text: string)

  function OutputOf(h: Held): Option<string> {
    match h
    case HeldNull => None
    case HeldBool(b) => Some(if b then "t" else "f")
    case HeldInteger(n) => Some(ToString(n))
    case HeldText(text) => Some(text)
  }

  predicate IsIntegerOid(oid: nat) {
    oid == 20 || oid == 21 || oid == 23
  }

  /** The cells that a column of each type holds; the columns of any other type hold text. */
  predicate CanHold(oid: nat, h: Held) {
    match h
    case HeldNull => true
    case HeldBool(_) => oid == 16
    case HeldInteger(n) => IsIntegerOid(oid) && INTMAX_MIN <= n <= INTMAX_MAX
    case HeldText(_) => oid != 16 && !IsIntegerOid(oid)
  }

  /** What the caller gets for it: the boolean; an integer that `Get` of each integral type
      sees, as long as `long` holds it, and its wrap otherwise; the parsed double, 0 if
      parsing throws; the unescaped bytes, none if that fails; or the whole text. */
  ghost predicate IsValueOf(w: Widths, lib: Library, oid: nat, h: Held, v: Value) {
    match h
    case HeldNull => v == Null
    case HeldBool(b) => v == Number(Bool, if b then 1 else 0)
    case HeldInteger(n) =>
      if Fits(w, Long, n) then
        && v == Number(if Fits(w, Int, n) then Int else Long, n)
        && forall k: IntKind :: Get(w, v, AsNumber(k)) == if Fits(w, k, n) then Got(Number(k, n)) else Throws
      else v == Number(Long, WrapSigned(w.longBits, n))
    case HeldText(text) =>
      if oid == 700 || oid == 701 then
        (match lib.parseFloat(text) case Some(d) => v == Real(d) case None => v == Real(Finite(0.0)))
      else if oid == 17 then
        (match lib.unescape(text) case Some(bytes) => v == Blob(bytes) case None => v == Blob([]))
      else v == Text(text)
  }

  lemma IntegerCell(w: Widths, lib: Library, oid: nat, n: int)
    requires IsIntegerOid(oid) && INTMAX_MIN <= n <= INTMAX_MAX
    ensures IsValueOf(w, lib, oid, HeldInteger(n), Decode(w, lib, oid, Some(ToString(n))))
  {
    StollOfToString(n);
    IntWithinLong(w);
    if Fits(w, Long, n) {
      RetypeKeepsNumber(w, n, Int);
      forall k: IntKind
        ensures Get(w, Retype(w, n), AsNumber(k)) == if Fits(w, k, n) then Got(Number(k, n)) else Throws
      {
        RetypeKeepsNumber(w, n, k);
      }
    }
  }

  lemma BoolCell(w: Widths, lib: Library, b: bool)
    ensures Decode(w, lib, BOOL_OID, Some(if b then "t" else "f")) == Number(Bool, if b then 1 else 0)
  {
    if !b {
      assert |CString("f")| <= 1;
    }
  }

  /** Each cell is fetched as the value that the server holds. */
  lemma DecodeIsValue(w: Widths, lib: Library, oid: nat, h: Held)
    requires CanHold(oid, h)
    ensures IsValueOf(w, lib, oid, h, Decode(w, lib, oid, OutputOf(h)))
  {
    match h
    case HeldBool(b) => BoolCell(w, lib, b);
    case HeldInteger(n) => IntegerCell(w, lib, oid, n);
    case _ =>
  }

  /** The result holds these cells, in the server's output form. */
  ghost predicate Outputs(res: PgResult, held: seq<seq<Held>>) {
    && |held| == |res.cells|
    && forall r :: 0 <= r < |held| ==> OutputsRow(res.columns, res.cells[r], held[r])
  }

  ghost predicate OutputsRow(columns: seq<Column>, cells: seq<Option<string>>, held: seq<Held>) {
    && |held| == |cells| == |columns|
    && forall c :: 0 <= c < |held| ==> CanHold(columns[c].oid, held[c]) && cells[c] == OutputOf(held[c])
  }

  /** One Row per tuple and one column per field, in order, each with its field's own name,
      or an empty one, and with the value that the server holds in its cell. */
  lemma FetchedRowsMean(w: Widths, lib: Library, res: PgResult, held: seq<seq<Held>>, rows: seq<Columns>)
    requires Outputs(res, held) && IsDecoded(w, lib, res, rows)
    ensures |rows| == |held|
    ensures forall r :: 0 <= r < |rows| ==> IsRowOf(w, lib, res.columns, held[r], rows[r])
  {
    forall r | 0 <= r < |rows| ensures IsRowOf(w, lib, res.columns, held[r], rows[r]) {
      assert IsDecodedRow(w, lib, res.columns, res.cells[r], rows[r]) && OutputsRow(res.columns, res.cells[r], held[r]);
      forall c | 0 <= c < |rows[r]|
        ensures IsValueOf(w, lib, res.columns[c].oid, held[r][c], rows[r][c].value)
      {
        DecodeIsValue(w, lib, res.columns[c].oid, held[r][c]);
      }
    }
  }

  ghost predicate IsRowOf(w: Widths, lib: Library, columns: seq<Column>, held: seq<Held>, row: Columns) {
    && |row| == |columns| == |held|
    && forall c :: 0 <= c < |row| ==>
         && row[c].name == (match columns[c].name case Some(name) => name case None => "")
         && IsValueOf(w, lib, columns[c].oid, held[c], row[c].value)
  }

  // ----- round trips -----

  /** An engine that echoes a text parameter as the text of a column. */
  function Echo(wire: PostgresBind.Wire): Option<string> {
    match wire
    case TextParam(s) => Some(s)
    case _ => None
  }

  /** The column type that an echoed value comes back in. */
  function EchoOid(v: Value): nat {
    if v.Number? && v.kind.Bool? then BOOL_OID else if v.Number? then INT8_OID else TEXT_OID
  }

  /** What is fetched for a value that has reached the server as `wire`; `Undefined` where the
      server has read memory that belongs to no value. */
  function Fetched(cfg: PostgresBind.Config, lib: Library, v: Value, wire: PostgresBind.Wire): Outcome<Value> {
    if wire.Dangling? then Undefined else Got(Decode(cfg.widths, lib, EchoOid(v), Echo(wire)))
  }

  /** Argument `i` of one call of `Execute`, on a statement in any state, as it is fetched. */
  function Trip(cfg: PostgresBind.Config, lib: Library, b: PostgresBind.Bindings, args: seq<Value>, i: nat)
    : Outcome<Value>
    requires i < |args|
  {
    Fetched(cfg, lib, args[i], PostgresStatement.ExecuteOnce(cfg, b, args).1[i])
  }

  /** And what `Get` of its own type makes of it. */
  function TripGet(cfg: PostgresBind.Config, lib: Library, b: PostgresBind.Bindings, args: seq<Value>, i: nat)
    : Outcome<Value>
    requires i < |args| && !args[i].Null?
  {
    match Trip(cfg, lib, b, args, i)
    case Got(back) => Get(cfg.widths, back, TypeOf(args[i]))
    case _ => Undefined
  }

  /** The argument is not left behind by a reallocation of the string storage. */
  predicate Stays(cfg: PostgresBind.Config, b: PostgresBind.Bindings, args: seq<Value>, i: nat)
    requires i < |args|
  {
    PostgresBind.IsInline(cfg, args[i]) ==> PostgresBind.RoomAfter(cfg, b, args, i)
  }

  /** A value that is not a blob comes back as the echo of what it means, if it stays. */
  lemma TripIsEcho(cfg: PostgresBind.Config, lib: Library, b: PostgresBind.Bindings, args: seq<Value>, i: nat)
    requires PostgresBind.WellFormed(b) && i < |args| && !args[i].Blob?
    ensures Trip(cfg, lib, b, args, i) ==
            if Stays(cfg, b, args, i)
            then Got(Decode(cfg.widths, lib, EchoOid(args[i]), Echo(PostgresBind.Meant(cfg, args[i]))))
            else Undefined
  {
    var start := PostgresBind.Cleared(b);
    PostgresBind.BindAllKeeps(cfg, start, args);
    PostgresBind.PointerStability(cfg, start, args, i);
    PostgresBind.AnnouncedAsMeantIff(cfg, args[i]);
    assert PostgresBind.RoomAfter(cfg, start, args, i) == PostgresBind.RoomAfter(cfg, b, args, i);
  }

  lemma IntegerEcho(cfg: PostgresBind.Config, lib: Library, v: Value)
    requires v.Number? && !v.kind.Bool?
    ensures Decode(cfg.widths, lib, EchoOid(v), Echo(PostgresBind.Meant(cfg, v)))
            == Retype(cfg.widths, StollOrZero(ToString(v.n)))
  {
    PostgresBind.NumbersHaveNoNul(v.n);
  }

  /** An integer argument of any call, on a statement in any state, returns from `Get` of its
      own type exactly when `long` holds it and its text stays where the server is told. */
  lemma IntegerRoundTripIff(cfg: PostgresBind.Config, lib: Library, b: PostgresBind.Bindings,
                            args: seq<Value>, i: nat)
    requires PostgresBind.WellFormed(b) && i < |args|
    requires args[i].Number? && WellTyped(cfg.widths, args[i]) && !args[i].kind.Bool?
    ensures TripGet(cfg, lib, b, args, i) == Got(args[i])
            <==> args[i].n <= Highest(cfg.widths, Long) && Stays(cfg, b, args, i)
  {
    TripIsEcho(cfg, lib, b, args, i);
    IntegerEcho(cfg, lib, args[i]);
    DecimalTripIff(cfg.widths, args[i]);
  }

  /** With a 64-bit `long`, only `unsigned long` above 2^63-1 fails to return where its text
      stays: it is read back as 0, without an error. */
  lemma IntegerRoundTrip64(cfg: PostgresBind.Config, lib: Library, b: PostgresBind.Bindings,
                           args: seq<Value>, i: nat)
    requires cfg.widths.longBits == INTMAX_BITS && cfg.widths.intBits < cfg.widths.longBits
    requires PostgresBind.WellFormed(b) && i < |args|
    requires args[i].Number? && WellTyped(cfg.widths, args[i]) && !args[i].kind.Bool?
    ensures TripGet(cfg, lib, b, args, i) ==
            if !Stays(cfg, b, args, i) then Undefined
            else if args[i].kind.ULong? && args[i].n > INTMAX_MAX then Got(Number(ULong, 0))
            else Got(args[i])
  {
    TripIsEcho(cfg, lib, b, args, i);
    IntegerEcho(cfg, lib, args[i]);
    DecimalTrip64(cfg.widths, args[i]);
  }

  lemma BoolEcho(cfg: PostgresBind.Config, lib: Library, v: Value)
    requires WellTyped(cfg.widths, v) && v.Number? && v.kind.Bool?
    ensures Decode(cfg.widths, lib, EchoOid(v), Echo(PostgresBind.Meant(cfg, v))) == v
  {
    LimitsOfBool(cfg.widths);
    if v.n == 1 {
      assert CString("true") == "true";
    } else {
      assert CString("false") == "false";
    }
  }

  /** Where they stay, booleans and NULL return unchanged, and text up to its first NUL. */
  lemma OtherRoundTrips(cfg: PostgresBind.Config, lib: Library, b: PostgresBind.Bindings,
                        args: seq<Value>, i: nat)
    requires PostgresBind.WellFormed(b) && i < |args| && WellTyped(cfg.widths, args[i])
    ensures var v, back := args[i], Trip(cfg, lib, b, args, i);
            && (v.Null? ==> back == Got(Null))
            && (v.Number? && v.kind.Bool? ==> (back == Got(v) <==> Stays(cfg, b, args, i)))
            && (v.Text? && Stays(cfg, b, args, i) ==> back == Got(Text(CString(v.s))))
            && (v.Text? ==> (back == Got(v) <==> '\0' !in v.s && Stays(cfg, b, args, i)))
  {
    var v := args[i];
    if !v.Blob? {
      TripIsEcho(cfg, lib, b, args, i);
    }
    if v.Number? && v.kind.Bool? {
      BoolEcho(cfg, lib, v);
    }
  }
}
