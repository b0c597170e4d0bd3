/** The PostgreSQL `PreparedSTMT` as a class, and whole sequences of `Execute` calls on it. */
module PostgresStatement {
  import opened Outcomes
  import opened Values
  import opened CStrings
  import opened Decimal
  import opened PostgresBind

  class PreparedStatement {
    const cfg: Config
    var connected: bool  // `m_conn` is not null
    var values: seq<Pointer>
    var lengths: seq<int>
    var formats: seq<int>
    var strings: Vector<char>
    var blobs: Vector<byte>
    var next: nat

    ghost function State(): Bindings
      reads this
    {
      Bindings(values, lengths, formats, strings, blobs, next)
    }

    constructor (cfg: Config, connected: bool)
      ensures this.cfg == cfg && this.connected == connected && State() == NO_BINDINGS
    {
      this.cfg, this.connected := cfg, connected;
      values, lengths, formats := [], [], [];
      strings, blobs, next := Vector([], 0, 0), Vector([], 0, 0), 1;
    }

    method Binder(index: nat, value: Value)
      requires Parallel(State())
      modifies this
      ensures State() == Bind(cfg, old(State()), index, value)
      ensures connected == old(connected)
    {
      Grow(index);
      var block, buffer := next, next + 1;
      next := next + 2;
      if value.Null? {
        Put(index, NullPointer, 0, 0);
      } else if value.Blob? {
        var content := CopyBytes(value.bytes);
        blobs := EmplaceBack(blobs, MakeBlob(content, block), cfg.growth, buffer);
        Put(index, BackData(blobs), Cast(cfg.widths, Int, |content|), 1);
      } else {
        strings := EmplaceBack(strings, MakeString(cfg, Print(cfg, value), block), cfg.growth, buffer);
        Put(index, BackCStr(strings), 0, 0);
      }
    }

    /** The three arrays are resized together. */
    method Grow(index: nat)
      requires Parallel(State())
      modifies this`values, this`lengths, this`formats
      ensures State() == Grown(old(State()), index)
    {
      if index >= |values| {
        values := Resize(values, index + 1, NullPointer);
        lengths := Resize(lengths, index + 1, 0);
        formats := Resize(formats, index + 1, 0);
      }
    }

    /** The three assignments at one index. */
    method Put(index: nat, value: Pointer, length: int, format: int)
      requires index < |values| && index < |lengths| && index < |formats|
      modifies this`values, this`lengths, this`formats
      ensures State() == PostgresBind.Put(old(State()), index, value, length, format)
    {
      values := values[index := value];
      lengths := lengths[index := length];
      formats := formats[index := format];
    }

    method Reset()
      modifies this
      ensures State() == Cleared(old(State()))
      ensures connected == old(connected)
    {
      values, lengths, formats := [], [], [];
      strings := Clear(strings);
      blobs := Clear(blobs);
    }

    /** Copies the three arrays and hands the copies to `PQexecPrepared`; `None` without a
        connection, when nothing is sent. */
    method DoExecute() returns (sent: Option<seq<Wire>>)
      requires Parallel(State())
      ensures sent == if connected then Some(SeenAll(State())) else None
    {
      if !connected {
        return None;
      }
      var n := |values|;
      var params := new Pointer[n];
      var sizes := new int[n];
      var kinds := new int[n];
      var i := 0;
      while i < n
        invariant 0 <= i <= n
        invariant params[..i] == values[..i] && sizes[..i] == lengths[..i] && kinds[..i] == formats[..i]
      {
        params[i] := values[i];
        sizes[i] := lengths[i];
        kinds[i] := formats[i];
        i := i + 1;
      }
      assert params[..] == values && sizes[..] == lengths && kinds[..] == formats;
      var read: seq<Wire> := [];
      i := 0;
      while i < n
        invariant 0 <= i <= n && |read| == i
        invariant forall k :: 0 <= k < i ==> read[k] == Seen(State(), k)
      {
        assert params[i] == params[..][i] && sizes[i] == sizes[..][i] && kinds[i] == kinds[..][i];
        var state := Bindings(values, lengths, formats, strings, blobs, next);
        read := read + [Receive(state, params[i], sizes[i], kinds[i])];
        i := i + 1;
      }
      assert read == SeenAll(State());
      sent := Some(read);
    }

    /** `Execute(args...)` of the base class: reset, bind every argument, run, reset. */
    method Execute(args: seq<Value>) returns (sent: Option<seq<Wire>>)
      modifies this
      ensures var (after, wires) := ExecuteOnce(cfg, old(State()), args);
              && State() == after
              && sent == (if connected then Some(wires) else None)
      ensures connected == old(connected)
    {
      Reset();
      ghost var start := State();
      var i := 0;
      while i < |args|
        invariant 0 <= i <= |args|
        invariant State() == BindAll(cfg, start, args[..i])
        invariant connected == old(connected)
      {
        assert args[..i + 1][..i] == args[..i];
        Binder(i, args[i]);
        i := i + 1;
      }
      assert args[..|args|] == args;
      sent := DoExecute();
      Reset();
    }
  }

  /** One call of `Execute`: the bindings it leaves, and what the server reads. */
  function ExecuteOnce(cfg: Config, b: Bindings, args: seq<Value>): (Bindings, seq<Wire>) {
    var bound := BindAll(cfg, Cleared(b), args);
    (Cleared(bound), SeenAll(bound))
  }

  function ExecuteRun(cfg: Config, b: Bindings, calls: seq<seq<Value>>): (Bindings, seq<seq<Wire>>)
    decreases calls
  {
    if calls == [] then (b, [])
    else
      var (next, wires) := ExecuteOnce(cfg, b, calls[0]);
      var (end, rest) := ExecuteRun(cfg, next, calls[1..]);
      (end, [wires] + rest)
  }

  /** `int` can say how long each blob is. */
  ghost predicate SizesFit(cfg: Config, args: seq<Value>) {
    forall v <- args :: v.Blob? ==> Fits(cfg.widths, Int, |v.bytes|)
  }

  /** Every parameter reaches the server as the argument of the same position means it, as
      far as its announced size reaches, except that inline text may have been left behind
      by a reallocation. */
  ghost predicate Isolated(cfg: Config, args: seq<Value>, wires: seq<Wire>) {
    && |wires| == |args|
    && forall i :: 0 <= i < |args| ==>
         wires[i] == AsAnnounced(cfg, args[i]) || (wires[i] == Dangling && IsInline(cfg, args[i]))
  }

  ghost predicate Delivered(cfg: Config, args: seq<Value>, wires: seq<Wire>) {
    |wires| == |args| && forall i :: 0 <= i < |args| ==> wires[i] == Meant(cfg, args[i])
  }

  /** The argument survives the binding of the others, and its size can be announced. */
  predicate Arrives(cfg: Config, b: Bindings, args: seq<Value>, i: nat)
    requires i < |args|
  {
    && (IsInline(cfg, args[i]) ==> RoomAfter(cfg, b, args, i))
    && (args[i].Blob? ==> Fits(cfg.widths, Int, |args[i].bytes|))
  }

  /** A call on a statement in any state is delivered as meant exactly when each inline text
      is followed by no reallocation, which the capacity before the call decides, and each
      blob has a size that `int` holds. */
  lemma DeliveredIff(cfg: Config, b: Bindings, args: seq<Value>)
    requires WellFormed(b)
    ensures Delivered(cfg, args, ExecuteOnce(cfg, b, args).1)
            <==> forall i :: 0 <= i < |args| ==> Arrives(cfg, b, args, i)
  {
    var start := Cleared(b);
    forall i | 0 <= i < |args|
      ensures Seen(BindAll(cfg, start, args), i) == Meant(cfg, args[i]) <==> Arrives(cfg, b, args, i)
    {
      PointerStability(cfg, start, args, i);
      AnnouncedAsMeantIff(cfg, args[i]);
      assert RoomAfter(cfg, start, args, i) == RoomAfter(cfg, b, args, i);
    }
  }

  /** The parameter as the caller gave it, NULs and emptiness included. */
  function Exact(cfg: Config, v: Value): Wire {
    match v
    case Null => NullParam
    case Blob(bytes) => BinaryParam(bytes)
    case _ => TextParam(Print(cfg, v))
  }

  /** What is meant is less than what is given for an empty blob, which is sent as NULL, and
      for text with a NUL. */
  predicate IsMeantWhole(cfg: Config, v: Value) {
    v != Blob([]) && (IsText(v) ==> '\0' !in Print(cfg, v))
  }

  lemma MeantWholeIff(cfg: Config, v: Value)
    ensures Meant(cfg, v) == Exact(cfg, v) <==> IsMeantWhole(cfg, v)
    ensures AsAnnounced(cfg, v) == Exact(cfg, v) <==>
            IsMeantWhole(cfg, v) && (v.Blob? ==> Fits(cfg.widths, Int, |v.bytes|))
    ensures Exact(cfg, v) != Dangling
  {
    AnnouncedAsMeantIff(cfg, v);
    if v.Blob? {
      AnnouncedInFullIff(cfg.widths, v.bytes);
    }
  }

  /** Every parameter reaches the server exactly as it was given if and only if each arrives
      as it is meant, no blob is empty, and no text has a NUL. */
  lemma DeliveredWholeIff(cfg: Config, b: Bindings, args: seq<Value>)
    requires WellFormed(b)
    ensures (forall i :: 0 <= i < |args| ==> ExecuteOnce(cfg, b, args).1[i] == Exact(cfg, args[i]))
            <==> forall i :: 0 <= i < |args| ==> Arrives(cfg, b, args, i) && IsMeantWhole(cfg, args[i])
  {
    var start := Cleared(b);
    forall i | 0 <= i < |args|
      ensures Seen(BindAll(cfg, start, args), i) == Exact(cfg, args[i])
              <==> Arrives(cfg, b, args, i) && IsMeantWhole(cfg, args[i])
    {
      PointerStability(cfg, start, args, i);
      MeantWholeIff(cfg, args[i]);
      assert RoomAfter(cfg, start, args, i) == RoomAfter(cfg, b, args, i);
    }
  }

  /** What the server reads for each kind of argument that arrives: the decimal digits of an
      integer, which parse to it; `true` or `false`; the library's print of that very double;
      text and prints up to their first NUL; the bytes of a blob, and NULL for an empty one. */
  lemma ServerReads(cfg: Config, b: Bindings, args: seq<Value>, i: nat)
    requires WellFormed(b) && i < |args| && Arrives(cfg, b, args, i)
    ensures var wire := ExecuteOnce(cfg, b, args).1[i];
            match args[i]
            case Null => wire == NullParam
            case Number(kind, n) =>
              if kind.Bool? then wire == TextParam(if n != 0 then "true" else "false")
              else wire.TextParam? && Stoll(wire.s) == ToLongLong(n)
            case Real(d) => wire == TextParam(CString(cfg.printFloat(d)))
            case Text(s) => wire == TextParam(CString(s))
            case Blob(bytes) => wire == if bytes == [] then NullParam else BinaryParam(bytes)
  {
    var start := Cleared(b);
    PointerStability(cfg, start, args, i);
    AnnouncedAsMeantIff(cfg, args[i]);
    assert RoomAfter(cfg, start, args, i) == RoomAfter(cfg, b, args, i);
    if args[i].Number? {
      PrintedNumber(args[i].n);
    }
  }

  lemma PrintedNumber(n: int)
    ensures CString(ToString(n)) == ToString(n) && Stoll(ToString(n)) == ToLongLong(n)
    ensures CString("true") == "true" && CString("false") == "false"
  {
    NumbersHaveNoNul(n);
    StollOfToString(n);
  }

  /** What one call does to a statement in any state: it leaves no bindings behind, the
      string storage never shrinks and has room for this call's text from now on, and the
      server reads this call's arguments only, in order. */
  lemma ExecuteOnceIsIsolated(cfg: Config, b: Bindings, args: seq<Value>)
    requires WellFormed(b)
    ensures var (after, wires) := ExecuteOnce(cfg, b, args);
            && Empty(after) && Isolated(cfg, args, wires)
            && after.strings.capacity >= b.strings.capacity
            && after.strings.capacity >= CountText(args)
  {
    var start := Cleared(b);
    BindAllKeeps(cfg, start, args);
    CapacityAfterBinds(cfg, start, args);
    CapacityNeverShrinks(cfg.growth, b.strings.capacity, CountText(args));
    forall i | 0 <= i < |args|
      ensures Seen(BindAll(cfg, start, args), i) == AsAnnounced(cfg, args[i])
              || (Seen(BindAll(cfg, start, args), i) == Dangling && IsInline(cfg, args[i]))
    {
      PointerStability(cfg, start, args, i);
    }
  }

  lemma {:induction false} CapacityNeverShrinks(growth: nat -> nat, capacity: nat, n: nat)
    ensures CapacityAfter(growth, capacity, n) >= capacity
  {
    if n > 0 {
      CapacityNeverShrinks(growth, capacity, n - 1);
    }
  }

  /** A call whose text arguments fit the capacity that the storage already has is
      delivered in full. */
  lemma RoomyCallIsDelivered(cfg: Config, b: Bindings, args: seq<Value>)
    requires WellFormed(b) && SizesFit(cfg, args) && CountText(args) <= b.strings.capacity
    ensures Delivered(cfg, args, ExecuteOnce(cfg, b, args).1)
  {
    forall i | 0 <= i < |args| ensures Arrives(cfg, b, args, i) {
      assert args[i] in args;
      CapacityNeverShrinks(cfg.growth, b.strings.capacity, CountText(args[..i + 1]));
    }
    DeliveredIff(cfg, b, args);
  }

  /** The storage has had room for the text of call `k` before it. */
  ghost predicate Warm(b: Bindings, calls: seq<seq<Value>>, k: nat)
    requires k < |calls|
  {
    || CountText(calls[k]) <= b.strings.capacity
    || exists j :: 0 <= j < k && CountText(calls[k]) <= CountText(calls[j])
  }

  lemma WarmStays(cfg: Config, b: Bindings, calls: seq<seq<Value>>, k: nat)
    requires Empty(b) && 0 < k < |calls| && Warm(b, calls, k)
    ensures Warm(ExecuteOnce(cfg, b, calls[0]).0, calls[1..], k - 1)
  {
    ExecuteOnceIsIsolated(cfg, b, calls[0]);
    if CountText(calls[k]) > b.strings.capacity {
      var j :| 0 <= j < k && CountText(calls[k]) <= CountText(calls[j]);
      if j > 0 {
        assert calls[1..][j - 1] == calls[j];
      }
    }
  }

  lemma {:induction false} RunLeavesNothing(cfg: Config, b: Bindings, calls: seq<seq<Value>>)
    requires Empty(b)
    ensures Empty(ExecuteRun(cfg, b, calls).0) && |ExecuteRun(cfg, b, calls).1| == |calls|
    decreases calls
  {
    if calls != [] {
      ExecuteOnceIsIsolated(cfg, b, calls[0]);
      RunLeavesNothing(cfg, ExecuteOnce(cfg, b, calls[0]).0, calls[1..]);
    }
  }

  lemma {:induction false} CallIsIsolated(cfg: Config, b: Bindings, calls: seq<seq<Value>>, k: nat)
    requires Empty(b) && k < |calls| == |ExecuteRun(cfg, b, calls).1|
    ensures Isolated(cfg, calls[k], ExecuteRun(cfg, b, calls).1[k])
    ensures SizesFit(cfg, calls[k]) && Warm(b, calls, k) ==> Delivered(cfg, calls[k], ExecuteRun(cfg, b, calls).1[k])
    decreases calls
  {
    ExecuteOnceIsIsolated(cfg, b, calls[0]);
    if k == 0 {
      if SizesFit(cfg, calls[0]) && CountText(calls[0]) <= b.strings.capacity {
        RoomyCallIsDelivered(cfg, b, calls[0]);
      }
    } else {
      CallIsIsolated(cfg, ExecuteOnce(cfg, b, calls[0]).0, calls[1..], k - 1);
      if Warm(b, calls, k) {
        WarmStays(cfg, b, calls, k);
      }
    }
  }

  /** Over every sequence of calls, whatever their argument counts: each call is isolated
      from the others, no binding outlives its call, and a call is delivered in full as soon
      as some earlier call of the statement has had as many text arguments. */
  lemma ExecutionIsolation(cfg: Config, b: Bindings, calls: seq<seq<Value>>)
    requires Empty(b)
    ensures Empty(ExecuteRun(cfg, b, calls).0)
    ensures |ExecuteRun(cfg, b, calls).1| == |calls|
    ensures forall k :: 0 <= k < |calls| ==> Isolated(cfg, calls[k], ExecuteRun(cfg, b, calls).1[k])
    ensures forall k :: 0 <= k < |calls| && SizesFit(cfg, calls[k]) && Warm(b, calls, k) ==>
              Delivered(cfg, calls[k], ExecuteRun(cfg, b, calls).1[k])
  {
    RunLeavesNothing(cfg, b, calls);
    forall k | 0 <= k < |calls|
      ensures Isolated(cfg, calls[k], ExecuteRun(cfg, b, calls).1[k])
      ensures SizesFit(cfg, calls[k]) && Warm(b, calls, k) ==> Delivered(cfg, calls[k], ExecuteRun(cfg, b, calls).1[k])
    {
      CallIsIsolated(cfg, b, calls, k);
    }
  }

  /** On a new statement whose storage grows from nothing to one string at a time, the first
      parameter is left behind whenever it is inline text and more text follows. */
  lemma FirstShortTextDangles(cfg: Config, args: seq<Value>)
    requires cfg.growth(0) <= 1
    requires args != [] && IsInline(cfg, args[0]) && CountText(args) >= 2
    ensures ExecuteOnce(cfg, NO_BINDINGS, args).1[0] == Dangling != Meant(cfg, args[0])
  {
    var start := Cleared(NO_BINDINGS);
    assert args[..1][..0] == [];
    assert CountText(args[..1]) == 1;
    assert CapacityAfter(cfg.growth, 0, 1) == 1;
    assert !RoomAfter(cfg, start, args, 0);
    PointerStability(cfg, start, args, 0);
    AnnouncedAsMeantIff(cfg, args[0]);
  }
}
