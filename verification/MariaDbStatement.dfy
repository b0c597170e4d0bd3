/** The MariaDB `PreparedSTMT`: the parameter vector, the buffers that `DoExecute` fills
    from it, what the statement handle keeps of them, and what the server makes of them. */
module MariaDbStatement {
  import opened Outcomes
  import opened Powers
  import opened Values

  /** The members of an input `MYSQL_BIND`, with the contents of the buffer it points to.
      The structure is zeroed first, so it never says that a number is unsigned. */
  datatype InputBind =
    | BindNull
    | BindTiny(byte: int)
    | BindLong(word: int)
    | BindLongLong(word: int)
    | BindDouble(d: Float)
    | BindString(s: string)
    | BindBlob(bytes: seq<byte>)

  /** One parameter as `DoExecute` prepares it: `int32_t`, `uint32_t`, `int64_t` and
      `uint64_t` buffers. */
  function Prepare(v: Value): InputBind {
    match v
    case Null => BindNull
    case Number(kind, n) =>
      (match kind
       case Int => BindLong(WrapSigned(32, n))
       case UInt => BindLong(WrapUnsigned(32, n))
       case Long => BindLongLong(WrapSigned(64, n))
       case ULong => BindLongLong(WrapUnsigned(64, n))
       case Bool => BindTiny(if n != 0 then 1 else 0))
    case Real(d) => BindDouble(d)
    case Text(s) => BindString(s)
    case Blob(bytes) => BindBlob(bytes)
  }

  /** A parameter as the server reads it: numbers are signed in the width of their type. */
  datatype Received =
    | NullReceived
    | NumberReceived(n: int)
    | FloatReceived(d: Float)
    | BytesReceived(s: string)
    | BlobReceived(bytes: seq<byte>)

  function Receive(p: InputBind): Received {
    match p
    case BindNull => NullReceived
    case BindTiny(b) => NumberReceived(WrapSigned(8, b))
    case BindLong(word) => NumberReceived(WrapSigned(32, word))
    case BindLongLong(word) => NumberReceived(WrapSigned(64, word))
    case BindDouble(d) => FloatReceived(d)
    case BindString(s) => BytesReceived(s)
    case BindBlob(bytes) => BlobReceived(bytes)
  }

  /** What the caller means the server to read. */
  function Meant(v: Value): Received {
    match v
    case Null => NullReceived
    case Number(_, n) => NumberReceived(n)
    case Real(d) => FloatReceived(d)
    case Text(s) => BytesReceived(s)
    case Blob(bytes) => BlobReceived(bytes)
  }

  /** The bits of the buffer that an integral value goes into. */
  function BufferBits(k: IntKind): (bits: nat)
    ensures bits >= 1
  {
    match k
    case Int => 32
    case UInt => 32
    case Long => 64
    case ULong => 64
    case Bool => 8
  }

  /** A number that its bind type can carry as signed. */
  predicate Carried(v: Value) {
    v.Number? ==> -Pow2(BufferBits(v.kind) - 1) <= v.n < Pow2(BufferBits(v.kind) - 1)
  }

  lemma WrapTwice(bits: nat, n: int)
    requires bits >= 1
    ensures WrapSigned(bits, WrapSigned(bits, n)) == WrapSigned(bits, n)
    ensures WrapSigned(bits, WrapUnsigned(bits, n)) == WrapSigned(bits, n)
  {
    WrapSignedExact(bits, n);
    WrapSignedExact(bits, WrapSigned(bits, n));
    WrapUnsignedExact(bits, n);
    WrapUnsignedExact(bits, WrapUnsigned(bits, n));
  }

  /** However its buffer is filled, the server reads a number modulo the buffer's width. */
  lemma NumberIsReceived(w: Widths, v: Value)
    requires v.Number? && WellTyped(w, v)
    ensures Receive(Prepare(v)) == NumberReceived(WrapSigned(BufferBits(v.kind), v.n))
  {
    WrapTwice(32, v.n);
    WrapTwice(64, v.n);
    LimitsOfBool(w);
  }

  /** The server reads what the caller means, text with its NULs and empty blobs included,
      exactly when the bind type carries the number as signed: never from 2^31 up for
      `unsigned int`, nor from 2^63 up for `unsigned long`. */
  lemma ReceivedIff(w: Widths, v: Value)
    requires WellTyped(w, v)
    ensures Receive(Prepare(v)) == Meant(v) <==> Carried(v)
  {
    if v.Number? {
      NumberIsReceived(w, v);
      WrapSignedExact(BufferBits(v.kind), v.n);
    }
  }

  lemma SignedIsCarried(w: Widths, v: Value)
    requires w.intBits <= 32 && WellTyped(w, v) && v.Number? && !v.kind.UInt? && !v.kind.ULong?
    ensures Carried(v)
  {
    if v.kind.Bool? {
      LimitsOfBool(w);
      Pow2Monotone(1, BufferBits(v.kind) - 1);
    } else {
      Pow2Monotone(Bits(w, v.kind) - 1, BufferBits(v.kind) - 1);
    }
  }

  lemma UncarriedIsUpperHalf(w: Widths, v: Value)
    requires w.intBits <= 32 && WellTyped(w, v) && !Carried(v) && (v.kind.UInt? || v.kind.ULong?)
    ensures Pow2(BufferBits(v.kind) - 1) <= v.n < Pow2(BufferBits(v.kind))
  {
    Pow2Monotone(Bits(w, v.kind), BufferBits(v.kind));
  }

  /** A number that is not carried is unsigned, and the server reads it as the negative one
      that is congruent to it. */
  lemma UncarriedIsNegative(w: Widths, v: Value)
    requires w.intBits <= 32 && WellTyped(w, v) && !Carried(v)
    ensures v.kind.UInt? || v.kind.ULong?
    ensures var bits := BufferBits(v.kind);
            Receive(Prepare(v)) == NumberReceived(v.n - Pow2(bits)) && v.n - Pow2(bits) < 0
  {
    if !v.kind.UInt? && !v.kind.ULong? {
      SignedIsCarried(w, v);
    } else {
      UncarriedIsUpperHalf(w, v);
      NumberIsReceived(w, v);
      WrapSignedUpperHalf(BufferBits(v.kind), v.n);
    }
  }

  /** What the server reads for an argument: what is meant, but for a number that its bind
      type reads modulo its width. */
  function AsRead(v: Value): Received {
    match v
    case Null => NullReceived
    case Number(kind, n) =>
      if kind.Bool? then NumberReceived(if n != 0 then 1 else 0)
      else NumberReceived(WrapSigned(BufferBits(kind), n))
    case Real(d) => FloatReceived(d)
    case Text(s) => BytesReceived(s)
    case Blob(bytes) => BlobReceived(bytes)
  }

  lemma SmallByte(b: int)
    requires 0 <= b <= 1
    ensures WrapSigned(8, b) == b
  {
    assert Pow2(7) == 128;
    WrapSignedExact(8, b);
  }

  lemma ReadOfPrepared(v: Value)
    ensures Receive(Prepare(v)) == AsRead(v)
  {
    if v.Number? {
      if v.kind.Bool? {
        SmallByte(if v.n != 0 then 1 else 0);
      } else {
        WrapTwice(BufferBits(v.kind), v.n);
      }
    }
  }

  lemma AsReadIff(w: Widths, v: Value)
    requires WellTyped(w, v)
    ensures AsRead(v) == Meant(v) <==> Carried(v)
  {
    ReadOfPrepared(v);
    ReceivedIff(w, v);
  }

  // ----- one call on the statement handle -----

  /** What the client library keeps for a statement: the placeholders of its SQL text, and
      the call whose buffers are bound, if any. The buffers are locals of that call. */
  datatype Handle = Handle(placeholders: nat, boundBy: Option<nat>)

  /** What a call of `Execute` comes to: nothing is sent without a connection and a handle;
      the binding is refused; the statement runs with inputs, or is refused because nothing
      has ever been bound; it runs with the buffers of an earlier call, which are gone; or
      the binding reads past the end of the inputs. */
  datatype Run =
    | NotSent
    | BindRefused
    | Ran(inputs: seq<InputBind>)
    | NeverBound
    | RanStale(call: nat)
    | OverRead

  function Inputs(values: seq<Value>): (inputs: seq<InputBind>)
    ensures |inputs| == |values|
  {
    seq(|values|, i requires 0 <= i < |values| => Prepare(values[i]))
  }

  /** The inputs carry the first of these values, one for each placeholder, each in its own
      place. */
  ghost predicate Carry(inputs: seq<InputBind>, n: nat, values: seq<Value>) {
    && |inputs| == n <= |values|
    && forall i :: 0 <= i < n ==> Receive(inputs[i]) == AsRead(values[i])
  }

  lemma InputsCarry(values: seq<Value>, n: nat)
    requires n <= |values|
    ensures Carry(Inputs(values)[..n], n, values)
  {
    forall i | 0 <= i < n ensures Receive(Inputs(values)[..n][i]) == AsRead(values[i]) {
      ReadOfPrepared(values[i]);
    }
  }

  /** `mysql_stmt_bind_param`, which copies one structure for each placeholder from a bare
      pointer. It is called only if there are inputs. */
  function AfterBind(h: Handle, me: nat, inputs: seq<InputBind>, bindOk: bool): Handle {
    if inputs != [] && bindOk then h.(boundBy := Some(me)) else h
  }

  /** `mysql_stmt_execute`: it reads what is bound, and refuses to run if nothing is. */
  function RunOf(h: Handle, me: nat, inputs: seq<InputBind>): Run {
    if h.placeholders == 0 then Ran([])
    else
      match h.boundBy
      case None => NeverBound
      case Some(call) =>
        if call != me then RanStale(call)
        else if |inputs| < h.placeholders then OverRead
        else Ran(inputs[..h.placeholders])
  }

  /** Both together; `bindOk` is what `mysql_stmt_bind_param` answers. */
  function Executed(h: Handle, me: nat, inputs: seq<InputBind>, bindOk: bool): (Handle, Run) {
    var bound := AfterBind(h, me, inputs, bindOk);
    if 0 < |inputs| < h.placeholders then (bound, OverRead)
    else if inputs != [] && !bindOk then (bound, BindRefused)
    else (bound, RunOf(bound, me, inputs))
  }

  /** Whatever is bound has been bound by an earlier call. */
  predicate IsOlder(h: Handle, calls: nat) {
    h.boundBy.Some? ==> h.boundBy.value < calls
  }

  class PreparedStatement {
    const ready: bool  // a connection and a statement handle
    var params: seq<Value>
    var handle: Handle
    var calls: nat     // calls so far; names the buffers of each

    constructor (ready: bool, placeholders: nat)
      ensures this.ready == ready && params == [] && handle == Handle(placeholders, None) && calls == 0
    {
      this.ready, params, handle, calls := ready, [], Handle(placeholders, None), 0;
    }

    /** `EnsureParamSize`: the new places hold NULL. */
    method EnsureParamSize(index: nat)
      modifies this`params
      ensures params == Padded(old(params), index)
    {
      if index >= |params| {
        params := params + seq(index + 1 - |params|, i => Null);
      }
    }

    method Binder(index: nat, value: Value)
      modifies this`params
      ensures params == Padded(old(params), index)[index := value]
    {
      EnsureParamSize(index);
      params := params[index := value];
    }

    /** `mysql_stmt_reset` leaves the bindings of the handle alone. */
    method Reset()
      modifies this`params
      ensures params == []
    {
      params := [];
    }

    /** The loop of `DoExecute` that fills the buffers. */
    method FillBuffers() returns (bindIn: seq<InputBind>)
      ensures bindIn == Inputs(params) && Carry(bindIn, |params|, params)
    {
      bindIn := seq(|params|, i => BindNull);
      var i := 0;
      while i < |params|
        invariant 0 <= i <= |params| == |bindIn|
        invariant forall k :: 0 <= k < i ==> bindIn[k] == Prepare(params[k])
        invariant forall k :: i <= k < |params| ==> bindIn[k] == BindNull
      {
        var p := params[i];
        match p {
          case Null =>
          case Blob(bytes) =>
            var content := CopyBytes(bytes);
            bindIn := bindIn[i := BindBlob(content)];
          case _ =>
            bindIn := bindIn[i := Prepare(p)];
        }
        i := i + 1;
      }
      InputsCarry(params, |params|);
      assert Inputs(params)[..|params|] == bindIn;
    }

    method DoExecute(bindOk: bool) returns (run: Run)
      modifies this`handle, this`calls
      ensures calls == old(calls) + 1
      ensures !ready ==> run == NotSent && handle == old(handle)
      ensures ready ==> (handle, run) == Executed(old(handle), old(calls), Inputs(params), bindOk)
      ensures run.Ran? && old(IsOlder(handle, calls)) ==> Carry(run.inputs, handle.placeholders, params)
      ensures old(IsOlder(handle, calls)) ==> IsOlder(handle, calls)
    {
      var me := calls;
      calls := calls + 1;
      if !ready {
        return NotSent;
      }
      var bindIn := FillBuffers();
      if bindIn != [] {
        handle := AfterBind(handle, me, bindIn, bindOk);
        if |bindIn| < handle.placeholders {
          return OverRead;
        }
        if !bindOk {
          return BindRefused;
        }
      }
      run := RunOf(handle, me, bindIn);
      if run.Ran? {
        if handle.placeholders <= |params| {
          InputsCarry(params, handle.placeholders);
        }
        assert run.inputs == bindIn[..|run.inputs|] || handle.placeholders == 0;
      }
    }

    /** `Execute(args...)` of the base class: reset, bind every argument, run, reset. */
    method Execute(args: seq<Value>, bindOk: bool) returns (run: Run)
      modifies this
      ensures calls == old(calls) + 1 && params == []
      ensures !ready ==> run == NotSent && handle == old(handle)
      ensures ready ==> (handle, run) == Executed(old(handle), old(calls), Inputs(args), bindOk)
      ensures run.Ran? && old(IsOlder(handle, calls)) ==> Carry(run.inputs, handle.placeholders, args)
      ensures old(IsOlder(handle, calls)) ==> IsOlder(handle, calls)
    {
      Reset();
      var i := 0;
      while i < |args|
        invariant 0 <= i <= |args| && params == args[..i]
        invariant handle == old(handle) && calls == old(calls)
      {
        Binder(i, args[i]);
        i := i + 1;
      }
      assert args[..|args|] == args;
      run := DoExecute(bindOk);
      Reset();
    }
  }

  function Padded(params: seq<Value>, index: nat): (r: seq<Value>)
    ensures |r| > index && params <= r
    ensures |r| == if index < |params| then |params| else index + 1
    ensures forall i :: |params| <= i < |r| ==> r[i] == Null
  {
    if index >= |params| then params + seq(index + 1 - |params|, i => Null) else params
  }

  // ----- sequences of calls -----

  datatype Call = Call(args: seq<Value>, bindOk: bool)

  /** The handle after the calls, and what each of them came to. */
  function RunCalls(h: Handle, calls: seq<Call>): (r: (Handle, seq<Run>))
    ensures r.0.placeholders == h.placeholders && |r.1| == |calls|
  {
    if calls == [] then (h, [])
    else
      var last := |calls| - 1;
      var (before, runs) := RunCalls(h, calls[..last]);
      var (after, run) := Executed(before, last, Inputs(calls[last].args), calls[last].bindOk);
      (after, runs + [run])
  }

  /** The call leaves its buffers bound to the handle. */
  predicate LeavesBound(c: Call) {
    c.args != [] && c.bindOk
  }

  /** Call `j` is the last one before call `k` that does. */
  ghost predicate IsLastBound(calls: seq<Call>, k: nat, j: nat)
    requires k <= |calls|
  {
    j < k && LeavesBound(calls[j]) && forall m :: j < m < k ==> !LeavesBound(calls[m])
  }

  lemma LastBoundNext(calls: seq<Call>, j: nat)
    requires calls != []
    ensures var last := |calls| - 1;
            IsLastBound(calls, |calls|, j) <==>
            if LeavesBound(calls[last]) then j == last else IsLastBound(calls[..last], last, j)
  {
    var last := |calls| - 1;
    if IsLastBound(calls[..last], last, j) {
      assert forall m :: j < m < last ==> calls[..last][m] == calls[m];
    }
    if IsLastBound(calls, |calls|, j) && !LeavesBound(calls[last]) {
      assert forall m :: j < m < last ==> calls[..last][m] == calls[m];
    }
  }

  /** The handle remembers the last call that has bound anything. */
  lemma {:induction false} BoundByLast(n: nat, calls: seq<Call>, j: nat)
    ensures RunCalls(Handle(n, None), calls).0.boundBy == Some(j) <==> IsLastBound(calls, |calls|, j)
    decreases |calls|
  {
    if calls != [] {
      var last := |calls| - 1;
      BoundByLast(n, calls[..last], j);
      LastBoundNext(calls, j);
    }
  }

  lemma BoundPrefix(calls: seq<Call>, k: nat, j: nat)
    requires k <= |calls|
    ensures IsLastBound(calls[..k], k, j) <==> IsLastBound(calls, k, j)
  {
    if IsLastBound(calls[..k], k, j) {
      assert forall m :: j < m < k ==> calls[..k][m] == calls[m];
    }
  }

  /** What the last of some calls comes to. */
  lemma LastCallRuns(n: nat, calls: seq<Call>, k: nat)
    requires |calls| == k + 1
    ensures RunCalls(Handle(n, None), calls).1[k] ==
            Executed(RunCalls(Handle(n, None), calls[..k]).0, k, Inputs(calls[k].args), calls[k].bindOk).1
  {
  }

  lemma {:induction false} RunsOfPrefix(h: Handle, calls: seq<Call>, k: nat)
    requires k < |calls|
    ensures RunCalls(h, calls).1[k] == RunCalls(h, calls[..k + 1]).1[k]
    decreases |calls|
  {
    var last := |calls| - 1;
    if k < last {
      RunsOfPrefix(h, calls[..last], k);
      assert calls[..last][..k + 1] == calls[..k + 1];
    } else {
      assert calls[..k + 1] == calls;
    }
  }

  /** The call runs with its own first arguments, one for each placeholder, in order. */
  ghost predicate RunsOwn(n: nat, c: Call, r: Run) {
    r.Ran? && Carry(r.inputs, n, c.args)
  }

  /** What one call comes to, by the call and by what earlier ones have left bound. */
  lemma ExecutedIff(h: Handle, me: nat, c: Call)
    requires h.boundBy != Some(me)
    ensures var n, r := h.placeholders, Executed(h, me, Inputs(c.args), c.bindOk).1;
            && (RunsOwn(n, c, r) <==> n <= |c.args| && (c.args == [] || c.bindOk))
            && (r.Ran? ==> RunsOwn(n, c, r))
            && (r == BindRefused <==> n <= |c.args| && c.args != [] && !c.bindOk)
            && (r == OverRead <==> 0 < |c.args| < n)
            && (r == NeverBound <==> c.args == [] && n > 0 && h.boundBy.None?)
            && (forall j: nat :: r == RanStale(j) <==> c.args == [] && n > 0 && h.boundBy == Some(j))
            && r != NotSent
  {
    if h.placeholders <= |c.args| {
      InputsCarry(c.args, h.placeholders);
    }
  }

  lemma {:induction false} LastBoundExists(calls: seq<Call>, k: nat, j: nat) returns (last: nat)
    requires j < k <= |calls| && LeavesBound(calls[j])
    ensures IsLastBound(calls, k, last)
    decreases k
  {
    if LeavesBound(calls[k - 1]) {
      last := k - 1;
    } else {
      last := LastBoundExists(calls, k - 1, j);
    }
  }

  lemma BoundBefore(n: nat, calls: seq<Call>, k: nat)
    requires k <= |calls|
    ensures var b := RunCalls(Handle(n, None), calls[..k]).0.boundBy;
            && b != Some(k)
            && (forall j: nat :: b == Some(j) <==> IsLastBound(calls, k, j))
            && (b.None? <==> forall j :: 0 <= j < k ==> !LeavesBound(calls[j]))
  {
    var b := RunCalls(Handle(n, None), calls[..k]).0.boundBy;
    forall j: nat ensures b == Some(j) <==> IsLastBound(calls, k, j) {
      BoundByLast(n, calls[..k], j);
      BoundPrefix(calls, k, j);
    }
    if j :| 0 <= j < k && LeavesBound(calls[j]) {
      var last := LastBoundExists(calls, k, j);
      assert b == Some(last);
    }
  }

  /** Over every sequence of calls on a new statement with `n` placeholders, whatever their
      argument counts: a call runs with its own first `n` arguments, in order, exactly when
      it has as many and they are bound without an error; and the server then reads argument
      `i` as it is meant exactly when its bind type carries it. A call without arguments for the
      placeholders runs with the vanished buffers of the last earlier call that has bound
      any, and is refused only if there is none. A call with too few reads past the end. */
  lemma ExecutionIsolationIff(w: Widths, n: nat, calls: seq<Call>, k: nat)
    requires k < |calls|
    ensures var c, r := calls[k], RunCalls(Handle(n, None), calls).1[k];
            r.Ran? ==>
              && |r.inputs| == n <= |c.args|
              && forall i :: 0 <= i < n && WellTyped(w, c.args[i]) ==>
                   (Receive(r.inputs[i]) == Meant(c.args[i]) <==> Carried(c.args[i]))
    ensures var c, r := calls[k], RunCalls(Handle(n, None), calls).1[k];
            && (RunsOwn(n, c, r) <==> n <= |c.args| && (c.args == [] || c.bindOk))
            && (r.Ran? ==> RunsOwn(n, c, r))
            && (r == BindRefused <==> n <= |c.args| && c.args != [] && !c.bindOk)
            && (r == OverRead <==> 0 < |c.args| < n)
            && (r == NeverBound <==> c.args == [] && n > 0 && forall j :: 0 <= j < k ==> !LeavesBound(calls[j]))
            && (forall j: nat :: r == RanStale(j) <==> c.args == [] && n > 0 && IsLastBound(calls, k, j))
  {
    RunsOfPrefix(Handle(n, None), calls, k);
    assert calls[..k + 1][..k] == calls[..k];
    LastCallRuns(n, calls[..k + 1], k);
    BoundBefore(n, calls, k);
    ExecutedIff(RunCalls(Handle(n, None), calls[..k]).0, k, calls[k]);
    var c, r := calls[k], RunCalls(Handle(n, None), calls).1[k];
    if r.Ran? {
      forall i | 0 <= i < n && WellTyped(w, c.args[i])
        ensures Receive(r.inputs[i]) == Meant(c.args[i]) <==> Carried(c.args[i])
      {
        AsReadIff(w, c.args[i]);
      }
    }
  }

  /** So a statement with a placeholder that is run once with an argument and then without
      runs the second time with buffers that are gone. */
  lemma ArgumentsForgottenRunStale(n: nat, first: seq<Value>)
    requires n > 0 && first != []
    ensures RunCalls(Handle(n, None), [Call(first, true), Call([], true)]).1[1] == RanStale(0)
  {
    var calls := [Call(first, true), Call([], true)];
    ExecutionIsolationIff(Platform(32, 64), n, calls, 1);
    assert IsLastBound(calls, 1, 0);
  }
}
