/** The PostgreSQL `PreparedSTMT`: three parallel parameter arrays whose pointers lead into
    growing vectors that own the bytes. The heap is explicit: a pointer names either a slot
    of a vector's buffer (a short string keeps its characters inside its own object) or a
    block that a longer string or a blob has allocated. */
module PostgresBind {
  import opened Outcomes
  import opened Values
  import opened Decimal
  import opened CStrings

  datatype Place = Slot(buffer: nat, index: nat) | Block(id: nat)

  datatype Pointer = NullPointer | To(place: Place)

  /** A `std::string` or `std::vector<char>` with the block it has allocated, if any. */
  datatype Owned<T> = Owned(content: seq<T>, block: Option<nat>)

  /** A `std::vector` of such objects. */
  datatype Vector<T> = Vector(items: seq<Owned<T>>, buffer: nat, capacity: nat)

  /** The platform: the longest string stored inside the object, how a full vector grows,
      and how `std::to_string` prints a double. */
  datatype Config = Config(widths: Widths, inlineLimit: nat, growth: nat -> nat, printFloat: Float -> string)

  datatype Bindings = Bindings(
    values: seq<Pointer>, lengths: seq<int>, formats: seq<int>,
    strings: Vector<char>, blobs: Vector<byte>,
    next: nat  // the first identity not yet used for a block or a buffer
  )

  const NO_BINDINGS: Bindings := Bindings([], [], [], Vector([], 0, 0), Vector([], 0, 0), 1)

  // ----- vectors -----

  /** `emplace_back`. A full vector moves its objects to a new buffer; a moved object keeps
      its block, so only what it stores inside itself changes its place. */
  function EmplaceBack<T>(v: Vector<T>, item: Owned<T>, growth: nat -> nat, freshBuffer: nat): Vector<T> {
    if |v.items| < v.capacity then v.(items := v.items + [item])
    else
      var wanted := growth(v.capacity);
      Vector(v.items + [item], freshBuffer, if wanted > |v.items| then wanted else |v.items| + 1)
  }

  /** `clear` keeps the buffer. */
  function Clear<T>(v: Vector<T>): Vector<T> {
    v.(items := [])
  }

  function Resize<T>(s: seq<T>, n: nat, fill: T): seq<T>
    requires n >= |s|
  {
    s + seq(n - |s|, i => fill)
  }

  // ----- printed numbers as C strings -----

  lemma {:induction false} DigitsHaveNoNul(n: nat)
    ensures '\0' !in Digits(n)
    decreases n
  {
    if n >= 10 {
      DigitsHaveNoNul(n / 10);
    }
  }

  lemma NumbersHaveNoNul(n: int)
    ensures CString(ToString(n)) == ToString(n)
  {
    DigitsHaveNoNul(if n < 0 then -n else n);
  }

  // ----- binding -----

  /** Values that go through the string storage. */
  predicate IsText(v: Value) {
    v.Number? || v.Real? || v.Text?
  }

  /** The text appended to the string storage. */
  function Print(cfg: Config, v: Value): string
    requires IsText(v)
  {
    match v
    case Number(kind, n) => if kind.Bool? then (if n != 0 then "true" else "false") else ToString(n)
    case Real(d) => cfg.printFloat(d)
    case Text(s) => s
  }

  function MakeString(cfg: Config, s: string, freshBlock: nat): Owned<char> {
    Owned(s, if |s| <= cfg.inlineLimit then None else Some(freshBlock))
  }

  function MakeBlob(bytes: seq<byte>, freshBlock: nat): Owned<byte> {
    Owned(bytes, if bytes == [] then None else Some(freshBlock))
  }

  /** `strings.back().c_str()` */
  function BackCStr(v: Vector<char>): Pointer
    requires v.items != []
  {
    var last := |v.items| - 1;
    match v.items[last].block
    case Some(id) => To(Block(id))
    case None => To(Slot(v.buffer, last))
  }

  /** `blobs.back().data()`: null for a vector that has allocated nothing. */
  function BackData(v: Vector<byte>): Pointer
    requires v.items != []
  {
    match v.items[|v.items| - 1].block
    case Some(id) => To(Block(id))
    case None => NullPointer
  }

  /** The arrays hold one more slot when the index lies beyond them. */
  function Grown(b: Bindings, index: nat): (r: Bindings)
    requires Parallel(b)
    ensures Parallel(r) && |r.values| == if index < |b.values| then |b.values| else index + 1
    ensures b.values <= r.values && b.lengths <= r.lengths && b.formats <= r.formats
    ensures forall i :: |b.values| <= i < |r.values| ==>
              r.values[i] == NullPointer && r.lengths[i] == 0 && r.formats[i] == 0
    ensures r.strings == b.strings && r.blobs == b.blobs && r.next == b.next
  {
    if index >= |b.values|
    then b.(values := Resize(b.values, index + 1, NullPointer),
            lengths := Resize(b.lengths, index + 1, 0),
            formats := Resize(b.formats, index + 1, 0))
    else b
  }

  ghost predicate Parallel(b: Bindings) {
    |b.values| == |b.lengths| == |b.formats|
  }

  function Put(b: Bindings, index: nat, value: Pointer, length: int, format: int): Bindings
    requires index < |b.values| && index < |b.lengths| && index < |b.formats|
  {
    b.(values := b.values[index := value],
       lengths := b.lengths[index := length],
       formats := b.formats[index := format])
  }

  /** `Binder`. Every call uses up two identities: one for a block, one for a buffer. */
  function Bind(cfg: Config, b: Bindings, index: nat, v: Value): Bindings
    requires Parallel(b)
  {
    var g := Grown(b, index).(next := b.next + 2);
    if v.Null? then Put(g, index, NullPointer, 0, 0)
    else if v.Blob? then
      var blobs := EmplaceBack(g.blobs, MakeBlob(v.bytes, b.next), cfg.growth, b.next + 1);
      Put(g.(blobs := blobs), index, BackData(blobs), Cast(cfg.widths, Int, |v.bytes|), 1)
    else
      var strings := EmplaceBack(g.strings, MakeString(cfg, Print(cfg, v), b.next), cfg.growth, b.next + 1);
      Put(g.(strings := strings), index, BackCStr(strings), 0, 0)
  }

  /** `Reset` */
  function Cleared(b: Bindings): Bindings {
    Bindings([], [], [], Clear(b.strings), Clear(b.blobs), b.next)
  }

  /** The bindings after the arguments of one call. */
  function BindAll(cfg: Config, b: Bindings, args: seq<Value>): (r: Bindings)
    requires b.values == [] && Parallel(b)
    ensures Parallel(r) && |r.values| == |args|
  {
    if args == [] then b
    else
      var last := |args| - 1;
      Bind(cfg, BindAll(cfg, b, args[..last]), last, args[last])
  }

  // ----- what the server reads -----

  /** One parameter as `PQexecPrepared` reads it, or `Dangling` when its pointer leads to
      memory that no longer belongs to any bound value. */
  datatype Wire = NullParam | TextParam(s: string) | BinaryParam(bytes: seq<byte>) | Dangling

  function FindBlock<T>(items: seq<Owned<T>>, id: nat): Option<seq<T>> {
    if items == [] then None
    else if items[0].block == Some(id) then Some(items[0].content)
    else FindBlock(items[1..], id)
  }

  function ReadText(b: Bindings, place: Place): Option<string> {
    match place
    case Block(id) => FindBlock(b.strings.items, id)
    case Slot(buffer, i) =>
      if buffer == b.strings.buffer && i < |b.strings.items| && b.strings.items[i].block.None?
      then Some(b.strings.items[i].content) else None
  }

  function Receive(b: Bindings, p: Pointer, length: int, format: int): Wire {
    match p
    case NullPointer => NullParam
    case To(place) =>
      if format == 0 then
        match ReadText(b, place)
        case Some(s) => TextParam(CString(s))
        case None => Dangling
      else
        match (if place.Block? then FindBlock(b.blobs.items, place.id) else None)
        case Some(bytes) => if 0 <= length <= |bytes| then BinaryParam(bytes[..length]) else Dangling
        case None => Dangling
  }

  function Seen(b: Bindings, i: nat): Wire
    requires Parallel(b) && i < |b.values|
  {
    Receive(b, b.values[i], b.lengths[i], b.formats[i])
  }

  function SeenAll(b: Bindings): (r: seq<Wire>)
    requires Parallel(b)
    ensures |r| == |b.values|
  {
    seq(|b.values|, i requires 0 <= i < |b.values| => Seen(b, i))
  }

  /** What the caller meant: text up to its first NUL, bytes in full; a blob without bytes
      is sent as NULL. */
  function Meant(cfg: Config, v: Value): Wire {
    if v.Null? || v == Blob([]) then NullParam
    else if v.Blob? then BinaryParam(v.bytes)
    else TextParam(CString(Print(cfg, v)))
  }

  /** The same, with each blob as far as its announced size reaches. */
  function AsAnnounced(cfg: Config, v: Value): Wire {
    if v.Blob? && v.bytes != [] then
      match Announced(cfg.widths, v.bytes)
      case Got(read) => BinaryParam(read)
      case _ => Dangling
    else Meant(cfg, v)
  }

  /** A blob arrives as it is meant exactly when `int` holds its size. */
  lemma AnnouncedAsMeantIff(cfg: Config, v: Value)
    ensures AsAnnounced(cfg, v) == Meant(cfg, v) <==> (v.Blob? ==> Fits(cfg.widths, Int, |v.bytes|))
    ensures Meant(cfg, v) != Dangling
  {
    if v.Blob? {
      LimitsWithin64(cfg.widths, Int);
      AnnouncedInFullIff(cfg.widths, v.bytes);
    }
  }

  // ----- what a call leaves in the storage -----

  /** Every identity in use is older than `next`, and no vector is overfull. */
  ghost predicate WellFormed(b: Bindings) {
    && Parallel(b)
    && b.strings.buffer < b.next && |b.strings.items| <= b.strings.capacity
    && b.blobs.buffer < b.next && |b.blobs.items| <= b.blobs.capacity
  }

  ghost predicate Empty(b: Bindings) {
    WellFormed(b) && b.values == [] && b.strings.items == [] && b.blobs.items == []
  }

  function CountText(args: seq<Value>): nat {
    if args == [] then 0
    else CountText(args[..|args| - 1]) + (if IsText(args[|args| - 1]) then 1 else 0)
  }

  function CountBlobs(args: seq<Value>): nat {
    if args == [] then 0
    else CountBlobs(args[..|args| - 1]) + (if args[|args| - 1].Blob? then 1 else 0)
  }

  /** The blocks of the objects are distinct, and lie between two identities. */
  ghost predicate Distinct<T>(items: seq<Owned<T>>, lo: nat, hi: nat) {
    && (forall j :: 0 <= j < |items| && items[j].block.Some? ==> lo <= items[j].block.value < hi)
    && (forall j, k :: 0 <= j < k < |items| && items[j].block.Some? ==> items[j].block != items[k].block)
  }

  lemma BindKeepsStrings(cfg: Config, b: Bindings, v: Value, lo: nat)
    requires WellFormed(b) && lo <= b.next && Distinct(b.strings.items, lo, b.next)
    ensures var r := Bind(cfg, b, |b.values|, v);
            && |r.strings.items| == |b.strings.items| + (if IsText(v) then 1 else 0)
            && Distinct(r.strings.items, lo, r.next)
            && r.strings.buffer < r.next && |r.strings.items| <= r.strings.capacity
  {
  }

  lemma BindKeepsBlobs(cfg: Config, b: Bindings, v: Value, lo: nat)
    requires WellFormed(b) && lo <= b.next && Distinct(b.blobs.items, lo, b.next)
    ensures var r := Bind(cfg, b, |b.values|, v);
            && |r.blobs.items| == |b.blobs.items| + (if v.Blob? then 1 else 0)
            && Distinct(r.blobs.items, lo, r.next)
            && r.blobs.buffer < r.next && |r.blobs.items| <= r.blobs.capacity
  {
  }

  lemma {:induction false} BindAllKeeps(cfg: Config, b: Bindings, args: seq<Value>)
    requires Empty(b)
    ensures var r := BindAll(cfg, b, args);
            && WellFormed(r)
            && r.next == b.next + 2 * |args|
            && |r.strings.items| == CountText(args)
            && |r.blobs.items| == CountBlobs(args)
            && Distinct(r.strings.items, b.next, r.next)
            && Distinct(r.blobs.items, b.next, r.next)
    decreases |args|
  {
    if args != [] {
      var last := |args| - 1;
      BindAllKeeps(cfg, b, args[..last]);
      BindKeepsStrings(cfg, BindAll(cfg, b, args[..last]), args[last], b.next);
      BindKeepsBlobs(cfg, BindAll(cfg, b, args[..last]), args[last], b.next);
    }
  }

  lemma {:induction false} FindBlockAt<T>(items: seq<Owned<T>>, j: nat, id: nat)
    requires j < |items| && items[j].block == Some(id)
    requires forall k :: 0 <= k < j ==> items[k].block != Some(id)
    ensures FindBlock(items, id) == Some(items[j].content)
    decreases j
  {
    if j > 0 {
      FindBlockAt(items[1..], j - 1, id);
    }
  }

  lemma TakeTwice<T>(s: seq<T>, i: nat, n: nat)
    requires i <= n <= |s|
    ensures s[..n][..i] == s[..i]
  {
  }

  ghost predicate TextAt(r: Bindings, i: nat, j: nat, item: Owned<char>, buffer: nat) {
    && i < |r.values| && i < |r.formats| && j < |r.strings.items|
    && r.strings.items[j] == item
    && r.formats[i] == 0
    && r.values[i] == To(if item.block.Some? then Block(item.block.value) else Slot(buffer, j))
  }

  ghost predicate BlobAt(r: Bindings, i: nat, j: nat, item: Owned<byte>, length: int) {
    && i < |r.values| && i < |r.formats| && i < |r.lengths| && j < |r.blobs.items|
    && r.blobs.items[j] == item && item.block.Some?
    && r.formats[i] == 1 && r.lengths[i] == length
    && r.values[i] == To(Block(item.block.value))
  }

  lemma BindKeepsTextAt(cfg: Config, b: Bindings, v: Value, i: nat, j: nat, item: Owned<char>, buffer: nat)
    requires Parallel(b) && TextAt(b, i, j, item, buffer)
    ensures TextAt(Bind(cfg, b, |b.values|, v), i, j, item, buffer)
  {
  }

  lemma BindKeepsBlobAt(cfg: Config, b: Bindings, v: Value, i: nat, j: nat, item: Owned<byte>, length: int)
    requires Parallel(b) && BlobAt(b, i, j, item, length)
    ensures BlobAt(Bind(cfg, b, |b.values|, v), i, j, item, length)
  {
  }

  lemma BindPutsText(cfg: Config, b: Bindings, v: Value)
    requires Parallel(b) && IsText(v)
    ensures var r := Bind(cfg, b, |b.values|, v);
            TextAt(r, |b.values|, |b.strings.items|, MakeString(cfg, Print(cfg, v), b.next), r.strings.buffer)
  {
  }

  lemma BindPutsBlob(cfg: Config, b: Bindings, v: Value)
    requires Parallel(b) && v.Blob? && v.bytes != []
    ensures BlobAt(Bind(cfg, b, |b.values|, v), |b.values|, |b.blobs.items|,
                   Owned(v.bytes, Some(b.next)), Cast(cfg.widths, Int, |v.bytes|))
  {
  }

  lemma TextStays(cfg: Config, b: Bindings, args: seq<Value>, i: nat, j: nat, item: Owned<char>, buffer: nat)
    requires Empty(b) && args != [] && TextAt(BindAll(cfg, b, args[..|args| - 1]), i, j, item, buffer)
    ensures TextAt(BindAll(cfg, b, args), i, j, item, buffer)
  {
    BindKeepsTextAt(cfg, BindAll(cfg, b, args[..|args| - 1]), args[|args| - 1], i, j, item, buffer);
  }

  lemma BlobStays(cfg: Config, b: Bindings, args: seq<Value>, i: nat, j: nat, item: Owned<byte>, length: int)
    requires Empty(b) && args != [] && BlobAt(BindAll(cfg, b, args[..|args| - 1]), i, j, item, length)
    ensures BlobAt(BindAll(cfg, b, args), i, j, item, length)
  {
    BindKeepsBlobAt(cfg, BindAll(cfg, b, args[..|args| - 1]), args[|args| - 1], i, j, item, length);
  }

  lemma LastBlobIsStored(cfg: Config, b: Bindings, args: seq<Value>)
    requires Empty(b) && args != [] && args[|args| - 1].Blob? && args[|args| - 1].bytes != []
    ensures var last := |args| - 1;
            BlobAt(BindAll(cfg, b, args), last, CountBlobs(args[..last]),
                   Owned(args[last].bytes, Some(b.next + 2 * last)), Cast(cfg.widths, Int, |args[last].bytes|))
  {
    BindAllKeeps(cfg, b, args[..|args| - 1]);
    BindPutsBlob(cfg, BindAll(cfg, b, args[..|args| - 1]), args[|args| - 1]);
  }

  /** Where a text argument's bytes and pointer are once all arguments are bound. */
  ghost predicate TextIsAt(cfg: Config, b: Bindings, args: seq<Value>, i: nat)
    requires Empty(b) && i < |args| && IsText(args[i])
  {
    TextAt(BindAll(cfg, b, args), i, CountText(args[..i]),
           MakeString(cfg, Print(cfg, args[i]), b.next + 2 * i),
           BindAll(cfg, b, args[..i + 1]).strings.buffer)
  }

  lemma LastTextIsStored(cfg: Config, b: Bindings, args: seq<Value>)
    requires Empty(b) && args != [] && IsText(args[|args| - 1])
    ensures TextIsAt(cfg, b, args, |args| - 1)
  {
    var last := |args| - 1;
    assert args[..last + 1] == args;
    BindAllKeeps(cfg, b, args[..last]);
    BindPutsText(cfg, BindAll(cfg, b, args[..last]), args[last]);
  }

  lemma TextStaysStored(cfg: Config, b: Bindings, args: seq<Value>, i: nat)
    requires Empty(b) && i < |args| - 1 && IsText(args[i]) && TextIsAt(cfg, b, args[..|args| - 1], i)
    ensures TextIsAt(cfg, b, args, i)
  {
    var last := |args| - 1;
    TakeTwice(args, i, last);
    TakeTwice(args, i + 1, last);
    TextStays(cfg, b, args, i, CountText(args[..i]), MakeString(cfg, Print(cfg, args[i]), b.next + 2 * i),
              BindAll(cfg, b, args[..i + 1]).strings.buffer);
  }

  lemma {:induction false} TextIsStored(cfg: Config, b: Bindings, args: seq<Value>, i: nat)
    requires Empty(b) && i < |args| && IsText(args[i])
    ensures TextIsAt(cfg, b, args, i)
    decreases |args|
  {
    if i < |args| - 1 {
      TextIsStored(cfg, b, args[..|args| - 1], i);
      TextStaysStored(cfg, b, args, i);
    } else {
      LastTextIsStored(cfg, b, args);
    }
  }

  /** Where a non-empty blob's bytes and pointer are once all arguments are bound. */
  lemma {:induction false} BlobIsStored(cfg: Config, b: Bindings, args: seq<Value>, i: nat)
    requires Empty(b) && i < |args| && args[i].Blob? && args[i].bytes != []
    ensures BlobAt(BindAll(cfg, b, args), i, CountBlobs(args[..i]),
                   Owned(args[i].bytes, Some(b.next + 2 * i)), Cast(cfg.widths, Int, |args[i].bytes|))
    decreases |args|
  {
    var last := |args| - 1;
    if i < last {
      BlobIsStored(cfg, b, args[..last], i);
      TakeTwice(args, i, last);
      BlobStays(cfg, b, args, i, CountBlobs(args[..i]),
                Owned(args[i].bytes, Some(b.next + 2 * i)), Cast(cfg.widths, Int, |args[i].bytes|));
    } else {
      LastBlobIsStored(cfg, b, args);
    }
  }

  lemma BindPutsNull(cfg: Config, b: Bindings, v: Value)
    requires Parallel(b) && (v.Null? || v == Blob([]))
    ensures Bind(cfg, b, |b.values|, v).values[|b.values|] == NullPointer
  {
  }

  lemma BindKeepsValue(cfg: Config, b: Bindings, v: Value, i: nat)
    requires Parallel(b) && i < |b.values|
    ensures |Bind(cfg, b, |b.values|, v).values| > i && Bind(cfg, b, |b.values|, v).values[i] == b.values[i]
  {
  }

  lemma {:induction false} NullIsStored(cfg: Config, b: Bindings, args: seq<Value>, i: nat)
    requires Empty(b) && i < |args| && (args[i].Null? || args[i] == Blob([]))
    ensures BindAll(cfg, b, args).values[i] == NullPointer
    decreases |args|
  {
    var last := |args| - 1;
    if i < last {
      NullIsStored(cfg, b, args[..last], i);
      BindKeepsValue(cfg, BindAll(cfg, b, args[..last]), args[last], i);
    } else {
      BindPutsNull(cfg, BindAll(cfg, b, args[..last]), args[last]);
    }
  }

  /** A bind moves the string storage exactly when it appends to a full one. */
  lemma BindMovesStrings(cfg: Config, b: Bindings, v: Value)
    requires WellFormed(b)
    ensures var r := Bind(cfg, b, |b.values|, v);
            if IsText(v) && |b.strings.items| == b.strings.capacity
            then r.strings.buffer == b.next + 1 && r.strings.capacity > b.strings.capacity
            else r.strings.buffer == b.strings.buffer && r.strings.capacity == b.strings.capacity
    ensures |Bind(cfg, b, |b.values|, v).strings.items| == |b.strings.items| + (if IsText(v) then 1 else 0)
  {
  }

  /** Whether the string buffer of an early moment is still in use later on. */
  ghost predicate StaysIff(early: Bindings, late: Bindings) {
    && (late.strings.buffer == early.strings.buffer <==> |late.strings.items| <= early.strings.capacity)
    && (late.strings.buffer == early.strings.buffer ==> late.strings.capacity == early.strings.capacity)
    && (late.strings.buffer != early.strings.buffer ==> late.strings.buffer >= early.next)
  }

  lemma StaysIffNext(cfg: Config, early: Bindings, late: Bindings, v: Value)
    requires WellFormed(early) && WellFormed(late) && early.next <= late.next && StaysIff(early, late)
    ensures StaysIff(early, Bind(cfg, late, |late.values|, v))
  {
    BindMovesStrings(cfg, late, v);
  }

  /** The string buffer after the first `k` arguments is still the buffer at the end exactly
      when it has room for all the text arguments. */
  lemma {:induction false} BufferStaysIff(cfg: Config, b: Bindings, args: seq<Value>, k: nat)
    requires Empty(b) && k <= |args|
    ensures var early, late := BindAll(cfg, b, args[..k]), BindAll(cfg, b, args);
            && StaysIff(early, late) && |late.strings.items| == CountText(args)
    decreases |args|
  {
    BindAllKeeps(cfg, b, args[..k]);
    BindAllKeeps(cfg, b, args);
    var last := |args| - 1;
    if k < |args| {
      BufferStaysIff(cfg, b, args[..last], k);
      BindAllKeeps(cfg, b, args[..last]);
      TakeTwice(args, k, last);
      StaysIffNext(cfg, BindAll(cfg, b, args[..k]), BindAll(cfg, b, args[..last]), args[last]);
    } else {
      assert args[..k] == args;
    }
  }

  // ----- pointer stability -----

  /** A text argument short enough to live inside its string object. */
  predicate IsInline(cfg: Config, v: Value) {
    IsText(v) && |Print(cfg, v)| <= cfg.inlineLimit
  }

  /** The capacity of an empty vector of some capacity, once `n` objects have been appended. */
  function CapacityAfter(growth: nat -> nat, capacity: nat, n: nat): nat {
    if n == 0 then capacity
    else
      var before := CapacityAfter(growth, capacity, n - 1);
      if n <= before then before else if growth(before) >= n then growth(before) else n
  }

  lemma CapacityAfterBind(cfg: Config, b: Bindings, v: Value, start: nat)
    requires WellFormed(b) && b.strings.capacity == CapacityAfter(cfg.growth, start, |b.strings.items|)
    ensures var r := Bind(cfg, b, |b.values|, v).strings;
            r.capacity == CapacityAfter(cfg.growth, start, |r.items|)
  {
  }

  lemma {:induction false} CapacityAfterBinds(cfg: Config, b: Bindings, args: seq<Value>)
    requires Empty(b)
    ensures BindAll(cfg, b, args).strings.capacity == CapacityAfter(cfg.growth, b.strings.capacity, CountText(args))
    decreases |args|
  {
    BindAllKeeps(cfg, b, args);
    if args != [] {
      CapacityAfterBinds(cfg, b, args[..|args| - 1]);
      BindAllKeeps(cfg, b, args[..|args| - 1]);
      CapacityAfterBind(cfg, BindAll(cfg, b, args[..|args| - 1]), args[|args| - 1], b.strings.capacity);
    }
  }

  /** The string storage is not reallocated once argument `i` has been appended: the capacity
      of that moment has room for the text arguments of the whole call. */
  predicate RoomAfter(cfg: Config, b: Bindings, args: seq<Value>, i: nat)
    requires i < |args|
  {
    CountText(args) <= CapacityAfter(cfg.growth, b.strings.capacity, CountText(args[..i + 1]))
  }

  /** At `DoExecute`, the pointer of an argument still leads to that argument's own bytes,
      unless it is inline text and the storage has been reallocated since: then, and only
      then, it dangles. Whether it has can be told from the capacity before the call. */
  lemma PointerStability(cfg: Config, b: Bindings, args: seq<Value>, i: nat)
    requires Empty(b) && i < |args|
    ensures Seen(BindAll(cfg, b, args), i) ==
            if IsInline(cfg, args[i]) && !RoomAfter(cfg, b, args, i) then Dangling else AsAnnounced(cfg, args[i])
  {
    BindAllKeeps(cfg, b, args);
    if IsText(args[i]) {
      TextIsSeen(cfg, b, args, i);
    } else if args[i].Blob? && args[i].bytes != [] {
      BlobIsSeen(cfg, b, args, i);
    } else {
      NullIsStored(cfg, b, args, i);
    }
  }

  lemma SeenOfTextAt(r: Bindings, lo: nat, i: nat, j: nat, item: Owned<char>, buffer: nat)
    requires Parallel(r) && Distinct(r.strings.items, lo, r.next) && TextAt(r, i, j, item, buffer)
    ensures Seen(r, i) == if item.block.None? && buffer != r.strings.buffer then Dangling
                          else TextParam(CString(item.content))
  {
    if item.block.Some? {
      FindBlockAt(r.strings.items, j, item.block.value);
    }
  }

  lemma TextIsSeen(cfg: Config, b: Bindings, args: seq<Value>, i: nat)
    requires Empty(b) && i < |args| && IsText(args[i])
    ensures Seen(BindAll(cfg, b, args), i) ==
            if IsInline(cfg, args[i]) && !RoomAfter(cfg, b, args, i) then Dangling
            else TextParam(CString(Print(cfg, args[i])))
  {
    BindAllKeeps(cfg, b, args);
    TextIsStored(cfg, b, args, i);
    BufferStaysIff(cfg, b, args, i + 1);
    CapacityAfterBinds(cfg, b, args[..i + 1]);
    SeenOfTextAt(BindAll(cfg, b, args), b.next, i, CountText(args[..i]),
                 MakeString(cfg, Print(cfg, args[i]), b.next + 2 * i),
                 BindAll(cfg, b, args[..i + 1]).strings.buffer);
  }

  lemma BlobIsSeen(cfg: Config, b: Bindings, args: seq<Value>, i: nat)
    requires Empty(b) && i < |args| && args[i].Blob? && args[i].bytes != []
    ensures Seen(BindAll(cfg, b, args), i) == AsAnnounced(cfg, args[i])
  {
    BindAllKeeps(cfg, b, args);
    BlobIsStored(cfg, b, args, i);
    SeenOfBlobAt(cfg, BindAll(cfg, b, args), b.next, i, CountBlobs(args[..i]),
                 Owned(args[i].bytes, Some(b.next + 2 * i)));
  }

  lemma SeenOfBlobAt(cfg: Config, r: Bindings, lo: nat, i: nat, j: nat, item: Owned<byte>)
    requires Parallel(r) && Distinct(r.blobs.items, lo, r.next) && item.content != []
    requires BlobAt(r, i, j, item, Cast(cfg.widths, Int, |item.content|))
    ensures Seen(r, i) == AsAnnounced(cfg, Blob(item.content))
  {
    FindBlockAt(r.blobs.items, j, item.block.value);
  }
}
