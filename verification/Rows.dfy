/** `Row`: named columns, and lookup by name through a lazily built index. */
module Rows {
  import opened Outcomes
  import opened Values

  datatype NamedValue = NamedValue(name: string, value: Value)

  type Columns = seq<NamedValue>

  /** `std::string(colName ? colName : "")`: how every fetch loop names a column. */
  function ColumnName(name: Option<string>): string {
    if name.Some? then name.value else ""
  }

  /** The leftmost column with a given name, by a linear scan. */
  function Scan(cols: Columns, name: string): (r: Option<nat>)
    ensures r.Some? ==> r.value < |cols| && cols[r.value].name == name
    ensures r.Some? ==> forall j :: 0 <= j < r.value ==> cols[j].name != name
    ensures r.None? ==> forall j :: 0 <= j < |cols| ==> cols[j].name != name
  {
    if cols == [] then None
    else if cols[0].name == name then Some(0)
    else
      match Scan(cols[1..], name)
      case Some(i) => Some(i + 1)
      case None => None
  }

  /** What the loop of `BuildNameIndex` computes: `emplace` keeps an entry that exists. */
  function FirstIndex(cols: Columns): map<string, nat> {
    if cols == [] then map[]
    else
      var last := |cols| - 1;
      var index := FirstIndex(cols[..last]);
      if cols[last].name in index then index else index[cols[last].name := last]
  }

  /** The index and the scan agree on every name. */
  lemma {:induction false} FirstIndexIsScan(cols: Columns, name: string)
    ensures name in FirstIndex(cols) <==> Scan(cols, name).Some?
    ensures name in FirstIndex(cols) ==> Scan(cols, name) == Some(FirstIndex(cols)[name])
  {
    if cols != [] {
      var last := |cols| - 1;
      var init := cols[..last];
      FirstIndexIsScan(init, name);
      assert forall j :: 0 <= j < last ==> init[j] == cols[j];
    }
  }

  datatype RowState = RowState(data: Columns, index: Option<map<string, nat>>)

  /** A present index belongs to the present columns. */
  ghost predicate Coherent(s: RowState) {
    s.index.Some? ==> s.index.value == FirstIndex(s.data)
  }

  // ----- the operations on a row's state -----

  function Indexed(s: RowState): RowState {
    if s.index.Some? then s else s.(index := Some(FirstIndex(s.data)))
  }

  function Added(s: RowState, name: string, value: Value): RowState {
    RowState(s.data + [NamedValue(name, value)], None)
  }

  /** The position that a lookup returns after it has built the index. */
  function Find(s: RowState, name: string): Option<nat> {
    var index := Indexed(s).index.value;
    if name in index then Some(index[name]) else None
  }

  /** Only the value of column `i` changes. */
  function Replaced(cols: Columns, i: nat, value: Value): (r: Columns)
    requires i < |cols|
    ensures |r| == |cols| && r[i] == NamedValue(cols[i].name, value)
    ensures forall j :: 0 <= j < |cols| && j != i ==> r[j] == cols[j]
  {
    cols[i := cols[i].(value := value)]
  }

  lemma {:induction false} ReplacedKeepsIndex(cols: Columns, i: nat, value: Value)
    requires i < |cols|
    ensures FirstIndex(Replaced(cols, i, value)) == FirstIndex(cols)
  {
    var last := |cols| - 1;
    if i < last {
      assert Replaced(cols, i, value)[..last] == Replaced(cols[..last], i, value);
      ReplacedKeepsIndex(cols[..last], i, value);
    } else {
      assert Replaced(cols, i, value)[..last] == cols[..last];
    }
  }

  lemma FindIsScan(s: RowState, name: string)
    requires Coherent(s)
    ensures Find(s, name) == Scan(s.data, name)
  {
    FirstIndexIsScan(s.data, name);
  }

  /** The class, in the form of the source: `index` is the mutable `m_name_index`. */
  class Row {
    var data: Columns
    var index: Option<map<string, nat>>

    ghost function State(): RowState
      reads this
    {
      RowState(data, index)
    }

    ghost predicate Valid()
      reads this
    {
      Coherent(State())
    }

    constructor ()
      ensures Valid() && State() == RowState([], None)
    {
      data, index := [], None;
    }

    constructor Copy(other: Row)
      requires other.Valid()
      ensures Valid() && State() == other.State()
    {
      data, index := other.data, other.index;
    }

    method Assign(other: Row)
      requires Valid() && other.Valid()
      modifies this
      ensures Valid() && State() == old(other.State())
    {
      if this != other {
        data := other.data;
        index := other.index;
      }
    }

    method Add(name: string, value: Value)
      requires Valid()
      modifies this
      ensures Valid() && State() == Added(old(State()), name, value)
    {
      data := data + [NamedValue(name, value)];
      index := None;
    }

    method BuildNameIndex()
      requires Valid()
      modifies this`index
      ensures Valid() && State() == Indexed(old(State()))
    {
      if index.Some? {
        return;
      }
      var built: map<string, nat> := map[];
      var i := 0;
      while i < |data|
        invariant 0 <= i <= |data|
        invariant built == FirstIndex(data[..i])
      {
        assert data[..i + 1][..i] == data[..i];
        if data[i].name !in built {
          built := built[data[i].name := i];
        }
        i := i + 1;
      }
      assert data[..|data|] == data;
      index := Some(built);
    }

    /** `operator[] const &`: the value of the leftmost column of that name, or `None` for
        ColumnNotFound. Only the cache may change. */
    method At(name: string) returns (r: Option<Value>)
      requires Valid()
      modifies this`index
      ensures Valid() && State() == Indexed(old(State()))
      ensures match Scan(data, name)
              case Some(i) => r == Some(data[i].value)
              case None => r == None
    {
      BuildNameIndex();
      FindIsScan(State(), name);
      if name in index.value {
        r := Some(data[index.value[name]].value);
      } else {
        r := None;
      }
    }

    /** A write through the reference that `operator[] &` returns. */
    method Write(name: string, value: Value) returns (found: bool)
      requires Valid()
      modifies this
      ensures Valid()
      ensures match Scan(old(data), name)
              case Some(i) =>
                && found && |data| == |old(data)| && data[i] == NamedValue(name, value)
                && forall j :: 0 <= j < |data| && j != i ==> data[j] == old(data)[j]
              case None => !found && data == old(data)
      ensures index == Some(FirstIndex(old(data)))
    {
      BuildNameIndex();
      FindIsScan(State(), name);
      found := name in index.value;
      if found {
        var i := index.value[name];
        ReplacedKeepsIndex(data, i, value);
        data := data[i := data[i].(value := value)];
      }
    }

    /** `operator[] &&`: hands the value over and leaves `residue`, whatever the moved-from
        value happens to be, in its column. */
    method MoveOut(name: string, residue: Value) returns (r: Option<Value>)
      requires Valid()
      modifies this
      ensures Valid()
      ensures match Scan(old(data), name)
              case Some(i) =>
                && r == Some(old(data)[i].value) && |data| == |old(data)| && data[i] == NamedValue(name, residue)
                && forall j :: 0 <= j < |data| && j != i ==> data[j] == old(data)[j]
              case None => r == None && data == old(data)
      ensures index == Some(FirstIndex(old(data)))
    {
      r := At(name);
      if r.Some? {
        var written := Write(name, residue);
      }
    }
  }

  // ----- whole runs over many rows -----

  datatype Op =
    | New(row: nat)
    | Add(row: nat, name: string, value: Value)
    | Read(row: nat, name: string)
    | Write(row: nat, name: string, value: Value)
    | MoveOut(row: nat, name: string, residue: Value)
    | CopyOver(row: nat, from: nat)

  datatype Reply = Done | Found(value: Value) | ColumnNotFound

  /** One operation on the rows as the class keeps them, cache included. */
  function Step(rows: map<nat, RowState>, op: Op): (map<nat, RowState>, Reply) {
    match op
    case New(r) => (rows[r := RowState([], None)], Done)
    case Add(r, name, value) =>
      if r in rows then (rows[r := Added(rows[r], name, value)], Done) else (rows, Done)
    case CopyOver(r, from) =>
      if from in rows then (rows[r := rows[from]], Done) else (rows, Done)
    case Read(r, name) =>
      if r !in rows then (rows, Done) else StepAt(rows, r, name, None)
    case Write(r, name, value) =>
      if r !in rows then (rows, Done) else StepAt(rows, r, name, Some(value))
    case MoveOut(r, name, residue) =>
      if r !in rows then (rows, Done) else StepAt(rows, r, name, Some(residue))
  }

  function StepAt(rows: map<nat, RowState>, r: nat, name: string, put: Option<Value>): (map<nat, RowState>, Reply)
    requires r in rows
  {
    var s := Indexed(rows[r]);
    match Find(s, name)
    case None => (rows[r := s], ColumnNotFound)
    case Some(i) =>
      if i >= |s.data| then (rows[r := s], ColumnNotFound)
      else if put.None? then (rows[r := s], Found(s.data[i].value))
      else (rows[r := s.(data := Replaced(s.data, i, put.value))], Found(s.data[i].value))
  }

  /** The same operation on rows without a cache, by linear scans. */
  function ScanStep(rows: map<nat, Columns>, op: Op): (map<nat, Columns>, Reply) {
    match op
    case New(r) => (rows[r := []], Done)
    case Add(r, name, value) =>
      if r in rows then (rows[r := rows[r] + [NamedValue(name, value)]], Done) else (rows, Done)
    case CopyOver(r, from) =>
      if from in rows then (rows[r := rows[from]], Done) else (rows, Done)
    case Read(r, name) =>
      if r !in rows then (rows, Done) else ScanStepAt(rows, r, name, None)
    case Write(r, name, value) =>
      if r !in rows then (rows, Done) else ScanStepAt(rows, r, name, Some(value))
    case MoveOut(r, name, residue) =>
      if r !in rows then (rows, Done) else ScanStepAt(rows, r, name, Some(residue))
  }

  function ScanStepAt(rows: map<nat, Columns>, r: nat, name: string, put: Option<Value>): (map<nat, Columns>, Reply)
    requires r in rows
  {
    match Scan(rows[r], name)
    case None => (rows, ColumnNotFound)
    case Some(i) =>
      (if put.None? then rows else rows[r := Replaced(rows[r], i, put.value)], Found(rows[r][i].value))
  }

  function Run(rows: map<nat, RowState>, ops: seq<Op>): (map<nat, RowState>, seq<Reply>)
    decreases ops
  {
    if ops == [] then (rows, [])
    else
      var (next, reply) := Step(rows, ops[0]);
      var (end, replies) := Run(next, ops[1..]);
      (end, [reply] + replies)
  }

  function ScanRun(rows: map<nat, Columns>, ops: seq<Op>): (map<nat, Columns>, seq<Reply>)
    decreases ops
  {
    if ops == [] then (rows, [])
    else
      var (next, reply) := ScanStep(rows, ops[0]);
      var (end, replies) := ScanRun(next, ops[1..]);
      (end, [reply] + replies)
  }

  function WithoutCache(rows: map<nat, RowState>): map<nat, Columns> {
    map r | r in rows :: rows[r].data
  }

  ghost predicate AllCoherent(rows: map<nat, RowState>) {
    forall r <- rows :: Coherent(rows[r])
  }

  lemma StepAtRefinesScan(rows: map<nat, RowState>, r: nat, name: string, put: Option<Value>)
    requires AllCoherent(rows) && r in rows
    ensures AllCoherent(StepAt(rows, r, name, put).0)
    ensures ScanStepAt(WithoutCache(rows), r, name, put)
            == (WithoutCache(StepAt(rows, r, name, put).0), StepAt(rows, r, name, put).1)
  {
    var s := Indexed(rows[r]);
    FindIsScan(s, name);
    var found := Find(s, name);
    if found.Some? && put.Some? {
      ReplacedKeepsIndex(s.data, found.value, put.value);
    }
    assert ScanStepAt(WithoutCache(rows), r, name, put).0 == WithoutCache(StepAt(rows, r, name, put).0);
  }

  lemma StepRefinesScan(rows: map<nat, RowState>, op: Op)
    requires AllCoherent(rows)
    ensures AllCoherent(Step(rows, op).0)
    ensures ScanStep(WithoutCache(rows), op) == (WithoutCache(Step(rows, op).0), Step(rows, op).1)
  {
    match op
    case Read(r, name) => if r in rows { StepAtRefinesScan(rows, r, name, None); }
    case Write(r, name, value) => if r in rows { StepAtRefinesScan(rows, r, name, Some(value)); }
    case MoveOut(r, name, residue) => if r in rows { StepAtRefinesScan(rows, r, name, Some(residue)); }
    case _ => assert ScanStep(WithoutCache(rows), op).0 == WithoutCache(Step(rows, op).0);
  }

  /** Over every run, the cached rows hold the same columns and give the same replies as
      rows that scan for each name; and every index present at the end is up to date. */
  lemma {:induction false} CacheRefinesScan(rows: map<nat, RowState>, ops: seq<Op>)
    requires AllCoherent(rows)
    ensures AllCoherent(Run(rows, ops).0)
    ensures ScanRun(WithoutCache(rows), ops) == (WithoutCache(Run(rows, ops).0), Run(rows, ops).1)
    decreases ops
  {
    if ops != [] {
      StepRefinesScan(rows, ops[0]);
      CacheRefinesScan(Step(rows, ops[0]).0, ops[1..]);
    }
  }
}
