/** One `SQLite3` instance: connecting, disconnecting, the registry of prepared statements,
    and whole runs of calls, with the backend hooks that the library ships. */
module SqliteConnection {
  import opened Outcomes
  import opened EngineLog
  import SqliteInit
  import SqliteInitStray
  import opened SqliteLibrary

  /** A registered statement; `id` is the number of the call that created it. */
  datatype Statement = Statement(name: string, query: string, id: nat)

  datatype Connection = Connection(
    connected: bool,                   // m_connected
    handle: Option<nat>,               // m_database
    stmts: map<string, Statement>,     // m_prepared_stmts
    log: seq<Event>,                   // what the engine has been asked to do
    clock: nat                         // calls so far; names new handles and statements
  )

  const UNUSED: Connection := Connection(false, None, map[], [], 0)

  /** What `sqlite3_open` answers; after a failure there may be a handle to close, and the
      library may have been initialised. */
  datatype OpenAnswer = OpenOk | OpenFailed(leftHandle: bool, woken: bool)

  /** What `sqlite3_prepare_v2` answers for a query: an error, with or without a statement,
      success without one (empty SQL), or a statement whose rows arrive or not. */
  datatype QueryAnswer = PrepareError(leftStatement: bool) | EmptySql | Ready(rowsArrive: bool)

  /** The public calls, with the engine's answers and, for `Connect`, the count found under
      the lock; for `Disconnect`, the order in which the registry is destroyed. */
  datatype Call =
    | Connect(found: int, initOk: bool, answer: OpenAnswer)
    | Disconnect(order: seq<string>)
    | Prepare(name: string, query: string, ok: bool)
    | Query(reply: QueryAnswer)
    | ExecuteStmt(name: string)

  predicate Succeeds(c: Call) {
    c.Connect? && (c.found != 0 || c.initOk) && c.answer.OpenOk?
  }

  ghost predicate IsOrderOf(order: seq<string>, stmts: map<string, Statement>) {
    && (forall name :: name in order <==> name in stmts)
    && forall i, j :: 0 <= i < j < |order| ==> order[i] != order[j]
  }

  function Finalizations(stmts: map<string, Statement>, order: seq<string>): (log: seq<Event>)
    requires forall name <- order :: name in stmts
    ensures |log| == |order|
  {
    seq(|order|, i requires 0 <= i < |order| => assert order[i] in order; Finalized(stmts[order[i]].id))
  }

  ghost predicate Enabled(c: Connection, call: Call) {
    call.Disconnect? && c.handle.Some? ==> IsOrderOf(call.order, c.stmts)
  }

  ghost function Apply(c: Connection, call: Call): Connection
    requires Enabled(c, call)
  {
    var t := c.(clock := c.clock + 1);
    match call
    case Connect(found, initOk, answer) =>
      if c.connected || (found == 0 && !initOk) then t
      else
        (match answer
         case OpenOk => t.(connected := true, handle := Some(c.clock), log := c.log + [Opened(c.clock)])
         case OpenFailed(left, _) =>
           t.(handle := None, log := if left then c.log + [Opened(c.clock)] + [Closed(c.clock)] else c.log))
    case Disconnect(order) =>
      if c.handle.None? then t.(connected := false)
      else t.(connected := false, handle := None, stmts := map[],
              log := c.log + Finalizations(c.stmts, order) + [Closed(c.handle.value)])
    case Prepare(name, query, ok) =>
      if c.handle.None? || !ok then t
      else if name in c.stmts then
        t.(log := c.log + [Prepared(c.clock, c.handle.value)] + [Finalized(c.clock)])
      else
        t.(stmts := c.stmts[name := Statement(name, query, c.clock)],
           log := c.log + [Prepared(c.clock, c.handle.value)])
    case Query(reply) =>
      if !c.connected || c.handle.None? || reply.EmptySql? || reply == PrepareError(false) then t
      else if reply.PrepareError? then
        t.(log := c.log + [Prepared(c.clock, c.handle.value)] + [Finalized(c.clock)])
      else
        t.(log := c.log + [Prepared(c.clock, c.handle.value)] + [Stepped(c.clock)] + [Finalized(c.clock)])
    case ExecuteStmt(name) =>
      if name in c.stmts then t.(log := c.log + [Stepped(c.stmts[name].id)]) else t
  }

  /** The statement that `ExecuteSTMT(name)` runs; `None` is UnknownSTMT. */
  function Dispatch(c: Connection, name: string): Option<nat> {
    if name in c.stmts then Some(c.stmts[name].id) else None
  }

  // ----- the class -----

  /** Whether a failed open has initialised the library; a successful one always has. */
  predicate Wakes(answer: OpenAnswer) {
    answer.OpenOk? || answer.woken
  }

  /** What a call does to the process-wide count and the library. */
  function LibraryAfter(v: View, connected: bool, call: Call): View {
    match call
    case Connect(_, initOk, answer) =>
      if connected || !Retains(v, initOk) then v
      else
        var awake := AfterOpen(Retained(v, initOk), Wakes(answer));
        if answer.OpenOk? then awake else BackedOut(awake)
    case Disconnect(_) => Freed(v)
    case _ => v
  }

  lemma ConnectCounts(v: View, connected: bool, call: Call)
    requires call.Connect? && call.found == v.count
    ensures var t, ok := LibraryAfter(v, connected, call), !connected && Succeeds(call);
            && t.count == v.count + (if ok then 1 else 0)
            && (ok ==> t.initialised == (v.initialised || v.count == 0 || v.autoInit))
            && (!ok ==> t.initialised ==
                        if connected || (v.count == 0 && !call.initOk) then v.initialised
                        else v.count != 0 && (v.initialised || (v.autoInit && Wakes(call.answer))))
  {
  }

  /** A `Connect` does to the library what its run of the interleaved protocol does, which
      ends with the handle open exactly if the call succeeds. */
  lemma ConnectFollowsProtocol(s: SqliteInit.State, i: nat, call: Call)
    requires SqliteInitStray.Rests(s, i, false) && call.Connect? && call.found == s.count
    ensures var ok := call.answer.OpenOk?;
            var steps := ConnectCall(i, call.initOk, s.count != 0 || call.initOk, ok, Wakes(call.answer), s.count == 0);
            && SqliteInit.IsRun(s, steps)
            && var t := SqliteInit.After(s, steps);
            && ViewOf(t) == LibraryAfter(ViewOf(s), false, call)
            && i in t.instances && (t.instances[i].open <==> Succeeds(call))
  {
    ConnectIsRun(s, i, call.initOk, call.answer.OpenOk?, Wakes(call.answer));
    ConnectCounts(ViewOf(s), false, call);
  }

  class SQLite3 {
    const lib: Library
    var connected: bool
    var handle: Option<nat>
    var stmts: map<string, Statement>
    ghost var log: seq<Event>
    var clock: nat

    ghost function State(): Connection
      reads this
    {
      Connection(connected, handle, stmts, log, clock)
    }

    constructor (lib: Library)
      ensures this.lib == lib && State() == UNUSED
    {
      this.lib := lib;
      connected, handle, stmts, log, clock := false, None, map[], [], 0;
    }

    method Connect(initOk: bool, answer: OpenAnswer) returns (ok: bool)
      modifies this, lib
      ensures State() == Apply(old(State()), Call.Connect(old(lib.count), initOk, answer))
      ensures ok == (!old(connected) && Succeeds(Call.Connect(old(lib.count), initOk, answer)))
      ensures ok ==> connected && handle == Some(old(clock)) && log == old(log) + [Opened(old(clock))]
      ensures !ok ==> connected == old(connected) && (old(connected) ==> handle == old(handle) && log == old(log))
      ensures !old(connected) && (old(lib.count) != 0 || initOk) && answer.OpenFailed? ==>
                && handle == None
                && log == old(log) + (if answer.leftHandle then [Opened(old(clock)), Closed(old(clock))] else [])
      ensures lib.Seen() == LibraryAfter(old(lib.Seen()), old(connected),
                                         Call.Connect(old(lib.count), initOk, answer))
      ensures lib.count == old(lib.count) + (if ok then 1 else 0)
      ensures ok ==> lib.initialised == (old(lib.initialised) || old(lib.count) == 0 || lib.autoInit)
      ensures !ok ==> lib.initialised ==
                      if old(connected) || (old(lib.count) == 0 && !initOk) then old(lib.initialised)
                      else old(lib.count) != 0 && (old(lib.initialised) || (lib.autoInit && Wakes(answer)))
    {
      ConnectCounts(lib.Seen(), connected, Call.Connect(lib.count, initOk, answer));
      var mine := clock;
      clock := clock + 1;
      if connected {
        return false;
      }
      var retained := lib.Retain(initOk);
      if !retained {
        return false;
      }
      match answer {
        case OpenOk =>
          lib.Open(true);
          handle, log := Some(mine), log + [Opened(mine)];
        case OpenFailed(left, woken) =>
          lib.Open(woken);
          handle := None;
          if left {
            log := log + [Opened(mine)] + [Closed(mine)];
          }
          lib.BackOut();
          return false;
      }
      connected := true;
      ok := true;
    }

    /** `order` is the order in which clearing the registry happened to destroy it. */
    method Disconnect() returns (ghost order: seq<string>)
      modifies this, lib
      ensures Enabled(old(State()), Call.Disconnect(order))
      ensures State() == Apply(old(State()), Call.Disconnect(order))
      ensures !connected && handle == None
      ensures old(handle).Some? ==>
                && IsOrderOf(order, old(stmts)) && stmts == map[]
                && log == old(log) + Finalizations(old(stmts), order) + [Closed(old(handle).value)]
      ensures old(handle).None? ==> stmts == old(stmts) && log == old(log)
      ensures lib.Seen() == LibraryAfter(old(lib.Seen()), old(connected), Call.Disconnect(order))
      ensures lib.count == if old(lib.count) > 0 then old(lib.count) - 1 else old(lib.count)
      ensures lib.initialised == (old(lib.initialised) && old(lib.count) != 1)
    {
      clock := clock + 1;
      order := [];
      if handle.Some? {
        order := ClearStatements();
        log := log + [Closed(handle.value)];
        handle := None;
      }
      lib.Release();
      connected := false;
    }

    method ClearStatements() returns (ghost order: seq<string>)
      modifies this`stmts, this`log
      ensures IsOrderOf(order, old(stmts)) && stmts == map[]
      ensures log == old(log) + Finalizations(old(stmts), order)
    {
      ghost var all := stmts;
      order := [];
      assert log == old(log) + Finalizations(all, order);
      while stmts.Keys != {}
        invariant stmts.Keys <= all.Keys && forall name <- stmts :: stmts[name] == all[name]
        invariant forall name :: name in order <==> name in all && name !in stmts
        invariant forall i, j :: 0 <= i < j < |order| ==> order[i] != order[j]
        invariant log == old(log) + Finalizations(all, order)
        decreases stmts.Keys
      {
        var name :| name in stmts.Keys;
        ghost var before := order;
        log := log + [Finalized(stmts[name].id)];
        order := order + [name];
        assert Finalizations(all, order) == Finalizations(all, before) + [Finalized(all[name].id)];
        stmts := stmts - {name};
      }
    }

    /** `DoPrepareSTMT`: a statement whose name is taken is finalised with its owner. */
    method Prepare(name: string, query: string, ok: bool)
      modifies this
      ensures State() == Apply(old(State()), Call.Prepare(name, query, ok))
      ensures old(handle).None? || !ok ==> stmts == old(stmts) && log == old(log)
      ensures old(handle).Some? && ok ==>
                && (if name in old(stmts) then stmts == old(stmts)
                    else stmts == old(stmts)[name := Statement(name, query, old(clock))])
                && log == old(log) + [Prepared(old(clock), old(handle).value)]
                          + (if name in old(stmts) then [Finalized(old(clock))] else [])
    {
      var mine := clock;
      clock := clock + 1;
      if handle.None? || !ok {
        return;
      }
      log := log + [Prepared(mine, handle.value)];
      if name in stmts {
        log := log + [Finalized(mine)];
      } else {
        stmts := stmts[name := Statement(name, query, mine)];
      }
    }

    /** `Query`: whatever happens, the statement it prepares does not outlive it. */
    method Query(reply: QueryAnswer) returns (rows: bool)
      modifies this
      ensures State() == Apply(old(State()), Call.Query(reply))
      ensures rows <==> old(connected) && old(handle).Some? && reply == Ready(true)
      ensures old(connected) && old(handle).Some? && reply == PrepareError(true) ==>
                log == old(log) + [Prepared(old(clock), old(handle).value), Finalized(old(clock))]
      ensures old(connected) && old(handle).Some? && reply.Ready? ==>
                log == old(log) + [Prepared(old(clock), old(handle).value), Stepped(old(clock)), Finalized(old(clock))]
    {
      var mine := clock;
      clock := clock + 1;
      if !connected || handle.None? {
        return false;
      }
      match reply {
        case PrepareError(left) =>
          if left {
            log := log + [Prepared(mine, handle.value)] + [Finalized(mine)];
          }
          rows := false;
        case EmptySql =>
          rows := false;
        case Ready(arrive) =>
          log := log + [Prepared(mine, handle.value)] + [Stepped(mine)];
          rows := arrive;
          log := log + [Finalized(mine)];
      }
    }

    method ExecuteStmt(name: string) returns (stmt: Option<nat>)
      modifies this`clock, this`log
      ensures State() == Apply(old(State()), Call.ExecuteStmt(name))
      ensures stmt == Dispatch(old(State()), name)
      ensures log == old(log) + (if stmt.Some? then [Stepped(stmt.value)] else [])
    {
      clock := clock + 1;
      if name !in stmts {
        return None;
      }
      log := log + [Stepped(stmts[name].id)];
      stmt := Some(stmts[name].id);
    }
  }

  // ----- lifecycle safety over runs -----

  ghost predicate IsRun(calls: seq<Call>)
    decreases |calls|, 0
  {
    calls == [] || (IsRun(calls[..|calls| - 1]) && Enabled(Run(calls[..|calls| - 1]), calls[|calls| - 1]))
  }

  ghost function Run(calls: seq<Call>): Connection
    requires IsRun(calls)
    decreases |calls|, 1
  {
    if calls == [] then UNUSED else Apply(Run(calls[..|calls| - 1]), calls[|calls| - 1])
  }

  /** Keys are the statements' own names, and no two names share a statement. */
  ghost predicate IsRegistry(stmts: map<string, Statement>) {
    && (forall name <- stmts :: stmts[name].name == name)
    && (forall a <- stmts, b <- stmts :: stmts[a].id == stmts[b].id ==> a == b)
  }

  ghost predicate IdsBelow(c: Connection) {
    && (c.handle.Some? ==> c.handle.value < c.clock)
    && (forall name <- c.stmts :: c.stmts[name].id < c.clock)
  }

  ghost function Ids(stmts: map<string, Statement>): set<nat> {
    set name | name in stmts :: stmts[name].id
  }

  /** The monitor sees one open handle or none, and the registered statements live on it. */
  ghost predicate Reflects(m: Monitor, c: Connection) {
    && m.open == (if c.handle.Some? then {c.handle.value} else {})
    && m.live.Keys == Ids(c.stmts)
    && (c.handle.Some? ==> forall s <- m.live :: m.live[s] == c.handle.value)
    && (forall s <- m.spent :: s < c.clock)
  }

  ghost predicate IsLegal(c: Connection) {
    AcceptAll(NOTHING_YET, c.log).Some? && Reflects(AcceptAll(NOTHING_YET, c.log).value, c)
  }

  ghost predicate IsSound(c: Connection) {
    && (c.connected <==> c.handle.Some?)
    && (c.handle.None? ==> c.stmts == map[])
    && IsRegistry(c.stmts) && IdsBelow(c) && IsLegal(c)
  }

  lemma FinalizationsExtend(stmts: map<string, Statement>, order: seq<string>)
    requires order != [] && forall name <- order :: name in stmts
    ensures var last := |order| - 1;
            && order[last] in order
            && (forall name <- order[..last] :: name in stmts)
            && Finalizations(stmts, order) == Finalizations(stmts, order[..last]) + [Finalized(stmts[order[last]].id)]
  {
  }

  /** The monitor after the statements of these names have been finalised. */
  ghost predicate IsClearedOf(m: Monitor, r: Monitor, c: Connection, names: seq<string>)
    requires forall name <- names :: name in c.stmts
  {
    && r.open == m.open
    && (forall s :: s in r.live <==> s in m.live && !HasId(c, names, s))
    && (forall s <- r.live :: r.live[s] == m.live[s])
    && (forall s <- r.spent :: s < c.clock)
  }

  ghost predicate HasId(c: Connection, names: seq<string>, s: nat)
    requires forall name <- names :: name in c.stmts
  {
    exists name <- names :: c.stmts[name].id == s
  }

  lemma FinalizeNext(m: Monitor, mid: Monitor, c: Connection, init: seq<string>, name: string)
    requires IsRegistry(c.stmts) && IdsBelow(c) && Reflects(m, c) && c.handle.Some?
    requires name in c.stmts && name !in init && forall other <- init :: other in c.stmts
    requires IsClearedOf(m, mid, c, init)
    ensures var r := Accept(mid, Finalized(c.stmts[name].id));
            r.Some? && IsClearedOf(m, r.value, c, init + [name])
  {
  }

  ghost predicate AreNames(order: seq<string>, stmts: map<string, Statement>) {
    && (forall name <- order :: name in stmts)
    && forall i, j :: 0 <= i < j < |order| ==> order[i] != order[j]
  }

  lemma NamesInit(order: seq<string>, stmts: map<string, Statement>)
    requires order != [] && AreNames(order, stmts)
    ensures var last := |order| - 1;
            && AreNames(order[..last], stmts) && order[last] in stmts && order[last] !in order[..last]
            && order == order[..last] + [order[last]]
  {
  }

  /** Clearing the registry is legal in every order. */
  lemma {:induction false} FinalizationsAreAccepted(m: Monitor, c: Connection, order: seq<string>)
    requires IsRegistry(c.stmts) && IdsBelow(c) && Reflects(m, c) && c.handle.Some?
    requires AreNames(order, c.stmts)
    ensures var r := AcceptAll(m, Finalizations(c.stmts, order));
            r.Some? && IsClearedOf(m, r.value, c, order)
    decreases |order|
  {
    if order == [] {
      assert Finalizations(c.stmts, order) == [];
    } else {
      var last := |order| - 1;
      var init := order[..last];
      NamesInit(order, c.stmts);
      FinalizationsExtend(c.stmts, order);
      FinalizationsAreAccepted(m, c, init);
      var mid := AcceptAll(m, Finalizations(c.stmts, init)).value;
      FinalizeNext(m, mid, c, init, order[last]);
      AcceptOne(m, Finalizations(c.stmts, init), Finalized(c.stmts[order[last]].id));
    }
  }

  lemma DisconnectIsLegal(c: Connection, order: seq<string>)
    requires IsSound(c) && c.handle.Some? && IsOrderOf(order, c.stmts)
    ensures IsLegal(Apply(c, Disconnect(order)))
  {
    var m := AcceptAll(NOTHING_YET, c.log).value;
    var h := c.handle.value;
    var finals := Finalizations(c.stmts, order);
    FinalizationsAreAccepted(m, c, order);
    AcceptParts(NOTHING_YET, c.log, finals);
    var cleared := AcceptAll(m, finals).value;
    forall s | s in m.live
      ensures HasId(c, order, s)
    {
      assert s in Ids(c.stmts);
    }
    assert cleared.live == map[];
    AcceptOne(NOTHING_YET, c.log + finals, Closed(h));
  }

  lemma PrepareIsAccepted(c: Connection)
    requires IsSound(c) && c.handle.Some?
    ensures var m := AcceptAll(NOTHING_YET, c.log).value;
            var one := c.log + [Prepared(c.clock, c.handle.value)];
            && AcceptAll(NOTHING_YET, one) == Some(m.(live := m.live[c.clock := c.handle.value]))
            && AcceptAll(NOTHING_YET, one + [Finalized(c.clock)]) == Some(m.(spent := m.spent + {c.clock}))
            && AcceptAll(NOTHING_YET, one + [Stepped(c.clock)] + [Finalized(c.clock)])
               == Some(m.(spent := m.spent + {c.clock}))
  {
    var m := AcceptAll(NOTHING_YET, c.log).value;
    var h := c.handle.value;
    assert c.clock !in Ids(c.stmts);
    AcceptOne(NOTHING_YET, c.log, Prepared(c.clock, h));
    var one := c.log + [Prepared(c.clock, h)];
    AcceptOne(NOTHING_YET, one, Finalized(c.clock));
    AcceptOne(NOTHING_YET, one, Stepped(c.clock));
    AcceptOne(NOTHING_YET, one + [Stepped(c.clock)], Finalized(c.clock));
    assert m.live[c.clock := h] - {c.clock} == m.live;
  }

  lemma IdsAfterPrepare(stmts: map<string, Statement>, name: string, stmt: Statement)
    requires name !in stmts
    ensures Ids(stmts[name := stmt]) == Ids(stmts) + {stmt.id}
  {
    var t := stmts[name := stmt];
    assert forall n :: n in stmts ==> t[n] == stmts[n];
    assert t[name].id == stmt.id;
  }

  lemma PrepareIsLegal(c: Connection, name: string, query: string)
    requires IsSound(c) && c.handle.Some?
    ensures IsLegal(Apply(c, Prepare(name, query, true)))
  {
    PrepareIsAccepted(c);
    if name !in c.stmts {
      IdsAfterPrepare(c.stmts, name, Statement(name, query, c.clock));
    }
  }

  lemma QueryIsLegal(c: Connection, reply: QueryAnswer)
    requires IsSound(c) && c.handle.Some?
    ensures IsLegal(Apply(c, Query(reply)))
  {
    PrepareIsAccepted(c);
    assert c.(clock := c.clock + 1).stmts == c.stmts;
  }

  lemma OpenIsAccepted(c: Connection)
    requires IsSound(c) && c.handle.None?
    ensures var m := AcceptAll(NOTHING_YET, c.log).value;
            var one := c.log + [Opened(c.clock)];
            && m.open == {} && m.live == map[]
            && AcceptAll(NOTHING_YET, one) == Some(m.(open := {c.clock}))
            && AcceptAll(NOTHING_YET, one + [Closed(c.clock)]) == Some(m)
  {
    var m := AcceptAll(NOTHING_YET, c.log).value;
    assert Ids(c.stmts) == {};
    assert {} + {c.clock} == {c.clock} && {c.clock} - {c.clock} == {};
    AcceptOne(NOTHING_YET, c.log, Opened(c.clock));
    AcceptOne(NOTHING_YET, c.log + [Opened(c.clock)], Closed(c.clock));
  }

  lemma ConnectIsLegal(c: Connection, call: Call)
    requires IsSound(c) && call.Connect? && !c.connected
    ensures IsLegal(Apply(c, call))
  {
    OpenIsAccepted(c);
    assert Apply(c, call).stmts == c.stmts;
  }

  lemma ExecuteIsLegal(c: Connection, name: string)
    requires IsSound(c) && name in c.stmts
    ensures IsLegal(Apply(c, ExecuteStmt(name)))
  {
    assert c.stmts[name].id in Ids(c.stmts);
    AcceptOne(NOTHING_YET, c.log, Stepped(c.stmts[name].id));
  }

  lemma StepKeepsRegistry(c: Connection, call: Call)
    requires IsSound(c) && Enabled(c, call)
    ensures var t := Apply(c, call);
            && (t.connected <==> t.handle.Some?)
            && (t.handle.None? ==> t.stmts == map[])
            && IsRegistry(t.stmts) && IdsBelow(t)
  {
  }

  lemma QuietStepIsLegal(c: Connection, t: Connection)
    requires IsSound(c) && t == c.(clock := t.clock, connected := t.connected) && t.clock >= c.clock
    ensures IsLegal(t)
  {
  }

  lemma StepIsLegal(c: Connection, call: Call)
    requires IsSound(c) && Enabled(c, call)
    ensures IsLegal(Apply(c, call))
  {
    if Apply(c, call).log == c.log && Apply(c, call).stmts == c.stmts && Apply(c, call).handle == c.handle {
      QuietStepIsLegal(c, Apply(c, call));
      return;
    }
    match call
    case Connect(_, _, _) => if !c.connected { ConnectIsLegal(c, call); }
    case Disconnect(order) => if c.handle.Some? { DisconnectIsLegal(c, order); }
    case Prepare(name, query, ok) => if c.handle.Some? { PrepareIsLegal(c, name, query); }
    case Query(reply) => if c.handle.Some? { QueryIsLegal(c, reply); }
    case ExecuteStmt(name) => ExecuteIsLegal(c, name);
  }

  lemma StepIsSound(c: Connection, call: Call)
    requires IsSound(c) && Enabled(c, call)
    ensures IsSound(Apply(c, call))
  {
    StepKeepsRegistry(c, call);
    StepIsLegal(c, call);
  }

  lemma {:induction false} RunIsSound(calls: seq<Call>)
    requires IsRun(calls)
    ensures IsSound(Run(calls)) && Run(calls).clock == |calls|
    decreases |calls|
  {
    if calls != [] {
      RunIsSound(calls[..|calls| - 1]);
      StepIsSound(Run(calls[..|calls| - 1]), calls[|calls| - 1]);
    }
  }

  /** Over every run, whatever the engine answers: the connection flag tells whether the
      handle is open; the engine accepts every request, so no statement outlives its handle
      and none is used twice; opens exceed closes by one or by nothing accordingly; and each
      statement has been finalised exactly as often as it was prepared, except the registered
      ones, which live on the open handle. */
  lemma LifecycleIsSafe(calls: seq<Call>, s: nat)
    requires IsRun(calls)
    ensures var c := Run(calls);
            && (c.connected <==> c.handle.Some?)
            && AcceptAll(NOTHING_YET, c.log).Some?
            && CountOpened(c.log) - CountClosed(c.log) == (if c.connected then 1 else 0)
            && CountPrepared(c.log, s) - CountFinalized(c.log, s) == (if s in Ids(c.stmts) then 1 else 0)
            && CountPrepared(c.log, s) <= 1
            && (s in Ids(c.stmts) ==>
                  c.handle.Some? && (s, c.handle.value) in AcceptAll(NOTHING_YET, c.log).value.live.Items)
  {
    RunIsSound(calls);
    AcceptedLogBalances(Run(calls).log, s);
  }

  // ----- the registry over runs -----

  /** The handle is open before call `k`: some `Connect` has succeeded since the last
      `Disconnect`. */
  ghost predicate IsOpenBefore(calls: seq<Call>, k: nat)
    requires k <= |calls|
  {
    exists j :: 0 <= j < k && Succeeds(calls[j]) && forall m :: j < m < k ==> !calls[m].Disconnect?
  }

  /** Call `k` creates a statement of that name. */
  ghost predicate Creates(calls: seq<Call>, k: nat, name: string)
    requires k < |calls|
  {
    calls[k].Prepare? && calls[k].name == name && calls[k].ok && IsOpenBefore(calls, k)
  }

  /** It does, and no `Disconnect` has come since. */
  ghost predicate IsLive(calls: seq<Call>, k: nat, name: string)
    requires k < |calls|
  {
    Creates(calls, k, name) && forall m :: k < m < |calls| ==> !calls[m].Disconnect?
  }

  lemma OpenBeforePrefix(calls: seq<Call>, n: nat, k: nat)
    requires k <= n <= |calls|
    ensures IsOpenBefore(calls[..n], k) <==> IsOpenBefore(calls, k)
  {
  }

  lemma OpenBeforeNext(calls: seq<Call>)
    requires calls != []
    ensures var last := |calls| - 1;
            IsOpenBefore(calls, |calls|) <==>
            Succeeds(calls[last]) || (!calls[last].Disconnect? && IsOpenBefore(calls, last))
  {
  }

  /** `IsConnected()` tells what the history of calls tells. */
  lemma {:induction false} ConnectedIff(calls: seq<Call>)
    requires IsRun(calls)
    ensures Run(calls).connected <==> IsOpenBefore(calls, |calls|)
    decreases |calls|
  {
    if calls != [] {
      var last := |calls| - 1;
      ConnectedIff(calls[..last]);
      OpenBeforePrefix(calls, last, last);
      OpenBeforeNext(calls);
    }
  }

  lemma LivePrefix(calls: seq<Call>, k: nat, name: string)
    requires k < |calls| - 1
    ensures IsLive(calls, k, name) <==> IsLive(calls[..|calls| - 1], k, name) && !calls[|calls| - 1].Disconnect?
  {
  }

  lemma LiveNow(calls: seq<Call>, name: string)
    requires calls != [] && IsRun(calls)
    ensures var last := |calls| - 1;
            IsLive(calls, last, name) <==>
            calls[last].Prepare? && calls[last].name == name && calls[last].ok && Run(calls[..last]).connected
  {
    ConnectedIff(calls[..|calls| - 1]);
    OpenBeforePrefix(calls, |calls| - 1, |calls| - 1);
  }

  /** What one call does to a name. */
  lemma DispatchNext(c: Connection, call: Call, name: string)
    requires IsSound(c) && Enabled(c, call)
    ensures var t := Apply(c, call);
            if call.Disconnect? then name !in t.stmts
            else if name in c.stmts then name in t.stmts && t.stmts[name] == c.stmts[name]
            else if call.Prepare? && call.name == name && call.ok && c.connected then
              name in t.stmts && t.stmts[name] == Statement(name, call.query, c.clock)
            else name !in t.stmts
  {
  }

  /** Over every run, a name leads to the first statement that has been created under it since
      the last `Disconnect`, with an open handle: preparing it again never replaces it, and the
      name is unknown exactly when there is none. The statement bears that name and the query
      that it was created with. */
  lemma {:induction false} RegistryIsFirstCreated(calls: seq<Call>, name: string)
    requires IsRun(calls)
    ensures var d := Dispatch(Run(calls), name);
            && (d.None? <==> forall k :: 0 <= k < |calls| ==> !IsLive(calls, k, name))
            && (d.Some? ==>
                  && d.value < |calls| && IsLive(calls, d.value, name)
                  && (forall k :: 0 <= k < d.value ==> !IsLive(calls, k, name))
                  && Run(calls).stmts[name] == Statement(name, calls[d.value].query, d.value))
    decreases |calls|
  {
    if calls != [] {
      var last := |calls| - 1;
      var init := calls[..last];
      RegistryIsFirstCreated(init, name);
      RunIsSound(init);
      DispatchNext(Run(init), calls[last], name);
      LiveNow(calls, name);
      forall k | 0 <= k < last
        ensures IsLive(calls, k, name) <==> IsLive(init, k, name) && !calls[last].Disconnect?
      {
        LivePrefix(calls, k, name);
      }
      if Dispatch(Run(init), name).Some? {
        assert init[Dispatch(Run(init), name).value] == calls[Dispatch(Run(init), name).value];
      }
    }
  }

  // ----- every use is one step -----

  function CountStepped(log: seq<Event>, s: nat): nat {
    if log == [] then 0
    else CountStepped(log[..|log| - 1], s) + (if log[|log| - 1] == Stepped(s) then 1 else 0)
  }

  lemma {:induction false} SteppedParts(first: seq<Event>, second: seq<Event>, s: nat)
    ensures CountStepped(first + second, s) == CountStepped(first, s) + CountStepped(second, s)
    decreases |second|
  {
    if second == [] {
      assert first + second == first;
    } else {
      var last := |second| - 1;
      SteppedParts(first, second[..last], s);
      assert (first + second)[..|first + second| - 1] == first + second[..last];
    }
  }

  lemma {:induction false} NoneStepped(log: seq<Event>, s: nat)
    requires forall e <- log :: !e.Stepped?
    ensures CountStepped(log, s) == 0
    decreases |log|
  {
    if log != [] {
      NoneStepped(log[..|log| - 1], s);
    }
  }

  /** Call `k` runs the statement `s`: it is the query that made it, on an open handle and
      prepared without an error, or it names the registered statement. */
  ghost predicate Uses(calls: seq<Call>, k: nat, s: nat)
    requires IsRun(calls) && k < |calls|
  {
    match calls[k]
    case Query(reply) => reply.Ready? && s == k && IsOpenBefore(calls, k)
    case ExecuteStmt(name) => s < k && IsFirstLive(calls[..k], s, name)
    case _ => false
  }

  /** The first statement created under a name since the last `Disconnect`. */
  ghost predicate IsFirstLive(calls: seq<Call>, s: nat, name: string) {
    && s < |calls| && IsLive(calls, s, name)
    && forall k :: 0 <= k < s ==> !IsLive(calls, k, name)
  }

  ghost function CountUses(calls: seq<Call>, s: nat): nat
    requires IsRun(calls)
    decreases |calls|
  {
    if calls == [] then 0
    else CountUses(calls[..|calls| - 1], s) + (if Uses(calls, |calls| - 1, s) then 1 else 0)
  }

  lemma DispatchIsFirstLive(calls: seq<Call>, name: string, s: nat)
    requires IsRun(calls)
    ensures Dispatch(Run(calls), name) == Some(s) <==> IsFirstLive(calls, s, name)
  {
    RegistryIsFirstCreated(calls, name);
  }

  lemma SteppedNext(log: seq<Event>, e: Event, s: nat)
    ensures CountStepped(log + [e], s) == CountStepped(log, s) + (if e == Stepped(s) then 1 else 0)
  {
    assert (log + [e])[..|log + [e]| - 1] == log;
  }

  lemma QueryEvents(c: Connection, reply: QueryAnswer, s: nat)
    requires IsSound(c)
    ensures CountStepped(Apply(c, Query(reply)).log, s) ==
            CountStepped(c.log, s) + (if reply.Ready? && s == c.clock && c.connected then 1 else 0)
  {
    if c.handle.Some? {
      var one := c.log + [Prepared(c.clock, c.handle.value)];
      SteppedNext(c.log, Prepared(c.clock, c.handle.value), s);
      SteppedNext(one, Finalized(c.clock), s);
      SteppedNext(one, Stepped(c.clock), s);
      SteppedNext(one + [Stepped(c.clock)], Finalized(c.clock), s);
    }
  }

  lemma DisconnectEvents(c: Connection, order: seq<string>, s: nat)
    requires c.handle.Some? && IsOrderOf(order, c.stmts)
    ensures CountStepped(Apply(c, Disconnect(order)).log, s) == CountStepped(c.log, s)
  {
    var finals := Finalizations(c.stmts, order);
    SteppedParts(c.log, finals, s);
    NoneStepped(finals, s);
    SteppedNext(c.log + finals, Closed(c.handle.value), s);
  }

  /** The events of one call. */
  lemma StepEvents(c: Connection, call: Call, s: nat)
    requires IsSound(c) && Enabled(c, call)
    ensures CountStepped(Apply(c, call).log, s) == CountStepped(c.log, s) +
            match call
            case Query(reply) => if reply.Ready? && s == c.clock && c.connected then 1 else 0
            case ExecuteStmt(name) => if Dispatch(c, name) == Some(s) then 1 else 0
            case _ => 0
  {
    match call
    case Connect(_, _, _) =>
      SteppedNext(c.log, Opened(c.clock), s);
      SteppedNext(c.log + [Opened(c.clock)], Closed(c.clock), s);
    case Disconnect(order) => if c.handle.Some? { DisconnectEvents(c, order, s); }
    case Prepare(_, _, _) =>
      if c.handle.Some? {
        SteppedNext(c.log, Prepared(c.clock, c.handle.value), s);
        SteppedNext(c.log + [Prepared(c.clock, c.handle.value)], Finalized(c.clock), s);
      }
    case Query(reply) => QueryEvents(c, reply, s);
    case ExecuteStmt(name) => if name in c.stmts { SteppedNext(c.log, Stepped(c.stmts[name].id), s); }
  }

  /** Over every run, a statement is stepped exactly as often as it is used: once by the query
      that prepares it, and once by each call that names it while it is registered. */
  lemma {:induction false} StepsAreUses(calls: seq<Call>, s: nat)
    requires IsRun(calls)
    ensures CountStepped(Run(calls).log, s) == CountUses(calls, s)
    decreases |calls|
  {
    if calls != [] {
      var last := |calls| - 1;
      var init := calls[..last];
      StepsAreUses(init, s);
      RunIsSound(init);
      StepEvents(Run(init), calls[last], s);
      ConnectedIff(init);
      OpenBeforePrefix(calls, last, last);
      if calls[last].ExecuteStmt? {
        DispatchIsFirstLive(init, calls[last].name, s);
      }
    }
  }
}
