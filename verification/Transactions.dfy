/** `Transaction`, the token that owns an open transaction, and whole runs of operations on
    many tokens and databases. */
module Transactions {
  import opened Outcomes

  datatype Command = BEGIN | COMMIT | ROLLBACK | SQL(text: string)

  /** The database behind a connection: what is durable, and what an open transaction holds.
      `beginCommits` tells what BEGIN does inside a transaction: MariaDB commits that one and
      starts another, PostgreSQL only warns, and SQLite refuses. */
  datatype Engine = Engine(committed: seq<string>, pending: Option<seq<string>>, beginCommits: bool)

  /** An engine that has one transaction at a time; a command that it refuses, for whatever
      reason, changes nothing. */
  function Execute(e: Engine, c: Command, accepted: bool): Engine {
    if !accepted then e
    else
      match c
      case BEGIN =>
        if e.pending.None? then e.(pending := Some([]))
        else if e.beginCommits then e.(committed := e.committed + e.pending.value, pending := Some([]))
        else e
      case COMMIT =>
        if e.pending.Some? then e.(committed := e.committed + e.pending.value, pending := None) else e
      case ROLLBACK => e.(pending := None)
      case SQL(text) =>
        if e.pending.Some? then e.(pending := Some(e.pending.value + [text]))
        else e.(committed := e.committed + [text])
  }

  // ----- the token -----

  /** `m_db` and `m_active`. */
  datatype Token<+D> = Token(db: Option<D>, active: bool)

  /** Where the token would send a COMMIT or ROLLBACK: `if (m_active && m_db)`. */
  function Target<D>(t: Token<D>): Option<D> {
    if t.active then t.db else None
  }

  /** The token after a `Commit` or `Rollback`. */
  function Ended<D>(t: Token<D>): Token<D> {
    if Target(t).Some? then t.(active := false) else t
  }

  /** The token after it has been moved from. */
  function Emptied<D>(): Token<D> {
    Token(None, false)
  }

  class Database {
    var log: seq<Command>
    var engine: Engine

    constructor (engine: Engine)
      ensures log == [] && this.engine == engine
    {
      log, this.engine := [], engine;
    }

    /** `DoSilentQuery`; `accepted` is what the engine answers, false also when the
        connection is down. */
    method DoSilentQuery(c: Command, accepted: bool) returns (ok: bool)
      modifies this
      ensures log == old(log) + [c] && engine == Execute(old(engine), c, accepted) && ok == accepted
    {
      log := log + [c];
      engine := Execute(engine, c, accepted);
      ok := accepted;
    }

    /** `BeginTransaction`: the token is active whatever the engine has answered. */
    method BeginTransaction(accepted: bool) returns (t: Transaction)
      modifies this
      ensures fresh(t) && t.View() == Token(Some(this), true)
      ensures log == old(log) + [BEGIN] && engine == Execute(old(engine), BEGIN, accepted)
    {
      var ok := DoSilentQuery(BEGIN, accepted);
      t := new Transaction(this);
    }
  }

  class Transaction {
    var db: Database?
    var active: bool

    ghost function View(): Token<Database>
      reads this
    {
      if db == null then Token(None, active) else var d: Database := db; Token(Some(d), active)
    }

    constructor (db: Database)
      ensures View() == Token(Some(db), true)
    {
      this.db, active := db, true;
    }

    /** Move construction. */
    constructor Take(other: Transaction)
      modifies other
      ensures View() == old(other.View()) && other.View() == Emptied()
    {
      db, active := other.db, other.active;
      new;
      other.db, other.active := null, false;
    }

    /** Move assignment: the transaction that this token held is rolled back first. */
    method Assign(other: Transaction, accepted: bool)
      modifies this, other, if db == null then {} else {db}
      ensures this == other ==> View() == old(View())
      ensures this != other ==> View() == old(other.View()) && other.View() == Emptied()
      ensures Sent(old(db), this != other && old(Target(View()).Some?), old(Seen(db)), ROLLBACK, accepted)
    {
      if this != other {
        if active && db != null {
          var ok := db.DoSilentQuery(ROLLBACK, accepted);
        }
        db, active := other.db, other.active;
        other.db, other.active := null, false;
      }
    }

    method Commit(accepted: bool)
      modifies this`active, db
      ensures View() == Ended(old(View()))
      ensures db == old(db) && active == (old(active) && db == null)
      ensures Sent(db, old(Target(View()).Some?), old(Seen(db)), COMMIT, accepted)
    {
      if !active || db == null {
        return;
      }
      var ok := db.DoSilentQuery(COMMIT, accepted);
      active := false;
    }

    method Rollback(accepted: bool)
      modifies this`active, db
      ensures View() == Ended(old(View()))
      ensures db == old(db) && active == (old(active) && db == null)
      ensures Sent(db, old(Target(View()).Some?), old(Seen(db)), ROLLBACK, accepted)
    {
      if !active || db == null {
        return;
      }
      var ok := db.DoSilentQuery(ROLLBACK, accepted);
      active := false;
    }

    /** The destructor. */
    method Destroy(accepted: bool)
      modifies db
      ensures Sent(db, Target(View()).Some?, old(Seen(db)), ROLLBACK, accepted)
    {
      if active && db != null {
        var ok := db.DoSilentQuery(ROLLBACK, accepted);
      }
    }
  }

  ghost function Seen(db: Database?): Option<(seq<Command>, Engine)>
    reads db
  {
    if db == null then None else Some((db.log, db.engine))
  }

  /** One command has gone to `db` since it was seen, or nothing has. */
  ghost predicate Sent(db: Database?, sent: bool, before: Option<(seq<Command>, Engine)>, c: Command, accepted: bool)
    requires (db == null) == before.None?
    reads db
  {
    db == null ||
    (if sent then db.log == before.value.0 + [c] && db.engine == Execute(before.value.1, c, accepted)
     else db.log == before.value.0 && db.engine == before.value.1)
  }

  // ----- runs over many tokens and databases -----

  /** The transaction that one BEGIN has asked for: its database and the number of the
      operation that issued it. */
  datatype Scope = Scope(db: nat, start: nat)

  /** A command issued, and for BEGIN, COMMIT and ROLLBACK the transaction it is about. */
  datatype Issued = Issued(command: Command, scope: Scope)

  datatype World = World(
    engines: map<nat, Engine>,
    tokens: map<nat, Token<Scope>>,
    log: seq<Issued>,
    clock: nat
  )

  /** `accepted` is the engine's answer to the command that the operation may issue. */
  datatype Op =
    | Begin(tok: nat, db: nat, accepted: bool)
    | MoveConstruct(tok: nat, from: nat)
    | MoveAssign(tok: nat, from: nat, accepted: bool)
    | Commit(tok: nat, accepted: bool)
    | Rollback(tok: nat, accepted: bool)
    | Destroy(tok: nat, accepted: bool)
    | Statement(db: nat, text: string, accepted: bool)

  predicate Enabled(w: World, op: Op) {
    match op
    case Begin(t, db, _) => t !in w.tokens && db in w.engines
    case MoveConstruct(t, from) => t !in w.tokens && from in w.tokens
    case MoveAssign(t, from, _) => t in w.tokens && from in w.tokens
    case Statement(db, _, _) => db in w.engines
    case _ => op.tok in w.tokens
  }

  /** Sends a command on behalf of a transaction. */
  function Send(w: World, c: Command, s: Scope, accepted: bool): World {
    if s.db !in w.engines then w
    else w.(log := w.log + [Issued(c, s)], engines := w.engines[s.db := Execute(w.engines[s.db], c, accepted)])
  }

  /** COMMIT or ROLLBACK of what a token holds, if it is active; the token is spent. */
  function End(w: World, t: nat, c: Command, accepted: bool): World
    requires t in w.tokens
  {
    match Target(w.tokens[t])
    case None => w
    case Some(s) => Send(w, c, s, accepted).(tokens := w.tokens[t := Ended(w.tokens[t])])
  }

  function Apply(w: World, op: Op): World
    requires Enabled(w, op)
  {
    var v := w.(clock := w.clock + 1);
    match op
    case Begin(t, db, accepted) =>
      var s := Scope(db, w.clock);
      Send(v, BEGIN, s, accepted).(tokens := w.tokens[t := Token(Some(s), true)])
    case MoveConstruct(t, from) => v.(tokens := w.tokens[t := w.tokens[from]][from := Emptied()])
    case MoveAssign(t, from, accepted) =>
      if t == from then v
      else
        var e := End(v, t, ROLLBACK, accepted);
        e.(tokens := e.tokens[t := w.tokens[from]][from := Emptied()])
    case Commit(t, accepted) => End(v, t, COMMIT, accepted)
    case Rollback(t, accepted) => End(v, t, ROLLBACK, accepted)
    case Destroy(t, accepted) =>
      var e := End(v, t, ROLLBACK, accepted);
      e.(tokens := e.tokens - {t})
    case Statement(db, text, accepted) =>
      v.(engines := w.engines[db := Execute(w.engines[db], SQL(text), accepted)])
  }

  ghost predicate Initial(w: World) {
    w.tokens == map[] && w.log == [] && w.clock == 0
  }

  ghost predicate IsRun(w: World, ops: seq<Op>)
    decreases |ops|, 0
  {
    ops == [] || (IsRun(w, ops[..|ops| - 1]) && Enabled(Run(w, ops[..|ops| - 1]), ops[|ops| - 1]))
  }

  ghost function Run(w: World, ops: seq<Op>): World
    requires IsRun(w, ops)
    decreases |ops|, 1
  {
    if ops == [] then w else Apply(Run(w, ops[..|ops| - 1]), ops[|ops| - 1])
  }

  // ----- every BEGIN is closed once -----

  function ActiveOn(w: World, db: nat): set<nat> {
    set t | t in w.tokens && w.tokens[t].active && w.tokens[t].db.Some? && w.tokens[t].db.value.db == db
  }

  function CountIssued(log: seq<Issued>, c: Command, db: nat): nat {
    if log == [] then 0
    else
      var last := log[|log| - 1];
      CountIssued(log[..|log| - 1], c, db) + (if last.command == c && last.scope.db == db then 1 else 0)
  }

  /** COMMITs and ROLLBACKs on behalf of one transaction. */
  function CountEnds(log: seq<Issued>, s: Scope): nat {
    if log == [] then 0
    else
      var last := log[|log| - 1];
      CountEnds(log[..|log| - 1], s)
      + (if last.scope == s && (last.command.COMMIT? || last.command.ROLLBACK?) then 1 else 0)
  }

  function CountBegins(log: seq<Issued>, s: Scope): nat {
    if log == [] then 0
    else
      var last := log[|log| - 1];
      CountBegins(log[..|log| - 1], s) + (if last.scope == s && last.command.BEGIN? then 1 else 0)
  }

  /** Active tokens own a transaction of a known database that has begun, and no two own
      the same one. */
  ghost predicate IsLinear(w: World) {
    && (forall t <- w.tokens :: w.tokens[t].active ==>
          w.tokens[t].db.Some? && w.tokens[t].db.value.db in w.engines && w.tokens[t].db.value.start < w.clock)
    && (forall t <- w.tokens, u <- w.tokens ::
          w.tokens[t].active && w.tokens[u].active && w.tokens[t].db == w.tokens[u].db ==> t == u)
  }

  ghost predicate IsHeld(w: World, s: Scope) {
    exists t <- w.tokens :: w.tokens[t] == Token(Some(s), true)
  }

  ghost predicate Balances(w: World, db: nat) {
    CountIssued(w.log, BEGIN, db) ==
    CountIssued(w.log, COMMIT, db) + CountIssued(w.log, ROLLBACK, db) + |ActiveOn(w, db)|
  }

  ghost predicate ClosesOnce(w: World, s: Scope) {
    && CountBegins(w.log, s) <= 1
    && CountBegins(w.log, s) == CountEnds(w.log, s) + (if IsHeld(w, s) then 1 else 0)
    && (CountBegins(w.log, s) > 0 ==> s.start < w.clock)
  }

  lemma IssuedNext(log: seq<Issued>, i: Issued)
    ensures (log + [i])[..|log + [i]| - 1] == log
  {
  }

  lemma StepIsLinear(w: World, op: Op)
    requires IsLinear(w) && Enabled(w, op)
    ensures IsLinear(Apply(w, op))
  {
  }

  /** Ending what a token holds closes one BEGIN, if the token is active, and nothing else. */
  lemma EndBalances(w: World, t: nat, c: Command, accepted: bool, db: nat)
    requires IsLinear(w) && t in w.tokens && (c.COMMIT? || c.ROLLBACK?) && Balances(w, db)
    ensures Balances(End(w, t, c, accepted), db)
    ensures t !in ActiveOn(End(w, t, c, accepted), db)
  {
    if Target(w.tokens[t]).Some? {
      var s := Target(w.tokens[t]).value;
      IssuedNext(w.log, Issued(c, s));
      assert ActiveOn(End(w, t, c, accepted), db) == ActiveOn(w, db) - {t};
    }
  }

  /** Moving from one token to an inactive one keeps the number of active tokens. */
  lemma MoveBalances(w: World, t: nat, from: nat, db: nat)
    requires from in w.tokens && t != from && t !in ActiveOn(w, db)
    ensures var m := w.(tokens := w.tokens[t := w.tokens[from]][from := Emptied()]);
            |ActiveOn(m, db)| == |ActiveOn(w, db)|
  {
    var m := w.(tokens := w.tokens[t := w.tokens[from]][from := Emptied()]);
    if from in ActiveOn(w, db) {
      assert ActiveOn(m, db) == ActiveOn(w, db) - {from} + {t};
    } else {
      assert ActiveOn(m, db) == ActiveOn(w, db);
    }
  }

  lemma BeginBalances(w: World, op: Op, db: nat)
    requires IsLinear(w) && op.Begin? && Enabled(w, op) && Balances(w, db)
    ensures Balances(Apply(w, op), db)
  {
    var n := Apply(w, op);
    assert n.log == w.log + [Issued(BEGIN, Scope(op.db, w.clock))];
    assert n.tokens == w.tokens[op.tok := Token(Some(Scope(op.db, w.clock)), true)];
    IssuedNext(w.log, Issued(BEGIN, Scope(op.db, w.clock)));
    ActiveAfterBegin(w, n, op.tok, Scope(op.db, w.clock), db);
  }

  lemma ActiveAfterBegin(w: World, n: World, t: nat, s: Scope, db: nat)
    requires t !in w.tokens && n.tokens == w.tokens[t := Token(Some(s), true)]
    ensures ActiveOn(n, db) == if s.db == db then ActiveOn(w, db) + {t} else ActiveOn(w, db)
  {
  }

  lemma AssignBalances(w: World, op: Op, db: nat)
    requires IsLinear(w) && op.MoveAssign? && op.tok != op.from && Enabled(w, op) && Balances(w, db)
    ensures Balances(Apply(w, op), db)
  {
    var v := w.(clock := w.clock + 1);
    assert ActiveOn(v, db) == ActiveOn(w, db);
    EndBalances(v, op.tok, ROLLBACK, op.accepted, db);
    MoveBalances(End(v, op.tok, ROLLBACK, op.accepted), op.tok, op.from, db);
  }

  lemma DestroyBalances(w: World, op: Op, db: nat)
    requires IsLinear(w) && op.Destroy? && Enabled(w, op) && Balances(w, db)
    ensures Balances(Apply(w, op), db)
  {
    var v := w.(clock := w.clock + 1);
    assert ActiveOn(v, db) == ActiveOn(w, db);
    EndBalances(v, op.tok, ROLLBACK, op.accepted, db);
    var e := End(v, op.tok, ROLLBACK, op.accepted);
    assert Apply(w, op) == e.(tokens := e.tokens - {op.tok});
    ActiveAfterDrop(e, op.tok, db);
  }

  lemma ActiveAfterDrop(e: World, t: nat, db: nat)
    requires t !in ActiveOn(e, db)
    ensures ActiveOn(e.(tokens := e.tokens - {t}), db) == ActiveOn(e, db)
  {
  }

  lemma StepBalances(w: World, op: Op, db: nat)
    requires IsLinear(w) && Enabled(w, op) && Balances(w, db)
    ensures Balances(Apply(w, op), db)
  {
    var v := w.(clock := w.clock + 1);
    assert ActiveOn(v, db) == ActiveOn(w, db);
    match op
    case Begin(_, _, _) => BeginBalances(w, op, db);
    case MoveConstruct(t, from) => MoveBalances(v, t, from, db);
    case MoveAssign(t, from, _) => if t != from { AssignBalances(w, op, db); }
    case Commit(t, accepted) => EndBalances(v, t, COMMIT, accepted, db);
    case Rollback(t, accepted) => EndBalances(v, t, ROLLBACK, accepted, db);
    case Destroy(_, _) => DestroyBalances(w, op, db);
    case Statement(_, _, _) => assert ActiveOn(Apply(w, op), db) == ActiveOn(w, db);
  }

  // ----- one transaction at a time -----

  /** Whether a step begins or ends the transaction `s`. */
  predicate Begins(w: World, op: Op, s: Scope) {
    op.Begin? && s == Scope(op.db, w.clock)
  }

  ghost predicate Ends(w: World, op: Op, s: Scope) {
    && (op.Commit? || op.Rollback? || op.Destroy? || (op.MoveAssign? && op.tok != op.from))
    && op.tok in w.tokens && w.tokens[op.tok] == Token(Some(s), true)
  }

  lemma HeldAfterEnd(w: World, t: nat, c: Command, accepted: bool, s: Scope)
    requires IsLinear(w) && t in w.tokens
    ensures IsHeld(End(w, t, c, accepted), s) <==> IsHeld(w, s) && w.tokens[t] != Token(Some(s), true)
    ensures End(w, t, c, accepted).tokens[t] != Token(Some(s), true)
  {
    var e := End(w, t, c, accepted);
    if IsHeld(w, s) && w.tokens[t] != Token(Some(s), true) {
      var u :| u in w.tokens && w.tokens[u] == Token(Some(s), true);
      assert e.tokens[u] == Token(Some(s), true);
    }
  }

  lemma HeldAfterMove(w: World, t: nat, from: nat, s: Scope)
    requires from in w.tokens && t != from && (t in w.tokens ==> w.tokens[t] != Token(Some(s), true))
    ensures IsHeld(w.(tokens := w.tokens[t := w.tokens[from]][from := Emptied()]), s) <==> IsHeld(w, s)
  {
    var m := w.(tokens := w.tokens[t := w.tokens[from]][from := Emptied()]);
    if IsHeld(w, s) {
      var u :| u in w.tokens && w.tokens[u] == Token(Some(s), true);
      assert m.tokens[if u == from then t else u] == Token(Some(s), true);
    }
    if IsHeld(m, s) {
      var u :| u in m.tokens && m.tokens[u] == Token(Some(s), true);
      assert w.tokens[if u == t then from else u] == Token(Some(s), true);
    }
  }

  /** A transaction is held from its BEGIN to the one operation that ends it. */
  lemma HeldAfterStep(w: World, op: Op, s: Scope)
    requires IsLinear(w) && Enabled(w, op)
    ensures IsHeld(Apply(w, op), s) <==> Begins(w, op, s) || (IsHeld(w, s) && !Ends(w, op, s))
  {
    var v := w.(clock := w.clock + 1);
    assert IsHeld(v, s) <==> IsHeld(w, s);
    var n := Apply(w, op);
    match op
    case Begin(t, d, _) =>
      assert n.tokens[t] == Token(Some(Scope(d, w.clock)), true);
      if IsHeld(w, s) {
        var u :| u in w.tokens && w.tokens[u] == Token(Some(s), true);
        assert n.tokens[u] == Token(Some(s), true);
      }
    case MoveConstruct(t, from) => HeldAfterMove(v, t, from, s);
    case MoveAssign(t, from, accepted) =>
      if t != from {
        HeldAfterEnd(v, t, ROLLBACK, accepted, s);
        HeldAfterMove(End(v, t, ROLLBACK, accepted), t, from, s);
      }
    case Commit(t, accepted) => HeldAfterEnd(v, t, COMMIT, accepted, s);
    case Rollback(t, accepted) => HeldAfterEnd(v, t, ROLLBACK, accepted, s);
    case Destroy(t, accepted) =>
      var e := End(v, t, ROLLBACK, accepted);
      HeldAfterEnd(v, t, ROLLBACK, accepted, s);
      if IsHeld(e, s) {
        var u :| u in e.tokens && e.tokens[u] == Token(Some(s), true);
        assert n.tokens[u] == Token(Some(s), true);
      }
    case Statement(_, _, _) =>
  }

  /** The log gains one entry about `s` when the step begins or ends it, and none otherwise. */
  lemma LogAfterStep(w: World, op: Op, s: Scope)
    requires IsLinear(w) && Enabled(w, op)
    ensures CountBegins(Apply(w, op).log, s) == CountBegins(w.log, s) + (if Begins(w, op, s) then 1 else 0)
    ensures CountEnds(Apply(w, op).log, s) == CountEnds(w.log, s) + (if Ends(w, op, s) then 1 else 0)
  {
    if op.Begin? {
      IssuedNext(w.log, Issued(BEGIN, Scope(op.db, w.clock)));
    } else if op.Statement? || op.MoveConstruct? || (op.MoveAssign? && op.tok == op.from) {
    } else {
      LogAfterEnd(w, op, s);
    }
  }

  lemma LogAfterEnd(w: World, op: Op, s: Scope)
    requires IsLinear(w) && Enabled(w, op)
    requires op.Commit? || op.Rollback? || op.Destroy? || (op.MoveAssign? && op.tok != op.from)
    ensures CountBegins(Apply(w, op).log, s) == CountBegins(w.log, s)
    ensures CountEnds(Apply(w, op).log, s) == CountEnds(w.log, s) + (if Ends(w, op, s) then 1 else 0)
  {
    var c := if op.Commit? then COMMIT else ROLLBACK;
    var target := Target(w.tokens[op.tok]);
    if target.Some? {
      assert Apply(w, op).log == w.log + [Issued(c, target.value)];
      IssuedNext(w.log, Issued(c, target.value));
    } else {
      assert Apply(w, op).log == w.log;
    }
  }

  lemma HeldHasBegun(w: World, s: Scope)
    requires IsLinear(w) && IsHeld(w, s)
    ensures s.start < w.clock
  {
  }

  lemma StepClosesOnce(w: World, op: Op, s: Scope)
    requires IsLinear(w) && Enabled(w, op) && ClosesOnce(w, s)
    ensures ClosesOnce(Apply(w, op), s)
  {
    HeldAfterStep(w, op, s);
    LogAfterStep(w, op, s);
    if IsHeld(w, s) {
      HeldHasBegun(w, s);
    }
    if Ends(w, op, s) {
      assert IsHeld(w, s);
    }
  }

  lemma {:induction false} RunIsLinear(w: World, ops: seq<Op>)
    requires Initial(w) && IsRun(w, ops)
    ensures IsLinear(Run(w, ops)) && Run(w, ops).clock == |ops| && Run(w, ops).engines.Keys == w.engines.Keys
    decreases |ops|
  {
    if ops != [] {
      RunIsLinear(w, ops[..|ops| - 1]);
      StepIsLinear(Run(w, ops[..|ops| - 1]), ops[|ops| - 1]);
    }
  }

  lemma {:induction false} RunBalances(w: World, ops: seq<Op>, db: nat, s: Scope)
    requires Initial(w) && IsRun(w, ops)
    ensures Balances(Run(w, ops), db) && ClosesOnce(Run(w, ops), s)
    decreases |ops|
  {
    if ops == [] {
      assert ActiveOn(w, db) == {};
    } else {
      var init := ops[..|ops| - 1];
      RunBalances(w, init, db, s);
      RunIsLinear(w, init);
      StepBalances(Run(w, init), ops[|ops| - 1], db);
      StepClosesOnce(Run(w, init), ops[|ops| - 1], s);
    }
  }

  /** In every run, whatever the engine refuses: the BEGINs issued to a database are its
      COMMITs, its ROLLBACKs and its active tokens together; an active token always has a
      database; each BEGIN is followed by at most one COMMIT or ROLLBACK of its own, by one
      exactly unless a token still holds it. */
  lemma EveryBeginIsClosedOnce(w: World, ops: seq<Op>, db: nat, s: Scope)
    requires Initial(w) && IsRun(w, ops)
    ensures var n := Run(w, ops);
            && CountIssued(n.log, BEGIN, db)
               == CountIssued(n.log, COMMIT, db) + CountIssued(n.log, ROLLBACK, db) + |ActiveOn(n, db)|
            && (forall t <- n.tokens :: n.tokens[t].active ==> n.tokens[t].db.Some?)
            && CountBegins(n.log, s) == CountEnds(n.log, s) + (if IsHeld(n, s) then 1 else 0) <= 1
            && (n.tokens == map[] ==> CountBegins(n.log, s) == CountEnds(n.log, s))
            && (n.tokens == map[] ==>
                  CountIssued(n.log, BEGIN, db) == CountIssued(n.log, COMMIT, db) + CountIssued(n.log, ROLLBACK, db))
  {
    RunBalances(w, ops, db, s);
    RunIsLinear(w, ops);
    if Run(w, ops).tokens == map[] {
      assert ActiveOn(Run(w, ops), db) == {};
    }
  }
}
