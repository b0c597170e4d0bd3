/** `tx = db.BeginTransaction()`: begin into a temporary, move-assign it, destroy the temporary. */
module TransactionReassign {
  import opened Outcomes
  import opened Transactions

  predicate CanReassign(w: World, tx: nat, tmp: nat, db: nat) {
    tx in w.tokens && tmp !in w.tokens && db in w.engines
  }

  /** The world after the three operations; `begun` and `undone` are the engines' answers to
      BEGIN and to the ROLLBACK of what `tx` held before, if anything. The destructor of the
      temporary sends nothing, whatever the answer `last` would be. */
  function Reassigned(w: World, tx: nat, tmp: nat, db: nat, begun: bool, undone: bool, last: bool): World
    requires CanReassign(w, tx, tmp, db)
  {
    Apply(Apply(Apply(w, Begin(tmp, db, begun)), MoveAssign(tx, tmp, undone)), Destroy(tmp, last))
  }

  /** The assignment has the engine of `db` roll back, because `tx` counts as active on it. */
  predicate RollsBack(w: World, tx: nat, db: nat, undone: bool)
    requires tx in w.tokens
  {
    Target(w.tokens[tx]).Some? && Target(w.tokens[tx]).value.db == db && undone
  }

  /** What a BEGIN makes durable: the transaction that it finds open, if BEGIN commits. */
  function CommittedByBegin(e: Engine, begun: bool): seq<string> {
    if e.beginCommits && begun && e.pending.Some? then e.pending.value else []
  }

  /** The engine takes both commands, either or none. */
  lemma BeginThenRollback(e: Engine, begun: bool, rolledBack: bool)
    ensures var f := Execute(Execute(e, BEGIN, begun), ROLLBACK, rolledBack);
            && f.beginCommits == e.beginCommits && f.committed == e.committed + CommittedByBegin(e, begun)
            && (f.pending.Some? <==> (begun || e.pending.Some?) && !rolledBack)
            && (f.pending.Some? ==>
                  f.pending == if e.pending.None? || (e.beginCommits && begun) then Some([]) else e.pending)
  {
    assert e.committed + [] == e.committed;
  }

  lemma ReassignedCommands(w: World, tx: nat, tmp: nat, db: nat, begun: bool, undone: bool, last: bool)
    requires CanReassign(w, tx, tmp, db)
    ensures var r := Reassigned(w, tx, tmp, db, begun, undone, last);
            && r.tokens == w.tokens[tx := Token(Some(Scope(db, w.clock)), true)]
            && db in r.engines
            && r.engines[db] ==
               Execute(Execute(w.engines[db], BEGIN, begun), ROLLBACK, RollsBack(w, tx, db, undone))
  {
  }

  /** For every engine, every token, active or not, on the same database or another, and
      every answer: the token counts as active on a new transaction, nothing has become
      durable but what the BEGIN has committed, and the engine has a transaction open exactly
      when it took the BEGIN or had one before, and did not then take a ROLLBACK for the old
      transaction. */
  lemma ReassignOpensIff(w: World, tx: nat, tmp: nat, db: nat, begun: bool, undone: bool, last: bool)
    requires IsLinear(w) && CanReassign(w, tx, tmp, db)
    ensures var r := Reassigned(w, tx, tmp, db, begun, undone, last);
            && r.tokens == w.tokens[tx := Token(Some(Scope(db, w.clock)), true)]
            && IsLinear(r)
            && db in r.engines && r.engines[db].beginCommits == w.engines[db].beginCommits
            && r.engines[db].committed == w.engines[db].committed + CommittedByBegin(w.engines[db], begun)
            && (r.engines[db].pending.Some? <==>
                  (begun || w.engines[db].pending.Some?) && !RollsBack(w, tx, db, undone))
            && (r.engines[db].pending.Some? ==>
                  r.engines[db].pending == if w.engines[db].pending.None? || (w.engines[db].beginCommits && begun)
                                           then Some([]) else w.engines[db].pending)
  {
    var w1 := Apply(w, Begin(tmp, db, begun));
    ReassignedCommands(w, tx, tmp, db, begun, undone, last);
    BeginThenRollback(w.engines[db], begun, RollsBack(w, tx, db, undone));
    StepIsLinear(w, Begin(tmp, db, begun));
    StepIsLinear(w1, MoveAssign(tx, tmp, undone));
    StepIsLinear(Apply(w1, MoveAssign(tx, tmp, undone)), Destroy(tmp, last));
  }

  // ----- what the reassigned token takes back -----

  /** A statement, and whether the engine takes it. */
  datatype Attempt = Attempt(text: string, accepted: bool)

  function Accepted(attempts: seq<Attempt>): seq<string> {
    if attempts == [] then []
    else
      var last := attempts[|attempts| - 1];
      Accepted(attempts[..|attempts| - 1]) + (if last.accepted then [last.text] else [])
  }

  function AfterStatements(w: World, db: nat, attempts: seq<Attempt>): (r: World)
    requires db in w.engines
    ensures r.tokens == w.tokens && r.engines.Keys == w.engines.Keys
  {
    if attempts == [] then w
    else
      var last := attempts[|attempts| - 1];
      Apply(AfterStatements(w, db, attempts[..|attempts| - 1]), Statement(db, last.text, last.accepted))
  }

  /** What statements do to an engine: they join the transaction that is open, or are durable
      at once if there is none. */
  function Joined(e: Engine, texts: seq<string>): Engine {
    if e.pending.Some? then e.(pending := Some(e.pending.value + texts))
    else e.(committed := e.committed + texts)
  }

  lemma JoinedNext(e: Engine, texts: seq<string>, text: string, accepted: bool)
    ensures Execute(Joined(e, texts), SQL(text), accepted) == Joined(e, texts + if accepted then [text] else [])
  {
    assert texts + [] == texts;
    assert e.committed + texts + [text] == e.committed + (texts + [text]);
    assert e.pending.Some? ==> e.pending.value + texts + [text] == e.pending.value + (texts + [text]);
  }

  lemma {:induction false} StatementsJoin(w: World, db: nat, attempts: seq<Attempt>)
    requires db in w.engines
    ensures AfterStatements(w, db, attempts).engines[db] == Joined(w.engines[db], Accepted(attempts))
    decreases |attempts|
  {
    if attempts == [] {
      assert w.engines[db].committed + [] == w.engines[db].committed;
      assert w.engines[db].pending.Some? ==> w.engines[db].pending.value + [] == w.engines[db].pending.value;
    } else {
      var last := attempts[|attempts| - 1];
      StatementsJoin(w, db, attempts[..|attempts| - 1]);
      JoinedNext(w.engines[db], Accepted(attempts[..|attempts| - 1]), last.text, last.accepted);
    }
  }

  /** The operations that roll back what `tx` holds. */
  predicate IsRollback(op: Op, tx: nat) {
    (op.Rollback? || op.Destroy?) && op.tok == tx && op.accepted
  }

  /** What the engine has once the reassigned token has been used: `attempts` are issued, and
      the token then rolls back, by `Rollback` or by its destructor. */
  function UsedAndRolledBack(w: World, tx: nat, tmp: nat, db: nat, begun: bool, undone: bool, last: bool,
                             attempts: seq<Attempt>, end: Op): Engine
    requires IsLinear(w) && CanReassign(w, tx, tmp, db) && IsRollback(end, tx)
  {
    ReassignOpensIff(w, tx, tmp, db, begun, undone, last);
    var r := AfterStatements(Reassigned(w, tx, tmp, db, begun, undone, last), db, attempts);
    Apply(r, end).engines[db]
  }

  /** The statements that follow are taken back exactly when the engine had a transaction
      open after the reassignment; otherwise every one of them that it took is durable. */
  lemma RollbackTakesBack(w: World, tx: nat, tmp: nat, db: nat, begun: bool, undone: bool, last: bool,
                          attempts: seq<Attempt>, end: Op)
    requires IsLinear(w) && CanReassign(w, tx, tmp, db) && IsRollback(end, tx)
    ensures var e, f := w.engines[db], UsedAndRolledBack(w, tx, tmp, db, begun, undone, last, attempts, end);
            && f.pending.None? && f.beginCommits == e.beginCommits
            && f.committed == e.committed + CommittedByBegin(e, begun)
                              + (if (begun || e.pending.Some?) && !RollsBack(w, tx, db, undone) then []
                                 else Accepted(attempts))
  {
    ReassignOpensIff(w, tx, tmp, db, begun, undone, last);
    var r := Reassigned(w, tx, tmp, db, begun, undone, last);
    StatementsJoin(r, db, attempts);
    assert r.engines[db].committed + [] == r.engines[db].committed;
  }

  /** What the old transaction of the database had taken is durable after the idiom exactly
      when BEGIN commits and the engine takes it. The ROLLBACK comes too late then. */
  lemma OldWorkIsDurableIff(w: World, tx: nat, tmp: nat, db: nat, begun: bool, undone: bool, last: bool)
    requires IsLinear(w) && CanReassign(w, tx, tmp, db)
    requires w.engines[db].pending.Some? && w.engines[db].pending.value != []
    ensures var e, r := w.engines[db], Reassigned(w, tx, tmp, db, begun, undone, last);
            && db in r.engines
            && (r.engines[db].committed == e.committed + e.pending.value <==> e.beginCommits && begun)
            && (r.engines[db].committed == e.committed <==> !(e.beginCommits && begun))
  {
    ReassignOpensIff(w, tx, tmp, db, begun, undone, last);
    assert |w.engines[db].committed + w.engines[db].pending.value| > |w.engines[db].committed|;
  }

  /** The documented promise, that a transaction rolled back leaves the database as it was
      before BEGIN, holds for the idiom exactly when the engine takes the BEGIN, has no
      transaction open at that moment, and takes no ROLLBACK for the old transaction. */
  lemma ReassignedRollbackRestoresIff(w: World, tx: nat, tmp: nat, db: nat, begun: bool, undone: bool, last: bool,
                                      attempts: seq<Attempt>, end: Op)
    requires IsLinear(w) && CanReassign(w, tx, tmp, db) && IsRollback(end, tx)
    requires Accepted(attempts) != []
    ensures UsedAndRolledBack(w, tx, tmp, db, begun, undone, last, attempts, end) == w.engines[db]
            <==> begun && w.engines[db].pending.None? && !RollsBack(w, tx, db, undone)
  {
    RollbackTakesBack(w, tx, tmp, db, begun, undone, last, attempts, end);
  }

  /** What the engine had open and does not roll back: the BEGIN commits it, or the
      assignment leaves it open. */
  function OldWorkKept(e: Engine, begun: bool, rolledBack: bool): seq<string> {
    if e.pending.Some? && ((e.beginCommits && begun) || !rolledBack) then e.pending.value else []
  }

  lemma KeptInParts(e: Engine, begun: bool, rolledBack: bool, open: Option<seq<string>>)
    requires open.Some? <==> (begun || e.pending.Some?) && !rolledBack
    requires open.Some? ==>
               open == if e.pending.None? || (e.beginCommits && begun) then Some([]) else e.pending
    ensures e.committed + CommittedByBegin(e, begun) + (if open.Some? then open.value else [])
            == e.committed + OldWorkKept(e, begun, rolledBack)
  {
  }

  /** With COMMIT in place of the rollback, the statements are durable in any case, and so is
      whatever the BEGIN has committed or the assignment has left open. */
  lemma CommitKeeps(w: World, tx: nat, tmp: nat, db: nat, begun: bool, undone: bool, last: bool,
                    attempts: seq<Attempt>)
    requires IsLinear(w) && CanReassign(w, tx, tmp, db)
    ensures var r := Reassigned(w, tx, tmp, db, begun, undone, last);
            && db in r.engines && tx in r.tokens
            && var e, f := w.engines[db], Apply(AfterStatements(r, db, attempts), Commit(tx, true)).engines[db];
            && f.pending.None?
            && f.committed == e.committed + OldWorkKept(e, begun, RollsBack(w, tx, db, undone)) + Accepted(attempts)
  {
    ReassignOpensIff(w, tx, tmp, db, begun, undone, last);
    var r := Reassigned(w, tx, tmp, db, begun, undone, last);
    StatementsJoin(r, db, attempts);
    CommitOf(AfterStatements(r, db, attempts), tx, Scope(db, w.clock));
    CommitJoined(r.engines[db], Accepted(attempts));
    KeptInParts(w.engines[db], begun, RollsBack(w, tx, db, undone), r.engines[db].pending);
  }

  lemma CommitOf(w: World, tx: nat, s: Scope)
    requires tx in w.tokens && w.tokens[tx] == Token(Some(s), true) && s.db in w.engines
    ensures Apply(w, Commit(tx, true)).engines == w.engines[s.db := Execute(w.engines[s.db], COMMIT, true)]
  {
  }

  lemma CommitJoined(e: Engine, texts: seq<string>)
    ensures Execute(Joined(e, texts), COMMIT, true) ==
            e.(committed := e.committed + (if e.pending.Some? then e.pending.value else []) + texts, pending := None)
  {
    assert e.committed + [] + texts == e.committed + texts;
    assert e.pending.Some? ==> e.committed + (e.pending.value + texts) == e.committed + e.pending.value + texts;
  }

  /** `tx = db.BeginTransaction()` over an active `tx`: BEGIN goes out before the ROLLBACK of
      the old transaction, so that the ROLLBACK ends whatever the BEGIN has left open. The
      token is left active without a transaction behind it: a statement that follows is
      durable at once, and the token's rollback does not take it back. Where BEGIN commits,
      the old transaction's work is durable too. */
  lemma ReassignedTokenHasNoTransaction(w: World, tx: nat, tmp: nat, s: Scope, text: string)
    requires IsLinear(w) && tx in w.tokens && tmp !in w.tokens
    requires w.tokens[tx] == Token(Some(s), true) && w.engines[s.db].pending.Some?
    ensures var r := Reassigned(w, tx, tmp, s.db, true, true, true);
            && r.log == w.log + [Issued(BEGIN, Scope(s.db, w.clock))] + [Issued(ROLLBACK, s)]
            && r.tokens == w.tokens[tx := Token(Some(Scope(s.db, w.clock)), true)]
            && r.engines[s.db].pending.None?
            && Enabled(r, Statement(s.db, text, true))
            && var v := Apply(r, Statement(s.db, text, true));
            && Enabled(v, Rollback(tx, true))
            && Apply(v, Rollback(tx, true)).engines[s.db].committed ==
               w.engines[s.db].committed + CommittedByBegin(w.engines[s.db], true) + [text]
  {
    ReassignOpensIff(w, tx, tmp, s.db, true, true, true);
  }
}
