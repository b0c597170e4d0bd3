/** What the transactions of a run leave in the store. */
module TransactionReplay {
  import opened Outcomes
  import opened Transactions

  // ----- the reference: which statements are durable -----

  /** The state before operation `k`. */
  ghost function Before(w: World, ops: seq<Op>, k: nat): World
    requires IsRun(w, ops) && k <= |ops|
  {
    RunOfPrefix(w, ops, k);
    Run(w, ops[..k])
  }

  lemma {:induction false} RunOfPrefix(w: World, ops: seq<Op>, k: nat)
    requires IsRun(w, ops) && k <= |ops|
    ensures IsRun(w, ops[..k])
    decreases |ops|
  {
    if k < |ops| {
      RunOfPrefix(w, ops[..|ops| - 1], k);
      assert ops[..|ops| - 1][..k] == ops[..k];
    } else {
      assert ops[..k] == ops;
    }
  }

  /** Some token commits `s`. */
  ghost predicate IsCommitted(w: World, ops: seq<Op>, s: Scope)
    requires IsRun(w, ops)
  {
    exists j :: 0 <= j < |ops| && ops[j].Commit? && Ends(Before(w, ops, j), ops[j], s)
  }

  /** A statement that the engine takes on a database, outside every transaction scope of that
      database or inside one that is committed. */
  ghost predicate IsDurable(w: World, ops: seq<Op>, k: nat, db: nat)
    requires IsRun(w, ops) && k < |ops|
  {
    && ops[k].Statement? && ops[k].db == db && ops[k].accepted
    && forall s: Scope :: s.db == db && IsHeld(Before(w, ops, k), s) ==> IsCommitted(w, ops, s)
  }

  /** The durable statements among the first `n` operations, in order. */
  ghost function Replay(w: World, ops: seq<Op>, n: nat, db: nat): seq<string>
    requires IsRun(w, ops) && n <= |ops|
  {
    if n == 0 then []
    else Replay(w, ops, n - 1, db) + (if IsDurable(w, ops, n - 1, db) then [ops[n - 1].text] else [])
  }

  // ----- the discipline -----

  /** No transaction of the database is held by a token. */
  ghost predicate NoneHeld(w: World, db: nat) {
    forall s: Scope :: s.db == db ==> !IsHeld(w, s)
  }

  /** Scopes on one database do not overlap, and the engine accepts each BEGIN, COMMIT and
      ROLLBACK. It may refuse statements. */
  ghost predicate Follows(w: World, op: Op) {
    && (op.Begin? ==> op.accepted && NoneHeld(w, op.db))
    && ((op.Commit? || op.Rollback? || op.Destroy? || op.MoveAssign?) ==> op.accepted)
  }

  ghost predicate IsDisciplined(w: World, ops: seq<Op>)
    requires IsRun(w, ops)
    decreases |ops|
  {
    ops == [] || (IsDisciplined(w, ops[..|ops| - 1]) && Follows(Run(w, ops[..|ops| - 1]), ops[|ops| - 1]))
  }

  // ----- scopes over time -----

  lemma PrefixOfPrefix(w: World, ops: seq<Op>, k: nat)
    requires IsRun(w, ops) && ops != [] && k < |ops|
    ensures IsRun(w, ops[..|ops| - 1])
    ensures Before(w, ops[..|ops| - 1], k) == Before(w, ops, k)
  {
    assert ops[..|ops| - 1][..k] == ops[..k];
  }

  lemma HeldAt(w: World, ops: seq<Op>, s: Scope)
    requires Initial(w) && IsRun(w, ops) && ops != []
    ensures var last := |ops| - 1;
            IsHeld(Run(w, ops), s) <==>
            (ops[last].Begin? && s == Scope(ops[last].db, last))
            || (IsHeld(Before(w, ops, last), s) && !Ends(Before(w, ops, last), ops[last], s))
    ensures IsHeld(Run(w, ops), s) ==> s.start < |ops|
  {
    var last := |ops| - 1;
    RunIsLinear(w, ops[..last]);
    RunIsLinear(w, ops);
    HeldAfterStep(Run(w, ops[..last]), ops[last], s);
  }

  /** A transaction that is held has been held ever since its BEGIN. */
  lemma {:induction false} HeldSince(w: World, ops: seq<Op>, s: Scope, k: nat)
    requires Initial(w) && IsRun(w, ops) && IsHeld(Run(w, ops), s) && s.start < k <= |ops|
    ensures IsHeld(Before(w, ops, k), s)
    decreases |ops|
  {
    if k < |ops| {
      HeldAt(w, ops, s);
      HeldSince(w, ops[..|ops| - 1], s, k);
      PrefixOfPrefix(w, ops, k);
    } else {
      assert ops[..k] == ops;
    }
  }

  lemma HeldStartsBefore(w: World, ops: seq<Op>, k: nat, s: Scope)
    requires Initial(w) && IsRun(w, ops) && k <= |ops| && IsHeld(Before(w, ops, k), s)
    ensures s.start < k
  {
    RunOfPrefix(w, ops, k);
    RunIsLinear(w, ops[..k]);
    HeldHasBegun(Run(w, ops[..k]), s);
  }

  lemma CommittedNext(w: World, ops: seq<Op>, s: Scope)
    requires IsRun(w, ops) && ops != []
    ensures var last := |ops| - 1;
            IsCommitted(w, ops, s) <==>
            IsCommitted(w, ops[..last], s) || (ops[last].Commit? && Ends(Before(w, ops, last), ops[last], s))
  {
    var last := |ops| - 1;
    var init := ops[..last];
    if IsCommitted(w, ops, s) {
      var j :| 0 <= j < |ops| && ops[j].Commit? && Ends(Before(w, ops, j), ops[j], s);
      PrefixOfPrefix(w, ops, j);
      assert j < last ==> init[j] == ops[j];
    }
    if IsCommitted(w, init, s) {
      var j :| 0 <= j < last && init[j].Commit? && Ends(Before(w, init, j), init[j], s);
      PrefixOfPrefix(w, ops, j);
      assert init[j] == ops[j];
    }
  }

  lemma EndsIsHeld(w: World, op: Op, s: Scope)
    requires Ends(w, op, s)
    ensures IsHeld(w, s)
  {
  }

  lemma {:induction false} CommittedHasBegun(w: World, ops: seq<Op>, s: Scope)
    requires Initial(w) && IsRun(w, ops) && IsCommitted(w, ops, s)
    ensures s.start < |ops|
  {
    var j :| 0 <= j < |ops| && ops[j].Commit? && Ends(Before(w, ops, j), ops[j], s);
    EndsIsHeld(Before(w, ops, j), ops[j], s);
    HeldStartsBefore(w, ops, j, s);
  }

  /** A transaction that is still held is not committed. */
  lemma {:induction false} HeldIsNotCommitted(w: World, ops: seq<Op>, s: Scope)
    requires Initial(w) && IsRun(w, ops) && IsHeld(Run(w, ops), s)
    ensures !IsCommitted(w, ops, s)
    decreases |ops|
  {
    if ops != [] {
      var last := |ops| - 1;
      HeldAt(w, ops, s);
      CommittedNext(w, ops, s);
      if ops[last].Begin? && s == Scope(ops[last].db, last) {
        if IsCommitted(w, ops[..last], s) {
          CommittedHasBegun(w, ops[..last], s);
        }
      } else {
        HeldIsNotCommitted(w, ops[..last], s);
      }
    }
  }

  /** At most one transaction is held on a database. */
  ghost predicate OneHeld(w: World, db: nat) {
    forall s: Scope, t: Scope :: s.db == t.db == db && IsHeld(w, s) && IsHeld(w, t) ==> s == t
  }

  lemma {:induction false} RunHoldsOne(w: World, ops: seq<Op>, k: nat, db: nat)
    requires Initial(w) && IsRun(w, ops) && IsDisciplined(w, ops) && k <= |ops|
    ensures OneHeld(Before(w, ops, k), db)
    decreases |ops|
  {
    if k < |ops| {
      RunHoldsOne(w, ops[..|ops| - 1], k, db);
      PrefixOfPrefix(w, ops, k);
    } else if ops != [] {
      var last := |ops| - 1;
      assert ops[..k] == ops;
      RunHoldsOne(w, ops[..last], last, db);
      assert ops[..last][..last] == ops[..last];
      forall s: Scope, t: Scope | s.db == t.db == db && IsHeld(Run(w, ops), s) && IsHeld(Run(w, ops), t)
        ensures s == t
      {
        HeldAt(w, ops, s);
        HeldAt(w, ops, t);
      }
    }
  }

  // ----- the reference over time -----

  /** Durability of an earlier statement changes only when the last operation commits a
      transaction that was open around it. */
  lemma DurableBefore(w: World, ops: seq<Op>, k: nat, db: nat, s: Scope)
    requires IsRun(w, ops) && k < |ops| - 1
    requires forall t: Scope :: t.db == db && t != s ==>
               !(ops[|ops| - 1].Commit? && Ends(Before(w, ops, |ops| - 1), ops[|ops| - 1], t))
    requires !IsHeld(Before(w, ops, k), s)
             || !(ops[|ops| - 1].Commit? && Ends(Before(w, ops, |ops| - 1), ops[|ops| - 1], s))
    ensures IsDurable(w, ops, k, db) <==> IsDurable(w, ops[..|ops| - 1], k, db)
  {
    forall t: Scope | t.db == db && IsHeld(Before(w, ops, k), t)
      ensures IsCommitted(w, ops, t) <==> IsCommitted(w, ops[..|ops| - 1], t)
    {
      CommittedNext(w, ops, t);
    }
    DurableAlike(w, ops, k, db);
  }

  lemma DurableAlike(w: World, ops: seq<Op>, k: nat, db: nat)
    requires IsRun(w, ops) && k < |ops| - 1
    requires forall t: Scope :: t.db == db && IsHeld(Before(w, ops, k), t) ==>
               (IsCommitted(w, ops, t) <==> IsCommitted(w, ops[..|ops| - 1], t))
    ensures IsDurable(w, ops, k, db) <==> IsDurable(w, ops[..|ops| - 1], k, db)
  {
    PrefixOfPrefix(w, ops, k);
    assert ops[..|ops| - 1][k] == ops[k];
  }

  /** While no transaction of the database is committed, the reference so far stands. */
  lemma {:induction false} ReplayStands(w: World, ops: seq<Op>, n: nat, db: nat)
    requires IsRun(w, ops) && n < |ops|
    requires forall t: Scope :: t.db == db ==>
               !(ops[|ops| - 1].Commit? && Ends(Before(w, ops, |ops| - 1), ops[|ops| - 1], t))
    ensures Replay(w, ops, n, db) == Replay(w, ops[..|ops| - 1], n, db)
    decreases n
  {
    if n > 0 {
      ReplayStands(w, ops, n - 1, db);
      DurableBefore(w, ops, n - 1, db, Scope(db, |ops|));
    }
  }

  /** The statements that the engine has taken on a database from operation `lo` on. */
  function Taken(ops: seq<Op>, lo: nat, n: nat, db: nat): seq<string>
    requires n <= |ops|
    decreases n
  {
    if n <= lo then []
    else Taken(ops, lo, n - 1, db)
         + (if ops[n - 1].Statement? && ops[n - 1].db == db && ops[n - 1].accepted then [ops[n - 1].text] else [])
  }

  lemma {:induction false} TakenOfPrefix(ops: seq<Op>, lo: nat, n: nat, db: nat)
    requires n < |ops|
    ensures Taken(ops[..|ops| - 1], lo, n, db) == Taken(ops, lo, n, db)
    decreases n
  {
    if n > lo {
      TakenOfPrefix(ops, lo, n - 1, db);
      assert ops[..|ops| - 1][n - 1] == ops[n - 1];
    }
  }

  /** While `s` is held, nothing since its BEGIN is durable. */
  lemma {:induction false} ReplayPauses(w: World, ops: seq<Op>, s: Scope, n: nat)
    requires Initial(w) && IsRun(w, ops) && IsHeld(Run(w, ops), s) && s.start < n <= |ops|
    ensures Replay(w, ops, n, s.db) == Replay(w, ops, s.start + 1, s.db)
    decreases n
  {
    if n > s.start + 1 {
      ReplayPauses(w, ops, s, n - 1);
      HeldSince(w, ops, s, n - 1);
      HeldIsNotCommitted(w, ops, s);
    }
  }

  /** When the last operation commits `s`, everything before its BEGIN stays as it was. */
  lemma {:induction false} ReplayBeforeScope(w: World, ops: seq<Op>, s: Scope, n: nat)
    requires Initial(w) && IsRun(w, ops) && IsDisciplined(w, ops) && ops != [] && n <= s.start + 1 && n < |ops|
    requires ops[|ops| - 1].Commit? && Ends(Before(w, ops, |ops| - 1), ops[|ops| - 1], s)
    ensures Replay(w, ops, n, s.db) == Replay(w, ops[..|ops| - 1], n, s.db)
    decreases n
  {
    if n > 0 {
      ReplayBeforeScope(w, ops, s, n - 1);
      if IsHeld(Before(w, ops, n - 1), s) {
        HeldStartsBefore(w, ops, n - 1, s);
      }
      DurableBefore(w, ops, n - 1, s.db, s);
    }
  }

  lemma CommitMakesDurable(w: World, ops: seq<Op>, s: Scope, k: nat)
    requires Initial(w) && IsRun(w, ops) && IsDisciplined(w, ops) && ops != [] && s.start < k < |ops| - 1
    requires ops[|ops| - 1].Commit? && Ends(Before(w, ops, |ops| - 1), ops[|ops| - 1], s)
    ensures IsDurable(w, ops, k, s.db) <==> ops[k].Statement? && ops[k].db == s.db && ops[k].accepted
  {
    var last := |ops| - 1;
    EndsIsHeld(Before(w, ops, last), ops[last], s);
    HeldSince(w, ops[..last], s, k);
    PrefixOfPrefix(w, ops, k);
    RunHoldsOne(w, ops, k, s.db);
    CommittedNext(w, ops, s);
  }

  /** And everything that the engine has taken since becomes durable. */
  lemma {:induction false} ReplayOfScope(w: World, ops: seq<Op>, s: Scope, n: nat)
    requires Initial(w) && IsRun(w, ops) && IsDisciplined(w, ops) && ops != [] && s.start < n < |ops|
    requires ops[|ops| - 1].Commit? && Ends(Before(w, ops, |ops| - 1), ops[|ops| - 1], s)
    ensures Replay(w, ops, n, s.db) == Replay(w, ops, s.start + 1, s.db) + Taken(ops, s.start + 1, n, s.db)
    decreases n
  {
    if n > s.start + 1 {
      ReplayOfScope(w, ops, s, n - 1);
      CommitMakesDurable(w, ops, s, n - 1);
    }
  }

  // ----- the engine follows the reference -----

  /** The open transaction of an engine holds what the engine has taken since the BEGIN. */
  ghost predicate HoldsTaken(e: Engine, ops: seq<Op>, s: Scope) {
    e.pending == Some(Taken(ops, s.start + 1, |ops|, s.db))
  }

  /** The store of a database holds `durable`; its open transaction, if one is held, what
      the engine has taken since the BEGIN. */
  ghost predicate EngineHolds(n: World, ops: seq<Op>, db: nat, durable: seq<string>)
    requires db in n.engines
  {
    && n.engines[db].committed == durable
    && (NoneHeld(n, db) ==> n.engines[db].pending.None?)
    && forall s: Scope :: s.db == db && IsHeld(n, s) ==> HoldsTaken(n.engines[db], ops, s)
  }

  /** The store and the open transaction of a database, by the reference. */
  ghost predicate EngineFollows(w: World, ops: seq<Op>, db: nat)
    requires IsRun(w, ops) && db in w.engines && db in Run(w, ops).engines
  {
    EngineHolds(Run(w, ops), ops, db, w.engines[db].committed + Replay(w, ops, |ops|, db))
  }

  /** No transaction of the database ends with this step. */
  ghost predicate EndsNone(w: World, op: Op, db: nat) {
    forall s: Scope :: s.db == db ==> !Ends(w, op, s)
  }

  /** What one step does to one engine. */
  lemma EngineAfterStep(w: World, op: Op, db: nat)
    requires IsLinear(w) && Enabled(w, op) && Follows(w, op) && db in w.engines
    ensures var e, f := w.engines[db], Apply(w, op).engines[db];
            && (op.Begin? && op.db == db ==> f == Execute(e, BEGIN, true))
            && (op.Statement? && op.db == db ==> f == Execute(e, SQL(op.text), op.accepted))
            && (forall s: Scope :: s.db == db && Ends(w, op, s) ==>
                  f == Execute(e, if op.Commit? then COMMIT else ROLLBACK, true))
            && ((EndsNone(w, op, db) && !((op.Begin? || op.Statement?) && op.db == db)) ==> f == e)
  {
  }

  lemma EngineAfterStatement(w: World, ops: seq<Op>, db: nat)
    requires Initial(w) && IsRun(w, ops) && IsDisciplined(w, ops) && ops != []
    requires ops[|ops| - 1].Statement? && ops[|ops| - 1].db == db
    ensures db in Run(w, ops[..|ops| - 1]).engines && db in Run(w, ops).engines
    ensures Run(w, ops).engines[db]
            == Execute(Run(w, ops[..|ops| - 1]).engines[db], SQL(ops[|ops| - 1].text), ops[|ops| - 1].accepted)
  {
  }

  lemma EngineAfterEnd(w: World, ops: seq<Op>, s: Scope)
    requires Initial(w) && IsRun(w, ops) && IsDisciplined(w, ops) && ops != []
    requires Ends(Run(w, ops[..|ops| - 1]), ops[|ops| - 1], s)
    ensures s.db in Run(w, ops[..|ops| - 1]).engines && s.db in Run(w, ops).engines
    ensures Run(w, ops).engines[s.db]
            == Execute(Run(w, ops[..|ops| - 1]).engines[s.db],
                       if ops[|ops| - 1].Commit? then COMMIT else ROLLBACK, true)
  {
    RunIsLinear(w, ops[..|ops| - 1]);
    EngineAfterStep(Run(w, ops[..|ops| - 1]), ops[|ops| - 1], s.db);
  }

  /** The step begins a transaction on the database. */
  lemma BeginFollows(w: World, ops: seq<Op>, db: nat)
    requires Initial(w) && IsRun(w, ops) && IsDisciplined(w, ops) && ops != [] && db in w.engines
    requires Run(w, ops[..|ops| - 1]).engines.Keys == Run(w, ops).engines.Keys == w.engines.Keys
    requires EngineFollows(w, ops[..|ops| - 1], db)
    requires ops[|ops| - 1].Begin? && ops[|ops| - 1].db == db
    ensures EngineFollows(w, ops, db)
  {
    var last := |ops| - 1;
    RunIsLinear(w, ops[..last]);
    EngineAfterStep(Run(w, ops[..last]), ops[last], db);
    ReplayStands(w, ops, last, db);
    HeldAt(w, ops, Scope(db, last));
    forall s: Scope | s.db == db && IsHeld(Run(w, ops), s)
      ensures s == Scope(db, last)
    {
      HeldAt(w, ops, s);
    }
  }

  /** The step is a statement, outside every transaction of its database. */
  lemma StatementOutsideFollows(w: World, ops: seq<Op>, db: nat)
    requires Initial(w) && IsRun(w, ops) && IsDisciplined(w, ops) && ops != [] && db in w.engines
    requires Run(w, ops[..|ops| - 1]).engines.Keys == Run(w, ops).engines.Keys == w.engines.Keys
    requires EngineFollows(w, ops[..|ops| - 1], db)
    requires ops[|ops| - 1].Statement? && ops[|ops| - 1].db == db
    requires NoneHeld(Run(w, ops[..|ops| - 1]), db)
    ensures EngineFollows(w, ops, db)
  {
    var last := |ops| - 1;
    RunIsLinear(w, ops[..last]);
    EngineAfterStep(Run(w, ops[..last]), ops[last], db);
    ReplayStands(w, ops, last, db);
    forall s: Scope | s.db == db ensures !IsHeld(Run(w, ops), s) {
      HeldAt(w, ops, s);
    }
  }

  lemma StatementInsideIsNotDurable(w: World, ops: seq<Op>, s: Scope)
    requires Initial(w) && IsRun(w, ops) && ops != [] && ops[|ops| - 1].Statement?
    requires IsHeld(Run(w, ops[..|ops| - 1]), s)
    ensures IsHeld(Run(w, ops), s) && !IsDurable(w, ops, |ops| - 1, s.db)
    ensures Replay(w, ops, |ops|, s.db) == Replay(w, ops[..|ops| - 1], |ops| - 1, s.db)
  {
    HeldAt(w, ops, s);
    HeldIsNotCommitted(w, ops, s);
    ReplayStands(w, ops, |ops| - 1, s.db);
  }

  lemma TakenNext(ops: seq<Op>, lo: nat, db: nat)
    requires ops != [] && lo < |ops| && ops[|ops| - 1].Statement? && ops[|ops| - 1].db == db
    ensures Taken(ops, lo, |ops|, db)
            == Taken(ops[..|ops| - 1], lo, |ops| - 1, db)
               + (if ops[|ops| - 1].accepted then [ops[|ops| - 1].text] else [])
  {
    TakenOfPrefix(ops, lo, |ops| - 1, db);
  }

  /** A statement inside a transaction joins what that transaction holds. */
  lemma EngineHoldsInside(m: World, n: World, ops: seq<Op>, s: Scope, durable: seq<string>)
    requires ops != [] && ops[|ops| - 1].Statement? && ops[|ops| - 1].db == s.db && s.start < |ops| - 1
    requires s.db in m.engines && s.db in n.engines
    requires n.engines[s.db] == Execute(m.engines[s.db], SQL(ops[|ops| - 1].text), ops[|ops| - 1].accepted)
    requires IsHeld(m, s) && IsHeld(n, s) && OneHeld(n, s.db)
    requires EngineHolds(m, ops[..|ops| - 1], s.db, durable)
    ensures EngineHolds(n, ops, s.db, durable)
  {
    var init := ops[..|ops| - 1];
    TakenNext(ops, s.start + 1, s.db);
    assert m.engines[s.db].pending == Some(Taken(init, s.start + 1, |init|, s.db));
    ExecuteInside(m.engines[s.db], ops[|ops| - 1].text, ops[|ops| - 1].accepted);
  }

  lemma HeldAfterStatement(w: World, ops: seq<Op>, s: Scope)
    requires Initial(w) && IsRun(w, ops) && IsDisciplined(w, ops) && ops != [] && ops[|ops| - 1].Statement?
    requires IsHeld(Run(w, ops[..|ops| - 1]), s)
    ensures s.start < |ops| - 1 && OneHeld(Run(w, ops), s.db)
  {
    RunIsLinear(w, ops[..|ops| - 1]);
    HeldHasBegun(Run(w, ops[..|ops| - 1]), s);
    RunHoldsOne(w, ops, |ops|, s.db);
    assert ops[..|ops|] == ops;
  }

  lemma ExecuteInside(e: Engine, text: string, accepted: bool)
    requires e.pending.Some?
    ensures Execute(e, SQL(text), accepted)
            == e.(pending := Some(e.pending.value + (if accepted then [text] else [])))
  {
    assert e.pending.value + [] == e.pending.value;
  }

  /** The step is a statement inside a transaction of its database. */
  lemma StatementInsideFollows(w: World, ops: seq<Op>, s: Scope)
    requires Initial(w) && IsRun(w, ops) && IsDisciplined(w, ops) && ops != [] && s.db in w.engines
    requires s.db in Run(w, ops[..|ops| - 1]).engines
    requires EngineFollows(w, ops[..|ops| - 1], s.db)
    requires ops[|ops| - 1].Statement? && ops[|ops| - 1].db == s.db
    requires IsHeld(Run(w, ops[..|ops| - 1]), s)
    ensures s.db in Run(w, ops).engines && EngineFollows(w, ops, s.db)
  {
    var init := ops[..|ops| - 1];
    EngineAfterStatement(w, ops, s.db);
    StatementInsideIsNotDurable(w, ops, s);
    HeldAfterStatement(w, ops, s);
    EngineHoldsInside(Run(w, init), Run(w, ops), ops, s, w.engines[s.db].committed + Replay(w, init, |init|, s.db));
  }

  lemma NoneHeldAfterEnd(w: World, ops: seq<Op>, s: Scope)
    requires Initial(w) && IsRun(w, ops) && IsDisciplined(w, ops) && ops != []
    requires Ends(Run(w, ops[..|ops| - 1]), ops[|ops| - 1], s)
    ensures s.start < |ops| - 1 && IsHeld(Run(w, ops[..|ops| - 1]), s)
    ensures NoneHeld(Run(w, ops), s.db)
  {
    var last := |ops| - 1;
    RunIsLinear(w, ops[..last]);
    EndsIsHeld(Run(w, ops[..last]), ops[last], s);
    HeldHasBegun(Run(w, ops[..last]), s);
    RunHoldsOne(w, ops[..last], last, s.db);
    assert ops[..last][..last] == ops[..last];
    forall t: Scope | t.db == s.db ensures !IsHeld(Run(w, ops), t) {
      HeldAt(w, ops, t);
    }
  }

  lemma ReplayAfterCommit(w: World, ops: seq<Op>, s: Scope)
    requires Initial(w) && IsRun(w, ops) && IsDisciplined(w, ops) && ops != [] && ops[|ops| - 1].Commit?
    requires Ends(Run(w, ops[..|ops| - 1]), ops[|ops| - 1], s)
    ensures Replay(w, ops, |ops|, s.db) ==
            Replay(w, ops[..|ops| - 1], |ops| - 1, s.db) + Taken(ops[..|ops| - 1], s.start + 1, |ops| - 1, s.db)
  {
    var last := |ops| - 1;
    NoneHeldAfterEnd(w, ops, s);
    ReplayBeforeScope(w, ops, s, s.start + 1);
    ReplayPauses(w, ops[..last], s, last);
    ReplayOfScope(w, ops, s, last);
    TakenOfPrefix(ops, s.start + 1, last, s.db);
  }

  lemma HoldsWhenNoneHeld(n: World, ops: seq<Op>, db: nat, durable: seq<string>)
    requires db in n.engines && n.engines[db].committed == durable && n.engines[db].pending.None? && NoneHeld(n, db)
    ensures EngineHolds(n, ops, db, durable)
  {
  }

  lemma HeldIsPending(m: World, ops: seq<Op>, s: Scope, durable: seq<string>)
    requires s.db in m.engines && EngineHolds(m, ops, s.db, durable) && IsHeld(m, s)
    ensures m.engines[s.db].committed == durable
    ensures m.engines[s.db].pending == Some(Taken(ops, s.start + 1, |ops|, s.db))
  {
  }

  lemma EngineBeforeEnd(w: World, ops: seq<Op>, s: Scope)
    requires Initial(w) && IsRun(w, ops) && IsDisciplined(w, ops) && ops != [] && s.db in w.engines
    requires s.db in Run(w, ops[..|ops| - 1]).engines
    requires EngineFollows(w, ops[..|ops| - 1], s.db)
    requires Ends(Run(w, ops[..|ops| - 1]), ops[|ops| - 1], s)
    ensures var e := Run(w, ops[..|ops| - 1]).engines[s.db];
            && e.committed == w.engines[s.db].committed + Replay(w, ops[..|ops| - 1], |ops| - 1, s.db)
            && e.pending == Some(Taken(ops[..|ops| - 1], s.start + 1, |ops| - 1, s.db))
  {
    EndsIsHeld(Run(w, ops[..|ops| - 1]), ops[|ops| - 1], s);
    HeldIsPending(Run(w, ops[..|ops| - 1]), ops[..|ops| - 1], s,
                  w.engines[s.db].committed + Replay(w, ops[..|ops| - 1], |ops| - 1, s.db));
  }

  lemma ReplayAfterEnd(w: World, ops: seq<Op>, s: Scope)
    requires Initial(w) && IsRun(w, ops) && IsDisciplined(w, ops) && ops != []
    requires Ends(Run(w, ops[..|ops| - 1]), ops[|ops| - 1], s)
    ensures Replay(w, ops, |ops|, s.db) ==
            Replay(w, ops[..|ops| - 1], |ops| - 1, s.db)
            + (if ops[|ops| - 1].Commit? then Taken(ops[..|ops| - 1], s.start + 1, |ops| - 1, s.db) else [])
  {
    if ops[|ops| - 1].Commit? {
      ReplayAfterCommit(w, ops, s);
    } else {
      ReplayStands(w, ops, |ops| - 1, s.db);
    }
  }

  lemma StoreAfterEnd(e: Engine, base: seq<string>, durable: seq<string>, taken: seq<string>, commit: bool)
    requires e.committed == base + durable && e.pending == Some(taken)
    ensures Execute(e, if commit then COMMIT else ROLLBACK, true)
            == e.(committed := base + (durable + (if commit then taken else [])), pending := None)
  {
  }

  /** The step ends a transaction of the database. */
  lemma EndFollows(w: World, ops: seq<Op>, s: Scope)
    requires Initial(w) && IsRun(w, ops) && IsDisciplined(w, ops) && ops != [] && s.db in w.engines
    requires s.db in Run(w, ops[..|ops| - 1]).engines
    requires EngineFollows(w, ops[..|ops| - 1], s.db)
    requires Ends(Run(w, ops[..|ops| - 1]), ops[|ops| - 1], s)
    ensures s.db in Run(w, ops).engines && EngineFollows(w, ops, s.db)
  {
    var last := |ops| - 1;
    EngineBeforeEnd(w, ops, s);
    EngineAfterEnd(w, ops, s);
    NoneHeldAfterEnd(w, ops, s);
    ReplayAfterEnd(w, ops, s);
    StoreAfterEnd(Run(w, ops[..last]).engines[s.db], w.engines[s.db].committed, Replay(w, ops[..last], last, s.db),
                  Taken(ops[..last], s.start + 1, last, s.db), ops[last].Commit?);
    HoldsWhenNoneHeld(Run(w, ops), ops, s.db, w.engines[s.db].committed + Replay(w, ops, |ops|, s.db));
  }

  ghost predicate SameHeld(m: World, n: World, db: nat) {
    forall s: Scope :: s.db == db ==> (IsHeld(m, s) <==> IsHeld(n, s))
  }

  lemma EngineHoldsElsewhere(m: World, n: World, ops: seq<Op>, db: nat, durable: seq<string>)
    requires ops != [] && !(ops[|ops| - 1].Statement? && ops[|ops| - 1].db == db)
    requires db in m.engines && db in n.engines && n.engines[db] == m.engines[db]
    requires IsLinear(m) && m.clock == |ops| - 1 && SameHeld(m, n, db)
    requires EngineHolds(m, ops[..|ops| - 1], db, durable)
    ensures EngineHolds(n, ops, db, durable)
  {
    assert NoneHeld(n, db) ==> NoneHeld(m, db);
    forall s: Scope | s.db == db && IsHeld(n, s)
      ensures HoldsTaken(n.engines[db], ops, s)
    {
      assert HoldsTaken(m.engines[db], ops[..|ops| - 1], s);
      HeldHasBegun(m, s);
      TakenElsewhere(ops, s.start + 1, db);
    }
  }

  lemma TakenElsewhere(ops: seq<Op>, lo: nat, db: nat)
    requires ops != [] && lo < |ops| && !(ops[|ops| - 1].Statement? && ops[|ops| - 1].db == db)
    ensures Taken(ops, lo, |ops|, db) == Taken(ops[..|ops| - 1], lo, |ops| - 1, db)
  {
    TakenOfPrefix(ops, lo, |ops| - 1, db);
    assert Taken(ops, lo, |ops| - 1, db) + [] == Taken(ops, lo, |ops| - 1, db);
  }

  lemma HeldElsewhere(w: World, ops: seq<Op>, db: nat)
    requires Initial(w) && IsRun(w, ops) && ops != []
    requires EndsNone(Run(w, ops[..|ops| - 1]), ops[|ops| - 1], db)
    requires !(ops[|ops| - 1].Begin? && ops[|ops| - 1].db == db)
    ensures SameHeld(Run(w, ops[..|ops| - 1]), Run(w, ops), db)
  {
    forall s: Scope | s.db == db ensures IsHeld(Run(w, ops[..|ops| - 1]), s) <==> IsHeld(Run(w, ops), s) {
      HeldAt(w, ops, s);
    }
  }

  lemma EngineElsewhere(w: World, ops: seq<Op>, db: nat)
    requires Initial(w) && IsRun(w, ops) && IsDisciplined(w, ops) && ops != []
    requires db in Run(w, ops[..|ops| - 1]).engines
    requires EndsNone(Run(w, ops[..|ops| - 1]), ops[|ops| - 1], db)
    requires !((ops[|ops| - 1].Begin? || ops[|ops| - 1].Statement?) && ops[|ops| - 1].db == db)
    ensures db in Run(w, ops).engines && Run(w, ops).engines[db] == Run(w, ops[..|ops| - 1]).engines[db]
  {
    RunIsLinear(w, ops[..|ops| - 1]);
    EngineAfterStep(Run(w, ops[..|ops| - 1]), ops[|ops| - 1], db);
  }

  /** The step does not concern the database. */
  lemma OthersFollow(w: World, ops: seq<Op>, db: nat)
    requires Initial(w) && IsRun(w, ops) && IsDisciplined(w, ops) && ops != [] && db in w.engines
    requires db in Run(w, ops[..|ops| - 1]).engines
    requires EngineFollows(w, ops[..|ops| - 1], db)
    requires EndsNone(Run(w, ops[..|ops| - 1]), ops[|ops| - 1], db)
    requires !((ops[|ops| - 1].Begin? || ops[|ops| - 1].Statement?) && ops[|ops| - 1].db == db)
    ensures db in Run(w, ops).engines && EngineFollows(w, ops, db)
  {
    var last := |ops| - 1;
    var init := ops[..last];
    RunIsLinear(w, init);
    EngineElsewhere(w, ops, db);
    HeldElsewhere(w, ops, db);
    ReplayStands(w, ops, last, db);
    EngineHoldsElsewhere(Run(w, init), Run(w, ops), ops, db, w.engines[db].committed + Replay(w, init, last, db));
  }

  lemma {:induction false} RunFollows(w: World, ops: seq<Op>, db: nat)
    requires Initial(w) && IsRun(w, ops) && IsDisciplined(w, ops) && db in w.engines
    requires w.engines[db].pending.None?
    ensures db in Run(w, ops).engines && EngineFollows(w, ops, db)
    decreases |ops|
  {
    RunIsLinear(w, ops);
    if ops != [] {
      var last := |ops| - 1;
      var init := ops[..last];
      RunFollows(w, init, db);
      RunIsLinear(w, init);
      if ops[last].Begin? && ops[last].db == db {
        BeginFollows(w, ops, db);
      } else if ops[last].Statement? && ops[last].db == db {
        if s: Scope :| s.db == db && IsHeld(Run(w, init), s) {
          StatementInsideFollows(w, ops, s);
        } else {
          StatementOutsideFollows(w, ops, db);
        }
      } else if EndsNone(Run(w, init), ops[last], db) {
        OthersFollow(w, ops, db);
      } else {
        var s: Scope :| s.db == db && Ends(Run(w, init), ops[last], s);
        EndFollows(w, ops, s);
      }
    }
  }

  /** For every run with that discipline, the store of each database is what it was before,
      followed by the replay, in order, of the statements outside every scope and those of
      committed scopes. Scopes that end by `Rollback`, by destruction or by being assigned
      over leave no trace, and neither do those still open. */
  lemma StoreIsReplay(w: World, ops: seq<Op>, db: nat)
    requires Initial(w) && IsRun(w, ops) && IsDisciplined(w, ops) && db in w.engines
    requires w.engines[db].pending.None?
    ensures db in Run(w, ops).engines
    ensures Run(w, ops).engines[db].committed == w.engines[db].committed + Replay(w, ops, |ops|, db)
  {
    RunFollows(w, ops, db);
  }

  // ----- what happens outside the discipline -----

  /** After `Commit` and the destruction of the token, the engine still holds the transaction
      open exactly when it has refused the COMMIT: the token counts itself spent either way,
      and no ROLLBACK is sent. */
  lemma RefusedCommitStaysOpen(w: World, tx: nat, s: Scope, accepted: bool, later: bool)
    requires IsLinear(w) && tx in w.tokens
    requires w.tokens[tx] == Token(Some(s), true) && w.engines[s.db].pending.Some?
    ensures var commit, drop := Commit(tx, accepted), Destroy(tx, later);
            && Enabled(w, commit) && Enabled(Apply(w, commit), drop)
            && var end := Apply(Apply(w, commit), drop);
            && end.log == w.log + [Issued(COMMIT, s)]
            && (end.engines[s.db].pending == w.engines[s.db].pending <==> !accepted)
            && (accepted ==>
                  && end.engines[s.db].pending.None?
                  && end.engines[s.db].committed == w.engines[s.db].committed + w.engines[s.db].pending.value)
  {
  }
}
