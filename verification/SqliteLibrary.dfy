/** The process-wide SQLite count as one thread sees it: the locked blocks of `SQLite3` in
    place, and their agreement with the steps of the interleaved protocol. */
module SqliteLibrary {
  import opened Outcomes
  import opened SqliteInit
  import opened SqliteInitStray

  datatype View = View(count: int, initialised: bool, autoInit: bool)

  /** Whether the first locked block of `DoConnect` takes a reference. */
  predicate Retains(v: View, initOk: bool) {
    v.count != 0 || initOk
  }

  function Retained(v: View, initOk: bool): View {
    if !Retains(v, initOk) then v
    else v.(count := v.count + 1, initialised := v.initialised || v.count == 0)
  }

  /** After `sqlite3_open`; `woken` for a failed one that has initialised the library. */
  function AfterOpen(v: View, woken: bool): View {
    v.(initialised := v.initialised || (v.autoInit && woken))
  }

  function BackedOut(v: View): View {
    v.(count := v.count - 1, initialised := v.initialised && v.count != 1)
  }

  function Freed(v: View): View {
    v.(count := Released(v.count), initialised := v.initialised && v.count != 1)
  }

  class Library {
    const autoInit: bool
    var count: int
    var initialised: bool

    ghost function Seen(): View
      reads this
    {
      View(count, initialised, autoInit)
    }

    constructor (autoInit: bool)
      ensures Seen() == View(0, false, autoInit)
    {
      this.autoInit, count, initialised := autoInit, 0, false;
    }

    /** The first locked block of `DoConnect`. */
    method Retain(initOk: bool) returns (ok: bool)
      modifies this
      ensures ok == Retains(old(Seen()), initOk) && Seen() == Retained(old(Seen()), initOk)
    {
      if count == 0 {
        if !initOk {
          return false;
        }
        initialised := true;
      }
      count := count + 1;
      ok := true;
    }

    /** What `sqlite3_open` does to the library. */
    method Open(woken: bool)
      modifies this
      ensures Seen() == AfterOpen(old(Seen()), woken)
    {
      if autoInit && woken {
        initialised := true;
      }
    }

    /** The locked block after a failed open: no guard against a count of 0. */
    method BackOut()
      modifies this
      ensures Seen() == BackedOut(old(Seen()))
    {
      count := count - 1;
      if count == 0 {
        initialised := false;
      }
    }

    /** `DoPostDisconnect` */
    method Release()
      modifies this
      ensures Seen() == Freed(old(Seen()))
    {
      if count > 0 {
        count := count - 1;
        if count == 0 {
          initialised := false;
        }
      }
    }
  }

  // ----- the same blocks as steps of the protocol -----

  function ViewOf(s: State): View {
    View(s.count, s.initialised, s.autoInit)
  }

  /** The lock is free, and `i` is about to take it, or is elsewhere outside the locked code. */
  predicate Waits(s: State, i: nat, p: Point) {
    s.mutex.None? && i in s.instances && s.instances[i].point == p
  }

  /** The run changes the count and the library as the block does, leaves `i` as told, the
      lock free, and everybody else alone. */
  ghost predicate Does(s: State, steps: seq<Action>, i: nat, v: View, x: Instance) {
    && i in s.instances && IsRun(s, steps)
    && var t := After(s, steps);
       ViewOf(t) == v && t.mutex.None? && t.instances == s.instances[i := x]
  }

  lemma DoesThen(s: State, first: seq<Action>, second: seq<Action>, i: nat, v: View, x: Instance, u: View, y: Instance)
    requires Does(s, first, i, v, x) && Does(After(s, first), second, i, u, y)
    ensures Does(s, first + second, i, u, y)
  {
    RunOfParts(s, first, second);
  }

  function RetainSteps(i: nat, initOk: bool, retains: bool): seq<Action> {
    [Lock(i), Test(i, initOk)] + (if retains then [Count(i)] + [Unlock(i)] else [Unlock(i)])
  }

  lemma TestRuns(s: State, i: nat, initOk: bool)
    requires Waits(s, i, AwaitInit)
    ensures var retains := Retains(ViewOf(s), initOk);
            && IsRun(s, [Lock(i), Test(i, initOk)])
            && After(s, [Lock(i), Test(i, initOk)]) ==
               s.(initialised := s.initialised || (s.count == 0 && initOk), mutex := Some(i),
                  instances := With(s, i, s.instances[i].(point := if retains then Increment else Leave)))
  {
    RunOfOne(s, Lock(i));
    RunOfNext(s, [Lock(i)], Test(i, initOk));
    assert [Lock(i)] + [Test(i, initOk)] == [Lock(i), Test(i, initOk)];
  }

  lemma CountMoves(s: State, i: nat)
    requires i in s.instances && s.instances[i].point.Increment?
    ensures Enabled(s, Count(i))
    ensures Apply(s, Count(i)) ==
            s.(count := s.count + 1, instances := With(s, i, s.instances[i].(point := LeaveInit)))
  {
  }

  lemma UnlockMoves(s: State, i: nat)
    requires i in s.instances && s.instances[i].point.LeaveInit?
    ensures Enabled(s, Unlock(i))
    ensures Apply(s, Unlock(i)) == s.(mutex := None, instances := With(s, i, s.instances[i].(point := Opening)))
  {
  }

  lemma CountRuns(s: State, i: nat)
    requires i in s.instances && s.instances[i].point.Increment?
    ensures IsRun(s, [Count(i)] + [Unlock(i)])
    ensures After(s, [Count(i)] + [Unlock(i)]) ==
            s.(count := s.count + 1, mutex := None, instances := With(s, i, s.instances[i].(point := Opening)))
  {
    CountMoves(s, i);
    RunOfOne(s, Count(i));
    var t := Apply(s, Count(i));
    UnlockMoves(t, i);
    RunOfOne(t, Unlock(i));
    RunOfParts(s, [Count(i)], [Unlock(i)]);
    assert With(t, i, s.instances[i].(point := Opening)) == With(s, i, s.instances[i].(point := Opening));
  }

  /** `Library.Retain` is the first locked block, step by step. */
  lemma RetainIsSteps(s: State, i: nat, initOk: bool)
    requires Waits(s, i, AwaitInit)
    ensures var retains := Retains(ViewOf(s), initOk);
            Does(s, RetainSteps(i, initOk, retains), i, Retained(ViewOf(s), initOk),
                 if retains then s.instances[i].(point := Opening) else Instance(Idle, false, s.instances[i].open))
  {
    var test := [Lock(i), Test(i, initOk)];
    TestRuns(s, i, initOk);
    var t := After(s, test);
    if Retains(ViewOf(s), initOk) {
      CountRuns(t, i);
      RunOfParts(s, test, [Count(i)] + [Unlock(i)]);
      assert With(t, i, s.instances[i].(point := Opening)) == With(s, i, s.instances[i].(point := Opening));
    } else {
      RunOfOne(t, Unlock(i));
      RunOfParts(s, test, [Unlock(i)]);
    }
  }

  /** `Library.Open` is the step outside the lock. */
  lemma OpenIsStep(s: State, i: nat, ok: bool, woken: bool)
    requires Waits(s, i, Opening)
    ensures Does(s, [Open(i, ok, woken)], i, AfterOpen(ViewOf(s), ok || woken),
                 if ok then Instance(Idle, true, true) else s.instances[i].(point := AwaitBackOut))
  {
    RunOfOne(s, Open(i, ok, woken));
  }

  /** The two blocks that decrement, from the lock on. */
  function ReleaseSteps(i: nat, last: bool): seq<Action> {
    [Lock(i), Uncount(i)] + Leaving(i, last)
  }

  lemma UncountRuns(s: State, i: nat, p: Point)
    requires (p.AwaitBackOut? || p.AwaitRelease?) && Waits(s, i, p)
    ensures var last := s.count == 1;
            var v := if p.AwaitBackOut? then BackedOut(ViewOf(s)) else Freed(ViewOf(s));
            Does(s, ReleaseSteps(i, last), i, v, Instance(Idle, false, s.instances[i].open))
  {
    var last := s.count == 1;
    RunOfOne(s, Lock(i));
    RunOfNext(s, [Lock(i)], Uncount(i));
    var two := [Lock(i)] + [Uncount(i)];
    assert two == [Lock(i), Uncount(i)];
    if last {
      RunOfNext(s, two, Finish(i));
      RunOfNext(s, two + [Finish(i)], Unlock(i));
      assert two + [Finish(i)] + [Unlock(i)] == ReleaseSteps(i, true);
    } else {
      RunOfNext(s, two, Unlock(i));
    }
  }

  /** `Library.BackOut` is the locked block after a failed open, step by step. */
  lemma BackOutIsSteps(s: State, i: nat)
    requires Waits(s, i, AwaitBackOut)
    ensures Does(s, ReleaseSteps(i, s.count == 1), i, BackedOut(ViewOf(s)), Instance(Idle, false, s.instances[i].open))
  {
    UncountRuns(s, i, AwaitBackOut);
  }

  /** `Library.Release` is the locked block of `DoPostDisconnect`, step by step. */
  lemma ReleaseIsSteps(s: State, i: nat)
    requires Waits(s, i, AwaitRelease)
    ensures Does(s, ReleaseSteps(i, s.count == 1), i, Freed(ViewOf(s)), Instance(Idle, false, s.instances[i].open))
  {
    UncountRuns(s, i, AwaitRelease);
  }

  // ----- whole calls -----

  /** `DoConnect`, alone: the first locked block, and if that takes a reference the open, and
      if that fails the block that gives the reference back. */
  function ConnectCall(i: nat, initOk: bool, retains: bool, ok: bool, woken: bool, last: bool): seq<Action> {
    [StartConnect(i)] + RetainSteps(i, initOk, retains)
    + (if !retains then [] else [Open(i, ok, woken)] + (if ok then [] else ReleaseSteps(i, last)))
  }

  /** The library once `Connect` has returned. */
  predicate Connects(v: View, t: View, retains: bool, ok: bool, woken: bool) {
    && t.autoInit == v.autoInit
    && t.count == v.count + (if retains && ok then 1 else 0)
    && t.initialised ==
       if !retains then v.initialised
       else if ok then v.initialised || v.count == 0 || v.autoInit
       else v.count != 0 && (v.initialised || (v.autoInit && woken))
  }

  lemma StartDoes(s: State, i: nat)
    requires Rests(s, i, false)
    ensures Does(s, [StartConnect(i)], i, ViewOf(s), Instance(AwaitInit, false, false))
  {
    RunOfOne(s, StartConnect(i));
  }

  lemma OpenDoes(s: State, i: nat, ok: bool, woken: bool)
    requires Waits(s, i, Opening) && !s.instances[i].connected && !s.instances[i].open
    ensures var awake := AfterOpen(ViewOf(s), ok || woken);
            Does(s, [Open(i, ok, woken)] + (if ok then [] else ReleaseSteps(i, s.count == 1)), i,
                 if ok then awake else BackedOut(awake), Instance(Idle, ok, ok))
  {
    OpenIsStep(s, i, ok, woken);
    var open := [Open(i, ok, woken)];
    if ok {
      assert open + [] == open;
    } else {
      var t := After(s, open);
      BackOutIsSteps(t, i);
      DoesThen(s, open, ReleaseSteps(i, s.count == 1), i,
               ViewOf(t), t.instances[i], BackedOut(ViewOf(t)), Instance(Idle, false, false));
    }
  }

  /** A whole `Connect` of an instance that is not connected is this run of the protocol:
      one reference is taken exactly if it succeeds, and then the handle is open. */
  lemma ConnectIsRun(s: State, i: nat, initOk: bool, ok: bool, woken: bool)
    requires Rests(s, i, false)
    ensures var retains := s.count != 0 || initOk;
            var steps := ConnectCall(i, initOk, retains, ok, woken, s.count == 0);
            && IsRun(s, steps)
            && var t := After(s, steps);
            && t.mutex.None? && Connects(ViewOf(s), ViewOf(t), retains, ok, woken)
            && t.instances == s.instances[i := Instance(Idle, retains && ok, retains && ok)]
  {
    var retains := s.count != 0 || initOk;
    var start, retain := [StartConnect(i)], RetainSteps(i, initOk, retains);
    StartDoes(s, i);
    var s1 := After(s, start);
    RetainIsSteps(s1, i, initOk);
    var s2 := After(s1, retain);
    DoesThen(s, start, retain, i, ViewOf(s1), s1.instances[i], ViewOf(s2), s2.instances[i]);
    if retains {
      OpenDoes(s2, i, ok, woken);
      var rest := [Open(i, ok, woken)] + (if ok then [] else ReleaseSteps(i, s.count == 0));
      var s3 := After(s2, rest);
      DoesThen(s, start + retain, rest, i, ViewOf(s2), s2.instances[i], ViewOf(s3), s3.instances[i]);
      assert start + retain + rest == ConnectCall(i, initOk, retains, ok, woken, s.count == 0);
    } else {
      assert start + retain + [] == start + retain;
    }
  }
}
