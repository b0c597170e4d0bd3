/** What remains of the SQLite reference count when `Disconnect` may reach an instance that
    holds no reference: a second `Disconnect`, or the destructor after an explicit one. */
module SqliteInitStray {
  import opened Outcomes
  import opened SqliteInit

  // ----- one thread, no discipline -----

  /** One thread: a call runs to its end before another instance starts one. */
  ghost predicate Alone(s: State, a: Action) {
    forall j <- s.instances :: j != a.i ==> s.instances[j].point.Idle?
  }

  ghost predicate IsSingleThreaded(s: State, actions: seq<Action>)
    requires IsRun(s, actions)
    decreases actions
  {
    actions == [] || (Alone(s, actions[0]) && IsSingleThreaded(Apply(s, actions[0]), actions[1..]))
  }

  /** Between its increment and the end of its `DoConnect`. */
  predicate HasJustCounted(p: Point) {
    p.LeaveInit? || p.Opening? || p.AwaitBackOut? || p.BackOut?
  }

  ghost predicate CountsTheNewest(s: State) {
    s.count >= 0 && forall i <- s.instances :: HasJustCounted(s.instances[i].point) ==> s.count > 0
  }

  lemma StepCountsTheNewest(s: State, a: Action)
    requires CountsTheNewest(s) && Enabled(s, a) && Alone(s, a)
    ensures CountsTheNewest(Apply(s, a))
    ensures a.Open? ==> s.count > 0
  {
  }

  lemma {:induction false} RunCountsTheNewest(s: State, actions: seq<Action>)
    requires CountsTheNewest(s) && LockIsOwned(s) && LibraryFollows(s, false)
    requires IsRun(s, actions) && IsSingleThreaded(s, actions)
    ensures CountsTheNewest(After(s, actions)) && LibraryFollows(After(s, actions), false)
    decreases actions
  {
    if actions != [] {
      var a := actions[0];
      StepCountsTheNewest(s, a);
      StepKeepsLock(s, a);
      StepKeepsLibrary(s, a, false);
      RunCountsTheNewest(Apply(s, a), actions[1..]);
    }
  }

  /** On one thread, however `Disconnect` is used, the count stays between 0 and the number
      of holders, and between calls it is positive exactly when the library is initialised. */
  lemma SingleThreadedRunIsBounded(s: State, actions: seq<Action>)
    requires Initial(s) && IsRun(s, actions) && IsSingleThreaded(s, actions)
    ensures var t := After(s, actions);
            && 0 <= t.count <= |Holders(t)|
            && (t.mutex.None? ==> (t.count > 0 <==> t.initialised))
  {
    InitialIsInvariant(s);
    RunCountsTheNewest(s, actions);
    EveryRunFollows(s, actions);
  }

  // ----- whole calls -----

  lemma {:induction false} RunOfParts(s: State, first: seq<Action>, second: seq<Action>)
    requires IsRun(s, first) && IsRun(After(s, first), second)
    ensures IsRun(s, first + second) && After(s, first + second) == After(After(s, first), second)
    decreases first
  {
    if first == [] {
      assert first + second == second;
    } else {
      assert (first + second)[0] == first[0] && (first + second)[1..] == first[1..] + second;
      RunOfParts(Apply(s, first[0]), first[1..], second);
    }
  }

  lemma RunOfOne(s: State, a: Action)
    requires Enabled(s, a)
    ensures IsRun(s, [a]) && After(s, [a]) == Apply(s, a)
  {
  }

  lemma RunOfNext(s: State, first: seq<Action>, a: Action)
    requires IsRun(s, first) && Enabled(After(s, first), a)
    ensures IsRun(s, first + [a]) && After(s, first + [a]) == Apply(After(s, first), a)
  {
    RunOfOne(After(s, first), a);
    RunOfParts(s, first, [a]);
  }

  /** No call is in progress, and `i` is connected or not, as told. */
  predicate Rests(s: State, i: nat, connected: bool) {
    s.mutex.None? && i in s.instances && s.instances[i] == Instance(Idle, connected, connected)
  }

  function With(s: State, i: nat, x: Instance): map<nat, Instance> {
    s.instances[i := x]
  }

  /** A `Connect`, alone, as far as `sqlite3_open`, and one that succeeds. */
  function ConnectStart(i: nat): seq<Action> {
    [StartConnect(i), Lock(i), Test(i, true)] + [Count(i), Unlock(i)]
  }

  function ConnectSteps(i: nat): seq<Action> {
    ConnectStart(i) + [Open(i, true, false)]
  }

  lemma ConnectReachesIncrement(s: State, i: nat)
    requires Rests(s, i, false)
    ensures var steps := [StartConnect(i), Lock(i), Test(i, true)];
            && IsRun(s, steps)
            && After(s, steps) == s.(initialised := s.initialised || s.count == 0, mutex := Some(i),
                                   instances := With(s, i, Instance(Increment, false, false)))
  {
    var a, b, c := StartConnect(i), Lock(i), Test(i, true);
    RunOfOne(s, a);
    RunOfNext(s, [a], b);
    RunOfNext(s, [a] + [b], c);
    assert [a] + [b] + [c] == [a, b, c];
  }

  lemma IncrementReachesOpening(s: State, i: nat)
    requires s.mutex == Some(i) && i in s.instances && s.instances[i] == Instance(Increment, false, false)
    ensures IsRun(s, [Count(i), Unlock(i)])
    ensures After(s, [Count(i), Unlock(i)]) ==
            s.(count := s.count + 1, mutex := None, instances := With(s, i, Instance(Opening, false, false)))
  {
    RunOfOne(s, Count(i));
    RunOfNext(s, [Count(i)], Unlock(i));
    assert [Count(i)] + [Unlock(i)] == [Count(i), Unlock(i)];
  }

  /** Everything before `sqlite3_open`. */
  lemma ConnectReachesOpening(s: State, i: nat)
    requires Rests(s, i, false)
    ensures IsRun(s, ConnectStart(i))
    ensures After(s, ConnectStart(i)) ==
            s.(count := s.count + 1, initialised := s.initialised || s.count == 0,
               mutex := None, instances := With(s, i, Instance(Opening, false, false)))
  {
    var three, two := [StartConnect(i), Lock(i), Test(i, true)], [Count(i), Unlock(i)];
    ConnectReachesIncrement(s, i);
    var t := After(s, three);
    IncrementReachesOpening(t, i);
    RunOfParts(s, three, two);
    assert With(t, i, Instance(Opening, false, false)) == With(s, i, Instance(Opening, false, false));
  }

  lemma ConnectEnds(s: State, start: seq<Action>, i: nat)
    requires IsRun(s, start) && i in After(s, start).instances
    requires After(s, start).instances[i] == Instance(Opening, false, false)
    ensures IsRun(s, start + [Open(i, true, false)])
    ensures var t := After(s, start);
            After(s, start + [Open(i, true, false)]) ==
            t.(initialised := t.initialised || t.autoInit, instances := With(t, i, Instance(Idle, true, true)))
  {
    RunOfNext(s, start, Open(i, true, false));
  }

  lemma ConnectRuns(s: State, i: nat)
    requires Rests(s, i, false)
    ensures IsRun(s, ConnectSteps(i))
    ensures After(s, ConnectSteps(i)) ==
            s.(count := s.count + 1, initialised := s.initialised || s.count == 0 || s.autoInit,
               mutex := None, instances := With(s, i, Instance(Idle, true, true)))
  {
    var start := ConnectStart(i);
    ConnectReachesOpening(s, i);
    ConnectEnds(s, start, i);
    assert ConnectSteps(i) == start + [Open(i, true, false)];
    assert With(After(s, start), i, Instance(Idle, true, true)) == With(s, i, Instance(Idle, true, true));
  }

  /** `Disconnect`, alone, on an instance that may be connected or not. */
  function DisconnectSteps(i: nat, last: bool): seq<Action> {
    [StartDisconnect(i), Lock(i), Uncount(i)] + Leaving(i, last)
  }

  function Leaving(i: nat, last: bool): seq<Action> {
    if last then [Finish(i), Unlock(i)] else [Unlock(i)]
  }

  /** The count after one release. */
  function Released(count: int): int {
    if count > 0 then count - 1 else count
  }

  lemma ReleaseCounts(s: State, i: nat, connected: bool)
    requires i in s.instances && s.instances[i] == Instance(Release, connected, false)
    ensures Enabled(s, Uncount(i))
    ensures Apply(s, Uncount(i)) ==
            s.(count := Released(s.count),
               instances := With(s, i, Instance(if s.count == 1 then ShutDown else Leave, connected, false)))
  {
  }

  lemma DisconnectReleases(s: State, i: nat, connected: bool)
    requires Rests(s, i, connected)
    ensures var steps := [StartDisconnect(i), Lock(i), Uncount(i)];
            && IsRun(s, steps)
            && After(s, steps) ==
               s.(count := Released(s.count), mutex := Some(i),
                  instances := With(s, i, Instance(if s.count == 1 then ShutDown else Leave, connected, false)))
  {
    var a, b, c := StartDisconnect(i), Lock(i), Uncount(i);
    var s1 := s.(instances := With(s, i, Instance(AwaitRelease, connected, false)));
    var s2 := s.(mutex := Some(i), instances := With(s, i, Instance(Release, connected, false)));
    assert Apply(s, a) == s1;
    assert Apply(s1, b) == s2;
    RunOfOne(s, a);
    RunOfNext(s, [a], b);
    RunOfNext(s, [a] + [b], c);
    assert [a] + [b] + [c] == [a, b, c];
    ReleaseCounts(s2, i, connected);
  }

  lemma ReleaseLeaves(s: State, i: nat, connected: bool, last: bool)
    requires i in s.instances && s.mutex == Some(i)
    requires s.instances[i] == Instance(if last then ShutDown else Leave, connected, false)
    ensures IsRun(s, Leaving(i, last))
    ensures After(s, Leaving(i, last)) ==
            s.(initialised := s.initialised && !last, mutex := None,
               instances := With(s, i, Instance(Idle, false, false)))
  {
    if last {
      var s1 := s.(initialised := false, instances := With(s, i, Instance(Leave, connected, false)));
      assert Apply(s, Finish(i)) == s1;
      RunOfOne(s, Finish(i));
      RunOfNext(s, [Finish(i)], Unlock(i));
      assert [Finish(i)] + [Unlock(i)] == Leaving(i, true);
    } else {
      RunOfOne(s, Unlock(i));
    }
  }

  lemma DisconnectRuns(s: State, i: nat, connected: bool)
    requires Rests(s, i, connected)
    ensures IsRun(s, DisconnectSteps(i, s.count == 1))
    ensures After(s, DisconnectSteps(i, s.count == 1)) ==
            s.(count := Released(s.count), initialised := s.initialised && s.count != 1,
               mutex := None, instances := With(s, i, Instance(Idle, false, false)))
  {
    var last := s.count == 1;
    var three := [StartDisconnect(i), Lock(i), Uncount(i)];
    DisconnectReleases(s, i, connected);
    var t := After(s, three);
    ReleaseLeaves(t, i, connected, last);
    RunOfParts(s, three, Leaving(i, last));
    assert With(t, i, Instance(Idle, false, false)) == With(s, i, Instance(Idle, false, false));
  }

  // ----- exactly when handles stay safe -----

  /** No call is in progress on any instance. */
  ghost predicate AtRest(s: State) {
    && s.mutex.None? && (s.count > 0 ==> s.initialised)
    && forall i <- s.instances ::
         s.instances[i] == Instance(Idle, s.instances[i].connected, s.instances[i].connected)
  }

  /** An interleaved run, however `Disconnect` is used, that has come to rest. */
  lemma RunComesToRest(s: State, actions: seq<Action>)
    requires Initial(s) && IsRun(s, actions)
    requires forall i <- After(s, actions).instances :: After(s, actions).instances[i].point.Idle?
    ensures AtRest(After(s, actions)) && After(s, actions).count <= |Holders(After(s, actions))|
  {
    InitialIsInvariant(s);
    RunKeepsInvariant(s, actions);
    var t := After(s, actions);
    assert forall i <- t.instances :: FlagsMatch(t.instances[i]);
  }

  lemma {:induction false} RunKeepsInstances(s: State, actions: seq<Action>)
    requires IsRun(s, actions)
    ensures After(s, actions).instances.Keys == s.instances.Keys
    decreases actions
  {
    if actions != [] {
      RunKeepsInstances(Apply(s, actions[0]), actions[1..]);
    }
  }

  /** At rest with a right count, one `Disconnect` on its own leaves a handle open on a
      library that is shut down exactly when it reaches an instance that is not connected
      while exactly one other is. */
  lemma LoneDisconnectIff(s: State, i: nat)
    requires AtRest(s) && i in s.instances && s.count == |Holders(s)|
    ensures var steps := DisconnectSteps(i, s.count == 1);
            && IsRun(s, steps)
            && (IsAdrift(After(s, steps)) <==> !s.instances[i].connected && s.count == 1)
  {
    DisconnectRuns(s, i, s.instances[i].connected);
    var t := After(s, DisconnectSteps(i, s.count == 1));
    HoldersAfter(s, t, i);
    if s.count == 1 {
      var j :| j in Holders(s);
      if !s.instances[i].connected {
        assert t.instances[j].open;
      } else {
        OnlyHolder(s, i);
        assert forall j <- t.instances :: t.instances[j].open ==> j != i && j in Holders(s);
      }
    } else if s.count == 0 {
      NoHolder(s);
    }
  }

  lemma OnlyHolder(s: State, i: nat)
    requires |Holders(s)| == 1 && i in Holders(s)
    ensures forall j :: j in Holders(s) ==> j == i
  {
    assert |Holders(s) - {i}| == 0;
    forall j | j in Holders(s) ensures j == i {
      assert j in Holders(s) - {i} || j == i;
    }
  }

  lemma NoHolder(s: State)
    requires |Holders(s)| == 0
    ensures forall j <- s.instances :: !Holds(s.instances[j])
  {
    forall j | j in s.instances ensures !Holds(s.instances[j]) {
      assert j !in Holders(s);
    }
  }

  /** A continuation with disciplined use of `Disconnect` that ends with a handle open on a
      library that is shut down. */
  ghost predicate LeadsAdrift(s: State, actions: seq<Action>) {
    IsRun(s, actions) && IsDisciplined(s, actions) && IsAdrift(After(s, actions))
  }

  lemma {:induction false} DisciplineOfParts(s: State, first: seq<Action>, second: seq<Action>)
    requires IsRun(s, first) && IsDisciplined(s, first)
    requires IsRun(After(s, first), second) && IsDisciplined(After(s, first), second)
    ensures IsRun(s, first + second) && IsDisciplined(s, first + second)
    decreases first
  {
    RunOfParts(s, first, second);
    if first == [] {
      assert first + second == second;
    } else {
      assert (first + second)[0] == first[0] && (first + second)[1..] == first[1..] + second;
      DisciplineOfParts(Apply(s, first[0]), first[1..], second);
    }
  }

  lemma {:induction false} DisciplineOfOne(s: State, actions: seq<Action>)
    requires IsRun(s, actions) && (actions != [] ==> Disciplined(s, actions[0]))
    requires forall k :: 0 < k < |actions| ==> !actions[k].StartDisconnect?
    ensures IsDisciplined(s, actions)
    decreases actions
  {
    if actions != [] {
      DisciplineOfOne(Apply(s, actions[0]), actions[1..]);
    }
  }

  lemma AdriftNow(s: State, i: nat)
    requires !s.initialised && i in s.instances && s.instances[i].open
    ensures LeadsAdrift(s, [])
  {
  }

  /** Prepends one disciplined call to a continuation. */
  lemma AdriftAfter(s: State, call: seq<Action>, rest: seq<Action>)
    requires IsRun(s, call) && IsDisciplined(s, call) && LeadsAdrift(After(s, call), rest)
    ensures LeadsAdrift(s, call + rest)
  {
    DisciplineOfParts(s, call, rest);
    RunOfParts(s, call, rest);
  }

  /** With a handle open and nothing counted, connecting and disconnecting another instance
      brings the count to 0 and then shuts the library down: its disconnects find nothing to
      release until the count is positive. */
  lemma {:induction false} Pump(s: State, i: nat, j: nat) returns (actions: seq<Action>)
    requires s.count <= 0 && i != j && Rests(s, i, false) && Rests(s, j, true)
    ensures LeadsAdrift(s, actions)
    decreases -s.count
  {
    var connect, disconnect := ConnectSteps(i), DisconnectSteps(i, s.count == 0);
    ConnectRuns(s, i);
    DisciplineOfOne(s, connect);
    var t := After(s, connect);
    DisconnectRuns(t, i, true);
    DisciplineOfOne(t, disconnect);
    var u := After(t, disconnect);
    var rest: seq<Action> := [];
    if s.count == 0 {
      AdriftNow(u, j);
    } else {
      rest := Pump(u, i, j);
    }
    AdriftAfter(t, disconnect, rest);
    AdriftAfter(s, connect, disconnect + rest);
    actions := connect + (disconnect + rest);
  }

  /** Nothing is counted, although somebody holds a reference. */
  lemma UncountedIsUnsafe(s: State, i: nat, j: nat) returns (actions: seq<Action>)
    requires AtRest(s) && s.count <= 0 && i != j && i in s.instances && j in s.instances
    requires s.instances[j].connected || s.count < 0
    ensures LeadsAdrift(s, actions)
  {
    if !s.instances[j].connected {
      ConnectRuns(s, j);
      DisciplineOfOne(s, ConnectSteps(j));
      var rest := IdleThenPump(After(s, ConnectSteps(j)), i, j);
      AdriftAfter(s, ConnectSteps(j), rest);
      actions := ConnectSteps(j) + rest;
    } else {
      actions := IdleThenPump(s, i, j);
    }
  }

  lemma IdleThenPump(s: State, i: nat, j: nat) returns (actions: seq<Action>)
    requires s.count <= 0 && i != j && Rests(s, j, true)
    requires i in s.instances && Rests(s, i, s.instances[i].connected)
    ensures LeadsAdrift(s, actions)
  {
    if s.instances[i].connected {
      var steps := DisconnectSteps(i, false);
      DisconnectRuns(s, i, true);
      DisciplineOfOne(s, steps);
      var rest := Pump(After(s, steps), i, j);
      AdriftAfter(s, steps, rest);
      actions := steps + rest;
    } else {
      actions := Pump(s, i, j);
    }
  }

  /** Each disconnect of a holder brings a count that is too low nearer to 0, and there are
      more holders than that. */
  lemma {:induction false} ShortCountIsUnsafe(s: State, i: nat, j: nat) returns (actions: seq<Action>)
    requires AtRest(s) && s.count < |Holders(s)|
    requires i != j && i in s.instances && j in s.instances
    ensures LeadsAdrift(s, actions)
    decreases s.count
  {
    if s.count > 0 {
      var h :| h in Holders(s);
      var steps := DisconnectSteps(h, s.count == 1);
      DisconnectRuns(s, h, true);
      DisciplineOfOne(s, steps);
      var t := After(s, steps);
      HoldersAfter(s, t, h);
      var rest: seq<Action> := [];
      if s.count == 1 {
        var k :| k in Holders(t);
        AdriftNow(t, k);
      } else {
        rest := ShortCountIsUnsafe(t, i, j);
      }
      AdriftAfter(s, steps, rest);
      actions := steps + rest;
    } else if s.count < 0 {
      actions := UncountedIsUnsafe(s, i, j);
    } else {
      var h :| h in Holders(s);
      actions := UncountedIsUnsafe(s, if h == i then j else i, h);
    }
  }

  /** A process with one instance only never loses count. */
  lemma {:induction false} OneInstanceIsExact(s: State, actions: seq<Action>, i: nat)
    requires Invariant(s) && s.instances.Keys == {i} && s.count == |Holders(s)| && IsRun(s, actions)
    ensures After(s, actions).count == |Holders(After(s, actions))|
    decreases actions
  {
    if actions != [] {
      var a := actions[0];
      if !Holds(s.instances[a.i]) {
        assert Holders(s) == {};
      }
      StepCountsExactlyIff(s, a);
      StepKeepsInvariant(s, a);
      OneInstanceIsExact(Apply(s, a), actions[1..], i);
    }
  }

  /** So it takes two to make the count wrong. */
  lemma WrongCountTakesTwo(s: State, actions: seq<Action>) returns (i: nat, j: nat)
    requires Initial(s) && IsRun(s, actions) && After(s, actions).count != |Holders(After(s, actions))|
    ensures i != j && i in After(s, actions).instances && j in After(s, actions).instances
  {
    InitialIsInvariant(s);
    RunKeepsInstances(s, actions);
    assert actions != [];
    i := actions[0].i;
    if s.instances.Keys - {i} == {} {
      assert s.instances.Keys == {i};
      OneInstanceIsExact(s, actions, i);
    }
    j :| j in s.instances.Keys - {i};
  }

  lemma ExactCountStaysSafe(s: State, actions: seq<Action>)
    requires Invariant(s) && ReleasesOwn(s) && s.count == |Holders(s)|
    requires IsRun(s, actions) && IsDisciplined(s, actions)
    ensures !IsAdrift(After(s, actions))
  {
    DisciplineLeavesNoStray(s, actions);
    ExactRun(s, actions);
    ExactIsSafe(After(s, actions));
  }

  /** Whatever has happened before, once no call is in progress: no disciplined continuation,
      interleaved in whatever way, can leave a handle open on a library that is shut down,
      exactly when the count is the number of connected instances. */
  lemma SafeFromNowOnIff(s: State, past: seq<Action>)
    requires Initial(s) && IsRun(s, past)
    requires forall i <- After(s, past).instances :: After(s, past).instances[i].point.Idle?
    ensures var t := After(s, past);
            (forall actions :: !LeadsAdrift(t, actions)) <==> t.count == |Holders(t)|
  {
    var t := After(s, past);
    InitialIsInvariant(s);
    RunKeepsInvariant(s, past);
    RunComesToRest(s, past);
    if t.count == |Holders(t)| {
      forall actions | IsRun(t, actions) && IsDisciplined(t, actions) ensures !IsAdrift(After(t, actions)) {
        ExactCountStaysSafe(t, actions);
      }
    } else {
      var i, j := WrongCountTakesTwo(s, past);
      var actions := ShortCountIsUnsafe(t, i, j);
    }
  }

  // ----- what goes wrong without discipline -----

  /** Two instances connect; one disconnects and is then destroyed, which disconnects it
      again. The other one is left with an open handle on a library that is shut down. */
  lemma DestructorAfterDisconnect(s: State, i: nat, j: nat)
    requires Initial(s) && i in s.instances && j in s.instances && i != j
    ensures exists actions ::
              && IsRun(s, actions)
              && var t := After(s, actions);
                 j in t.instances && t.instances[j].open && !t.initialised && t.count == 0 && Holders(t) == {j}
  {
    ConnectRuns(s, i);
    var s1 := After(s, ConnectSteps(i));
    ConnectRuns(s1, j);
    var s2 := After(s1, ConnectSteps(j));
    DisconnectRuns(s2, i, true);
    var s3 := After(s2, DisconnectSteps(i, false));
    DisconnectRuns(s3, i, false);
    var s4 := After(s3, DisconnectSteps(i, true));
    RunOfParts(s2, DisconnectSteps(i, false), DisconnectSteps(i, true));
    var tail := DisconnectSteps(i, false) + DisconnectSteps(i, true);
    RunOfParts(s1, ConnectSteps(j), tail);
    RunOfParts(s, ConnectSteps(i), ConnectSteps(j) + tail);
    assert After(s, ConnectSteps(i) + (ConnectSteps(j) + tail)) == s4;
  }

  /** With two threads the count even becomes negative: `j` releases what it does not hold
      while `i` is between its increment and a failing `sqlite3_open`. */
  lemma CountCanBecomeNegative(s: State, i: nat, j: nat)
    requires Initial(s) && i in s.instances && j in s.instances && i != j
    ensures exists actions :: IsRun(s, actions) && After(s, actions).count == -1
  {
    var counted := ConnectStart(i);
    ConnectReachesOpening(s, i);
    var s1 := After(s, counted);
    DisconnectRuns(s1, j, false);
    var s2 := After(s1, DisconnectSteps(j, true));
    OpenFails(s2, i);
    RunOfParts(s1, DisconnectSteps(j, true), [Open(i, false, true), Lock(i), Uncount(i)]);
    var tail := DisconnectSteps(j, true) + [Open(i, false, true), Lock(i), Uncount(i)];
    RunOfParts(s, counted, tail);
    assert After(s, counted + tail).count == -1;
  }

  lemma OpenFails(s: State, i: nat)
    requires s.mutex.None? && i in s.instances && s.instances[i] == Instance(Opening, false, false)
    ensures IsRun(s, [Open(i, false, true), Lock(i), Uncount(i)])
    ensures After(s, [Open(i, false, true), Lock(i), Uncount(i)]).count == s.count - 1
  {
    var steps := [Open(i, false, true), Lock(i), Uncount(i)];
    RunOfOne(s, steps[0]);
    RunOfNext(s, [steps[0]], steps[1]);
    var two := [steps[0]] + [steps[1]];
    RunOfNext(s, two, steps[2]);
    assert two + [steps[2]] == steps;
  }
}
