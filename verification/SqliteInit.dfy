/** The process-wide SQLite reference count, as a protocol of interleaved steps. Each
    instance runs `Connect` and `Disconnect` on its own thread; what lies between two lock
    operations, and `sqlite3_open` outside the lock, may interleave with everyone else. */
module SqliteInit {
  import opened Outcomes

  /** Where an instance is in the code of `DoConnect` and `DoPostDisconnect`. */
  datatype Point =
    | Idle             // in no call
    | AwaitInit        // before the lock that guards initialisation
    | TestCount        // holds the lock, before `if (g_sqlite_refcount == 0)`
    | Increment        // holds the lock, before `++g_sqlite_refcount`
    | LeaveInit        // holds the lock, after the increment
    | Opening          // before `sqlite3_open`, without the lock
    | AwaitBackOut     // `sqlite3_open` has failed, before the second lock
    | BackOut          // holds the lock, before `--g_sqlite_refcount`
    | AwaitRelease     // `Disconnect`, the handle is closed, before the lock
    | Release          // holds the lock, before `if (g_sqlite_refcount > 0)`
    | ShutDown         // holds the lock, the count has just become 0
    | Leave            // holds the lock, nothing left to do

  /** `connected` is `m_connected`; `open` tells whether `m_database` is not null. */
  datatype Instance = Instance(point: Point, connected: bool, open: bool)

  /** `autoInit`: `sqlite3_open` initialises the library on its own where it finds it shut
      down, as SQLite does unless it is built with SQLITE_OMIT_AUTOINIT. */
  datatype State = State(
    count: int, initialised: bool, mutex: Option<nat>,
    instances: map<nat, Instance>, autoInit: bool
  )

  datatype Action =
    | StartConnect(i: nat)
    | Lock(i: nat)
    | Test(i: nat, ok: bool)     // `ok`: what `sqlite3_initialize` answers, if asked
    | Count(i: nat)
    | Unlock(i: nat)
    | Open(i: nat, ok: bool, woken: bool)  // what `sqlite3_open` answers; a failed one may
                                           // have initialised the library or not
    | StartDisconnect(i: nat)
    | Uncount(i: nat)
    | Finish(i: nat)             // `sqlite3_shutdown`

  predicate InCriticalSection(p: Point) {
    p.TestCount? || p.Increment? || p.LeaveInit? || p.BackOut? || p.Release? || p.ShutDown? || p.Leave?
  }

  predicate Enabled(s: State, a: Action) {
    a.i in s.instances &&
    var p := s.instances[a.i].point;
    match a
    case StartConnect(_) => p.Idle?
    case Lock(_) => s.mutex.None? && (p.AwaitInit? || p.AwaitBackOut? || p.AwaitRelease?)
    case Test(_, _) => p.TestCount?
    case Count(_) => p.Increment?
    case Unlock(_) => p.LeaveInit? || p.Leave?
    case Open(_, _, _) => p.Opening?
    case StartDisconnect(_) => p.Idle?
    case Uncount(_) => p.BackOut? || p.Release?
    case Finish(_) => p.ShutDown?
  }

  function At(s: State, i: nat, p: Point): State
    requires i in s.instances
  {
    s.(instances := s.instances[i := s.instances[i].(point := p)])
  }

  function Apply(s: State, a: Action): State
    requires Enabled(s, a)
  {
    var me := s.instances[a.i];
    match a
    case StartConnect(i) => if me.connected then s else At(s, i, AwaitInit)
    case Lock(i) =>
      At(s.(mutex := Some(i)), i,
         if me.point.AwaitInit? then TestCount else if me.point.AwaitBackOut? then BackOut else Release)
    case Test(i, ok) =>
      if s.count != 0 then At(s, i, Increment)
      else if ok then At(s.(initialised := true), i, Increment)
      else At(s, i, Leave)
    case Count(i) => At(s.(count := s.count + 1), i, LeaveInit)
    case Unlock(i) =>
      if me.point.LeaveInit? then At(s.(mutex := None), i, Opening)
      else s.(mutex := None, instances := s.instances[i := Instance(Idle, false, me.open)])
    case Open(i, ok, woken) =>
      var t := s.(initialised := s.initialised || (s.autoInit && (ok || woken)));
      if ok then t.(instances := s.instances[i := Instance(Idle, true, true)])
      else At(t, i, AwaitBackOut)
    case StartDisconnect(i) =>
      s.(instances := s.instances[i := Instance(AwaitRelease, me.connected, false)])
    case Uncount(i) =>
      if me.point.Release? && s.count <= 0 then At(s, i, Leave)
      else At(s.(count := s.count - 1), i, if s.count == 1 then ShutDown else Leave)
    case Finish(i) => At(s.(initialised := false), i, Leave)
  }

  /** An instance that has counted itself and not yet taken that back. */
  predicate Holds(x: Instance) {
    match x.point
    case Idle => x.connected
    case AwaitRelease => x.connected
    case Release => x.connected
    case LeaveInit => true
    case Opening => true
    case AwaitBackOut => true
    case BackOut => true
    case _ => false
  }

  function Holders(s: State): set<nat> {
    set i | i in s.instances && Holds(s.instances[i])
  }

  /** Nothing has happened yet to any of the instances. */
  ghost predicate Initial(s: State) {
    && s.count == 0 && !s.initialised && s.mutex.None?
    && forall i <- s.instances :: s.instances[i] == Instance(Idle, false, false)
  }

  // ----- what holds in every interleaved run -----

  /** A positive count means an initialised library; the converse holds but for libraries
      that `sqlite3_open` has initialised on its own. */
  predicate Tracks(positive: bool, initialised: bool, auto: bool) {
    (positive ==> initialised) && (initialised ==> positive || auto)
  }

  /** What the owner of the lock knows about the count and the library. */
  predicate LockedFacts(s: State, p: Point, auto: bool) {
    match p
    case Increment => Tracks(s.count >= 0, s.initialised, auto)
    case ShutDown => s.count == 0 && s.initialised
    case _ => Tracks(s.count > 0, s.initialised, auto)
  }

  ghost predicate LockIsOwned(s: State) {
    && (s.mutex.Some? ==> s.mutex.value in s.instances)
    && forall i <- s.instances :: InCriticalSection(s.instances[i].point) <==> s.mutex == Some(i)
  }

  /** The flags of one instance, by its point. */
  predicate FlagsMatch(x: Instance) {
    && (x.open ==> x.point.Idle? && x.connected)
    && (x.point.Idle? ==> x.open == x.connected)
    && (x.connected ==>
          x.point.Idle? || x.point.AwaitRelease? || x.point.Release? || x.point.ShutDown? || x.point.Leave?)
  }

  ghost predicate AllFlagsMatch(s: State) {
    forall i <- s.instances :: FlagsMatch(s.instances[i])
  }

  /** The library follows the count, but for the steps that the lock hides. */
  ghost predicate LibraryFollows(s: State, auto: bool) {
    && (s.mutex.Some? ==> s.mutex.value in s.instances)
    && (if s.mutex.Some? then LockedFacts(s, s.instances[s.mutex.value].point, auto)
        else Tracks(s.count > 0, s.initialised, auto))
  }

  ghost predicate Invariant(s: State) {
    LockIsOwned(s) && LibraryFollows(s, s.autoInit) && AllFlagsMatch(s) && s.count <= |Holders(s)|
  }

  lemma HoldersAfter(s: State, t: State, i: nat)
    requires i in s.instances && i in t.instances
    requires t.instances == s.instances[i := t.instances[i]]
    ensures Holders(t) == if Holds(t.instances[i]) then Holders(s) + {i} else Holders(s) - {i}
    ensures |Holders(t)| == |Holders(s)| + Weight(t.instances[i]) - Weight(s.instances[i])
  {
  }

  lemma HolderCounts(s: State, i: nat)
    requires i in s.instances && Holds(s.instances[i])
    ensures |Holders(s)| > 0
  {
    assert i in Holders(s);
  }

  function Weight(x: Instance): nat {
    if Holds(x) then 1 else 0
  }

  /** A step touches one instance, and only locking and unlocking change who owns the lock. */
  lemma StepTouchesOne(s: State, a: Action)
    requires Enabled(s, a)
    ensures var t := Apply(s, a);
            && a.i in t.instances && t.instances == s.instances[a.i := t.instances[a.i]]
            && t.mutex == (if a.Lock? then Some(a.i) else if a.Unlock? then None else s.mutex)
            && (InCriticalSection(t.instances[a.i].point) <==>
                  a.Lock? || (InCriticalSection(s.instances[a.i].point) && !a.Unlock?))
            && (a.Lock? ==> s.mutex.None?) && (a.Unlock? ==> InCriticalSection(s.instances[a.i].point))
  {
  }

  lemma StepKeepsLock(s: State, a: Action)
    requires LockIsOwned(s) && Enabled(s, a)
    ensures LockIsOwned(Apply(s, a))
  {
    StepTouchesOne(s, a);
    var t := Apply(s, a);
    forall i | i in t.instances
      ensures InCriticalSection(t.instances[i].point) <==> t.mutex == Some(i)
    {
      assert i in s.instances && (i != a.i ==> t.instances[i] == s.instances[i]);
    }
  }

  lemma StepKeepsFlags(s: State, a: Action)
    requires AllFlagsMatch(s) && Enabled(s, a)
    ensures AllFlagsMatch(Apply(s, a))
  {
  }

  lemma StepKeepsLibrary(s: State, a: Action, auto: bool)
    requires LockIsOwned(s) && LibraryFollows(s, auto) && Enabled(s, a)
    requires a.Open? && s.autoInit ==> s.initialised || auto
    ensures LibraryFollows(Apply(s, a), auto)
  {
  }

  /** The release of an instance that holds nothing, while the count still counts others. */
  predicate IsStrayRelease(s: State, a: Action) {
    && a.Uncount? && a.i in s.instances && s.instances[a.i].point.Release?
    && !s.instances[a.i].connected && s.count > 0
  }

  /** The release of a holder that finds nothing left to count. */
  predicate IsIdleRelease(s: State, a: Action) {
    && a.Uncount? && a.i in s.instances && s.instances[a.i].point.Release?
    && s.instances[a.i].connected && s.count <= 0
  }

  /** A step touches one instance, and moves the count by as much as that instance's hold,
      but for a stray release and for an idle one. */
  lemma StepBalances(s: State, a: Action)
    requires Enabled(s, a) && FlagsMatch(s.instances[a.i])
    ensures var t := Apply(s, a);
            && a.i in t.instances && t.instances == s.instances[a.i := t.instances[a.i]]
            && t.count - s.count == Weight(t.instances[a.i]) - Weight(s.instances[a.i])
                                    + (if IsStrayRelease(s, a) then -1 else if IsIdleRelease(s, a) then 1 else 0)
  {
  }

  /** A right count stays right exactly when the step is not a stray release. */
  lemma StepCountsExactlyIff(s: State, a: Action)
    requires AllFlagsMatch(s) && Enabled(s, a) && s.count == |Holders(s)|
    ensures Apply(s, a).count == |Holders(Apply(s, a))| <==> !IsStrayRelease(s, a)
  {
    assert FlagsMatch(s.instances[a.i]);
    if Holds(s.instances[a.i]) {
      HolderCounts(s, a.i);
    }
    StepBalances(s, a);
    HoldersAfter(s, Apply(s, a), a.i);
  }

  /** Every single step of every thread, disciplined or not, keeps the invariant. */
  lemma StepKeepsInvariant(s: State, a: Action)
    requires Invariant(s) && Enabled(s, a)
    ensures Invariant(Apply(s, a))
  {
    assert FlagsMatch(s.instances[a.i]);
    if Holds(s.instances[a.i]) {
      HolderCounts(s, a.i);
    }
    StepKeepsLock(s, a);
    StepKeepsFlags(s, a);
    StepKeepsLibrary(s, a, s.autoInit);
    StepBalances(s, a);
    HoldersAfter(s, Apply(s, a), a.i);
  }

  ghost predicate IsRun(s: State, actions: seq<Action>)
    decreases actions
  {
    actions == [] || (Enabled(s, actions[0]) && IsRun(Apply(s, actions[0]), actions[1..]))
  }

  function After(s: State, actions: seq<Action>): State
    requires IsRun(s, actions)
    decreases actions
  {
    if actions == [] then s else After(Apply(s, actions[0]), actions[1..])
  }

  lemma {:induction false} RunKeepsInvariant(s: State, actions: seq<Action>)
    requires Invariant(s) && IsRun(s, actions)
    ensures Invariant(After(s, actions))
    decreases actions
  {
    if actions != [] {
      StepKeepsInvariant(s, actions[0]);
      RunKeepsInvariant(Apply(s, actions[0]), actions[1..]);
    }
  }

  lemma InitialIsInvariant(s: State)
    requires Initial(s)
    ensures Invariant(s) && LibraryFollows(s, false) && Holders(s) == {}
  {
    assert Holders(s) == {};
  }

  /** An open handle on a library that has been shut down. */
  ghost predicate IsAdrift(s: State) {
    !s.initialised && exists i <- s.instances :: s.instances[i].open
  }

  /** In every interleaved run, however `Disconnect` is used: the count never exceeds the
      number of holders; whenever the lock is free, a positive count means an initialised
      library, and a handle can only be open on a library that is shut down if the count is
      not positive; both the other way round too, unless `sqlite3_open` initialises the
      library on its own; and two instances are never in the locked code. */
  lemma EveryRunFollows(s: State, actions: seq<Action>)
    requires Initial(s) && IsRun(s, actions)
    ensures var t := After(s, actions);
            && t.count <= |Holders(t)|
            && (t.mutex.None? && t.count > 0 ==> t.initialised && !IsAdrift(t))
            && (t.mutex.None? && !t.autoInit ==> (t.count > 0 <==> t.initialised))
            && (t.mutex.None? && !t.autoInit ==>
                  (IsAdrift(t) <==> t.count <= 0 && exists i <- t.instances :: t.instances[i].open))
            && (forall i <- t.instances, j <- t.instances ::
                  (InCriticalSection(t.instances[i].point) && InCriticalSection(t.instances[j].point)) ==> i == j)
  {
    InitialIsInvariant(s);
    RunKeepsInvariant(s, actions);
  }

  // ----- exactly when the count is right -----

  ghost predicate CountsExactly(s: State, actions: seq<Action>)
    requires IsRun(s, actions)
    decreases actions
  {
    s.count == |Holders(s)| && (actions == [] || CountsExactly(Apply(s, actions[0]), actions[1..]))
  }

  ghost predicate HasNoStrayRelease(s: State, actions: seq<Action>)
    requires IsRun(s, actions)
    decreases actions
  {
    actions == [] || (!IsStrayRelease(s, actions[0]) && HasNoStrayRelease(Apply(s, actions[0]), actions[1..]))
  }

  lemma {:induction false} RunCountsExactlyFrom(s: State, actions: seq<Action>)
    requires Invariant(s) && s.count == |Holders(s)| && IsRun(s, actions)
    ensures CountsExactly(s, actions) <==> HasNoStrayRelease(s, actions)
    decreases actions
  {
    if actions != [] {
      StepKeepsInvariant(s, actions[0]);
      StepCountsExactlyIff(s, actions[0]);
      if !IsStrayRelease(s, actions[0]) {
        RunCountsExactlyFrom(Apply(s, actions[0]), actions[1..]);
      }
    }
  }

  /** In every interleaved run, disciplined or not, the count equals the number of holders at
      every moment exactly when no `Disconnect` of an instance that holds nothing comes to
      release while the count is positive. */
  lemma RunCountsExactlyIff(s: State, actions: seq<Action>)
    requires Initial(s) && IsRun(s, actions)
    ensures CountsExactly(s, actions) <==> HasNoStrayRelease(s, actions)
  {
    InitialIsInvariant(s);
    RunCountsExactlyFrom(s, actions);
  }

  lemma CountedIsInitialised(s: State, auto: bool)
    requires LibraryFollows(s, auto) && s.count > 0
    ensures s.initialised
  {
  }

  /** Where the count is right, every holder finds the library initialised. */
  lemma ExactIsSafe(s: State)
    requires Invariant(s) && s.count == |Holders(s)|
    ensures forall i <- s.instances :: Holds(s.instances[i]) ==> s.initialised
    ensures !IsAdrift(s)
  {
    forall i | i in s.instances && Holds(s.instances[i])
      ensures s.initialised
    {
      HolderCounts(s, i);
      CountedIsInitialised(s, s.autoInit);
    }
    assert forall i <- s.instances :: s.instances[i].open ==> FlagsMatch(s.instances[i]);
  }

  /** While the count is right, no `sqlite3_open` finds the library shut down. */
  lemma {:induction false} ExactRun(s: State, actions: seq<Action>)
    requires Invariant(s) && s.count == |Holders(s)| && IsRun(s, actions) && HasNoStrayRelease(s, actions)
    ensures Invariant(After(s, actions)) && After(s, actions).count == |Holders(After(s, actions))|
    ensures LibraryFollows(s, false) ==> LibraryFollows(After(s, actions), false)
    decreases actions
  {
    if actions != [] {
      var a := actions[0];
      StepKeepsInvariant(s, a);
      StepCountsExactlyIff(s, a);
      ExactIsSafe(s);
      if LibraryFollows(s, false) {
        StepKeepsLibrary(s, a, false);
      }
      ExactRun(Apply(s, a), actions[1..]);
    }
  }

  /** In every interleaved run without a stray release: the count is the number of instances
      that hold a reference, those still opening included, and so never negative; whenever
      the lock is free, it is positive exactly when the library is initialised; and no
      handle is open, nor any reference held, while the library is shut down. */
  lemma RunWithoutStrayReleaseIsSafe(s: State, actions: seq<Action>)
    requires Initial(s) && IsRun(s, actions) && HasNoStrayRelease(s, actions)
    ensures var t := After(s, actions);
            && t.count == |Holders(t)| >= 0
            && (t.mutex.None? ==> (t.count > 0 <==> t.initialised))
            && (forall i <- t.instances :: Holds(t.instances[i]) ==> t.initialised)
            && (forall i <- t.instances :: t.instances[i].open ==> t.initialised)
  {
    InitialIsInvariant(s);
    ExactRun(s, actions);
    ExactIsSafe(After(s, actions));
  }

  // ----- the discipline -----

  /** `Disconnect`, called explicitly or by the destructor, reaches only an instance that
      holds a reference. */
  predicate Disciplined(s: State, a: Action) {
    a.StartDisconnect? ==> a.i in s.instances && Holds(s.instances[a.i])
  }

  ghost predicate IsDisciplined(s: State, actions: seq<Action>)
    requires IsRun(s, actions)
    decreases actions
  {
    actions == [] || (Disciplined(s, actions[0]) && IsDisciplined(Apply(s, actions[0]), actions[1..]))
  }

  /** Whoever is about to release holds what it releases. */
  ghost predicate ReleasesOwn(s: State) {
    forall i <- s.instances ::
      s.instances[i].point.AwaitRelease? || s.instances[i].point.Release? ==> s.instances[i].connected
  }

  lemma {:induction false} DisciplineLeavesNoStray(s: State, actions: seq<Action>)
    requires ReleasesOwn(s) && IsRun(s, actions) && IsDisciplined(s, actions)
    ensures HasNoStrayRelease(s, actions)
    decreases actions
  {
    if actions != [] {
      DisciplineLeavesNoStray(Apply(s, actions[0]), actions[1..]);
    }
  }

  /** Hence the same for every interleaved run with that discipline. */
  lemma DisciplinedRunIsSafe(s: State, actions: seq<Action>)
    requires Initial(s) && IsRun(s, actions) && IsDisciplined(s, actions)
    ensures var t := After(s, actions);
            && t.count == |Holders(t)| >= 0
            && (t.mutex.None? ==> (t.count > 0 <==> t.initialised))
            && (forall i <- t.instances :: Holds(t.instances[i]) ==> t.initialised)
            && (forall i <- t.instances :: t.instances[i].open ==> t.initialised)
            && (forall i <- t.instances, j <- t.instances ::
                  (InCriticalSection(t.instances[i].point) && InCriticalSection(t.instances[j].point)) ==> i == j)
  {
    DisciplineLeavesNoStray(s, actions);
    RunWithoutStrayReleaseIsSafe(s, actions);
    EveryRunFollows(s, actions);
  }

  // ----- exactly when the count becomes negative -----

  /** Backing out of a failed `sqlite3_open`, which decrements without a test, when strays
      have already used up the count. */
  predicate IsUnderflow(s: State, a: Action) {
    a.Uncount? && a.i in s.instances && s.instances[a.i].point.BackOut? && s.count <= 0
  }

  ghost predicate HasNoUnderflow(s: State, actions: seq<Action>)
    requires IsRun(s, actions)
    decreases actions
  {
    actions == [] || (!IsUnderflow(s, actions[0]) && HasNoUnderflow(Apply(s, actions[0]), actions[1..]))
  }

  ghost predicate IsNeverNegative(s: State, actions: seq<Action>)
    requires IsRun(s, actions)
    decreases actions
  {
    s.count >= 0 && (actions == [] || IsNeverNegative(Apply(s, actions[0]), actions[1..]))
  }

  /** In every interleaved run the count stays at 0 or above exactly when nobody backs out
      of a failed open while the count is not positive. */
  lemma {:induction false} NeverNegativeIff(s: State, actions: seq<Action>)
    requires s.count >= 0 && IsRun(s, actions)
    ensures IsNeverNegative(s, actions) <==> HasNoUnderflow(s, actions)
    decreases actions
  {
    if actions != [] && !IsUnderflow(s, actions[0]) {
      NeverNegativeIff(Apply(s, actions[0]), actions[1..]);
    }
  }

  /** A run with a right count has none. */
  lemma {:induction false} ExactIsNeverNegative(s: State, actions: seq<Action>)
    requires IsRun(s, actions) && CountsExactly(s, actions)
    ensures IsNeverNegative(s, actions)
    decreases actions
  {
    if actions != [] {
      ExactIsNeverNegative(Apply(s, actions[0]), actions[1..]);
    }
  }

  // ----- the ledger -----

  ghost function CountStrays(s: State, actions: seq<Action>): nat
    requires IsRun(s, actions)
    decreases actions
  {
    if actions == [] then 0
    else (if IsStrayRelease(s, actions[0]) then 1 else 0) + CountStrays(Apply(s, actions[0]), actions[1..])
  }

  ghost function CountIdleReleases(s: State, actions: seq<Action>): nat
    requires IsRun(s, actions)
    decreases actions
  {
    if actions == [] then 0
    else (if IsIdleRelease(s, actions[0]) then 1 else 0) + CountIdleReleases(Apply(s, actions[0]), actions[1..])
  }

  lemma {:induction false} LedgerFrom(s: State, actions: seq<Action>)
    requires AllFlagsMatch(s) && IsRun(s, actions)
    ensures var t := After(s, actions);
            t.count - |Holders(t)| ==
            s.count - |Holders(s)| - CountStrays(s, actions) + CountIdleReleases(s, actions)
    decreases actions
  {
    if actions != [] {
      var a := actions[0];
      assert FlagsMatch(s.instances[a.i]);
      StepKeepsFlags(s, a);
      StepBalances(s, a);
      HoldersAfter(s, Apply(s, a), a.i);
      LedgerFrom(Apply(s, a), actions[1..]);
    }
  }

  /** In every interleaved run each stray release takes one from the count that somebody else
      has counted, and each release that finds nothing to count gives one back. So the count
      is negative exactly when the strays outnumber these and the holders together. */
  lemma StrayLedger(s: State, actions: seq<Action>)
    requires Initial(s) && IsRun(s, actions)
    ensures var t := After(s, actions);
            && t.count == |Holders(t)| - CountStrays(s, actions) + CountIdleReleases(s, actions)
            && (t.count < 0 <==> CountStrays(s, actions) > |Holders(t)| + CountIdleReleases(s, actions))
  {
    InitialIsInvariant(s);
    LedgerFrom(s, actions);
  }
}
