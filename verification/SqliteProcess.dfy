/** Several `SQLite3` objects that share the process-wide library, called one after another. */
module SqliteProcess {
  import opened Outcomes
  import opened SqliteLibrary
  import opened SqliteConnection

  datatype Process = Process(lib: View, objects: map<nat, Connection>)

  /** One call on one object. Its destructor is a `Disconnect`. */
  datatype Move = Move(i: nat, call: Call)

  ghost predicate CanMove(p: Process, m: Move) {
    && m.i in p.objects && Enabled(p.objects[m.i], m.call)
    && (m.call.Connect? ==> m.call.found == p.lib.count)
  }

  ghost function Moved(p: Process, m: Move): Process
    requires CanMove(p, m)
  {
    var c := p.objects[m.i];
    Process(LibraryAfter(p.lib, c.connected, m.call), p.objects[m.i := Apply(c, m.call)])
  }

  ghost predicate IsProcessRun(p: Process, moves: seq<Move>)
    decreases moves
  {
    moves == [] || (CanMove(p, moves[0]) && IsProcessRun(Moved(p, moves[0]), moves[1..]))
  }

  ghost function AfterMoves(p: Process, moves: seq<Move>): Process
    requires IsProcessRun(p, moves)
    decreases moves
  {
    if moves == [] then p else AfterMoves(Moved(p, moves[0]), moves[1..])
  }

  /** A `Disconnect` that reaches an object that is not connected, while others are counted. */
  predicate IsStray(p: Process, m: Move) {
    m.call.Disconnect? && m.i in p.objects && !p.objects[m.i].connected && p.lib.count > 0
  }

  ghost predicate HasNoStray(p: Process, moves: seq<Move>)
    requires IsProcessRun(p, moves)
    decreases moves
  {
    moves == [] || (!IsStray(p, moves[0]) && HasNoStray(Moved(p, moves[0]), moves[1..]))
  }

  ghost function Connected(p: Process): set<nat> {
    set i | i in p.objects && p.objects[i].connected
  }

  /** Between calls the library is initialised exactly while something is counted, and no
      more is counted than is connected. */
  ghost predicate Invariant(p: Process) {
    && 0 <= p.lib.count <= |Connected(p)|
    && (p.lib.count > 0 <==> p.lib.initialised)
    && forall i <- p.objects :: IsSound(p.objects[i])
  }

  ghost predicate IsNew(p: Process) {
    p.lib.count == 0 && !p.lib.initialised && forall i <- p.objects :: p.objects[i] == UNUSED
  }

  /** The count is the number of connected objects at every moment. */
  ghost predicate CountsConnected(p: Process, moves: seq<Move>)
    requires IsProcessRun(p, moves)
    decreases moves
  {
    p.lib.count == |Connected(p)| && (moves == [] || CountsConnected(Moved(p, moves[0]), moves[1..]))
  }

  lemma ConnectedAfter(p: Process, q: Process, i: nat)
    requires i in p.objects && i in q.objects && q.objects == p.objects[i := q.objects[i]]
    ensures Connected(q) == if q.objects[i].connected then Connected(p) + {i} else Connected(p) - {i}
    ensures p.objects[i].connected ==> i in Connected(p) && |Connected(p)| > 0
    ensures !p.objects[i].connected ==> i !in Connected(p)
  {
    if p.objects[i].connected {
      assert i in Connected(p);
    }
  }

  /** What one call does to the count and to the flag of its object. */
  lemma MoveCounts(p: Process, m: Move)
    requires CanMove(p, m)
    ensures var c, q := p.objects[m.i], Moved(p, m);
            && q.objects[m.i].connected == (if m.call.Connect? then c.connected || Succeeds(m.call)
                                            else c.connected && !m.call.Disconnect?)
            && q.lib.count == p.lib.count + (if !c.connected && Succeeds(m.call) then 1
                                             else if m.call.Disconnect? && p.lib.count > 0 then -1 else 0)
  {
    if m.call.Connect? {
      ConnectCounts(p.lib, p.objects[m.i].connected, m.call);
    }
  }

  lemma MoveKeepsLibrary(p: Process, m: Move)
    requires CanMove(p, m) && p.lib.count >= 0 && (p.lib.count > 0 <==> p.lib.initialised)
    ensures Moved(p, m).lib.count > 0 <==> Moved(p, m).lib.initialised
  {
    if m.call.Connect? {
      ConnectCounts(p.lib, p.objects[m.i].connected, m.call);
    }
  }

  lemma MoveKeepsInvariant(p: Process, m: Move)
    requires Invariant(p) && CanMove(p, m)
    ensures Invariant(Moved(p, m))
    ensures p.lib.count == |Connected(p)| ==>
              (Moved(p, m).lib.count == |Connected(Moved(p, m))| <==> !IsStray(p, m))
  {
    MoveCounts(p, m);
    MoveKeepsLibrary(p, m);
    ConnectedAfter(p, Moved(p, m), m.i);
    StepIsSound(p.objects[m.i], m.call);
  }

  lemma {:induction false} CountsConnectedFrom(p: Process, moves: seq<Move>)
    requires Invariant(p) && p.lib.count == |Connected(p)| && IsProcessRun(p, moves)
    ensures CountsConnected(p, moves) <==> HasNoStray(p, moves)
    decreases moves
  {
    if moves != [] {
      MoveKeepsInvariant(p, moves[0]);
      if !IsStray(p, moves[0]) {
        CountsConnectedFrom(Moved(p, moves[0]), moves[1..]);
      }
    }
  }

  lemma {:induction false} RunKeepsInvariant(p: Process, moves: seq<Move>)
    requires Invariant(p) && IsProcessRun(p, moves)
    ensures Invariant(AfterMoves(p, moves))
    ensures CountsConnected(p, moves) ==> AfterMoves(p, moves).lib.count == |Connected(AfterMoves(p, moves))|
    decreases moves
  {
    if moves != [] {
      MoveKeepsInvariant(p, moves[0]);
      RunKeepsInvariant(Moved(p, moves[0]), moves[1..]);
    }
  }

  lemma NewIsSound()
    ensures IsSound(UNUSED)
  {
    assert IsRun([]);
    RunIsSound([]);
  }

  lemma NewKeepsInvariant(p: Process)
    requires IsNew(p)
    ensures Invariant(p) && Connected(p) == {}
  {
    NewIsSound();
    assert Connected(p) == {};
  }

  /** Over every sequence of calls on any number of objects: the count is the number of
      connected objects at every moment exactly when no `Disconnect` reaches an object that
      is not connected while something is counted. */
  lemma SharedCountIff(p: Process, moves: seq<Move>)
    requires IsNew(p) && IsProcessRun(p, moves)
    ensures CountsConnected(p, moves) <==> HasNoStray(p, moves)
  {
    NewKeepsInvariant(p);
    CountsConnectedFrom(p, moves);
  }

  /** In every such sequence the count lies between 0 and the number of connected objects, it
      is positive exactly while the library is initialised, and the objects with an open
      handle are the connected ones. Without a stray, all of those find the library
      initialised. */
  lemma SharedLibrary(p: Process, moves: seq<Move>)
    requires IsNew(p) && IsProcessRun(p, moves)
    ensures var q := AfterMoves(p, moves);
            && 0 <= q.lib.count <= |Connected(q)|
            && (q.lib.count > 0 <==> q.lib.initialised)
            && (forall i <- q.objects :: q.objects[i].handle.Some? <==> i in Connected(q))
            && (HasNoStray(p, moves) ==> q.lib.count == |Connected(q)|)
            && (HasNoStray(p, moves) ==> forall i <- q.objects :: q.objects[i].handle.Some? ==> q.lib.initialised)
  {
    NewKeepsInvariant(p);
    RunKeepsInvariant(p, moves);
    SharedCountIff(p, moves);
    var q := AfterMoves(p, moves);
    forall i | i in q.objects && q.objects[i].handle.Some?
      ensures i in Connected(q) && |Connected(q)| > 0
    {
      assert IsSound(q.objects[i]) && i in Connected(q);
    }
    assert forall i <- q.objects :: IsSound(q.objects[i]);
  }
}
