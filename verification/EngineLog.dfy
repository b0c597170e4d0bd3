/** The life of handles and statements as the SQLite engine demands it, watched over a log of
    the calls that a connection makes: an independent judge of those calls. */
module EngineLog {
  import opened Outcomes

  datatype Event =
    | Opened(handle: nat)
    | Closed(handle: nat)
    | Prepared(stmt: nat, handle: nat)
    | Stepped(stmt: nat)
    | Finalized(stmt: nat)

  /** The open handles, and the statements not yet finalised with the handle of each. */
  datatype Monitor = Monitor(open: set<nat>, live: map<nat, nat>, spent: set<nat>)

  const NOTHING_YET: Monitor := Monitor({}, map[], {})

  /** `None` is a misuse: a second open or close, a close with statements left, a prepare on
      a handle that is not open, a step or finalise of a statement that has been finalised or
      whose handle has been closed. */
  function Accept(m: Monitor, e: Event): Option<Monitor> {
    match e
    case Opened(h) => if h in m.open then None else Some(m.(open := m.open + {h}))
    case Closed(h) =>
      if h in m.open && forall s <- m.live :: m.live[s] != h then Some(m.(open := m.open - {h})) else None
    case Prepared(s, h) =>
      if h in m.open && s !in m.live && s !in m.spent then Some(m.(live := m.live[s := h])) else None
    case Stepped(s) => if s in m.live && m.live[s] in m.open then Some(m) else None
    case Finalized(s) =>
      if s in m.live && m.live[s] in m.open then Some(m.(live := m.live - {s}, spent := m.spent + {s})) else None
  }

  function AcceptAll(m: Monitor, log: seq<Event>): Option<Monitor> {
    if log == [] then Some(m)
    else
      match AcceptAll(m, log[..|log| - 1])
      case None => None
      case Some(next) => Accept(next, log[|log| - 1])
  }

  lemma {:induction false} AcceptParts(m: Monitor, first: seq<Event>, second: seq<Event>)
    requires AcceptAll(m, first).Some?
    ensures AcceptAll(m, first + second) == AcceptAll(AcceptAll(m, first).value, second)
    decreases |second|
  {
    if second == [] {
      assert first + second == first;
    } else {
      var last := |second| - 1;
      AcceptParts(m, first, second[..last]);
      assert (first + second)[..|first + second| - 1] == first + second[..last];
    }
  }

  lemma AcceptOne(m: Monitor, log: seq<Event>, e: Event)
    requires AcceptAll(m, log).Some?
    ensures AcceptAll(m, log + [e]) == Accept(AcceptAll(m, log).value, e)
  {
  }

  function CountPrepared(log: seq<Event>, s: nat): nat {
    if log == [] then 0
    else
      var last := log[|log| - 1];
      CountPrepared(log[..|log| - 1], s) + (if last.Prepared? && last.stmt == s then 1 else 0)
  }

  function CountFinalized(log: seq<Event>, s: nat): nat {
    if log == [] then 0
    else
      var last := log[|log| - 1];
      CountFinalized(log[..|log| - 1], s) + (if last == Finalized(s) then 1 else 0)
  }

  function CountOpened(log: seq<Event>): nat {
    if log == [] then 0 else CountOpened(log[..|log| - 1]) + (if log[|log| - 1].Opened? then 1 else 0)
  }

  function CountClosed(log: seq<Event>): nat {
    if log == [] then 0 else CountClosed(log[..|log| - 1]) + (if log[|log| - 1].Closed? then 1 else 0)
  }

  /** What acceptance means: every statement is prepared at most once and finalised at most
      once; the ones prepared and not finalised are the live ones; and the opens exceed the
      closes by the number of open handles. */
  lemma {:induction false} AcceptedLogBalances(log: seq<Event>, s: nat)
    requires AcceptAll(NOTHING_YET, log).Some?
    ensures var m := AcceptAll(NOTHING_YET, log).value;
            && CountPrepared(log, s) == (if s in m.live then 1 else 0) + CountFinalized(log, s)
            && CountFinalized(log, s) == (if s in m.spent then 1 else 0)
            && !(s in m.live && s in m.spent)
            && CountOpened(log) == CountClosed(log) + |m.open|
    decreases |log|
  {
    if log != [] {
      AcceptedLogBalances(log[..|log| - 1], s);
    }
  }

  /** No use after the end: between the finalising of a statement and the end of the log
      nothing is asked of it. */
  lemma {:induction false} NothingAfterFinalize(log: seq<Event>, i: nat, j: nat)
    requires AcceptAll(NOTHING_YET, log).Some?
    requires i < j < |log| && log[i].Finalized? && (log[j].Prepared? || log[j].Stepped? || log[j].Finalized?)
    ensures log[j].stmt != log[i].stmt
    decreases |log|
  {
    var last := |log| - 1;
    if j < last {
      NothingAfterFinalize(log[..last], i, j);
    } else {
      SpentAfterFinalize(log[..last], i);
      AcceptedLogBalances(log[..last], log[i].stmt);
    }
  }

  lemma {:induction false} SpentAfterFinalize(log: seq<Event>, i: nat)
    requires AcceptAll(NOTHING_YET, log).Some? && i < |log| && log[i].Finalized?
    ensures log[i].stmt in AcceptAll(NOTHING_YET, log).value.spent
    decreases |log|
  {
    if i < |log| - 1 {
      SpentAfterFinalize(log[..|log| - 1], i);
    }
  }

  // ----- what acceptance says about the order of events -----

  /** A handle is open exactly when it has been opened and not closed since. */
  ghost predicate IsOpenAfter(log: seq<Event>, h: nat) {
    exists i :: 0 <= i < |log| && log[i] == Opened(h) && forall m :: i < m < |log| ==> log[m] != Closed(h)
  }

  lemma OpenAfterNext(log: seq<Event>, e: Event, h: nat)
    ensures IsOpenAfter(log + [e], h) <==> e == Opened(h) || (e != Closed(h) && IsOpenAfter(log, h))
  {
    var next := log + [e];
    if e == Opened(h) {
      assert next[|log|] == Opened(h);
    } else if e != Closed(h) && IsOpenAfter(log, h) {
      var i :| 0 <= i < |log| && log[i] == Opened(h) && forall m :: i < m < |log| ==> log[m] != Closed(h);
      assert next[i] == Opened(h) && forall m :: i < m < |next| ==> next[m] != Closed(h);
    }
    if IsOpenAfter(next, h) && e != Opened(h) {
      var i :| 0 <= i < |next| && next[i] == Opened(h) && forall m :: i < m < |next| ==> next[m] != Closed(h);
      assert i < |log| && log[i] == Opened(h) && next[|log|] == e;
      assert forall m :: i < m < |log| ==> log[m] == next[m];
    }
  }

  lemma {:induction false} OpenIsOpened(log: seq<Event>, h: nat)
    requires AcceptAll(NOTHING_YET, log).Some?
    ensures h in AcceptAll(NOTHING_YET, log).value.open <==> IsOpenAfter(log, h)
    decreases |log|
  {
    if log != [] {
      var last := |log| - 1;
      OpenIsOpened(log[..last], h);
      OpenAfterNext(log[..last], log[last], h);
      assert log[..last] + [log[last]] == log;
    }
  }

  /** A statement prepared at `i` is live on its handle, or has been finalised since. */
  lemma {:induction false} LiveUnlessFinalized(log: seq<Event>, i: nat)
    requires AcceptAll(NOTHING_YET, log).Some? && i < |log| && log[i].Prepared?
    ensures var m := AcceptAll(NOTHING_YET, log).value;
            || (log[i].stmt in m.live && m.live[log[i].stmt] == log[i].handle)
            || exists k :: i < k < |log| && log[k] == Finalized(log[i].stmt)
    decreases |log|
  {
    var last := |log| - 1;
    if i < last {
      var init := log[..last];
      LiveUnlessFinalized(init, i);
      if k :| i < k < |init| && init[k] == Finalized(init[i].stmt) {
        assert log[k] == Finalized(log[i].stmt);
      }
    }
  }

  lemma {:induction false} AcceptPrefix(log: seq<Event>, k: nat)
    requires AcceptAll(NOTHING_YET, log).Some? && k <= |log|
    ensures AcceptAll(NOTHING_YET, log[..k]).Some?
    decreases |log|
  {
    if k < |log| {
      AcceptPrefix(log[..|log| - 1], k);
      assert log[..|log| - 1][..k] == log[..k];
    } else {
      assert log[..k] == log;
    }
  }

  lemma AcceptAt(log: seq<Event>, k: nat)
    requires AcceptAll(NOTHING_YET, log).Some? && k < |log|
    ensures AcceptAll(NOTHING_YET, log[..k]).Some?
    ensures Accept(AcceptAll(NOTHING_YET, log[..k]).value, log[k]).Some?
  {
    AcceptPrefix(log, k);
    AcceptPrefix(log, k + 1);
    assert log[..k + 1][..k] == log[..k];
  }

  /** In an accepted log, a statement is prepared, and a handle closed, only while the handle
      is open; and a statement is finalised before its handle is closed. */
  lemma FinalizedBeforeClose(log: seq<Event>, i: nat, j: nat)
    requires AcceptAll(NOTHING_YET, log).Some? && i < j < |log|
    requires log[i].Prepared? && log[j] == Closed(log[i].handle)
    ensures IsOpenAfter(log[..i], log[i].handle) && IsOpenAfter(log[..j], log[i].handle)
    ensures exists k :: i < k < j && log[k] == Finalized(log[i].stmt)
  {
    AcceptAt(log, i);
    AcceptAt(log, j);
    OpenIsOpened(log[..i], log[i].handle);
    OpenIsOpened(log[..j], log[i].handle);
    LiveUnlessFinalized(log[..j], i);
    var k :| i < k < j && log[..j][k] == Finalized(log[i].stmt);
    assert log[k] == Finalized(log[i].stmt);
  }
}
