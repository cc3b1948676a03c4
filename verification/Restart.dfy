/** Boot: mailboxes come back for live sessions, wait edges for suspended ones, and deadlines already past time out. */
module Restarts {
  import opened Types
  import opened Mailboxes
  import opened WaitGraphs
  import opened LocalBuses

  datatype SuspendedWait = SuspendedWait(session: SessionId, target: Option<SessionId>, deadlineMs: Option<int>)

  datatype RestartOutcome = Rearmed(session: SessionId) | TimedOut(session: SessionId)

  function RegisterAll(st: BusState, sessions: seq<SessionId>): BusState
    decreases |sessions|
  {
    if sessions == [] then st
    else RegisterAll(Register(st, sessions[0], Bounded(DEFAULT_MAILBOX_CAPACITY)), sessions[1..])
  }

  ghost function RebuildOne(g: Graph, w: SuspendedWait): Graph {
    if w.target.Some? then WaitGraphs.Step(g, BeginWait(w.session, w.target.value)) else g
  }

  ghost function Rebuild(g: Graph, waits: seq<SuspendedWait>): Graph
    decreases |waits|
  {
    if waits == [] then g else Rebuild(RebuildOne(g, waits[0]), waits[1..])
  }

  method RestartFrom(bus: LocalBus, liveSessions: seq<SessionId>, waits: seq<SuspendedWait>, nowMs: int)
    returns (outcomes: seq<RestartOutcome>)
    requires bus.Valid()
    modifies bus.Repr()
    ensures bus.Valid()
    ensures bus.State() == RegisterAll(old(bus.State()), liveSessions)
    ensures bus.waits.edges == Rebuild(old(bus.waits.edges), waits)
    ensures |outcomes| == |waits|
    ensures forall i :: 0 <= i < |waits| ==> outcomes[i].session == waits[i].session
    ensures forall i :: 0 <= i < |waits| ==>
              (outcomes[i].TimedOut? <==> waits[i].deadlineMs.Some? && waits[i].deadlineMs.value <= nowMs)
  {
    ghost var st0, g0 := bus.State(), bus.waits.edges;
    for i := 0 to |liveSessions|
      invariant bus.Valid() && fresh(bus.Repr() - old(bus.Repr()))
      invariant bus.waits.edges == g0
      invariant RegisterAll(bus.State(), liveSessions[i..]) == RegisterAll(st0, liveSessions)
    {
      assert liveSessions[i..][1..] == liveSessions[i + 1..];
      bus.RegisterMailbox(liveSessions[i], Bounded(DEFAULT_MAILBOX_CAPACITY));
    }
    ghost var st1 := bus.State();
    outcomes := [];
    for i := 0 to |waits|
      invariant bus.Valid() && bus.State() == st1
      invariant Rebuild(bus.waits.edges, waits[i..]) == Rebuild(g0, waits)
      invariant |outcomes| == i && forall k :: 0 <= k < i ==> outcomes[k].session == waits[k].session
      invariant forall k :: 0 <= k < i ==>
                  (outcomes[k].TimedOut? <==> waits[k].deadlineMs.Some? && waits[k].deadlineMs.value <= nowMs)
    {
      var wait := waits[i];
      assert waits[i..][0] == wait && waits[i..][1..] == waits[i + 1..];
      if wait.target.Some? {
        var _ := bus.waits.RegisterWait(wait.session, wait.target.value);
        assert bus.State() == st1;
      }
      if wait.deadlineMs.Some? && wait.deadlineMs.value <= nowMs {
        outcomes := outcomes + [TimedOut(wait.session)];
      } else {
        outcomes := outcomes + [Rearmed(wait.session)];
      }
    }
  }

  // ----- mailboxes -----

  /** Every live session has a mailbox afterwards; those that had one keep it, mail and all. */
  lemma {:induction false} LiveSessionsHaveMailboxes(st: BusState, sessions: seq<SessionId>)
    ensures var st' := RegisterAll(st, sessions);
            && st' == st.(boxes := st'.boxes)
            && (forall s :: s in st'.boxes <==> s in st.boxes || s in sessions)
            && (forall s :: s in st'.boxes ==>
                  st'.boxes[s] == if s in st.boxes then st.boxes[s] else Box(Bounded(64), []))
    decreases |sessions|
  {
    if sessions != [] {
      LiveSessionsHaveMailboxes(Register(st, sessions[0], Bounded(DEFAULT_MAILBOX_CAPACITY)), sessions[1..]);
      assert sessions == [sessions[0]] + sessions[1..];
    }
  }

  // ----- the rebuilt graph -----

  ghost predicate IsWait(waits: seq<SuspendedWait>, a: SessionId, b: SessionId) {
    exists w :: w in waits && w.session == a && w.target == Some(b)
  }

  lemma RebuildOneEdges(g: Graph, w: SuspendedWait)
    requires Acyclic(g)
    ensures var h := RebuildOne(g, w);
            && Acyclic(h) && SubGraph(g, h)
            && (forall a, b :: Edge(h, a, b) ==> Edge(g, a, b) || (w.session == a && w.target == Some(b)))
            && (w.target.Some? ==> Edge(h, w.session, w.target.value) || Reaches(h, w.target.value, w.session))
  {
    if w.target.Some? {
      var op := BeginWait(w.session, w.target.value);
      StepAcyclic(g, op);
      AddEdgeEdges(g, w.session, w.target.value);
    }
  }

  /** From any acyclic graph, a restart keeps it acyclic, adds only waits of the snapshot, and leaves one out only if
      adding it now would close a cycle: what it keeps is maximal. */
  lemma {:induction false} RebuildIsMaximal(g: Graph, waits: seq<SuspendedWait>)
    requires Acyclic(g)
    ensures var h := Rebuild(g, waits);
            && Acyclic(h) && SubGraph(g, h)
            && (forall a, b :: Edge(h, a, b) ==> Edge(g, a, b) || IsWait(waits, a, b))
            && (forall a, b :: IsWait(waits, a, b) && !Edge(h, a, b) ==> !Acyclic(AddEdge(h, a, b)))
    decreases |waits|
  {
    if waits != [] {
      var w, rest := waits[0], waits[1..];
      var g' := RebuildOne(g, w);
      var h := Rebuild(g, waits);
      RebuildOneEdges(g, w);
      RebuildIsMaximal(g', rest);
      assert waits == [w] + rest;
      forall a, b | Edge(h, a, b)
        ensures Edge(g, a, b) || IsWait(waits, a, b)
      {
        WaitsCons(waits, a, b);
      }
      forall a, b | IsWait(waits, a, b) && !Edge(h, a, b)
        ensures !Acyclic(AddEdge(h, a, b))
      {
        WaitsCons(waits, a, b);
        if w.session == a && w.target == Some(b) {
          ReachesMono(g', h, b, a);
          AddEdgeAcyclic(h, a, b);
        }
      }
    }
  }

  lemma WaitsCons(waits: seq<SuspendedWait>, a: SessionId, b: SessionId)
    requires waits != []
    ensures IsWait(waits, a, b) <==> (waits[0].session == a && waits[0].target == Some(b)) || IsWait(waits[1..], a, b)
  {
    assert waits == [waits[0]] + waits[1..];
    assert waits[0] in waits;
  }

  /** If the waits of the snapshot fit together in some acyclic graph, as they did before the crash, a fresh bus
      restores every one of them, whatever order the snapshot lists them in. */
  lemma {:induction false} AcyclicSnapshotRestored(g: Graph, waits: seq<SuspendedWait>, whole: Graph)
    requires Acyclic(whole) && SubGraph(g, whole)
    requires forall a, b :: IsWait(waits, a, b) ==> Edge(whole, a, b)
    ensures forall a, b :: IsWait(waits, a, b) ==> Edge(Rebuild(g, waits), a, b)
    ensures SubGraph(g, Rebuild(g, waits)) && SubGraph(Rebuild(g, waits), whole)
  {
    AcyclicAnti(g, whole);
    RebuildIsMaximal(g, waits);
    var h := Rebuild(g, waits);
    assert SubGraph(h, whole);
    forall a, b | IsWait(waits, a, b)
      ensures Edge(h, a, b)
    {
      if !Edge(h, a, b) {
        AddEdgeEdges(h, a, b);
        AcyclicAnti(AddEdge(h, a, b), whole);
        assert false;
      }
    }
  }
}
