/**
 The wait graph: who is blocked on whom. `RegisterWait` refuses an edge that would close a
 cycle, and hands back the cycle it found.
 */
module WaitGraphs {
  import opened Types

  type Graph = map<SessionId, seq<SessionId>>

  function Targets(g: Graph, a: SessionId): seq<SessionId> {
    if a in g then g[a] else []
  }

  predicate Edge(g: Graph, a: SessionId, b: SessionId) {
    b in Targets(g, a)
  }

  function AddEdge(g: Graph, a: SessionId, b: SessionId): Graph {
    g[a := Targets(g, a) + [b]]
  }

  /** A nonempty walk along edges. */
  ghost predicate IsWalk(g: Graph, p: seq<SessionId>) {
    |p| > 0 && forall i :: 0 <= i < |p| - 1 ==> Edge(g, p[i], p[i + 1])
  }

  ghost predicate WalkFromTo(g: Graph, p: seq<SessionId>, a: SessionId, b: SessionId) {
    IsWalk(g, p) && p[0] == a && p[|p| - 1] == b
  }

  /** Reflexive reachability. */
  ghost predicate Reaches(g: Graph, a: SessionId, b: SessionId) {
    exists p :: WalkFromTo(g, p, a, b)
  }

  /** Nobody waits, directly or through others, on itself. */
  ghost predicate Acyclic(g: Graph) {
    forall p :: IsWalk(g, p) && |p| >= 2 ==> p[0] != p[|p| - 1]
  }

  /** What a refusal promises about the cycle it returns: waiter first, target last, every node once,
      and each node is waited on by the next. */
  ghost predicate IsCycleWitness(g: Graph, waiter: SessionId, target: SessionId, cycle: seq<SessionId>) {
    && |cycle| > 0
    && cycle[0] == waiter
    && cycle[|cycle| - 1] == target
    && NoDup(cycle)
    && forall i :: 0 <= i < |cycle| - 1 ==> Edge(g, cycle[i + 1], cycle[i])
  }

  // ----- walks -----

  lemma WalkAppend(g: Graph, p: seq<SessionId>, q: seq<SessionId>, a: SessionId, b: SessionId, c: SessionId)
    requires WalkFromTo(g, p, a, b) && WalkFromTo(g, q, b, c)
    ensures WalkFromTo(g, p + q[1..], a, c)
  {
    var r := p + q[1..];
    forall i | 0 <= i < |r| - 1
      ensures Edge(g, r[i], r[i + 1])
    {
      if i >= |p| - 1 {
        assert r[i] == q[i - (|p| - 1)] && r[i + 1] == q[i - (|p| - 1) + 1];
      }
    }
  }

  lemma ReachesTrans(g: Graph, a: SessionId, b: SessionId, c: SessionId)
    requires Reaches(g, a, b) && Reaches(g, b, c)
    ensures Reaches(g, a, c)
  {
    var p :| WalkFromTo(g, p, a, b);
    var q :| WalkFromTo(g, q, b, c);
    WalkAppend(g, p, q, a, b, c);
  }

  lemma EdgeReaches(g: Graph, a: SessionId, b: SessionId)
    requires Edge(g, a, b)
    ensures Reaches(g, a, b)
  {
    assert WalkFromTo(g, [a, b], a, b);
  }

  lemma ReachesRefl(g: Graph, a: SessionId)
    ensures Reaches(g, a, a)
  {
    assert WalkFromTo(g, [a], a, a);
  }

  /** Every edge of `g` is an edge of `h`. */
  ghost predicate SubGraph(g: Graph, h: Graph) {
    forall a, b :: Edge(g, a, b) ==> Edge(h, a, b)
  }

  lemma ReachesMono(g: Graph, h: Graph, a: SessionId, b: SessionId)
    requires SubGraph(g, h) && Reaches(g, a, b)
    ensures Reaches(h, a, b)
  {
    var p :| WalkFromTo(g, p, a, b);
    assert WalkFromTo(h, p, a, b);
  }

  lemma AcyclicAnti(g: Graph, h: Graph)
    requires SubGraph(g, h) && Acyclic(h)
    ensures Acyclic(g)
  {
    forall p | IsWalk(g, p) && |p| >= 2
      ensures p[0] != p[|p| - 1]
    {
      assert IsWalk(h, p);
    }
  }

  lemma WalkTail(g: Graph, p: seq<SessionId>)
    requires IsWalk(g, p) && |p| > 1
    ensures IsWalk(g, p[1..]) && Edge(g, p[0], p[1])
  {
    var q := p[1..];
    forall i | 0 <= i < |q| - 1
      ensures Edge(g, q[i], q[i + 1])
    {
      assert q[i] == p[i + 1];
    }
    assert Edge(g, p[0], p[0 + 1]);
  }

  /** A set closed under edges cannot be left by a walk. */
  lemma {:induction false} ClosedSetTraps(g: Graph, s: set<SessionId>, p: seq<SessionId>)
    requires forall a, b :: a in s && Edge(g, a, b) ==> b in s
    requires IsWalk(g, p) && p[0] in s
    ensures p[|p| - 1] in s
    decreases |p|
  {
    if |p| > 1 {
      WalkTail(g, p);
      ClosedSetTraps(g, s, p[1..]);
    }
  }

  // ----- adding an edge -----

  lemma AddEdgeEdges(g: Graph, w: SessionId, t: SessionId)
    ensures forall a, b :: Edge(AddEdge(g, w, t), a, b) <==> Edge(g, a, b) || (a == w && b == t)
  {
  }

  lemma WalkCons(g: Graph, p: seq<SessionId>)
    requires |p| > 1 && Edge(g, p[0], p[1]) && IsWalk(g, p[1..])
    ensures IsWalk(g, p)
  {
    var q := p[1..];
    forall i | 0 <= i < |p| - 1
      ensures Edge(g, p[i], p[i + 1])
    {
      if i > 0 { assert p[i] == q[i - 1] && p[i + 1] == q[i - 1 + 1]; }
    }
  }

  /** A walk in the extended graph is a walk in the old one, or passes through both ends of the new
      edge: it starts by reaching `w` and ends by leaving `t`, inside the old graph. */
  lemma {:induction false} WalkThroughNewEdge(g: Graph, w: SessionId, t: SessionId, p: seq<SessionId>)
    requires IsWalk(AddEdge(g, w, t), p)
    ensures IsWalk(g, p) || (Reaches(g, p[0], w) && Reaches(g, t, p[|p| - 1]))
    decreases |p|
  {
    AddEdgeEdges(g, w, t);
    if |p| > 1 {
      var q := p[1..];
      WalkTail(AddEdge(g, w, t), p);
      WalkThroughNewEdge(g, w, t, q);
      if Edge(g, p[0], p[1]) {
        if IsWalk(g, q) {
          WalkCons(g, p);
        } else {
          EdgeReaches(g, p[0], p[1]);
          ReachesTrans(g, p[0], p[1], w);
        }
      } else {
        ReachesRefl(g, w);
        if IsWalk(g, q) { assert WalkFromTo(g, q, t, p[|p| - 1]); }
      }
    }
  }

  /** An edge keeps an acyclic graph acyclic exactly when its target does not already reach its source:
      the test `RegisterWait` makes is the right one. */
  lemma AddEdgeAcyclic(g: Graph, w: SessionId, t: SessionId)
    requires Acyclic(g)
    ensures Acyclic(AddEdge(g, w, t)) <==> !Reaches(g, t, w)
  {
    var h := AddEdge(g, w, t);
    AddEdgeEdges(g, w, t);
    if Reaches(g, t, w) {
      ReachesMono(g, h, t, w);
      var p :| WalkFromTo(h, p, t, w);
      WalkAppend(h, [w, t], p, w, t, w);
      assert IsWalk(h, [w, t] + p[1..]);
    } else {
      forall p | IsWalk(h, p) && |p| >= 2
        ensures p[0] != p[|p| - 1]
      {
        WalkThroughNewEdge(g, w, t, p);
        if p[0] == p[|p| - 1] && !IsWalk(g, p) {
          ReachesTrans(g, t, p[|p| - 1], w);
        }
      }
    }
  }

  // ----- runs -----

  datatype WaitOp = BeginWait(waiter: SessionId, target: SessionId) | EndWait(waiter: SessionId)

  ghost function Step(g: Graph, op: WaitOp): Graph {
    match op
    case BeginWait(w, t) => if Reaches(g, t, w) then g else AddEdge(g, w, t)
    case EndWait(w) => g - {w}
  }

  ghost function Run(g: Graph, ops: seq<WaitOp>): Graph
    decreases |ops|
  {
    if ops == [] then g else Run(Step(g, ops[0]), ops[1..])
  }

  lemma StepAcyclic(g: Graph, op: WaitOp)
    requires Acyclic(g)
    ensures Acyclic(Step(g, op))
  {
    match op
    case BeginWait(w, t) => AddEdgeAcyclic(g, w, t);
    case EndWait(w) => AcyclicAnti(g - {w}, g);
  }

  /** No interleaving of registrations and clears, from an acyclic graph, ever deadlocks. */
  lemma {:induction false} RunAcyclic(g: Graph, ops: seq<WaitOp>)
    requires Acyclic(g)
    ensures Acyclic(Run(g, ops))
    decreases |ops|
  {
    if ops != [] {
      StepAcyclic(g, ops[0]);
      RunAcyclic(Step(g, ops[0]), ops[1..]);
    }
  }

  lemma EmptyAcyclic()
    ensures Acyclic(map[])
  {
    var g: Graph := map[];
    forall p | IsWalk(g, p)
      ensures |p| < 2
    {
      if |p| >= 2 { WalkTail(g, p); }
    }
  }

  /** In every state a fresh graph can reach, a registration is refused exactly when granting it would
      create a cycle. */
  lemma RefusedExactlyOnDeadlock(ops: seq<WaitOp>, w: SessionId, t: SessionId)
    ensures var g := Run(map[], ops);
            Acyclic(g) && (Step(g, BeginWait(w, t)) == g <==> !Acyclic(AddEdge(g, w, t)))
  {
    var g := Run(map[], ops);
    EmptyAcyclic();
    RunAcyclic(map[], ops);
    AddEdgeAcyclic(g, w, t);
    assert |Targets(AddEdge(g, w, t), w)| == |Targets(g, w)| + 1;
  }

  /** Ending a wait takes away all waits of that waiter, and no others. */
  lemma EndWaitEdges(g: Graph, w: SessionId)
    ensures forall a, b :: Edge(Step(g, EndWait(w)), a, b) <==> Edge(g, a, b) && a != w
  {
  }

  lemma StepEdges(g: Graph, op: WaitOp, a: SessionId, b: SessionId)
    ensures Edge(Step(g, op), a, b) <==> Grants(g, op, a, b) || (Edge(g, a, b) && op != EndWait(a))
  {
    match op
    case BeginWait(w, t) => AddEdgeEdges(g, w, t);
    case EndWait(w) => EndWaitEdges(g, w);
  }

  /** The step lets `a` wait on `b`. */
  ghost predicate Grants(g: Graph, op: WaitOp, a: SessionId, b: SessionId) {
    op == BeginWait(a, b) && !Reaches(g, b, a)
  }

  lemma {:induction false} RunSnoc(g: Graph, ops: seq<WaitOp>, op: WaitOp)
    ensures Run(g, ops + [op]) == Step(Run(g, ops), op)
    decreases |ops|
  {
    if ops == [] {
      assert ops + [op] == [op] && [op][1..] == [];
      assert Run(g, [op]) == Run(Step(g, op), []);
    } else {
      assert (ops + [op])[0] == ops[0] && (ops + [op])[1..] == ops[1..] + [op];
      RunSnoc(Step(g, ops[0]), ops[1..], op);
    }
  }

  /** Step `i` let `a` wait on `b`, and `a` has not stopped waiting since. */
  ghost predicate Stands(g: Graph, ops: seq<WaitOp>, a: SessionId, b: SessionId, i: nat)
    requires i < |ops|
  {
    Grants(Run(g, ops[..i]), ops[i], a, b) && EndWait(a) !in ops[i + 1..]
  }

  ghost predicate SomeStands(g: Graph, ops: seq<WaitOp>, a: SessionId, b: SessionId) {
    exists i: nat :: i < |ops| && Stands(g, ops, a, b, i)
  }

  lemma StandsSnoc(g: Graph, ops: seq<WaitOp>, op: WaitOp, a: SessionId, b: SessionId)
    ensures SomeStands(g, ops + [op], a, b)
            <==> Grants(Run(g, ops), op, a, b) || (SomeStands(g, ops, a, b) && op != EndWait(a))
  {
    var all, n := ops + [op], |ops|;
    assert all[..n] == ops && all[n + 1..] == [];
    assert Stands(g, all, a, b, n) <==> Grants(Run(g, ops), op, a, b);
    forall i: nat | i < n
      ensures Stands(g, all, a, b, i) <==> Stands(g, ops, a, b, i) && op != EndWait(a)
    {
      assert all[..i] == ops[..i] && all[i + 1..] == ops[i + 1..] + [op];
    }
    if i: nat :| i < n && Stands(g, ops, a, b, i) && op != EndWait(a) {
      assert Stands(g, all, a, b, i);
    }
    if i: nat :| i < n && Stands(g, all, a, b, i) {
      assert Stands(g, ops, a, b, i);
    }
  }

  /** The graph remembers exactly the waits that were granted and have not ended: over any run, `a` waits on `b` when
      some step granted it, or it did so at the start, and no later step ended `a`'s waits. */
  lemma {:induction false} EdgesAreStandingWaits(g: Graph, ops: seq<WaitOp>, a: SessionId, b: SessionId)
    ensures Edge(Run(g, ops), a, b) <==> SomeStands(g, ops, a, b) || (Edge(g, a, b) && EndWait(a) !in ops)
    decreases |ops|
  {
    if ops != [] {
      var front, op := ops[..|ops| - 1], ops[|ops| - 1];
      assert ops == front + [op];
      EdgesAreStandingWaits(g, front, a, b);
      RunSnoc(g, front, op);
      StepEdges(Run(g, front), op, a, b);
      StandsSnoc(g, front, op, a, b);
    }
  }

  /** A session whose wait has ended, and that has not begun another, reaches nobody, so no wait on it is ever
      refused. */
  lemma {:induction false} EndedWaiterBlocksNobody(g: Graph, later: seq<WaitOp>, w: SessionId, v: SessionId)
    requires (forall op :: op in later ==> !(op.BeginWait? && op.waiter == w)) && v != w
    ensures var end := Run(Step(g, EndWait(w)), later);
            && (forall x :: Reaches(end, w, x) <==> x == w)
            && Edge(Step(end, BeginWait(v, w)), v, w)
  {
    var start := Step(g, EndWait(w));
    var end := Run(start, later);
    forall x
      ensures !Edge(end, w, x)
    {
      EndWaitEdges(g, w);
      EdgesAreStandingWaits(start, later, w, x);
      forall i: nat | i < |later|
        ensures !Stands(start, later, w, x, i)
      {
        assert later[i] in later;
      }
    }
    forall x
      ensures Reaches(end, w, x) <==> x == w
    {
      ReachesRefl(end, w);
      if Reaches(end, w, x) {
        var p :| WalkFromTo(end, p, w, x);
        if |p| > 1 { WalkTail(end, p); }
      }
    }
    AddEdgeEdges(end, v, w);
  }

  // ----- the class -----

  /** `all` holds every node the search can meet. */
  ghost predicate Covers(g: Graph, target: SessionId, all: set<SessionId>) {
    target in all && forall a, b :: Edge(g, a, b) ==> b in all
  }

  lemma FiniteCover(g: Graph, target: SessionId) returns (all: set<SessionId>)
    ensures Covers(g, target, all)
  {
    all := {target} + set a, b | a in g && b in g[a] :: b;
    forall a, b | Edge(g, a, b)
      ensures b in all
    {
      assert a in g && b in g[a];
    }
  }

  /** Every recorded parent is a real edge out of a node visited before its child; `rank` is the time
      of the visit. Only the target may be visited without having a parent. */
  ghost predicate ParentsOk(g: Graph, target: SessionId, parent: map<SessionId, SessionId>,
                            rank: map<SessionId, nat>) {
    && (forall c :: c in parent ==> Edge(g, parent[c], c) && parent[c] in rank)
    && (forall c :: c in parent && c != target && c in rank ==> rank[parent[c]] < rank[c])
    && (forall c {:trigger Rooted(target, parent, c)} :: c in rank ==> Rooted(target, parent, c))
  }

  /** The search started at `c`, or knows how it got there. */
  ghost predicate Rooted(target: SessionId, parent: map<SessionId, SessionId>, c: SessionId) {
    c == target || c in parent
  }

  /** Everything seen is visited or still on the stack. */
  ghost predicate Frontier(g: Graph, target: SessionId, all: set<SessionId>, stack: seq<SessionId>,
                           visited: set<SessionId>) {
    && visited <= all
    && (forall n :: n in stack ==> n in all)
    && (target in visited || target in stack)
    && (forall a, b :: a in visited && Edge(g, a, b) ==> b in visited || b in stack)
  }

  /** How everything seen was reached. */
  ghost predicate Traced(g: Graph, target: SessionId, stack: seq<SessionId>,
                         parent: map<SessionId, SessionId>, rank: map<SessionId, nat>) {
    && ParentsOk(g, target, parent, rank)
    && (forall n :: n in rank ==> rank[n] < |rank|)
    && (forall n {:trigger Rooted(target, parent, n)} :: n in stack ==> Rooted(target, parent, n))
  }

  lemma PopSplit<T>(s: seq<T>)
    requires s != []
    ensures s == s[..|s| - 1] + [s[|s| - 1]]
    ensures forall x :: x in s <==> x in s[..|s| - 1] || x == s[|s| - 1]
  {
    assert s == s[..|s| - 1] + [s[|s| - 1]];
  }

  /** Popping a node that was visited already loses nothing. */
  lemma SkipVisited(g: Graph, target: SessionId, all: set<SessionId>, stack: seq<SessionId>,
                    parent: map<SessionId, SessionId>, rank: map<SessionId, nat>)
    requires stack != [] && stack[|stack| - 1] in rank
    requires Frontier(g, target, all, stack, rank.Keys) && Traced(g, target, stack, parent, rank)
    ensures Frontier(g, target, all, stack[..|stack| - 1], rank.Keys)
    ensures Traced(g, target, stack[..|stack| - 1], parent, rank)
  {
    PopSplit(stack);
  }

  lemma VisitFrontier(g: Graph, target: SessionId, all: set<SessionId>, stack: seq<SessionId>, visited: set<SessionId>)
    requires stack != [] && Covers(g, target, all) && Frontier(g, target, all, stack, visited)
    ensures var node := stack[|stack| - 1];
            Frontier(g, target, all, stack[..|stack| - 1] + Targets(g, node), visited + {node})
    ensures stack[|stack| - 1] !in visited ==> |all - (visited + {stack[|stack| - 1]})| < |all - visited|
  {
    var node := stack[|stack| - 1];
    PopSplit(stack);
    forall n | n in Targets(g, node)
      ensures n in all
    {
      assert Edge(g, node, n);
    }
    if node !in visited {
      ProperSubsetSmaller(all - (visited + {node}), all - visited);
    }
  }

  lemma VisitTraced(g: Graph, target: SessionId, stack: seq<SessionId>, node: SessionId,
                    parent: map<SessionId, SessionId>, rank: map<SessionId, nat>,
                    parent': map<SessionId, SessionId>)
    requires Traced(g, target, stack + [node], parent, rank) && node !in rank
    requires PushedParents(node, Targets(g, node), parent, parent')
    ensures Traced(g, target, stack + Targets(g, node), parent', rank[node := |rank|])
  {
    var rank' := rank[node := |rank|];
    assert rank'.Keys == rank.Keys + {node} && |rank'| == |rank| + 1;
    forall c | c in rank' || c in stack + Targets(g, node)
      ensures Rooted(target, parent', c)
    {
      assert Rooted(target, parent, c) || c in Targets(g, node);
    }
    VisitParents(g, target, node, parent, rank, parent');
  }

  lemma VisitParents(g: Graph, target: SessionId, node: SessionId, parent: map<SessionId, SessionId>,
                     rank: map<SessionId, nat>, parent': map<SessionId, SessionId>)
    requires ParentsOk(g, target, parent, rank) && node !in rank
    requires Rooted(target, parent, node)
    requires forall n :: n in rank ==> rank[n] < |rank|
    requires PushedParents(node, Targets(g, node), parent, parent')
    ensures ParentsOk(g, target, parent', rank[node := |rank|])
  {
    var rank' := rank[node := |rank|];
    forall c | c in parent'
      ensures Edge(g, parent'[c], c) && parent'[c] in rank'
      ensures c != target && c in rank' ==> rank'[parent'[c]] < rank'[c]
    {
      assert Rooted(target, parent, c) || c !in parent;
      if c in parent {
        assert parent'[c] == parent[c];
      } else {
        assert parent'[c] == node && c in Targets(g, node);
        if c in rank { assert Rooted(target, parent, c); }
      }
    }
    forall c | c in rank'
      ensures Rooted(target, parent', c)
    {
      assert Rooted(target, parent, c);
    }
  }

  /** Visiting a new node: its targets replace it on the stack, and one more node of the cover is behind us. */
  lemma Visit(g: Graph, target: SessionId, all: set<SessionId>, stack: seq<SessionId>,
              parent: map<SessionId, SessionId>, rank: map<SessionId, nat>, parent': map<SessionId, SessionId>)
    returns (rank': map<SessionId, nat>)
    requires stack != [] && Covers(g, target, all) && stack[|stack| - 1] !in rank
    requires Frontier(g, target, all, stack, rank.Keys) && Traced(g, target, stack, parent, rank)
    requires PushedParents(stack[|stack| - 1], Targets(g, stack[|stack| - 1]), parent, parent')
    ensures var node := stack[|stack| - 1]; var stack' := stack[..|stack| - 1] + Targets(g, node);
            && rank'.Keys == rank.Keys + {node}
            && Frontier(g, target, all, stack', rank'.Keys) && Traced(g, target, stack', parent', rank')
            && |all - rank'.Keys| < |all - rank.Keys|
  {
    rank' := rank[stack[|stack| - 1] := |rank|];
    assert rank'.Keys == rank.Keys + {stack[|stack| - 1]};
    VisitFrontier(g, target, all, stack, rank.Keys);
    PopSplit(stack);
    VisitTraced(g, target, stack[..|stack| - 1], stack[|stack| - 1], parent, rank, parent');
  }

  ghost predicate PushedParents(node: SessionId, children: seq<SessionId>,
                                parent: map<SessionId, SessionId>, parent': map<SessionId, SessionId>) {
    && (forall c :: c in parent' <==> c in parent || c in children)
    && (forall c :: c in parent' ==> parent'[c] == if c in parent then parent[c] else node)
  }

  /** The node on top of the stack is known to have been reached. */
  lemma Arrived(g: Graph, target: SessionId, stack: seq<SessionId>, parent: map<SessionId, SessionId>,
                rank: map<SessionId, nat>)
    requires stack != [] && Traced(g, target, stack, parent, rank)
    ensures Rooted(target, parent, stack[|stack| - 1]) && ParentsOk(g, target, parent, rank)
  {
    assert stack[|stack| - 1] in stack;
  }

  /** A finished search has visited a set closed under edges, so it has seen all there is to see. */
  lemma SearchComplete(g: Graph, waiter: SessionId, target: SessionId,
                       all: set<SessionId>, visited: set<SessionId>)
    requires Frontier(g, target, all, [], visited) && waiter !in visited
    ensures !Reaches(g, target, waiter)
  {
    forall p | WalkFromTo(g, p, target, waiter)
      ensures false
    {
      ClosedSetTraps(g, visited, p);
    }
  }

  class WaitGraph {
    var edges: Graph

    constructor ()
      ensures edges == map[]
    {
      edges := map[];
    }

    method RegisterWait(waiter: SessionId, target: SessionId) returns (r: Result<Unit, BusError>)
      modifies this
      ensures edges == Step(old(edges), BeginWait(waiter, target))
      ensures r.Ok? <==> !Reaches(old(edges), target, waiter)
      ensures r.Err? ==> r.error.WaitWouldDeadlock? && r.error.waiter == waiter && r.error.blockedOn == target
                         && IsCycleWitness(old(edges), waiter, target, r.error.cycle)
    {
      var found := WouldCycle(waiter, target);
      if found.Some? {
        return Err(WaitWouldDeadlock(waiter, target, found.value));
      }
      var waits := if waiter in edges then edges[waiter] else [];
      edges := edges[waiter := waits + [target]];
      return Ok(Unit);
    }

    method ClearWait(waiter: SessionId)
      modifies this
      ensures edges == Step(old(edges), EndWait(waiter))
      ensures forall a, b :: Edge(edges, a, b) <==> Edge(old(edges), a, b) && a != waiter
    {
      edges := edges - {waiter};
    }

    /** Depth-first search from `target`: sound (a cycle found is a real one) and complete. */
    method WouldCycle(waiter: SessionId, target: SessionId) returns (found: Option<seq<SessionId>>)
      ensures found.None? <==> !Reaches(edges, target, waiter)
      ensures found.Some? ==> IsCycleWitness(edges, waiter, target, found.value)
    {
      var stack := [target];
      var visited: set<SessionId> := {};
      var parent: map<SessionId, SessionId> := map[];
      ghost var rank: map<SessionId, nat> := map[];
      ghost var all := FiniteCover(edges, target);
      while stack != []
        invariant visited == rank.Keys && waiter !in visited
        invariant Frontier(edges, target, all, stack, visited)
        invariant Traced(edges, target, stack, parent, rank)
        decreases |all - visited|, |stack|
      {
        var node := stack[|stack| - 1];
        ghost var stack0, parent0 := stack, parent;
        stack := stack[..|stack| - 1];
        if node == waiter {
          Arrived(edges, target, stack0, parent, rank);
          found := FoundCycle(waiter, target, parent, rank);
          return;
        }
        if node in visited {
          SkipVisited(edges, target, all, stack0, parent, rank);
          continue;
        }
        if node in edges {
          stack, parent := PushChildren(node, edges[node], stack, parent);
        }
        rank := Visit(edges, target, all, stack0, parent0, rank, parent);
        visited := visited + {node};
      }
      SearchComplete(edges, waiter, target, all, visited);
      return None;
    }

    method FoundCycle(waiter: SessionId, target: SessionId, parent: map<SessionId, SessionId>,
                      ghost rank: map<SessionId, nat>) returns (found: Option<seq<SessionId>>)
      requires waiter !in rank && Rooted(target, parent, waiter) && ParentsOk(edges, target, parent, rank)
      ensures found.Some? && IsCycleWitness(edges, waiter, target, found.value) && Reaches(edges, target, waiter)
    {
      var path := CyclePath(waiter, target, parent, rank);
      WitnessReaches(edges, waiter, target, path);
      found := Some(path);
    }

    /** Follows parents from `waiter` up to `target`; ranks fall along the way, so it ends and never repeats. */
    method CyclePath(waiter: SessionId, target: SessionId, parent: map<SessionId, SessionId>,
                     ghost rank: map<SessionId, nat>) returns (path: seq<SessionId>)
      requires waiter !in rank
      requires Rooted(target, parent, waiter)
      requires ParentsOk(edges, target, parent, rank)
      ensures IsCycleWitness(edges, waiter, target, path)
    {
      path := [waiter];
      var cur := waiter;
      while cur != target
        invariant |path| > 0 && path[0] == waiter && path[|path| - 1] == cur
        invariant cur == target || cur in parent
        invariant if |path| == 1 then cur == waiter else cur in rank
        invariant forall x :: x in path[1..] ==> x in rank && rank[cur] <= rank[x]
        invariant NoDup(path)
        invariant forall i :: 0 <= i < |path| - 1 ==> Edge(edges, path[i + 1], path[i])
        decreases if cur in rank then 0 else 1, if cur in rank then rank[cur] else 0
      {
        var next := parent[cur];
        assert Rooted(target, parent, next);
        assert next !in path by {
          assert path == [waiter] + path[1..];
        }
        assert (path + [next])[1..] == path[1..] + [next];
        cur, path := next, path + [next];
      }
    }
  }

  method PushChildren(node: SessionId, children: seq<SessionId>, stack: seq<SessionId>,
                      parent: map<SessionId, SessionId>)
    returns (stack': seq<SessionId>, parent': map<SessionId, SessionId>)
    ensures stack' == stack + children
    ensures PushedParents(node, children, parent, parent')
  {
    stack', parent' := stack, parent;
    for i := 0 to |children|
      invariant stack' == stack + children[..i]
      invariant PushedParents(node, children[..i], parent, parent')
    {
      var child := children[i];
      assert children[..i + 1] == children[..i] + [child];
      if child !in parent' {
        parent' := parent'[child := node];
      }
      stack' := stack' + [child];
    }
    assert children[..|children|] == children;
  }

  lemma ProperSubsetSmaller<T>(a: set<T>, b: set<T>)
    requires a < b
    ensures |a| < |b|
  {
    assert b == a + (b - a);
    assert b - a != {};
  }

  /** A cycle witness, read backwards, is a walk from the target to the waiter. */
  lemma {:induction false} WitnessReaches(g: Graph, waiter: SessionId, target: SessionId, cycle: seq<SessionId>)
    requires IsCycleWitness(g, waiter, target, cycle)
    ensures Reaches(g, target, waiter)
  {
    var p := seq(|cycle|, i requires 0 <= i < |cycle| => cycle[|cycle| - 1 - i]);
    forall i | 0 <= i < |p| - 1
      ensures Edge(g, p[i], p[i + 1])
    {
      var k := |cycle| - 2 - i;
      assert p[i] == cycle[k + 1] && p[i + 1] == cycle[k];
    }
    assert WalkFromTo(g, p, target, waiter);
  }
}
