/**
 Taint over whole runs of the swarm. A session is tainted by what it takes in, by a tainted child that returns, and from
 the start by a tainted parent; it is cleared, and only then, when a person submits a turn to it.
 */
module SwarmTaints {
  import opened Types
  import opened Limits
  import opened AgentSpawns
  import opened SpawnTrees
  import opened Swarms
  import T = Teams

  predicate Tainted(sw: Swarm, s: SessionId) {
    s in sw.nodes && sw.nodes[s].taint.tainted
  }

  predicate Admitted(sw: Swarm, s: SessionId) {
    s in sw.nodes && (sw.nodes[s].phase.Creating? || Grown(sw.nodes[s].phase))
  }

  // ----- what a session's taint is -----

  /** The step brings taint to `s`. */
  predicate Taints(sw: Swarm, op: Op, s: SessionId) {
    match op
    case Ingest(x) => x == s && s in sw.nodes && sw.nodes[s].phase.Running?
    case Return(c) => IsChild(sw, c) && sw.nodes[c].parent == Some(s) && Tainted(sw, c)
    case Admit(c, _) =>
      c == s && IsHolding(sw, c) && Tainted(sw, sw.nodes[c].parent.value) && Admitted(Step(sw, op), c)
    case _ => false
  }

  /** The step is a human turn of `s` that takes effect. */
  predicate Clears(sw: Swarm, op: Op, s: SessionId) {
    op == HumanTurn(s) && s in sw.nodes && sw.nodes[s].phase.Running?
  }

  lemma AdmitTaint(sw: Swarm, c: SessionId, req: Request)
    requires Shaped(sw) && IsHolding(sw, c)
    ensures var p, end := sw.nodes[c].parent.value, DoAdmit(sw, c, req);
            && (Tainted(end, c) <==> Admitted(end, c) && Tainted(sw, p))
            && forall x :: x != c ==> (Tainted(end, x) <==> Tainted(sw, x))
  {
    assert NodeOk(sw, c);
    SuccessIsATransfer(sw.reg, req.authorized, sw.nodes[sw.nodes[c].parent.value].budget, InputFor(sw, c, req));
  }

  lemma StepTaint(sw: Swarm, op: Op, s: SessionId)
    requires Shaped(sw)
    ensures Tainted(Step(sw, op), s) <==> Taints(sw, op, s) || (Tainted(sw, s) && !Clears(sw, op, s))
  {
    if op.Admit? && IsHolding(sw, op.session) {
      assert NodeOk(sw, op.session);
      AdmitTaint(sw, op.session, op.request);
    }
  }

  lemma {:induction false} RunSnoc(sw: Swarm, ops: seq<Op>, op: Op)
    ensures Run(sw, ops + [op]) == Step(Run(sw, ops), op)
    decreases |ops|
  {
    if ops == [] {
      assert ops + [op] == [op] && [op][1..] == [];
      assert Run(sw, [op]) == Run(Step(sw, op), []);
    } else {
      assert (ops + [op])[0] == ops[0] && (ops + [op])[1..] == ops[1..] + [op];
      RunSnoc(Step(sw, ops[0]), ops[1..], op);
    }
  }

  /** `s` was tainted at the start, or the step before position `i` brought it taint. */
  ghost predicate SourceAt(sw: Swarm, ops: seq<Op>, s: SessionId, i: nat)
    requires i <= |ops|
  {
    if i == 0 then Tainted(sw, s) else Taints(Run(sw, ops[..i - 1]), ops[i - 1], s)
  }

  /** From position `i` on, no human turn of `s` takes effect. */
  ghost predicate NoTurnSince(sw: Swarm, ops: seq<Op>, s: SessionId, i: nat) {
    forall k :: i <= k < |ops| ==> !Clears(Run(sw, ops[..k]), ops[k], s)
  }

  ghost predicate TaintedSinceTurn(sw: Swarm, ops: seq<Op>, s: SessionId) {
    exists i: nat :: i <= |ops| && SourceAt(sw, ops, s, i) && NoTurnSince(sw, ops, s, i)
  }

  lemma SinceTurnSnoc(sw: Swarm, ops: seq<Op>, op: Op, s: SessionId)
    ensures var all, end := ops + [op], Run(sw, ops);
            TaintedSinceTurn(sw, all, s)
            <==> Taints(end, op, s) || (TaintedSinceTurn(sw, ops, s) && !Clears(end, op, s))
  {
    var all, n := ops + [op], |ops|;
    assert forall k :: 0 <= k <= n ==> all[..k] == ops[..k];
    assert ops[..n] == ops;
    forall i: nat | i <= n
      ensures SourceAt(sw, all, s, i) <==> SourceAt(sw, ops, s, i)
      ensures NoTurnSince(sw, all, s, i) <==> NoTurnSince(sw, ops, s, i) && !Clears(Run(sw, ops), op, s)
    {
      assert Clears(Run(sw, all[..n]), all[n], s) <==> Clears(Run(sw, ops), op, s);
      forall k | i <= k < n
        ensures Clears(Run(sw, all[..k]), all[k], s) <==> Clears(Run(sw, ops[..k]), ops[k], s)
      {
      }
    }
    assert SourceAt(sw, all, s, n + 1) <==> Taints(Run(sw, ops), op, s);
    assert NoTurnSince(sw, all, s, n + 1);
    if TaintedSinceTurn(sw, ops, s) && !Clears(Run(sw, ops), op, s) {
      var i: nat :| i <= n && SourceAt(sw, ops, s, i) && NoTurnSince(sw, ops, s, i);
      assert SourceAt(sw, all, s, i) && NoTurnSince(sw, all, s, i);
    }
    if TaintedSinceTurn(sw, all, s) {
      var i: nat :| i <= n + 1 && SourceAt(sw, all, s, i) && NoTurnSince(sw, all, s, i);
      if i <= n { assert SourceAt(sw, ops, s, i) && NoTurnSince(sw, ops, s, i); }
    }
  }

  /** Taint is the union of everything since the session's last human turn: over any run, a session ends up tainted
      exactly when something brought it taint and no human turn of its own took effect after that. */
  lemma {:induction false} TaintIsSinceLastTurn(sw: Swarm, ops: seq<Op>, s: SessionId)
    requires Shaped(sw)
    ensures Tainted(Run(sw, ops), s) <==> TaintedSinceTurn(sw, ops, s)
    decreases |ops|
  {
    if ops == [] {
      if Tainted(sw, s) { assert SourceAt(sw, ops, s, 0) && NoTurnSince(sw, ops, s, 0); }
    } else {
      var front, op := ops[..|ops| - 1], ops[|ops| - 1];
      assert ops == front + [op];
      TaintIsSinceLastTurn(sw, front, s);
      RunShaped(sw, front);
      RunSnoc(sw, front, op);
      StepTaint(Run(sw, front), op, s);
      SinceTurnSnoc(sw, front, op, s);
    }
  }

  ghost predicate TaintedThroughout(sw: Swarm, ops: seq<Op>, s: SessionId) {
    forall k :: 0 <= k <= |ops| ==> Tainted(Run(sw, ops[..k]), s)
  }

  /** A tainted session stays tainted all through a run exactly when no human turn of it takes effect. */
  lemma {:induction false} TaintedUntilHumanTurn(sw: Swarm, ops: seq<Op>, s: SessionId)
    requires Shaped(sw) && Tainted(sw, s)
    ensures TaintedThroughout(sw, ops, s) <==> NoTurnSince(sw, ops, s, 0)
  {
    forall k | 0 <= k < |ops|
      ensures var here := Run(sw, ops[..k]);
              && Shaped(here) && Run(sw, ops[..k + 1]) == Step(here, ops[k])
              && (Clears(here, ops[k], s) ==> !Tainted(Run(sw, ops[..k + 1]), s))
    {
      assert ops[..k + 1] == ops[..k] + [ops[k]];
      RunSnoc(sw, ops[..k], ops[k]);
      RunShaped(sw, ops[..k]);
      StepTaint(Run(sw, ops[..k]), ops[k], s);
    }
    if NoTurnSince(sw, ops, s, 0) {
      forall k | 0 <= k <= |ops|
        ensures Tainted(Run(sw, ops[..k]), s)
      {
        NoTurnInPrefix(sw, ops, s, k);
        assert SourceAt(sw, ops[..k], s, 0);
        TaintIsSinceLastTurn(sw, ops[..k], s);
      }
    } else {
      var k :| 0 <= k < |ops| && Clears(Run(sw, ops[..k]), ops[k], s);
      assert !Tainted(Run(sw, ops[..k + 1]), s);
    }
  }

  lemma NoTurnInPrefix(sw: Swarm, ops: seq<Op>, s: SessionId, n: nat)
    requires n <= |ops| && NoTurnSince(sw, ops, s, 0)
    ensures NoTurnSince(sw, ops[..n], s, 0)
  {
    forall k | 0 <= k < n
      ensures !Clears(Run(sw, ops[..n][..k]), ops[..n][k], s)
    {
      assert ops[..n][..k] == ops[..k];
    }
  }

  lemma NoTurnInTail(sw: Swarm, ops: seq<Op>, s: SessionId)
    requires ops != [] && NoTurnSince(sw, ops, s, 0)
    ensures !Clears(sw, ops[0], s) && NoTurnSince(Step(sw, ops[0]), ops[1..], s, 0)
  {
    assert ops[..0] == [];
    forall k | 0 <= k < |ops[1..]|
      ensures !Clears(Run(Step(sw, ops[0]), ops[1..][..k]), ops[1..][k], s)
    {
      assert ops[..k + 1][1..] == ops[1..][..k];
      assert !Clears(Run(sw, ops[..k + 1]), ops[k + 1], s);
    }
  }

  /** A tainted child that returns taints its parent, exactly until the parent's next human turn. */
  lemma TaintFlowsUp(sw: Swarm, c: SessionId, ops: seq<Op>)
    requires Shaped(sw) && IsChild(sw, c) && Tainted(sw, c)
    ensures var p, sw' := sw.nodes[c].parent.value, Step(sw, Return(c));
            Tainted(sw', p) && (TaintedThroughout(sw', ops, p) <==> NoTurnSince(sw', ops, p, 0))
  {
    StepShaped(sw, Return(c));
    TaintedUntilHumanTurn(Step(sw, Return(c)), ops, sw.nodes[c].parent.value);
  }

  /** Without untrusted input a clean tree stays clean, however spawns, returns and turns mix. */
  lemma {:induction false} TaintNeedsASource(sw: Swarm, ops: seq<Op>)
    requires Shaped(sw) && (forall s :: !Tainted(sw, s)) && forall op :: op in ops ==> !op.Ingest?
    ensures forall s :: !Tainted(Run(sw, ops), s)
    decreases |ops|
  {
    if ops != [] {
      assert ops[0] in ops;
      StepShaped(sw, ops[0]);
      forall s
        ensures !Tainted(Step(sw, ops[0]), s)
      {
        StepTaint(sw, ops[0], s);
      }
      TaintNeedsASource(Step(sw, ops[0]), ops[1..]);
    }
  }

  // ----- down a line of spawns -----

  /** `c` was admitted after `sw0`, as a child of `p`. */
  predicate SpawnedSince(sw0: Swarm, sw: Swarm, p: SessionId, c: SessionId) {
    Admitted(sw, c) && !Admitted(sw0, c) && sw.nodes[c].parent == Some(p)
  }

  /** A line of spawns that starts at `a` and goes on through sessions admitted only after `sw0`. */
  ghost predicate SpawnLine(sw0: Swarm, sw: Swarm, a: SessionId, line: seq<SessionId>) {
    |line| > 0 && line[0] == a && forall i :: 0 < i < |line| ==> SpawnedSince(sw0, sw, line[i - 1], line[i])
  }

  lemma LineStep(sw0: Swarm, sw: Swarm, a: SessionId, line: seq<SessionId>, i: nat)
    requires SpawnLine(sw0, sw, a, line) && 0 < i < |line|
    ensures SpawnedSince(sw0, sw, line[i - 1], line[i])
  {
  }

  /** What one step can admit: at most one held session, which takes its parent's taint and has no children yet. */
  lemma StepAdmits(sw: Swarm, op: Op, c: SessionId)
    requires Shaped(sw)
    ensures Admitted(sw, c) ==>
              Admitted(Step(sw, op), c) && Step(sw, op).nodes[c].parent == sw.nodes[c].parent
    ensures Admitted(Step(sw, op), c) && !Admitted(sw, c) ==>
              var n := Step(sw, op).nodes[c];
              || n.parent.None?
              || (n.phase.Creating? && n.parent.value in sw.nodes && n.taint == sw.nodes[n.parent.value].taint)
  {
    if op.Admit? && op.session == c && IsHolding(sw, c) {
      SuccessIsATransfer(sw.reg, op.request.authorized, sw.nodes[sw.nodes[c].parent.value].budget,
                         InputFor(sw, c, op.request));
    }
  }

  ghost predicate Within(line: seq<SessionId>, kept: iset<SessionId>) {
    forall x :: x in line ==> x in kept
  }

  /** Every line of spawns through sessions of `kept` has reached a tainted session. */
  ghost predicate LinesTainted(sw0: Swarm, sw: Swarm, a: SessionId, kept: iset<SessionId>) {
    forall line :: SpawnLine(sw0, sw, a, line) && Within(line, kept) ==> Tainted(sw, line[|line| - 1])
  }

  lemma StepLines(sw0: Swarm, sw: Swarm, op: Op, a: SessionId, kept: iset<SessionId>)
    requires Shaped(sw) && Tainted(sw, a) && LinesTainted(sw0, sw, a, kept)
    requires forall x :: x in kept ==> !Clears(sw, op, x)
    ensures LinesTainted(sw0, Step(sw, op), a, kept)
  {
    var sw' := Step(sw, op);
    StepShaped(sw, op);
    forall line | SpawnLine(sw0, sw', a, line) && Within(line, kept)
      ensures Tainted(sw', line[|line| - 1])
    {
      LineTainted(sw0, sw, op, a, line, kept);
    }
  }

  lemma {:induction false} LineTainted(sw0: Swarm, sw: Swarm, op: Op, a: SessionId, line: seq<SessionId>,
                                       kept: iset<SessionId>)
    requires Shaped(sw) && Shaped(Step(sw, op)) && Tainted(sw, a) && LinesTainted(sw0, sw, a, kept)
    requires SpawnLine(sw0, Step(sw, op), a, line) && Within(line, kept)
    requires forall x :: x in kept ==> !Clears(sw, op, x)
    ensures Tainted(Step(sw, op), line[|line| - 1])
  {
    var sw' := Step(sw, op);
    var n := |line|;
    var last := line[n - 1];
    assert last in line;
    StepTaint(sw, op, last);
    if n > 1 {
      var front := line[..n - 1];
      OlderLine(sw0, sw, op, a, line, n - 1);
      assert Within(front, kept);
      assert Tainted(sw, front[|front| - 1]);
      LineStep(sw0, sw', a, line, n - 1);
      StepAdmits(sw, op, last);
      if Admitted(sw, last) {
        forall i | 0 < i < n
          ensures SpawnedSince(sw0, sw, line[i - 1], line[i])
        {
          if i < n - 1 { LineStep(sw0, sw, a, front, i); }
        }
        assert SpawnLine(sw0, sw, a, line);
      }
    }
  }

  /** Everyone on a line who already has a child on it was admitted before this step. */
  lemma {:induction false} OlderLine(sw0: Swarm, sw: Swarm, op: Op, a: SessionId, line: seq<SessionId>, m: nat)
    requires Shaped(sw) && Shaped(Step(sw, op)) && 0 < m < |line|
    requires SpawnLine(sw0, Step(sw, op), a, line)
    ensures SpawnLine(sw0, sw, a, line[..m])
  {
    var sw' := Step(sw, op);
    var front := line[..m];
    forall i | 0 < i < m
      ensures SpawnedSince(sw0, sw, front[i - 1], front[i])
    {
      LineStep(sw0, sw', a, line, i);
      LineStep(sw0, sw', a, line, i + 1);
      assert NodeOk(sw', line[i + 1]);
      StepAdmits(sw, op, line[i]);
    }
  }

  lemma {:induction false} TaintFlowsDown(sw0: Swarm, sw: Swarm, ops: seq<Op>, a: SessionId, kept: iset<SessionId>)
    requires Shaped(sw) && Tainted(sw, a) && a in kept && LinesTainted(sw0, sw, a, kept)
    requires forall x :: x in kept ==> NoTurnSince(sw, ops, x, 0)
    ensures LinesTainted(sw0, Run(sw, ops), a, kept)
    decreases |ops|
  {
    if ops != [] {
      forall x | x in kept
        ensures !Clears(sw, ops[0], x) && NoTurnSince(Step(sw, ops[0]), ops[1..], x, 0)
      {
        NoTurnInTail(sw, ops, x);
      }
      StepShaped(sw, ops[0]);
      StepTaint(sw, ops[0], a);
      StepLines(sw0, sw, ops[0], a, kept);
      TaintFlowsDown(sw0, Step(sw, ops[0]), ops[1..], a, kept);
    }
  }

  /** Taint goes down every line of spawns begun after its first member was tainted, as long as nobody on the line has a
      human turn: whatever returns, failures and retirements come between. */
  lemma TaintIsInherited(sw: Swarm, ops: seq<Op>, a: SessionId, line: seq<SessionId>)
    requires Shaped(sw) && Tainted(sw, a) && SpawnLine(sw, Run(sw, ops), a, line)
    requires forall x :: x in line ==> NoTurnSince(sw, ops, x, 0)
    ensures Tainted(Run(sw, ops), line[|line| - 1])
  {
    var kept := iset x | x in line;
    forall l | SpawnLine(sw, sw, a, l)
      ensures Tainted(sw, l[|l| - 1])
    {
      if |l| > 1 {
        LineStep(sw, sw, a, l, 1);
        assert false;
      }
    }
    TaintFlowsDown(sw, sw, ops, a, kept);
    assert Within(line, kept);
  }

  /** And a human turn on the line does stop it: from any state, a turn of the parent just before the admission leaves
      parent and child clean. */
  lemma TurnBeforeAdmission(sw: Swarm, c: SessionId, req: Request)
    requires Shaped(sw) && IsHolding(sw, c) && sw.nodes[sw.nodes[c].parent.value].phase.Running?
    ensures var p := sw.nodes[c].parent.value; var end := Run(sw, [HumanTurn(p), Admit(c, req)]);
            !Tainted(end, p) && !Tainted(end, c)
  {
    var p := sw.nodes[c].parent.value;
    var mid := Step(sw, HumanTurn(p));
    assert [HumanTurn(p), Admit(c, req)] == [HumanTurn(p)] + [Admit(c, req)];
    assert [HumanTurn(p)] == [] + [HumanTurn(p)];
    RunSnoc(sw, [], HumanTurn(p));
    RunSnoc(sw, [HumanTurn(p)], Admit(c, req));
    assert NodeOk(sw, c);
    StepShaped(sw, HumanTurn(p));
    StepTaint(sw, HumanTurn(p), p);
    AdmitTaint(mid, c, req);
  }

  /** For instance: a root takes in untrusted input, a person submits a turn, and the child it then spawns runs
      clean. */
  lemma TurnStopsInheritance(reg: T.Registry, r: SessionId, c: SessionId)
    requires r != c
    ensures var tainted := Run(Empty(reg), [NewRoot(r, 10), Ingest(r)]);
            var req := Request(true, 0, None, None, "", 5);
            var end := Run(tainted, [HumanTurn(r), Hold(r, c, 0), Admit(c, req), Created(c)]);
            && Tainted(tainted, r) && IsChild(end, c) && SpawnLine(tainted, end, r, [r, c])
            && !Tainted(end, r) && !Tainted(end, c)
  {
    var req := Request(true, 0, None, None, "", 5);
    var s0 := Empty(reg);
    var s1 := Step(s0, NewRoot(r, 10));
    var s2 := Step(s1, Ingest(r));
    RunTwo(s0, NewRoot(r, 10), Ingest(r));
    var s3 := Step(s2, HumanTurn(r));
    var s4 := Step(s3, Hold(r, c, 0));
    var s5 := Step(s4, Admit(c, req));
    var s6 := Step(s5, Created(c));
    var ops := [HumanTurn(r), Hold(r, c, 0), Admit(c, req), Created(c)];
    assert ops == [HumanTurn(r), Hold(r, c, 0)] + [Admit(c, req)] + [Created(c)];
    RunTwo(s2, HumanTurn(r), Hold(r, c, 0));
    RunSnoc(s2, [HumanTurn(r), Hold(r, c, 0)], Admit(c, req));
    RunSnoc(s2, [HumanTurn(r), Hold(r, c, 0)] + [Admit(c, req)], Created(c));
    FirstSpawn(s3, r, c, req);
  }

  lemma RunTwo(sw: Swarm, a: Op, b: Op)
    ensures Run(sw, [a, b]) == Step(Step(sw, a), b)
  {
    assert [a, b] == [a] + [b] && [a] == [] + [a];
    RunSnoc(sw, [], a);
    RunSnoc(sw, [a], b);
  }

  lemma FirstSpawn(sw: Swarm, r: SessionId, c: SessionId, req: Request)
    requires sw.tree == map[] && r in sw.nodes && c !in sw.nodes
    requires sw.nodes[r] == Node(None, 0, 10, 10, TaintSet(false), Running)
    requires req == Request(true, 0, None, None, "", 5)
    ensures var s4 := Step(sw, Hold(r, c, 0)); var s5 := Step(s4, Admit(c, req));
            var s6 := Step(s5, Created(c));
            && IsChild(s6, c) && s6.nodes[c].parent == Some(r) && !Tainted(s6, c) && !Tainted(s6, r)
  {
    ReserveSlots(sw.tree, r, c, MAX_FAN_OUT, r);
    var s4 := Step(sw, Hold(r, c, 0));
    assert IsHolding(s4, c);
    var s5 := Step(s4, Admit(c, req));
    assert IsCreating(s5, c);
  }
}
