/**
 All sessions together: the spawn tree, budgets, taint and teams under any interleaving of the spawn tool's steps. A
 spawn holds a slot, is admitted, and then is created or fails; a step that is not enabled changes nothing. Each step is
 atomic here. A failure is one step too, though the tool frees the slot, refunds the parent and ends the membership
 under a lock each. Children of workflows and sessions restored at boot enter the tree by other doors and are not steps.
 */
module Swarms {
  import opened Types
  import opened Limits
  import opened SpawnTrees
  import opened Teams
  import opened AgentSpawns

  datatype Phase =
    | Holding(direct: nat)
    | Creating(grant: nat, team: Option<TeamId>)
    | Running
    | Gone
    | Refused

  /** `cap` is what the session was given when it was made; it bounds everything it can ever be refunded to. */
  datatype Node = Node(parent: Option<SessionId>, depth: nat, budget: nat, cap: nat, taint: TaintSet, phase: Phase)

  datatype Swarm = Swarm(tree: Tree, nodes: map<SessionId, Node>, known: seq<SessionId>, reg: Registry)

  datatype Request = Request(authorized: bool, workspace: WorkspaceId, team: Option<TeamId>, role: Option<string>,
                             provider: string, tokens: nat)

  datatype Op =
    | NewRoot(session: SessionId, tokens: nat)
    | Hold(parent: SessionId, session: SessionId, direct: nat)
    | Admit(session: SessionId, request: Request)
    | Created(session: SessionId)
    | CreateFailed(session: SessionId)
    | Retire(session: SessionId)
    | Ingest(session: SessionId)
    | Return(session: SessionId)
    | HumanTurn(session: SessionId)
    | TeamsMove(teamOp: TeamOp)

  function AddNode(sw: Swarm, s: SessionId, n: Node): Swarm {
    sw.(nodes := sw.nodes[s := n], known := sw.known + [s])
  }

  function SetNode(sw: Swarm, s: SessionId, n: Node): Swarm {
    sw.(nodes := sw.nodes[s := n])
  }

  predicate IsHolding(sw: Swarm, s: SessionId) {
    s in sw.nodes && sw.nodes[s].phase.Holding? && sw.nodes[s].parent.Some? && sw.nodes[s].parent.value in sw.nodes
    && sw.nodes[s].parent.value != s
  }

  predicate IsCreating(sw: Swarm, s: SessionId) {
    s in sw.nodes && sw.nodes[s].phase.Creating? && sw.nodes[s].parent.Some? && sw.nodes[s].parent.value in sw.nodes
    && sw.nodes[s].parent.value != s
  }

  predicate IsChild(sw: Swarm, s: SessionId) {
    s in sw.nodes && sw.nodes[s].phase.Running? && sw.nodes[s].parent.Some? && sw.nodes[s].parent.value in sw.nodes
    && sw.nodes[s].parent.value != s
  }

  function InputFor(sw: Swarm, c: SessionId, req: Request): Input
    requires IsHolding(sw, c)
  {
    var p := sw.nodes[c].parent.value;
    Input(req.workspace, p, c, sw.nodes[p].depth, sw.nodes[c].phase.direct, req.team, req.role, req.provider,
          req.tokens, sw.nodes[p].taint)
  }

  /** `direct` is the count of direct children the spawner read some time before; it may be stale. */
  function DoHold(sw: Swarm, p: SessionId, c: SessionId, direct: nat): Swarm {
    var (tree', ok) := Reserve(sw.tree, p, c, MAX_FAN_OUT);
    var held := sw.(tree := tree');
    if ok && p in sw.nodes
    then AddNode(held, c, Node(Some(p), sw.nodes[p].depth + 1, 0, 0, TaintSet(false), Holding(direct)))
    else held
  }

  function DoAdmit(sw: Swarm, c: SessionId, req: Request): Swarm
    requires IsHolding(sw, c)
  {
    var n := sw.nodes[c];
    var p := n.parent.value;
    var (reg', budget', r) := Spawn(sw.reg, req.authorized, sw.nodes[p].budget, InputFor(sw, c, req));
    if r.Err? then SetNode(sw.(tree := Release(sw.tree, p, c), reg := reg'), c, n.(phase := Refused))
    else
      var paid := SetNode(sw.(reg := reg'), p, sw.nodes[p].(budget := budget'));
      var g := r.value.childBudget;
      SetNode(paid, c, n.(depth := r.value.depth, budget := g, cap := g, taint := r.value.taint,
                          phase := Creating(g, req.team)))
  }

  function DoFail(sw: Swarm, c: SessionId): Swarm
    requires IsCreating(sw, c)
  {
    var n := sw.nodes[c];
    var p := n.parent.value;
    var refunded := SetNode(sw.(tree := Release(sw.tree, p, c)), p,
                            sw.nodes[p].(budget := SaturatingAdd(sw.nodes[p].budget, n.phase.grant)));
    var ended :=
      if n.phase.team.Some? then refunded.(reg := Teams.Step(sw.reg, MarkEnded(n.phase.team.value, c)))
      else refunded;
    SetNode(ended, c, n.(budget := 0, phase := Gone))
  }

  function DoCreated(sw: Swarm, c: SessionId): Swarm
    requires IsCreating(sw, c)
  {
    SetNode(sw.(tree := Record(sw.tree, sw.nodes[c].parent.value, c)), c, sw.nodes[c].(phase := Running))
  }

  function DoRetire(sw: Swarm, c: SessionId): Swarm
    requires IsChild(sw, c)
  {
    SetNode(sw.(tree := Remove(sw.tree, sw.nodes[c].parent.value, c)), c, sw.nodes[c].(phase := Gone))
  }

  function DoIngest(sw: Swarm, s: SessionId): Swarm
    requires s in sw.nodes
  {
    SetNode(sw, s, sw.nodes[s].(taint := TaintSet(true)))
  }

  /** A person submits a turn to `s`: what it took in before no longer counts. */
  function DoHumanTurn(sw: Swarm, s: SessionId): Swarm
    requires s in sw.nodes
  {
    SetNode(sw, s, sw.nodes[s].(taint := TaintSet(false)))
  }

  /** A driven child returns, and what it took in counts for its parent too. */
  function DoReturn(sw: Swarm, c: SessionId): Swarm
    requires IsChild(sw, c)
  {
    var p := sw.nodes[c].parent.value;
    SetNode(sw, p, sw.nodes[p].(taint := MergeTaintOnChildReturn(sw.nodes[p].taint, sw.nodes[c].taint)))
  }

  function DoRoot(sw: Swarm, s: SessionId, tokens: nat): Swarm {
    if s in sw.nodes || tokens > U64_MAX then sw
    else AddNode(sw, s, Node(None, 0, tokens, tokens, TaintSet(false), Running))
  }

  function Step(sw: Swarm, op: Op): Swarm {
    match op
    case NewRoot(s, tokens) => DoRoot(sw, s, tokens)
    case Hold(p, c, direct) =>
      if c in sw.nodes || p !in sw.nodes || !sw.nodes[p].phase.Running? then sw else DoHold(sw, p, c, direct)
    case Admit(c, req) => if IsHolding(sw, c) then DoAdmit(sw, c, req) else sw
    case Created(c) => if IsCreating(sw, c) then DoCreated(sw, c) else sw
    case CreateFailed(c) => if IsCreating(sw, c) then DoFail(sw, c) else sw
    case Retire(c) => if IsChild(sw, c) then DoRetire(sw, c) else sw
    case Ingest(s) => if s in sw.nodes && sw.nodes[s].phase.Running? then DoIngest(sw, s) else sw
    case Return(c) => if IsChild(sw, c) then DoReturn(sw, c) else sw
    case HumanTurn(s) => if s in sw.nodes && sw.nodes[s].phase.Running? then DoHumanTurn(sw, s) else sw
    case TeamsMove(top) => sw.(reg := Teams.Step(sw.reg, top))
  }

  function Run(sw: Swarm, ops: seq<Op>): Swarm
    decreases |ops|
  {
    if ops == [] then sw else Run(Step(sw, ops[0]), ops[1..])
  }

  function Empty(reg: Registry): Swarm {
    Swarm(map[], map[], [], reg)
  }

  // ----- the shape of the tree -----

  /** One parent's slots: bounded, duplicate-free, disjoint, and telling the truth about whom they hold. */
  ghost predicate SlotsOk(sw: Swarm, p: SessionId) {
    var s := SlotsOf(sw.tree, p);
    && NoDup(s.children) && NoDup(s.reservations)
    && |s.children| + |s.reservations| <= MAX_FAN_OUT
    && (forall c :: c in s.children ==> c !in s.reservations)
    && (forall c :: c in s.children ==> c in sw.nodes && sw.nodes[c].phase.Running? && sw.nodes[c].parent == Some(p))
    && (forall c :: c in s.reservations ==>
          c in sw.nodes && (sw.nodes[c].phase.Holding? || sw.nodes[c].phase.Creating?) && sw.nodes[c].parent == Some(p))
  }

  predicate Grown(ph: Phase) {
    ph.Running? || ph.Gone?
  }

  /** One session: one deeper than its parent, within the depth limit once admitted, on its parent's books while it is
      being made, and among its parent's children while it runs. */
  ghost predicate NodeOk(sw: Swarm, c: SessionId)
    requires c in sw.nodes
  {
    var n := sw.nodes[c];
    && (n.parent.Some? ==>
          var p := n.parent.value;
          p in sw.nodes && p != c && n.depth == sw.nodes[p].depth + 1 && Grown(sw.nodes[p].phase))
    && (n.phase.Creating? || n.phase.Running? ==> n.depth <= MAX_DEPTH)
    && (n.phase.Holding? || n.phase.Creating? ==> n.parent.Some? && c in SlotsOf(sw.tree, n.parent.value).reservations)
    && (n.phase.Running? && n.parent.Some? ==> c in Children(sw.tree, n.parent.value))
    && (n.phase.Holding? ==> n.budget == 0 && !n.taint.tainted)
    && (n.phase.Creating? ==> n.budget == n.phase.grant)
  }

  ghost predicate Shaped(sw: Swarm) {
    && (forall p :: SlotsOk(sw, p))
    && (forall c :: c in sw.nodes ==> NodeOk(sw, c))
  }

  lemma HoldShaped(sw: Swarm, p: SessionId, c: SessionId, direct: nat)
    requires Shaped(sw) && c !in sw.nodes && p in sw.nodes && sw.nodes[p].phase.Running?
    ensures Shaped(DoHold(sw, p, c, direct))
  {
    var sw' := DoHold(sw, p, c, direct);
    assert SlotsOk(sw, p);
    ReserveSlots(sw.tree, p, c, MAX_FAN_OUT, p);
    forall q
      ensures SlotsOk(sw', q)
    {
      assert SlotsOk(sw, q);
      ReserveSlots(sw.tree, p, c, MAX_FAN_OUT, q);
    }
    forall x | x in sw'.nodes
      ensures NodeOk(sw', x)
    {
      if x in sw.nodes {
        assert NodeOk(sw, x);
        if sw.nodes[x].parent.Some? { ReserveSlots(sw.tree, p, c, MAX_FAN_OUT, sw.nodes[x].parent.value); }
      }
    }
  }

  /** Everything about a session that the shape of the tree depends on, but for its parent's spare tokens. */
  ghost predicate SameFrame(n: Node, n': Node) {
    && n'.parent == n.parent && n'.depth == n.depth && n'.phase == n.phase
    && (Grown(n.phase) || (n'.budget == n.budget && n'.taint == n.taint))
  }

  /** Steps that touch only the slots of `p` and the phase of its child `c`. */
  lemma Reshape(sw: Swarm, sw': Swarm, p: SessionId, c: SessionId)
    requires Shaped(sw) && c in sw.nodes && sw.nodes[c].parent == Some(p) && sw'.nodes.Keys == sw.nodes.Keys
    requires forall q :: q != p ==> SlotsOf(sw'.tree, q) == SlotsOf(sw.tree, q)
    requires forall x :: x in SlotsOf(sw.tree, p).reservations && x != c ==> x in SlotsOf(sw'.tree, p).reservations
    requires forall x :: x in Children(sw.tree, p) && x != c ==> x in Children(sw'.tree, p)
    requires forall x :: x in sw.nodes && x != c ==> SameFrame(sw.nodes[x], sw'.nodes[x])
    requires sw'.nodes[c].parent == Some(p) && sw'.nodes[c].depth == sw.nodes[c].depth
    requires Grown(sw.nodes[c].phase) ==> Grown(sw'.nodes[c].phase)
    requires SlotsOk(sw', p) && NodeOk(sw', c)
    ensures Shaped(sw')
  {
    forall q
      ensures SlotsOk(sw', q)
    {
      assert SlotsOk(sw, q);
    }
    forall x | x in sw'.nodes
      ensures NodeOk(sw', x)
    {
      assert NodeOk(sw, x);
    }
  }

  /** Giving up a slot: what is left of the parent's slots is still in order. */
  lemma DropSlot(sw: Swarm, p: SessionId, c: SessionId, tree': Tree)
    requires SlotsOk(sw, p)
    requires tree' == Release(sw.tree, p, c) || tree' == Remove(sw.tree, p, c)
    ensures forall q :: q != p ==> SlotsOf(tree', q) == SlotsOf(sw.tree, q)
    ensures var s, s' := SlotsOf(sw.tree, p), SlotsOf(tree', p);
            && s'.reservations == Without(s.reservations, c)
            && (s'.children == s.children || s'.children == Without(s.children, c))
            && NoDup(s'.children) && NoDup(s'.reservations)
  {
    var s := SlotsOf(sw.tree, p);
    WithoutNoDup(s.children, c);
    WithoutNoDup(s.reservations, c);
  }

  lemma AdmitShaped(sw: Swarm, c: SessionId, req: Request)
    requires Shaped(sw) && IsHolding(sw, c)
    ensures Shaped(DoAdmit(sw, c, req))
  {
    var p := sw.nodes[c].parent.value;
    var sw' := DoAdmit(sw, c, req);
    assert SlotsOk(sw, p) && NodeOk(sw, c) && NodeOk(sw, p);
    SuccessIsATransfer(sw.reg, req.authorized, sw.nodes[p].budget, InputFor(sw, c, req));
    if Spawn(sw.reg, req.authorized, sw.nodes[p].budget, InputFor(sw, c, req)).2.Err? {
      DropSlot(sw, p, c, sw'.tree);
    }
    assert SlotsOk(sw', p);
    assert NodeOk(sw', c);
    Reshape(sw, sw', p, c);
  }

  lemma CreatedShaped(sw: Swarm, c: SessionId)
    requires Shaped(sw) && IsCreating(sw, c)
    ensures Shaped(DoCreated(sw, c))
  {
    var p := sw.nodes[c].parent.value;
    var sw' := DoCreated(sw, c);
    assert SlotsOk(sw, p) && NodeOk(sw, c);
    var s := SlotsOf(sw.tree, p);
    WithoutNoDup(s.reservations, c);
    RecordSlots(sw.tree, p, c, p);
    forall q
      ensures q != p ==> SlotsOf(sw'.tree, q) == SlotsOf(sw.tree, q)
    {
      RecordSlots(sw.tree, p, c, q);
    }
    assert SlotsOk(sw', p);
    Reshape(sw, sw', p, c);
  }

  lemma FailShaped(sw: Swarm, c: SessionId)
    requires Shaped(sw) && IsCreating(sw, c)
    ensures Shaped(DoFail(sw, c))
  {
    var p := sw.nodes[c].parent.value;
    var sw' := DoFail(sw, c);
    assert SlotsOk(sw, p) && NodeOk(sw, c) && NodeOk(sw, p);
    DropSlot(sw, p, c, sw'.tree);
    assert SlotsOk(sw', p);
    Reshape(sw, sw', p, c);
  }

  lemma RetireShaped(sw: Swarm, c: SessionId)
    requires Shaped(sw) && IsChild(sw, c)
    ensures Shaped(DoRetire(sw, c))
  {
    var p := sw.nodes[c].parent.value;
    var sw' := DoRetire(sw, c);
    assert SlotsOk(sw, p) && NodeOk(sw, c);
    DropSlot(sw, p, c, sw'.tree);
    assert SlotsOk(sw', p);
    Reshape(sw, sw', p, c);
  }

  lemma TaintShaped(sw: Swarm, s: SessionId, t: TaintSet)
    requires Shaped(sw) && s in sw.nodes && Grown(sw.nodes[s].phase)
    ensures Shaped(SetNode(sw, s, sw.nodes[s].(taint := t)))
  {
    var sw' := SetNode(sw, s, sw.nodes[s].(taint := t));
    forall q
      ensures SlotsOk(sw', q)
    {
      assert SlotsOk(sw, q);
    }
    forall x | x in sw'.nodes
      ensures NodeOk(sw', x)
    {
      assert NodeOk(sw, x);
    }
  }

  lemma RootShaped(sw: Swarm, s: SessionId, tokens: nat)
    requires Shaped(sw)
    ensures Shaped(DoRoot(sw, s, tokens))
  {
    var sw' := DoRoot(sw, s, tokens);
    forall q
      ensures SlotsOk(sw', q)
    {
      assert SlotsOk(sw, q);
    }
    forall x | x in sw'.nodes
      ensures NodeOk(sw', x)
    {
      if x in sw.nodes { assert NodeOk(sw, x); }
    }
  }

  lemma StepShaped(sw: Swarm, op: Op)
    requires Shaped(sw)
    ensures Shaped(Step(sw, op))
  {
    match op
    case NewRoot(s, tokens) => RootShaped(sw, s, tokens);
    case Hold(p, c, direct) =>
      if c !in sw.nodes && p in sw.nodes && sw.nodes[p].phase.Running? { HoldShaped(sw, p, c, direct); }
    case Admit(c, req) => if IsHolding(sw, c) { AdmitShaped(sw, c, req); }
    case Created(c) => if IsCreating(sw, c) { CreatedShaped(sw, c); }
    case CreateFailed(c) => if IsCreating(sw, c) { FailShaped(sw, c); }
    case Retire(c) => if IsChild(sw, c) { RetireShaped(sw, c); }
    case Ingest(s) => if s in sw.nodes && sw.nodes[s].phase.Running? { TaintShaped(sw, s, TaintSet(true)); }
    case Return(c) =>
      if IsChild(sw, c) {
        var p := sw.nodes[c].parent.value;
        assert NodeOk(sw, c);
        TaintShaped(sw, p, MergeTaintOnChildReturn(sw.nodes[p].taint, sw.nodes[c].taint));
      }
    case HumanTurn(s) => if s in sw.nodes && sw.nodes[s].phase.Running? { TaintShaped(sw, s, TaintSet(false)); }
    case TeamsMove(top) =>
      forall q
        ensures SlotsOk(Step(sw, op), q)
      {
        assert SlotsOk(sw, q);
      }
      forall x | x in sw.nodes
        ensures NodeOk(Step(sw, op), x)
      {
        assert NodeOk(sw, x);
      }
  }

  /** Under every interleaving of spawns, failures and retirements, each parent's children and held slots together
      stay within the fan-out limit, without repeats, and nobody is admitted below the depth limit. */
  lemma {:induction false} RunShaped(sw: Swarm, ops: seq<Op>)
    requires Shaped(sw)
    ensures Shaped(Run(sw, ops))
    decreases |ops|
  {
    if ops != [] {
      StepShaped(sw, ops[0]);
      RunShaped(Step(sw, ops[0]), ops[1..]);
    }
  }

  lemma EmptyShaped(reg: Registry)
    ensures Shaped(Empty(reg))
  {
  }

  ghost function DepthOf(sw: Swarm): map<SessionId, nat> {
    map s | s in sw.nodes :: sw.nodes[s].depth
  }

  lemma EdgeDepth(sw: Swarm, p: SessionId, c: SessionId)
    requires Shaped(sw) && c in Children(sw.tree, p)
    ensures c in sw.nodes && p in sw.nodes && sw.nodes[c].parent == Some(p)
    ensures sw.nodes[c].depth == sw.nodes[p].depth + 1 <= MAX_DEPTH
  {
    assert SlotsOk(sw, p);
    assert NodeOk(sw, c);
  }

  lemma ShapedIsLeveled(sw: Swarm)
    requires Shaped(sw)
    ensures Leveled(sw.tree, DepthOf(sw), MAX_DEPTH)
  {
    forall p, c | c in Children(sw.tree, p)
      ensures OneDown(DepthOf(sw), MAX_DEPTH, p, c)
    {
      EdgeDepth(sw, p, c);
    }
  }

  lemma ShapedIsForest(sw: Swarm)
    requires Shaped(sw)
    ensures Leveled(sw.tree, DepthOf(sw), MAX_DEPTH) && OneParent(sw.tree)
    ensures forall p :: |Children(sw.tree, p)| <= MAX_FAN_OUT
  {
    ShapedIsLeveled(sw);
    forall p
      ensures NoDup(Children(sw.tree, p)) && |Children(sw.tree, p)| <= MAX_FAN_OUT
    {
      assert SlotsOk(sw, p);
    }
    forall p, q, c | c in Children(sw.tree, p) && c in Children(sw.tree, q)
      ensures p == q
    {
      EdgeDepth(sw, p, c);
      EdgeDepth(sw, q, c);
    }
  }

  /** A line of parents from `root` down, on which everybody below `root` is running. */
  ghost predicate RunningLine(sw: Swarm, root: SessionId, line: seq<SessionId>) {
    |line| > 1 && line[0] == root && forall i :: 0 <= i < |line| - 1 ==> RunsUnder(sw, line[i], line[i + 1])
  }

  predicate RunsUnder(sw: Swarm, p: SessionId, c: SessionId) {
    c in sw.nodes && sw.nodes[c].phase.Running? && sw.nodes[c].parent == Some(p)
  }

  lemma ChildRunsUnder(sw: Swarm, p: SessionId, c: SessionId)
    requires Shaped(sw)
    ensures c in Children(sw.tree, p) <==> RunsUnder(sw, p, c)
  {
    assert SlotsOk(sw, p);
    if c in sw.nodes { assert NodeOk(sw, c); }
  }

  lemma ChainIsRunningLine(sw: Swarm, root: SessionId, line: seq<SessionId>)
    requires Shaped(sw)
    ensures IsChain(sw.tree, line) && |line| > 1 && line[0] == root <==> RunningLine(sw, root, line)
  {
    forall i | 0 <= i < |line| - 1
      ensures line[i + 1] in Children(sw.tree, line[i]) <==> RunsUnder(sw, line[i], line[i + 1])
    {
      ChildRunsUnder(sw, line[i], line[i + 1]);
    }
  }

  ghost predicate RunningBelow(sw: Swarm, root: SessionId, x: SessionId) {
    exists line :: RunningLine(sw, root, line) && line[|line| - 1] == x
  }

  lemma DescendsIsRunningBelow(sw: Swarm, root: SessionId, x: SessionId)
    requires Shaped(sw)
    ensures Descends(sw.tree, root, x) <==> RunningBelow(sw, root, x)
  {
    if Descends(sw.tree, root, x) {
      var p :| IsChain(sw.tree, p) && |p| > 1 && p[0] == root && p[|p| - 1] == x;
      ChainIsRunningLine(sw, root, p);
    }
    if RunningBelow(sw, root, x) {
      var line :| RunningLine(sw, root, line) && line[|line| - 1] == x;
      ChainIsRunningLine(sw, root, line);
    }
  }

  /** In every state these steps can reach, the traversal from any session ends and lists, each once, exactly the
      sessions that a line of parents joins to `root` on which everybody below `root` is running: never the root, never
      a child whose slot is only held, and nobody below a session that has been retired. A whole tree, root included,
      holds at most 1 + 8 + 64 + 512 + 4096 sessions. */
  lemma {:induction false} ReachableTrees(reg: Registry, ops: seq<Op>, root: SessionId)
    ensures var sw := Run(Empty(reg), ops);
            && Fits(sw.tree, root, MAX_DEPTH)
            && (forall c :: c in Children(sw.tree, root) ==> Fits(sw.tree, c, MAX_DEPTH))
            && var below := Forest(sw.tree, MAX_DEPTH, Children(sw.tree, root));
               && NoDup(below) && root !in below
               && (forall x :: x in below <==> RunningBelow(sw, root, x))
               && |below| + 1 <= 4681
  {
    var sw := Run(Empty(reg), ops);
    EmptyShaped(reg);
    RunShaped(Empty(reg), ops);
    ShapedIsForest(sw);
    LeveledFits(sw.tree, DepthOf(sw), MAX_DEPTH, root, MAX_DEPTH);
    DescendantsOnce(sw.tree, DepthOf(sw), MAX_DEPTH, MAX_DEPTH, root);
    FitsMoreAll(sw.tree, root, MAX_DEPTH);
    BelowSize(sw.tree, MAX_FAN_OUT, MAX_DEPTH, root);
    FullTreeIs4681();
    forall x
      ensures x in Forest(sw.tree, MAX_DEPTH, Children(sw.tree, root)) <==> RunningBelow(sw, root, x)
    {
      DescendantsAreReachable(sw.tree, MAX_DEPTH, root, x);
      DescendsIsRunningBelow(sw, root, x);
    }
  }

  lemma FullTreeIs4681()
    ensures FullSize(8, 4) == 4681
  {
    assert FullSize(8, 0) == 1;
    assert FullSize(8, 1) == 9;
    assert FullSize(8, 2) == 73;
    assert FullSize(8, 3) == 585;
  }

  // ----- tokens -----

  function Total(sw: Swarm): nat {
    Tokens(sw.nodes, sw.known)
  }

  function Tokens(nodes: map<SessionId, Node>, known: seq<SessionId>): nat {
    if known == [] then 0
    else (if known[0] in nodes then nodes[known[0]].budget else 0) + Tokens(nodes, known[1..])
  }

  function Pending(nodes: map<SessionId, Node>, c: SessionId): nat {
    if c in nodes && nodes[c].phase.Creating? then nodes[c].phase.grant else 0
  }

  /** Tokens granted to children that are still being made, and so may come back. */
  function Outstanding(nodes: map<SessionId, Node>, held: seq<SessionId>): nat {
    if held == [] then 0 else Pending(nodes, held[0]) + Outstanding(nodes, held[1..])
  }

  function Claims(sw: Swarm, s: SessionId): nat {
    Outstanding(sw.nodes, SlotsOf(sw.tree, s).reservations)
  }

  /** The roll lists every session once, and nobody can be refunded past what it was given. */
  ghost predicate Solvent(sw: Swarm) {
    && NoDup(sw.known)
    && (forall s :: s in sw.nodes <==> s in sw.known)
    && (forall s :: s in sw.nodes ==> CapOk(sw, s) && (sw.nodes[s].phase.Holding? ==> sw.nodes[s].cap == 0))
  }

  ghost predicate CapOk(sw: Swarm, s: SessionId)
    requires s in sw.nodes
  {
    sw.nodes[s].budget + Claims(sw, s) <= sw.nodes[s].cap <= U64_MAX
  }

  lemma {:induction false} TokensSet(nodes: map<SessionId, Node>, known: seq<SessionId>, s: SessionId, n: Node)
    requires NoDup(known) && s in nodes
    ensures Tokens(nodes[s := n], known) == Tokens(nodes, known)
            + (if s in known then n.budget - nodes[s].budget else 0)
  {
    if known != [] {
      TokensSet(nodes, known[1..], s, n);
      assert known == [known[0]] + known[1..];
    }
  }

  lemma {:induction false} TokensAdd(nodes: map<SessionId, Node>, known: seq<SessionId>, s: SessionId, n: Node)
    requires s !in known
    ensures Tokens(nodes[s := n], known + [s]) == Tokens(nodes, known) + n.budget
  {
    if known == [] {
      assert known + [s] == [s];
    } else {
      assert (known + [s])[1..] == known[1..] + [s];
      TokensAdd(nodes, known[1..], s, n);
    }
  }

  lemma {:induction false} OutstandingSame(nodes: map<SessionId, Node>, nodes': map<SessionId, Node>,
          held: seq<SessionId>)
    requires forall x :: x in held ==> Pending(nodes', x) == Pending(nodes, x)
    ensures Outstanding(nodes', held) == Outstanding(nodes, held)
  {
    if held != [] { OutstandingSame(nodes, nodes', held[1..]); }
  }

  lemma {:induction false} OutstandingWithout(nodes: map<SessionId, Node>, held: seq<SessionId>, c: SessionId)
    requires NoDup(held)
    ensures Outstanding(nodes, Without(held, c))
            == Outstanding(nodes, held) - (if c in held then Pending(nodes, c) else 0)
  {
    if held != [] {
      OutstandingWithout(nodes, held[1..], c);
      assert held == [held[0]] + held[1..];
    }
  }

  lemma {:induction false} OutstandingSnoc(nodes: map<SessionId, Node>, held: seq<SessionId>, c: SessionId)
    ensures Outstanding(nodes, held + [c]) == Outstanding(nodes, held) + Pending(nodes, c)
  {
    if held == [] {
      assert held + [c] == [c];
    } else {
      assert (held + [c])[1..] == held[1..] + [c];
      OutstandingSnoc(nodes, held[1..], c);
    }
  }

  lemma HolderIsGrown(sw: Swarm, q: SessionId, x: SessionId)
    requires Shaped(sw) && x in SlotsOf(sw.tree, q).reservations
    ensures q in sw.nodes && Grown(sw.nodes[q].phase)
  {
    assert SlotsOk(sw, q);
    assert NodeOk(sw, x);
  }

  /** A session that is unknown or not running yet holds no slots for others. */
  lemma NothingHeldYet(sw: Swarm, q: SessionId)
    requires Shaped(sw) && (q !in sw.nodes || !Grown(sw.nodes[q].phase))
    ensures SlotsOf(sw.tree, q).reservations == []
  {
    var held := SlotsOf(sw.tree, q).reservations;
    if held != [] {
      HolderIsGrown(sw, q, held[0]);
      assert false;
    }
  }

  /** What `c`'s parent can claim back is what it can claim from the others plus `c`'s pending grant. */
  lemma ClaimsSplit(sw: Swarm, p: SessionId, c: SessionId, nodes': map<SessionId, Node>)
    requires SlotsOk(sw, p) && forall x :: x != c ==> Pending(nodes', x) == Pending(sw.nodes, x)
    ensures var held := SlotsOf(sw.tree, p).reservations;
            && Outstanding(nodes', Without(held, c)) + (if c in held then Pending(sw.nodes, c) else 0) == Claims(sw, p)
            && Outstanding(nodes', held) == Outstanding(nodes', Without(held, c))
                 + (if c in held then Pending(nodes', c) else 0)
  {
    var held := SlotsOf(sw.tree, p).reservations;
    OutstandingWithout(sw.nodes, held, c);
    OutstandingWithout(nodes', held, c);
    OutstandingSame(sw.nodes, nodes', Without(held, c));
  }

  /** Steps on `p`'s child `c` leave every other session's claims alone, and `c` itself has none before it runs. */
  lemma OtherClaims(sw: Swarm, sw': Swarm, p: SessionId, c: SessionId, q: SessionId)
    requires Shaped(sw) && c in sw.nodes && sw.nodes[c].parent == Some(p) && q != p
    requires SlotsOf(sw'.tree, q) == SlotsOf(sw.tree, q)
    requires forall x :: x != c ==> Pending(sw'.nodes, x) == Pending(sw.nodes, x)
    ensures Claims(sw', q) == Claims(sw, q)
    ensures q == c && !Grown(sw.nodes[c].phase) ==> Claims(sw', q) == 0
  {
    assert SlotsOk(sw, q);
    var held := SlotsOf(sw.tree, q).reservations;
    OutstandingSame(sw.nodes, sw'.nodes, held);
    if q == c && !Grown(sw.nodes[c].phase) { NothingHeldYet(sw, c); }
  }

  lemma HoldSolvent(sw: Swarm, p: SessionId, c: SessionId, direct: nat)
    requires Shaped(sw) && Solvent(sw) && c !in sw.nodes && p in sw.nodes && sw.nodes[p].phase.Running?
    ensures Solvent(DoHold(sw, p, c, direct)) && Total(DoHold(sw, p, c, direct)) == Total(sw)
  {
    var sw' := DoHold(sw, p, c, direct);
    if c in sw'.nodes { TokensAdd(sw.nodes, sw.known, c, sw'.nodes[c]); }
    forall q | q in sw'.nodes
      ensures CapOk(sw', q)
    {
      assert SlotsOk(sw, q) && SlotsOk(sw, p);
      ReserveSlots(sw.tree, p, c, MAX_FAN_OUT, q);
      var held := SlotsOf(sw.tree, q).reservations;
      OutstandingSame(sw.nodes, sw'.nodes, held);
      OutstandingSnoc(sw'.nodes, held, c);
      if q == c { NothingHeldYet(sw, c); }
    }
  }

  /** A step on `c` and its parent `p`, and on nobody else, that moves tokens between them without losing any, and never
      lets `p` have and claim more than before. */
  ghost predicate Transfers(sw: Swarm, sw': Swarm, p: SessionId, c: SessionId) {
    && p != c && p in sw.nodes && c in sw.nodes && p in sw'.nodes && c in sw'.nodes
    && sw.nodes[c].parent == Some(p)
    && sw'.nodes == sw.nodes[p := sw'.nodes[p]][c := sw'.nodes[c]] && sw'.known == sw.known
    && (forall q :: q != p ==> SlotsOf(sw'.tree, q) == SlotsOf(sw.tree, q))
    && (forall x :: x != c ==> Pending(sw'.nodes, x) == Pending(sw.nodes, x))
    && sw'.nodes[p].budget + sw'.nodes[c].budget == sw.nodes[p].budget + sw.nodes[c].budget
    && sw'.nodes[p].budget + Claims(sw', p) <= sw.nodes[p].budget + Claims(sw, p)
    && sw'.nodes[p].cap == sw.nodes[p].cap && sw'.nodes[p].phase == sw.nodes[p].phase
    && !sw'.nodes[c].phase.Holding?
    && (|| (sw'.nodes[c].budget == sw.nodes[c].budget && sw'.nodes[c].cap == sw.nodes[c].cap)
        || (!Grown(sw.nodes[c].phase) && sw'.nodes[c].budget <= sw'.nodes[c].cap <= U64_MAX))
  }

  lemma TransferSolvent(sw: Swarm, sw': Swarm, p: SessionId, c: SessionId)
    requires Shaped(sw) && Solvent(sw) && Transfers(sw, sw', p, c)
    ensures Solvent(sw') && Total(sw') == Total(sw)
  {
    TokensSet(sw.nodes, sw.known, p, sw'.nodes[p]);
    TokensSet(sw.nodes[p := sw'.nodes[p]], sw.known, c, sw'.nodes[c]);
    forall q | q in sw'.nodes
      ensures CapOk(sw', q)
    {
      assert CapOk(sw, q);
      if q != p { OtherClaims(sw, sw', p, c, q); }
    }
  }

  /** Freeing `c`'s slot, or turning it into an edge, moves no tokens. */
  lemma SettleTransfers(sw: Swarm, sw': Swarm, p: SessionId, c: SessionId)
    requires SlotsOk(sw, p) && p != c && p in sw.nodes && c in sw.nodes && sw.nodes[c].parent == Some(p)
    requires c in sw'.nodes && sw'.nodes == sw.nodes[c := sw'.nodes[c]] && sw'.known == sw.known
    requires forall q :: q != p ==> SlotsOf(sw'.tree, q) == SlotsOf(sw.tree, q)
    requires SlotsOf(sw'.tree, p).reservations == Without(SlotsOf(sw.tree, p).reservations, c)
    requires sw'.nodes[c].budget == sw.nodes[c].budget && sw'.nodes[c].cap == sw.nodes[c].cap
    requires !sw'.nodes[c].phase.Holding?
    ensures Transfers(sw, sw', p, c)
  {
    ClaimsSplit(sw, p, c, sw'.nodes);
  }

  /** A grant goes from the parent's budget to the child's, and stays claimable while the child is made. */
  lemma GrantTransfers(sw: Swarm, sw': Swarm, p: SessionId, c: SessionId)
    requires IsHolding(sw, c) && sw.nodes[c].parent == Some(p) && SlotsOk(sw, p) && CapOk(sw, p)
    requires sw.nodes[c].budget == 0 && p in sw'.nodes && c in sw'.nodes
    requires sw'.nodes == sw.nodes[p := sw'.nodes[p]][c := sw'.nodes[c]]
    requires sw'.known == sw.known && sw'.tree == sw.tree
    requires var n, m := sw'.nodes[c], sw'.nodes[p];
             && n.phase.Creating? && n.budget == n.cap == n.phase.grant
             && m == sw.nodes[p].(budget := m.budget) && m.budget + n.budget == sw.nodes[p].budget
    ensures Transfers(sw, sw', p, c)
  {
    ClaimsSplit(sw, p, c, sw'.nodes);
  }

  lemma AdmitSolvent(sw: Swarm, c: SessionId, req: Request)
    requires Shaped(sw) && Solvent(sw) && IsHolding(sw, c)
    ensures Solvent(DoAdmit(sw, c, req)) && Total(DoAdmit(sw, c, req)) == Total(sw)
  {
    var p := sw.nodes[c].parent.value;
    var sw' := DoAdmit(sw, c, req);
    assert SlotsOk(sw, p) && NodeOk(sw, c) && CapOk(sw, p);
    FailureChangesNothing(sw.reg, req.authorized, sw.nodes[p].budget, InputFor(sw, c, req));
    SuccessIsATransfer(sw.reg, req.authorized, sw.nodes[p].budget, InputFor(sw, c, req));
    if Spawn(sw.reg, req.authorized, sw.nodes[p].budget, InputFor(sw, c, req)).2.Err? {
      DropSlot(sw, p, c, sw'.tree);
      SettleTransfers(sw, sw', p, c);
    } else {
      GrantTransfers(sw, sw', p, c);
    }
    TransferSolvent(sw, sw', p, c);
  }

  /** A failed creation hands the grant back, in full: the ceiling is never met. */
  lemma FailTransfers(sw: Swarm, c: SessionId)
    requires Shaped(sw) && Solvent(sw) && IsCreating(sw, c)
    ensures var p, sw' := sw.nodes[c].parent.value, DoFail(sw, c);
            && Transfers(sw, sw', p, c) && sw'.nodes[c].budget == 0
            && sw'.nodes[p].budget == sw.nodes[p].budget + sw.nodes[c].phase.grant
            && !Holds(sw'.tree, p, c)
  {
    var p := sw.nodes[c].parent.value;
    var sw' := DoFail(sw, c);
    assert SlotsOk(sw, p) && NodeOk(sw, c) && CapOk(sw, p) && CapOk(sw, c);
    DropSlot(sw, p, c, sw'.tree);
    ClaimsSplit(sw, p, c, sw'.nodes);
    assert sw'.nodes == sw.nodes[p := sw'.nodes[p]][c := sw'.nodes[c]];
  }

  lemma FailSolvent(sw: Swarm, c: SessionId)
    requires Shaped(sw) && Solvent(sw) && IsCreating(sw, c)
    ensures Solvent(DoFail(sw, c)) && Total(DoFail(sw, c)) == Total(sw)
  {
    FailTransfers(sw, c);
    TransferSolvent(sw, DoFail(sw, c), sw.nodes[c].parent.value, c);
  }

  lemma CreatedSolvent(sw: Swarm, c: SessionId)
    requires Shaped(sw) && Solvent(sw) && IsCreating(sw, c)
    ensures Solvent(DoCreated(sw, c)) && Total(DoCreated(sw, c)) == Total(sw)
  {
    var p := sw.nodes[c].parent.value;
    assert SlotsOk(sw, p);
    forall q { RecordSlots(sw.tree, p, c, q); }
    SettleTransfers(sw, DoCreated(sw, c), p, c);
    TransferSolvent(sw, DoCreated(sw, c), p, c);
  }

  lemma RetireSolvent(sw: Swarm, c: SessionId)
    requires Shaped(sw) && Solvent(sw) && IsChild(sw, c)
    ensures Solvent(DoRetire(sw, c)) && Total(DoRetire(sw, c)) == Total(sw)
  {
    var p, sw' := sw.nodes[c].parent.value, DoRetire(sw, c);
    assert SlotsOk(sw, p);
    DropSlot(sw, p, c, sw'.tree);
    SettleTransfers(sw, sw', p, c);
    TransferSolvent(sw, sw', p, c);
  }

  lemma TaintSolvent(sw: Swarm, s: SessionId, t: TaintSet)
    requires Solvent(sw) && s in sw.nodes
    ensures var sw' := SetNode(sw, s, sw.nodes[s].(taint := t)); Solvent(sw') && Total(sw') == Total(sw)
  {
    var sw' := SetNode(sw, s, sw.nodes[s].(taint := t));
    TokensSet(sw.nodes, sw.known, s, sw'.nodes[s]);
    forall q | q in sw'.nodes
      ensures CapOk(sw', q)
    {
      assert CapOk(sw, q);
      OutstandingSame(sw.nodes, sw'.nodes, SlotsOf(sw.tree, q).reservations);
    }
  }

  lemma IngestSolvent(sw: Swarm, s: SessionId)
    requires Solvent(sw) && s in sw.nodes
    ensures Solvent(DoIngest(sw, s)) && Total(DoIngest(sw, s)) == Total(sw)
  {
    TaintSolvent(sw, s, TaintSet(true));
  }

  lemma TurnSolvent(sw: Swarm, s: SessionId)
    requires Solvent(sw) && s in sw.nodes
    ensures Solvent(DoHumanTurn(sw, s)) && Total(DoHumanTurn(sw, s)) == Total(sw)
  {
    TaintSolvent(sw, s, TaintSet(false));
  }

  lemma ReturnSolvent(sw: Swarm, c: SessionId)
    requires Solvent(sw) && IsChild(sw, c)
    ensures Solvent(DoReturn(sw, c)) && Total(DoReturn(sw, c)) == Total(sw)
  {
    var p := sw.nodes[c].parent.value;
    TaintSolvent(sw, p, MergeTaintOnChildReturn(sw.nodes[p].taint, sw.nodes[c].taint));
  }

  lemma TeamsSolvent(sw: Swarm, reg: Registry)
    requires Solvent(sw)
    ensures Solvent(sw.(reg := reg)) && Total(sw.(reg := reg)) == Total(sw)
  {
    forall q | q in sw.nodes
      ensures CapOk(sw.(reg := reg), q)
    {
      assert CapOk(sw, q);
    }
  }

  lemma RootSolvent(sw: Swarm, s: SessionId, tokens: nat)
    requires Shaped(sw) && Solvent(sw)
    ensures var sw' := DoRoot(sw, s, tokens);
            Solvent(sw') && Total(sw') == Total(sw) + Minted(sw, NewRoot(s, tokens))
  {
    var sw' := DoRoot(sw, s, tokens);
    if sw' != sw {
      TokensAdd(sw.nodes, sw.known, s, sw'.nodes[s]);
      forall q | q in sw'.nodes
        ensures CapOk(sw', q)
      {
        assert SlotsOk(sw, q);
        var held := SlotsOf(sw.tree, q).reservations;
        OutstandingSame(sw.nodes, sw'.nodes, held);
        if q == s { NothingHeldYet(sw, s); }
      }
    }
  }

  /** Tokens enter only with a new root. */
  function Minted(sw: Swarm, op: Op): nat {
    if op.NewRoot? && op.session !in sw.nodes && op.tokens <= U64_MAX then op.tokens else 0
  }

  lemma StepSolvent(sw: Swarm, op: Op)
    requires Shaped(sw) && Solvent(sw)
    ensures Solvent(Step(sw, op)) && Total(Step(sw, op)) == Total(sw) + Minted(sw, op)
  {
    match op
    case NewRoot(s, tokens) => RootSolvent(sw, s, tokens);
    case Hold(p, c, direct) =>
      if c !in sw.nodes && p in sw.nodes && sw.nodes[p].phase.Running? { HoldSolvent(sw, p, c, direct); }
    case Admit(c, req) => if IsHolding(sw, c) { AdmitSolvent(sw, c, req); }
    case Created(c) => if IsCreating(sw, c) { CreatedSolvent(sw, c); }
    case CreateFailed(c) => if IsCreating(sw, c) { FailSolvent(sw, c); }
    case Retire(c) => if IsChild(sw, c) { RetireSolvent(sw, c); }
    case Ingest(s) => if s in sw.nodes && sw.nodes[s].phase.Running? { IngestSolvent(sw, s); }
    case Return(c) => if IsChild(sw, c) { ReturnSolvent(sw, c); }
    case HumanTurn(s) => if s in sw.nodes && sw.nodes[s].phase.Running? { TurnSolvent(sw, s); }
    case TeamsMove(top) => TeamsSolvent(sw, Teams.Step(sw.reg, top));
  }

  function MintedOver(sw: Swarm, ops: seq<Op>): nat
    decreases |ops|
  {
    if ops == [] then 0 else Minted(sw, ops[0]) + MintedOver(Step(sw, ops[0]), ops[1..])
  }

  /** Budgets are transfers: over any run of successful, refused and failed spawns the tokens of all sessions together
      are exactly what the roots brought in, and no refund is ever cut short by the 64-bit ceiling. */
  lemma {:induction false} TokensConserved(sw: Swarm, ops: seq<Op>)
    requires Shaped(sw) && Solvent(sw)
    ensures Solvent(Run(sw, ops)) && Total(Run(sw, ops)) == Total(sw) + MintedOver(sw, ops)
    decreases |ops|
  {
    if ops != [] {
      StepShaped(sw, ops[0]);
      StepSolvent(sw, ops[0]);
      TokensConserved(Step(sw, ops[0]), ops[1..]);
    }
  }

  /** A child that could not be created costs nothing: from hold to failure the parent's tokens come back whole, and the
      child is no member of its team. */
  lemma FailedSpawnRefunds(sw: Swarm, c: SessionId)
    requires Shaped(sw) && Solvent(sw) && IsCreating(sw, c)
    ensures var p := sw.nodes[c].parent.value; var sw' := Step(sw, CreateFailed(c));
            && sw'.nodes[p].budget == sw.nodes[p].budget + sw.nodes[c].phase.grant
            && sw'.nodes[c].budget == 0 && !Holds(sw'.tree, p, c)
            && (sw.nodes[c].phase.team.Some? ==> !IsMember(sw'.reg, sw.nodes[c].phase.team.value, c))
  {
    FailTransfers(sw, c);
    if sw.nodes[c].phase.team.Some? { EndedIsNoMember(sw.reg, sw.nodes[c].phase.team.value, c); }
  }
}
