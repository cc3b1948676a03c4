/**
 What each step of a spawn does, and exactly when: who gets a slot, who is admitted and on what terms, and where tokens,
 depth, taint and membership go.
*/
module SwarmSteps {
  import opened Types
  import opened SpawnTrees
  import T = Teams
  import opened AgentSpawns
  import opened Swarms

  /** Nothing about the other sessions changes but the spare tokens of `p`. */
  ghost predicate OthersStand(sw: Swarm, sw': Swarm, p: SessionId, c: SessionId) {
    && (forall x :: x in sw.nodes && x != c ==>
          x in sw'.nodes && sw'.nodes[x] == if x == p then sw.nodes[x].(budget := sw'.nodes[x].budget) else sw.nodes[x])
    && (forall x :: x in sw'.nodes ==> x in sw.nodes || x == c)
    && (forall q :: q != p ==> SlotsOf(sw'.tree, q) == SlotsOf(sw.tree, q))
  }

  /** A new session gets a slot exactly when its parent runs and fewer than eight of the parent's slots are taken. */
  lemma HoldAnswers(sw: Swarm, p: SessionId, c: SessionId, direct: nat)
    requires Shaped(sw) && c !in sw.nodes
    ensures var sw' := Step(sw, Hold(p, c, direct));
            && OthersStand(sw, sw', p, c) && sw'.reg == sw.reg && (p in sw.nodes ==> sw'.nodes[p] == sw.nodes[p])
            && (c in sw'.nodes <==> p in sw.nodes && sw.nodes[p].phase.Running? && Occupied(sw.tree, p) < 8)
            && (if c in sw'.nodes then
                  && sw'.nodes[c] == Node(Some(p), sw.nodes[p].depth + 1, 0, 0, TaintSet(false), Holding(direct))
                  && SlotsOf(sw'.tree, p)
                     == Slots(Children(sw.tree, p), SlotsOf(sw.tree, p).reservations + [c])
                else SlotsOf(sw'.tree, p) == SlotsOf(sw.tree, p))
  {
    assert SlotsOk(sw, p);
    ReserveSlots(sw.tree, p, c, 8, p);
    forall q
      ensures q != p ==> SlotsOf(Reserve(sw.tree, p, c, 8).0, q) == SlotsOf(sw.tree, q)
    {
      ReserveSlots(sw.tree, p, c, 8, q);
    }
  }

  /** The terms of an admission: the count of children is the one read before the hold. */
  ghost predicate MayAdmit(sw: Swarm, c: SessionId, req: Request)
    requires IsHolding(sw, c)
  {
    var p := sw.nodes[c].parent.value;
    && req.authorized && sw.nodes[p].depth < 4 && sw.nodes[c].phase.direct < 8 && req.tokens <= sw.nodes[p].budget
    && (req.team.Some? ==> TeamAdmits(sw.reg, req.team.value, p, c, req.role))
  }

  function Joined(c: SessionId, role: Option<string>): T.Membership {
    T.Membership(c, match role case Some(name) => name case None => "worker", false)
  }

  /** An admitted child is made with the tokens asked for, taken from its parent, one deeper, with its parent's taint,
      and on the team; a refused one loses its slot and nothing else happens. */
  lemma AdmitAnswers(sw: Swarm, c: SessionId, req: Request)
    requires Shaped(sw) && IsHolding(sw, c)
    ensures var p, n, sw' := sw.nodes[c].parent.value, sw.nodes[c], Step(sw, Admit(c, req));
            && OthersStand(sw, sw', p, c)
            && (if MayAdmit(sw, c, req) then
                  && sw'.tree == sw.tree && sw'.nodes[p].budget == sw.nodes[p].budget - req.tokens
                  && sw'.nodes[c]
                     == Node(Some(p), sw.nodes[p].depth + 1, req.tokens, req.tokens, sw.nodes[p].taint,
                             Creating(req.tokens, req.team))
                  && sw'.reg.teams == sw.reg.teams && sw'.reg.humans == sw.reg.humans
                  && (forall t :: T.Roster(sw'.reg, t)
                                  == T.Roster(sw.reg, t) + if req.team == Some(t) then [Joined(c, req.role)] else [])
                else
                  && sw'.reg == sw.reg && sw'.nodes[p] == sw.nodes[p] && sw'.nodes[c] == n.(phase := Refused)
                  && !Holds(sw'.tree, p, c))
  {
    var p := sw.nodes[c].parent.value;
    var input := InputFor(sw, c, req);
    assert NodeOk(sw, c) && SlotsOk(sw, p);
    SpawnSucceedsExactly(sw.reg, req.authorized, sw.nodes[p].budget, input);
    SuccessIsATransfer(sw.reg, req.authorized, sw.nodes[p].budget, input);
    if MayAdmit(sw, c, req) {
      if req.team.Some? { T.JoinAnswers(sw.reg, req.team.value, c, req.role); }
    } else {
      FailureChangesNothing(sw.reg, req.authorized, sw.nodes[p].budget, input);
      DropSlot(sw, p, c, Release(sw.tree, p, c));
    }
  }

  /** A child that comes up runs with what it was admitted with, and its slot becomes an edge of the tree. */
  lemma CreatedRuns(sw: Swarm, c: SessionId)
    requires Shaped(sw) && IsCreating(sw, c)
    ensures var p, sw' := sw.nodes[c].parent.value, Step(sw, Created(c));
            && OthersStand(sw, sw', p, c) && sw'.reg == sw.reg && sw'.nodes[p] == sw.nodes[p]
            && sw'.nodes[c] == sw.nodes[c].(phase := Running)
            && Children(sw'.tree, p) == Children(sw.tree, p) + [c] && c !in SlotsOf(sw'.tree, p).reservations
            && Occupied(sw'.tree, p) == Occupied(sw.tree, p)
  {
    var p := sw.nodes[c].parent.value;
    assert NodeOk(sw, c) && SlotsOk(sw, p);
    WithoutNoDup(SlotsOf(sw.tree, p).reservations, c);
    RecordSlots(sw.tree, p, c, p);
  }

  /** A child that goes frees exactly its own slot, and keeps its unspent tokens on its account. */
  lemma RetireFrees(sw: Swarm, c: SessionId)
    requires Shaped(sw) && IsChild(sw, c)
    ensures var p, sw' := sw.nodes[c].parent.value, Step(sw, Retire(c));
            && OthersStand(sw, sw', p, c) && sw'.reg == sw.reg && sw'.nodes[p] == sw.nodes[p]
            && sw'.nodes[c] == sw.nodes[c].(phase := Gone)
            && !Holds(sw'.tree, p, c) && Occupied(sw'.tree, p) == Occupied(sw.tree, p) - 1
            && forall x :: x != c ==> (x in Children(sw'.tree, p) <==> x in Children(sw.tree, p))
  {
    var p := sw.nodes[c].parent.value;
    assert NodeOk(sw, c) && SlotsOk(sw, p);
    WithoutNoDup(Children(sw.tree, p), c);
    assert Without(SlotsOf(sw.tree, p).reservations, c) == SlotsOf(sw.tree, p).reservations;
  }
}
