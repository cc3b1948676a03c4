/** The spawn tool: hold a slot, run the executor, create the child, and undo everything if any of it fails. */
module SpawnTools {
  import opened Types
  import opened Limits
  import opened SpawnTrees
  import opened Teams
  import opened AgentSpawns

  datatype SpawnRefusal = NoSlot | NotAdmitted(error: SpawnError) | NotCreated

  /** The executor is told how many direct children the parent has before the slot is held. */
  function Counted(t: Tree, input: Input): Input {
    input.(parentDirectChildren := ClampU32(|Children(t, input.parent)|))
  }

  /** The executor's verdict on the spawn, from the state before it. */
  function Verdict(reg: Registry, budget: nat, t: Tree, input: Input): (Registry, nat, Result<Output, SpawnError>) {
    Spawn(reg, true, budget, Counted(t, input))
  }

  /** Whether the child session really came up is the host's business; here it is the input `creates`. */
  method SpawnChild(tree: SpawnTree, teams: TeamRegistry, budget: Budget, input: Input, creates: bool)
    returns (r: Result<Output, SpawnRefusal>)
    requires budget.remainingTokens <= U64_MAX
    requires !Holds(tree.children, input.parent, input.childId)
    requires !OnSomeRoster(teams.State(), input.childId)
    modifies tree, teams, budget
    ensures r.Ok? <==> Occupied(old(tree.children), input.parent) < MAX_FAN_OUT && creates
                       && Verdict(old(teams.State()), old(budget.remainingTokens), old(tree.children), input).2.Ok?
    ensures r.Ok? <==> Occupied(old(tree.children), input.parent) < 8 && creates && input.parentDepth < 4
                       && input.budgetTokens <= old(budget.remainingTokens)
                       && (input.team.Some? ==>
                             TeamAdmits(old(teams.State()), input.team.value, input.parent, input.childId, input.role))
    ensures r == Err(NoSlot) <==> Occupied(old(tree.children), input.parent) >= 8
    ensures forall q :: SlotsOf(tree.children, q) ==
              if q == input.parent && r.Ok?
              then Slots(Children(old(tree.children), q) + [input.childId], SlotsOf(old(tree.children), q).reservations)
              else SlotsOf(old(tree.children), q)
    ensures budget.remainingTokens == old(budget.remainingTokens) - if r.Ok? then input.budgetTokens else 0
    ensures r.Ok? ==>
              teams.State() == Verdict(old(teams.State()), old(budget.remainingTokens), old(tree.children), input).0
    ensures r.Err? && r.error != NotCreated ==> teams.State() == old(teams.State())
    ensures r.Err? ==> forall t, x :: IsMember(teams.State(), t, x) <==> IsMember(old(teams.State()), t, x)
  {
    ghost var tree0, reg0 := tree.children, teams.State();
    var parent, child := input.parent, input.childId;
    var asked := input.(parentDirectChildren := tree.DirectChildren(parent));
    ReserveEverySlot(tree0, parent, child);
    var slot := tree.ReserveChild(parent, child, MAX_FAN_OUT);
    if slot.None? {
      return Err(NoSlot);
    }
    SuccessIsATransfer(reg0, true, budget.remainingTokens, asked);
    SpawnSucceedsExactly(reg0, true, budget.remainingTokens, asked);
    FailureChangesNothing(reg0, true, budget.remainingTokens, asked);
    var outcome := AgentSpawn(teams, _ => true, budget, asked);
    if outcome.Err? {
      tree.ReleaseChildReservation(parent, child);
      return Err(NotAdmitted(outcome.error));
    }
    if !creates {
      tree.ReleaseChildReservation(parent, child);
      budget.remainingTokens := SaturatingAdd(budget.remainingTokens, outcome.value.childBudget);
      if input.team.Some? {
        ghost var joined := teams.State();
        teams.MarkMemberEnded(input.team.value, child);
        EndingTheNewcomer(reg0, joined, input.team.value, child);
      }
      return Err(NotCreated);
    }
    tree.CommitChildReservation(parent, child);
    return Ok(outcome.value);
  }

  /** The caller minted the id moments ago, so no roster knows it. */
  ghost predicate OnSomeRoster(reg: Registry, x: SessionId) {
    exists t :: OnRoster(Roster(reg, t), x)
  }

  /** Holding a slot and letting go of it, or holding it and committing, for every parent at once. */
  lemma ReserveEverySlot(t: Tree, p: SessionId, c: SessionId)
    requires !Holds(t, p, c)
    ensures var t' := Reserve(t, p, c, MAX_FAN_OUT).0;
            && (forall q :: SlotsOf(Release(t', p, c), q) == SlotsOf(t, q))
            && (Occupied(t, p) >= MAX_FAN_OUT ==> forall q :: SlotsOf(t', q) == SlotsOf(t, q))
            && (Occupied(t, p) < MAX_FAN_OUT ==>
                  forall q :: SlotsOf(Record(t', p, c), q)
                              == if q == p then Slots(Children(t, p) + [c], SlotsOf(t, p).reservations)
                                  else SlotsOf(t, q))
  {
    var t' := Reserve(t, p, c, MAX_FAN_OUT).0;
    WithoutLast(SlotsOf(t, p).reservations, c);
    forall q
      ensures SlotsOf(Release(t', p, c), q) == SlotsOf(t, q)
    {
      ReleaseUndoesReserve(t, p, c, MAX_FAN_OUT, q);
    }
  }

  lemma {:induction false} EndMemberKeepsOthers(ms: seq<Membership>, c: SessionId)
    requires !OnRoster(ms, c)
    ensures EndMember(ms, c) == ms
  {
    if ms != [] {
      OnRosterCons(ms, c);
      EndMemberKeepsOthers(ms[1..], c);
    }
  }

  lemma {:induction false} EndMemberSnoc(ms: seq<Membership>, m: Membership, c: SessionId)
    ensures EndMember(ms + [m], c) == EndMember(ms, c) + EndMember([m], c)
  {
    if ms == [] {
      assert ms + [m] == [m];
    } else {
      assert (ms + [m])[1..] == ms[1..] + [m];
      EndMemberSnoc(ms[1..], m, c);
    }
  }

  /** Ending a member who just joined leaves everybody's membership as it was before the join. */
  lemma EndingTheNewcomer(reg0: Registry, joined: Registry, t: TeamId, c: SessionId)
    requires !OnSomeRoster(reg0, c)
    requires joined == reg0.(rosters := reg0.rosters[t := Roster(joined, t)])
    requires exists m: Membership :: Roster(joined, t) == Roster(reg0, t) + [m] && m.session == c
    ensures var reg := Step(joined, MarkEnded(t, c));
            forall u, x :: IsMember(reg, u, x) <==> IsMember(reg0, u, x)
  {
    var reg := Step(joined, MarkEnded(t, c));
    var m: Membership :| Roster(joined, t) == Roster(reg0, t) + [m] && m.session == c;
    var ms := Roster(reg0, t);
    assert !OnRoster(ms, c);
    EndMemberKeepsOthers(ms, c);
    EndMemberSnoc(ms, m, c);
    assert EndMember([m], c) == [m.(ended := true)] by { assert [m][1..] == []; }
    assert Roster(reg, t) == ms + [m.(ended := true)];
  }
}
