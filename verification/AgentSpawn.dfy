/** The spawn executor: every fence first, then the budget transfer and the team join, undone together if the join
    fails. */
module AgentSpawns {
  import opened Types
  import opened Limits
  import opened Teams

  /** One bit: has the session seen untrusted input since its last human turn. */
  datatype TaintSet = TaintSet(tainted: bool) {
    function Union(other: TaintSet): (r: TaintSet)
      ensures r.tainted <==> tainted || other.tainted
    {
      TaintSet(tainted || other.tainted)
    }
  }

  /** Nothing calls it yet; the merge that runs, for driven workflow children, sets the parent's bit in the same way. */
  function MergeTaintOnChildReturn(parent: TaintSet, child: TaintSet): (r: TaintSet)
    ensures parent.tainted ==> r.tainted
    ensures r.tainted ==> parent.tainted || child.tainted
    ensures child.tainted ==> r.tainted
  {
    parent.Union(child)
  }

  datatype Tier = NoTier | Worktree | Sandbox | Container | Remote
  datatype OnDegrade = Refuse | AllowDownTo(floor: Tier)

  datatype SessionSpec = SessionSpec(workspace: WorkspaceId, requestedTier: Tier, onDegrade: OnDegrade,
      parent: SessionId)

  datatype Input = Input(
    workspace: WorkspaceId, parent: SessionId, childId: SessionId, parentDepth: nat, parentDirectChildren: nat,
    team: Option<TeamId>, role: Option<string>, provider: string, budgetTokens: nat, parentTaint: TaintSet)

  datatype Output = Output(sessionId: SessionId, childBudget: nat, taint: TaintSet, depth: nat, spec: SessionSpec)

  datatype SpawnError =
    | ProviderNotAuthorized(provider: string)
    | InsufficientBudget(requested: nat, remaining: nat)
    | Bus(error: BusError)

  /** The fences in the order the executor meets them; `None` lets the spawn through to the transfer. */
  function Refusal(reg: Registry, authorized: bool, budget: nat, input: Input): Option<SpawnError> {
    if !authorized then Some(ProviderNotAuthorized(input.provider))
    else if input.parentDepth >= U8_MAX then Some(Bus(DepthLimitExceeded(U8_MAX, MAX_DEPTH)))
    else if CheckDepth(input.parentDepth + 1).Err? then Some(Bus(CheckDepth(input.parentDepth + 1).error))
    else if input.parentDirectChildren >= U32_MAX then Some(Bus(FanOutLimitExceeded(U32_MAX, MAX_FAN_OUT)))
    else if CheckFanOut(input.parentDirectChildren + 1).Err?
        then Some(Bus(CheckFanOut(input.parentDirectChildren + 1).error))
    else if input.team.Some? && !IsMember(reg, input.team.value, input.parent) then
      Some(Bus(NotAuthorized(input.team.value, input.parent)))
    else if input.team.Some? && input.role == Some("lead") && !IsLead(reg, input.team.value, input.parent) then
      Some(Bus(NotAuthorized(input.team.value, input.parent)))
    else if input.budgetTokens > budget then Some(InsufficientBudget(input.budgetTokens, budget))
    else None
  }

  function SpecOf(input: Input): SessionSpec {
    SessionSpec(input.workspace, Sandbox, Refuse, input.parent)
  }

  /** The registry and the parent's budget after the call, and what the caller gets. */
  function Spawn(reg: Registry, authorized: bool, budget: nat, input: Input)
    : (Registry, nat, Result<Output, SpawnError>)
  {
    var refusal := Refusal(reg, authorized, budget, input);
    if refusal.Some? then (reg, budget, Err(refusal.value))
    else
      var out := Output(input.childId, input.budgetTokens, input.parentTaint, input.parentDepth + 1, SpecOf(input));
      var left: nat := budget - input.budgetTokens;
      if input.team.None? then (reg, left, Ok(out))
      else
        var (reg', joined) := JoinResult(reg, input.team.value, input.childId, input.role);
        if joined.Err? then (reg', left + input.budgetTokens, Err(Bus(joined.error))) else (reg', left, Ok(out))
  }

  /** `saturating_add` on 64 bits. */
  function SaturatingAdd(a: nat, b: nat): nat {
    if a + b > U64_MAX then U64_MAX else a + b
  }

  class Budget {
    var remainingTokens: nat

    constructor (tokens: nat)
      ensures remainingTokens == tokens
    {
      remainingTokens := tokens;
    }
  }

  method AgentSpawn(teams: TeamRegistry, authorizes: string -> bool, parentBudget: Budget, input: Input)
    returns (r: Result<Output, SpawnError>)
    requires parentBudget.remainingTokens <= U64_MAX
    modifies teams, parentBudget
    ensures (teams.State(), parentBudget.remainingTokens, r)
            == Spawn(old(teams.State()), authorizes(input.provider), old(parentBudget.remainingTokens), input)
    ensures parentBudget.remainingTokens <= old(parentBudget.remainingTokens)
  {
    if !authorizes(input.provider) {
      return Err(ProviderNotAuthorized(input.provider));
    }
    if input.parentDepth >= U8_MAX {
      return Err(Bus(DepthLimitExceeded(U8_MAX, MAX_DEPTH)));
    }
    var childDepth := input.parentDepth + 1;
    var deep := CheckDepth(childDepth);
    if deep.Err? {
      return Err(Bus(deep.error));
    }
    if input.parentDirectChildren >= U32_MAX {
      return Err(Bus(FanOutLimitExceeded(U32_MAX, MAX_FAN_OUT)));
    }
    var wide := CheckFanOut(input.parentDirectChildren + 1);
    if wide.Err? {
      return Err(Bus(wide.error));
    }
    if input.team.Some? {
      var team := input.team.value;
      if !IsMember(teams.State(), team, input.parent) {
        return Err(Bus(NotAuthorized(team, input.parent)));
      }
      if input.role == Some("lead") && !IsLead(teams.State(), team, input.parent) {
        return Err(Bus(NotAuthorized(team, input.parent)));
      }
    }
    if input.budgetTokens > parentBudget.remainingTokens {
      return Err(InsufficientBudget(input.budgetTokens, parentBudget.remainingTokens));
    }
    parentBudget.remainingTokens := parentBudget.remainingTokens - input.budgetTokens;
    if input.team.Some? {
      var joined := teams.Join(input.team.value, input.childId, input.role);
      if joined.Err? {
        parentBudget.remainingTokens := parentBudget.remainingTokens + input.budgetTokens;
        return Err(Bus(joined.error));
      }
    }
    return Ok(Output(input.childId, input.budgetTokens, input.parentTaint, childDepth, SpecOf(input)));
  }

  // ----- what the executor promises -----

  /** A spawn that fails, wherever it fails, leaves the parent's budget and every roster exactly as they were. */
  lemma FailureChangesNothing(reg: Registry, authorized: bool, budget: nat, input: Input)
    ensures var (reg', budget', r) := Spawn(reg, authorized, budget, input);
            r.Err? ==> reg' == reg && budget' == budget
  {
    if Refusal(reg, authorized, budget, input).None? && input.team.Some? {
      var team := input.team.value;
      assert team in reg.rosters;
      assert reg.rosters[team := Roster(reg, team)] == reg.rosters;
    }
  }

  /** A spawn that succeeds moves tokens without minting any, keeps the child's depth and fan-out in bounds, copies the
      parent's taint, adds the child and nobody else to a team the parent is on, makes it a lead only under a lead, and
      asks for the sandbox tier without degrading. */
  lemma SuccessIsATransfer(reg: Registry, authorized: bool, budget: nat, input: Input)
    ensures var (reg', budget', r) := Spawn(reg, authorized, budget, input);
            r.Ok? ==>
              var out := r.value;
              && authorized && out.sessionId == input.childId
              && budget' + out.childBudget == budget && out.childBudget == input.budgetTokens
              && out.depth == input.parentDepth + 1 <= MAX_DEPTH && input.parentDirectChildren < MAX_FAN_OUT
              && out.taint == input.parentTaint
              && out.spec == SessionSpec(input.workspace, Sandbox, Refuse, input.parent)
              && (input.team.None? ==> reg' == reg)
              && (input.team.Some? ==>
                    var t := input.team.value;
                    && IsMember(reg, t, input.parent) && input.childId !in reg.humans && StateOf(reg, t) == Active
                    && Live(Roster(reg', t)) == Live(Roster(reg, t)) + 1 <= MAX_TEAM_SIZE
                    && reg' == reg.(rosters := reg.rosters[t := Roster(reg', t)])
                    && exists m: Membership :: Roster(reg', t) == Roster(reg, t) + [m] && m.session == input.childId
                                   && (m.role == "lead" ==> IsLead(reg, t, input.parent)))
  {
    var (reg', budget', r) := Spawn(reg, authorized, budget, input);
    if r.Ok? && input.team.Some? {
      var m := Membership(input.childId, if input.role.Some? then input.role.value else "worker", false);
      LiveAppend(Roster(reg, input.team.value), m);
      assert Roster(reg', input.team.value) == Roster(reg, input.team.value) + [m];
    }
  }

  // ----- who gets through, and what the others are told -----

  ghost predicate LiveMember(reg: Registry, t: TeamId, s: SessionId) {
    exists i :: 0 <= i < |Roster(reg, t)| && Roster(reg, t)[i].session == s && !Roster(reg, t)[i].ended
  }

  ghost predicate MadeOrLeads(reg: Registry, t: TeamId, s: SessionId) {
    || (t in reg.teams && reg.teams[t].createdBy == s)
    || exists i :: 0 <= i < |Roster(reg, t)| && Roster(reg, t)[i].session == s && Roster(reg, t)[i].role == "lead"
  }

  /** What a spawn into a team needs: a parent that is a live member, and leads if the child is to lead; a child that is
      no human; and an active team with room. */
  ghost predicate TeamAdmits(reg: Registry, t: TeamId, parent: SessionId, child: SessionId, role: Option<string>) {
    && LiveMember(reg, t, parent)
    && (role == Some("lead") ==> MadeOrLeads(reg, t, parent))
    && child !in reg.humans
    && t in reg.teams && reg.teams[t].state == Active
    && Live(Roster(reg, t)) < 32
  }

  lemma MembershipSpelled(reg: Registry, t: TeamId, s: SessionId)
    ensures IsMember(reg, t, s) <==> LiveMember(reg, t, s)
    ensures IsLead(reg, t, s) <==> MadeOrLeads(reg, t, s)
  {
    var ms := Roster(reg, t);
    if LiveMember(reg, t, s) {
      var i :| 0 <= i < |ms| && ms[i].session == s && !ms[i].ended;
      assert ms[i] in ms;
    }
    if i :| 0 <= i < |ms| && ms[i].session == s && ms[i].role == "lead" {
      assert ms[i] in ms;
    }
  }

  /** A spawn succeeds exactly when it is authorized, within the limits and within the budget, and its team, if it asks
      for one, admits the child. */
  lemma SpawnSucceedsExactly(reg: Registry, authorized: bool, budget: nat, input: Input)
    ensures Spawn(reg, authorized, budget, input).2.Ok?
            <==> authorized && input.parentDepth < 4 && input.parentDirectChildren < 8 && input.budgetTokens <= budget
                 && (input.team.Some? ==>
                       TeamAdmits(reg, input.team.value, input.parent, input.childId, input.role))
  {
    if input.team.Some? {
      MembershipSpelled(reg, input.team.value, input.parent);
      JoinAnswers(reg, input.team.value, input.childId, input.role);
    }
  }

  /** A refused spawn is told about the first fence it fails: provider, depth, fan-out, membership, the right to mint a
      lead, budget, and then what the team says. */
  lemma FirstFenceIsNamed(reg: Registry, authorized: bool, budget: nat, input: Input)
    requires Spawn(reg, authorized, budget, input).2.Err?
    ensures var error := Spawn(reg, authorized, budget, input).2.error;
            if !authorized then error == ProviderNotAuthorized(input.provider)
            else if input.parentDepth >= 4 then
              error == Bus(DepthLimitExceeded(if input.parentDepth < 255 then input.parentDepth + 1 else 255, 4))
            else if input.parentDirectChildren >= 8 then
              error == Bus(FanOutLimitExceeded(
                             if input.parentDirectChildren < 0xFFFF_FFFF then input.parentDirectChildren + 1
                             else 0xFFFF_FFFF, 8))
            else if input.team.None? then error == InsufficientBudget(input.budgetTokens, budget)
            else
              var t := input.team.value;
              if !LiveMember(reg, t, input.parent) || (input.role == Some("lead") && !MadeOrLeads(reg, t, input.parent))
              then error == Bus(NotAuthorized(t, input.parent))
              else if input.budgetTokens > budget then error == InsufficientBudget(input.budgetTokens, budget)
              else if input.childId in reg.humans then error == Bus(HumanCannotJoinTeam(input.childId))
              else if t !in reg.teams || reg.teams[t].state != Active then error == Bus(TeamDraining(t))
              else error == Bus(TeamSizeLimitExceeded(Live(Roster(reg, t)) + 1, 32))
  {
    if input.team.Some? {
      MembershipSpelled(reg, input.team.value, input.parent);
      JoinAnswers(reg, input.team.value, input.childId, input.role);
    }
  }

  /** The child of a successful spawn joins its team in the role asked for, or as a worker. */
  lemma ChildJoinsAs(reg: Registry, authorized: bool, budget: nat, input: Input)
    requires Spawn(reg, authorized, budget, input).2.Ok? && input.team.Some?
    ensures var reg' := Spawn(reg, authorized, budget, input).0;
            var role := match input.role case Some(name) => name case None => "worker";
            Roster(reg', input.team.value)
            == Roster(reg, input.team.value) + [Membership(input.childId, role, false)]
  {
    JoinAnswers(reg, input.team.value, input.childId, input.role);
  }
}
