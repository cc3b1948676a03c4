/** Teams: who is on which roster, and the one-way road from active to draining. */
module Teams {
  import opened Types
  import opened Limits

  datatype TeamState = Active | Draining | Closed

  datatype Team = Team(workspace: WorkspaceId, createdBy: SessionId, state: TeamState)

  datatype Membership = Membership(session: SessionId, role: string, ended: bool)

  datatype Registry = Registry(teams: map<TeamId, Team>, rosters: map<TeamId, seq<Membership>>, humans: set<SessionId>)

  function Roster(reg: Registry, team: TeamId): seq<Membership> {
    if team in reg.rosters then reg.rosters[team] else []
  }

  /** Members that have not ended. */
  function Live(ms: seq<Membership>): nat {
    if ms == [] then 0 else (if ms[0].ended then 0 else 1) + Live(ms[1..])
  }

  predicate IsMember(reg: Registry, team: TeamId, session: SessionId) {
    exists m :: m in Roster(reg, team) && m.session == session && !m.ended
  }

  predicate IsLead(reg: Registry, team: TeamId, session: SessionId) {
    || (team in reg.teams && reg.teams[team].createdBy == session)
    || exists m :: m in Roster(reg, team) && m.session == session && m.role == "lead"
  }

  function StateOf(reg: Registry, team: TeamId): TeamState {
    if team in reg.teams then reg.teams[team].state else Closed
  }

  function EndMember(ms: seq<Membership>, session: SessionId): (r: seq<Membership>)
    ensures |r| == |ms|
  {
    if ms == [] then []
    else [if ms[0].session == session then ms[0].(ended := true) else ms[0]] + EndMember(ms[1..], session)
  }

  predicate AllEnded(ms: seq<Membership>) {
    ms != [] && forall m :: m in ms ==> m.ended
  }

  function Reaped(reg: Registry, id: TeamId): Team
    requires id in reg.teams
  {
    var t := reg.teams[id];
    if t.state == Draining && AllEnded(Roster(reg, id)) then t.(state := Closed) else t
  }

  datatype TeamOp =
    | MarkedHuman(session: SessionId)
    | Create(team: TeamId, workspace: WorkspaceId, creator: SessionId, creatorRole: string)
    | Joined(team: TeamId, session: SessionId, role: Option<string>)
    | Drained(team: TeamId)
    | MarkEnded(team: TeamId, session: SessionId)
    | Reap

  /** A join also leaves an empty roster behind when the team has none and is full from the start; the size limit being
      positive, that never happens. */
  function JoinResult(reg: Registry, team: TeamId, session: SessionId, role: Option<string>)
    : (Registry, Result<Unit, BusError>)
  {
    if session in reg.humans then (reg, Err(HumanCannotJoinTeam(session)))
    else if StateOf(reg, team) != Active then (reg, Err(TeamDraining(team)))
    else
      var ms := Roster(reg, team);
      var slotted := reg.(rosters := reg.rosters[team := ms]);
      match CheckTeamSize(Live(ms) + 1)
      case Err(e) => (slotted, Err(e))
      case Ok(_) =>
        var member := Membership(session, if role.Some? then role.value else "worker", false);
        (reg.(rosters := reg.rosters[team := ms + [member]]), Ok(Unit))
  }

  /** `id` is minted by the registry; a taken one models nothing and changes nothing. */
  function CreateResult(reg: Registry, id: TeamId, workspace: WorkspaceId, creator: SessionId, role: string):
    (Registry, Result<TeamId, BusError>)
  {
    if creator in reg.humans then (reg, Err(HumanCannotJoinTeam(creator)))
    else
      (reg.(teams := reg.teams[id := Team(workspace, creator, Active)],
            rosters := reg.rosters[id := Roster(reg, id) + [Membership(creator, role, false)]]), Ok(id))
  }

  function Step(reg: Registry, op: TeamOp): Registry {
    match op
    case MarkedHuman(s) => reg.(humans := reg.humans + {s})
    case Create(id, w, c, role) => if id in reg.teams || id in reg.rosters then reg
        else CreateResult(reg, id, w, c, role).0
    case Joined(t, s, role) => JoinResult(reg, t, s, role).0
    case Drained(t) =>
      if t in reg.teams then reg.(teams := reg.teams[t := reg.teams[t].(state := Draining)]) else reg
    case MarkEnded(t, s) =>
      if t in reg.rosters then reg.(rosters := reg.rosters[t := EndMember(reg.rosters[t], s)]) else reg
    case Reap => reg.(teams := map id | id in reg.teams :: Reaped(reg, id))
  }

  function Run(reg: Registry, ops: seq<TeamOp>): Registry
    decreases |ops|
  {
    if ops == [] then reg else Run(Step(reg, ops[0]), ops[1..])
  }

  class TeamRegistry {
    var teams: map<TeamId, Team>
    var rosters: map<TeamId, seq<Membership>>
    var humans: set<SessionId>

    function State(): Registry
      reads this
    {
      Registry(teams, rosters, humans)
    }

    constructor ()
      ensures State() == Registry(map[], map[], {})
    {
      teams, rosters, humans := map[], map[], {};
    }

    method MarkHuman(session: SessionId)
      modifies this
      ensures State() == Step(old(State()), MarkedHuman(session))
      ensures humans == old(humans) + {session} && teams == old(teams) && rosters == old(rosters)
    {
      humans := humans + {session};
    }

    method CreateTeam(id: TeamId, workspace: WorkspaceId, creator: SessionId, role: string)
      returns (r: Result<TeamId, BusError>)
      requires id !in teams && id !in rosters
      modifies this
      ensures (State(), r) == CreateResult(old(State()), id, workspace, creator, role)
      ensures State() == Step(old(State()), Create(id, workspace, creator, role))
    {
      if creator in humans {
        return Err(HumanCannotJoinTeam(creator));
      }
      teams := teams[id := Team(workspace, creator, Active)];
      var first := Membership(creator, role, false);
      assert [] + [first] == [first];
      rosters := rosters[id := [first]];
      return Ok(id);
    }

    method Join(team: TeamId, session: SessionId, role: Option<string>) returns (r: Result<Unit, BusError>)
      modifies this
      ensures (State(), r) == JoinResult(old(State()), team, session, role)
    {
      if session in humans {
        return Err(HumanCannotJoinTeam(session));
      }
      var state := if team in teams then teams[team].state else Closed;
      if state == Draining || state == Closed {
        return Err(TeamDraining(team));
      }
      r := SaveMembershipChecked(team, Membership(session, if role.Some? then role.value else "worker", false));
    }

    /** Counts the live members and inserts, in one step. */
    method SaveMembershipChecked(team: TeamId, member: Membership) returns (r: Result<Unit, BusError>)
      modifies this`rosters
      ensures r == CheckTeamSize(Live(Roster(old(State()), team)) + 1)
      ensures rosters == old(rosters)[team :=
                if r.Ok? then Roster(old(State()), team) + [member] else Roster(old(State()), team)]
    {
      var slot := if team in rosters then rosters[team] else [];
      var current := 0;
      for i := 0 to |slot|
        invariant current + Live(slot[i..]) == Live(slot)
      {
        assert slot[i..][1..] == slot[i + 1..];
        if !slot[i].ended { current := current + 1; }
      }
      assert slot[0..] == slot && slot[|slot|..] == [];
      rosters := rosters[team := slot];
      r := CheckTeamSize(current + 1);
      if r.Ok? {
        rosters := rosters[team := slot + [member]];
      }
    }

    method BeginDraining(team: TeamId)
      modifies this
      ensures State() == Step(old(State()), Drained(team))
    {
      if team in teams {
        teams := teams[team := teams[team].(state := Draining)];
      }
    }

    method MarkMemberEnded(team: TeamId, session: SessionId)
      modifies this
      ensures State() == Step(old(State()), MarkEnded(team, session))
    {
      if team in rosters {
        var done := MarkEach(rosters[team], session);
        rosters := rosters[team := done];
      }
    }

    method ReapEnded()
      modifies this
      ensures State() == Step(old(State()), Reap)
    {
      var left := teams.Keys;
      ghost var before := State();
      while left != {}
        invariant left <= teams.Keys == before.teams.Keys
        invariant rosters == before.rosters && humans == before.humans
        invariant forall id :: id in teams ==>
                    teams[id] == if id in left then before.teams[id] else Reaped(before, id)
      {
        ghost var some := Pick(left);
        var id :| id in left;
        left := left - {id};
        if teams[id].state == Draining && AllEnded(if id in rosters then rosters[id] else []) {
          teams := teams[id := teams[id].(state := Closed)];
        }
      }
    }
  }

  method MarkEach(ms: seq<Membership>, session: SessionId) returns (done: seq<Membership>)
    ensures done == EndMember(ms, session)
  {
    done := [];
    for i := 0 to |ms|
      invariant |done| == i && done + EndMember(ms[i..], session) == EndMember(ms, session)
    {
      EndNext(ms, session, i, done);
      done := done + [if ms[i].session == session then ms[i].(ended := true) else ms[i]];
    }
    assert EndMember(ms[|ms|..], session) == [] && done + [] == done;
  }

  lemma EndNext(ms: seq<Membership>, session: SessionId, i: nat, done: seq<Membership>)
    requires i < |ms|
    ensures var m := if ms[i].session == session then ms[i].(ended := true) else ms[i];
            done + EndMember(ms[i..], session) == (done + [m]) + EndMember(ms[i + 1..], session)
  {
    assert ms[i..][1..] == ms[i + 1..];
  }

  // ----- what each operation does -----

  lemma {:induction false} LiveIsCount(ms: seq<Membership>)
    ensures Live(ms) == 0 <==> forall m :: m in ms ==> m.ended
    ensures Live(ms) <= |ms|
  {
    if ms != [] {
      LiveIsCount(ms[1..]);
      assert ms == [ms[0]] + ms[1..];
    }
  }

  /** Reaping closes exactly the draining teams that have members, none of them live, and changes nothing else. */
  lemma ReapClosesExactly(reg: Registry, t: TeamId)
    requires t in reg.teams
    ensures var reg' := Step(reg, Reap);
            && reg' == reg.(teams := reg'.teams) && reg'.teams.Keys == reg.teams.Keys
            && reg'.teams[t] == reg.teams[t].(state := reg'.teams[t].state)
            && reg'.teams[t].state
               == if reg.teams[t].state == Draining && Roster(reg, t) != [] && Live(Roster(reg, t)) == 0 then Closed
                  else reg.teams[t].state
  {
    LiveIsCount(Roster(reg, t));
  }

  /** Ending a member ends that session's memberships of that team, and only those. */
  lemma {:induction false} EndMemberAt(ms: seq<Membership>, s: SessionId, i: nat)
    requires i < |ms|
    ensures EndMember(ms, s)[i].session == ms[i].session && EndMember(ms, s)[i].role == ms[i].role
    ensures EndMember(ms, s)[i].ended <==> ms[i].ended || ms[i].session == s
  {
    if i > 0 { EndMemberAt(ms[1..], s, i - 1); }
  }

  lemma EndedIsNoMember(reg: Registry, t: TeamId, s: SessionId)
    ensures !IsMember(Step(reg, MarkEnded(t, s)), t, s)
  {
    if t in reg.rosters {
      var ms := EndMember(reg.rosters[t], s);
      forall i | 0 <= i < |ms|
        ensures !(ms[i].session == s && !ms[i].ended)
      {
        EndMemberAt(reg.rosters[t], s, i);
      }
    }
  }

  /** A new team is active, made by its creator, who is its one member in the role asked for; a human makes none. */
  lemma CreateAnswers(reg: Registry, id: TeamId, w: WorkspaceId, creator: SessionId, role: string)
    requires id !in reg.teams && id !in reg.rosters
    ensures var (reg', r) := CreateResult(reg, id, w, creator, role);
            if creator in reg.humans then r == Err(HumanCannotJoinTeam(creator)) && reg' == reg
            else
              && r == Ok(id) && reg'.humans == reg.humans
              && (forall x :: x in reg'.teams <==> x in reg.teams || x == id)
              && (forall x :: x in reg'.teams ==>
                    reg'.teams[x] == if x == id then Team(w, creator, Active) else reg.teams[x])
              && forall x :: Roster(reg', x) == if x == id then [Membership(creator, role, false)] else Roster(reg, x)
  {
    assert [] + [Membership(creator, role, false)] == [Membership(creator, role, false)];
  }

  /** Who may join, what a refusal says, and what a join leaves behind. */
  lemma JoinAnswers(reg: Registry, t: TeamId, s: SessionId, role: Option<string>)
    ensures var r, live := JoinResult(reg, t, s, role).1, Live(Roster(reg, t));
            r == if s in reg.humans then Err(HumanCannotJoinTeam(s))
                 else if t !in reg.teams || reg.teams[t].state != Active then Err(TeamDraining(t))
                 else if live >= 32 then Err(TeamSizeLimitExceeded(live + 1, 32))
                 else Ok(Unit)
    ensures var (reg', r) := JoinResult(reg, t, s, role);
            var member := Membership(s, match role case Some(name) => name case None => "worker", false);
            && reg'.teams == reg.teams && reg'.humans == reg.humans
            && forall x :: Roster(reg', x) == Roster(reg, x) + if x == t && r.Ok? then [member] else []
  {
  }

  // ----- what every run keeps -----

  ghost predicate WithinSize(reg: Registry) {
    forall t :: Live(Roster(reg, t)) <= 32
  }

  lemma {:induction false} LiveAppend(ms: seq<Membership>, m: Membership)
    ensures Live(ms + [m]) == Live(ms) + (if m.ended then 0 else 1)
  {
    if ms == [] {
      assert ms + [m] == [m];
    } else {
      assert (ms + [m])[1..] == ms[1..] + [m];
      LiveAppend(ms[1..], m);
    }
  }

  lemma {:induction false} EndMemberLowers(ms: seq<Membership>, s: SessionId)
    ensures Live(EndMember(ms, s)) <= Live(ms)
    ensures forall x :: OnRoster(EndMember(ms, s), x) <==> OnRoster(ms, x)
  {
    if ms != [] {
      EndMemberLowers(ms[1..], s);
      var r := EndMember(ms, s);
      assert r[1..] == EndMember(ms[1..], s);
      forall x
        ensures OnRoster(r, x) <==> OnRoster(ms, x)
      {
        OnRosterCons(ms, x);
        OnRosterCons(r, x);
      }
    }
  }

  ghost predicate OnRoster(ms: seq<Membership>, x: SessionId) {
    exists m :: m in ms && m.session == x
  }

  lemma OnRosterCons(ms: seq<Membership>, x: SessionId)
    requires ms != []
    ensures OnRoster(ms, x) <==> ms[0].session == x || OnRoster(ms[1..], x)
  {
    assert ms == [ms[0]] + ms[1..];
    assert ms[0] in ms;
  }

  lemma StepWithinSize(reg: Registry, op: TeamOp)
    requires WithinSize(reg)
    ensures WithinSize(Step(reg, op))
  {
    forall t
      ensures Live(Roster(Step(reg, op), t)) <= 32
    {
      assert Live(Roster(reg, t)) <= 32;
      match op
      case Joined(_, s, role) =>
        LiveAppend(Roster(reg, t), Membership(s, if role.Some? then role.value else "worker", false));
      case Create(_, _, c, role) => LiveAppend([], Membership(c, role, false));
      case MarkEnded(_, s) => EndMemberLowers(Roster(reg, t), s);
      case _ =>
    }
  }

  /** No run ever puts more than `MAX_TEAM_SIZE` live members on a team. */
  lemma {:induction false} TeamsNeverOverflow(reg: Registry, ops: seq<TeamOp>)
    requires WithinSize(reg)
    ensures WithinSize(Run(reg, ops))
    decreases |ops|
  {
    if ops != [] {
      StepWithinSize(reg, ops[0]);
      TeamsNeverOverflow(Step(reg, ops[0]), ops[1..]);
    }
  }

  /** The team exists, is no longer active, and has exactly the members in `who`. */
  ghost predicate Retired(reg: Registry, t: TeamId, who: iset<SessionId>) {
    && t in reg.teams && reg.teams[t].state != Active
    && forall x :: x in who <==> OnRoster(Roster(reg, t), x)
  }

  lemma StepRetired(reg: Registry, op: TeamOp, t: TeamId, who: iset<SessionId>)
    requires Retired(reg, t, who)
    ensures Retired(Step(reg, op), t, who)
  {
    if op.MarkEnded? && op.team == t { EndMemberLowers(Roster(reg, t), op.session); }
  }

  /** A team that stops being active never becomes active again, and nobody joins it any more. */
  lemma {:induction false} DrainingIsOneWay(reg: Registry, ops: seq<TeamOp>, t: TeamId, who: iset<SessionId>)
    requires Retired(reg, t, who)
    ensures Retired(Run(reg, ops), t, who)
    decreases |ops|
  {
    if ops != [] {
      StepRetired(reg, ops[0], t, who);
      DrainingIsOneWay(Step(reg, ops[0]), ops[1..], t, who);
    }
  }

  ghost predicate ClosedThroughout(reg: Registry, ops: seq<TeamOp>, t: TeamId) {
    forall k :: 0 <= k <= |ops| ==> StateOf(Run(reg, ops[..k]), t) == Closed
  }

  /** Closed is not final: a closed team stays closed all through a run exactly when the run never drains it. */
  lemma {:induction false} ClosedUntilDrained(reg: Registry, ops: seq<TeamOp>, t: TeamId)
    requires t in reg.teams && reg.teams[t].state == Closed
    ensures ClosedThroughout(reg, ops, t) <==> Drained(t) !in ops
    decreases |ops|
  {
    assert ops[..0] == [];
    if ops != [] {
      var next := Step(reg, ops[0]);
      assert ops == [ops[0]] + ops[1..];
      forall k | 0 < k <= |ops|
        ensures Run(reg, ops[..k]) == Run(next, ops[1..][..k - 1])
      {
        assert ops[..k][0] == ops[0] && ops[..k][1..] == ops[1..][..k - 1];
      }
      if ops[0] == Drained(t) {
        assert ops[1..][..0] == [];
        assert StateOf(Run(reg, ops[..1]), t) == Draining;
      } else {
        ClosedUntilDrained(next, ops[1..], t);
        ClosedTail(reg, ops, t);
      }
    }
  }

  lemma ClosedTail(reg: Registry, ops: seq<TeamOp>, t: TeamId)
    requires ops != [] && StateOf(reg, t) == Closed
    requires forall k :: 0 < k <= |ops| ==> Run(reg, ops[..k]) == Run(Step(reg, ops[0]), ops[1..][..k - 1])
    ensures ClosedThroughout(reg, ops, t) <==> ClosedThroughout(Step(reg, ops[0]), ops[1..], t)
  {
    assert ops[..0] == [];
    if ClosedThroughout(reg, ops, t) {
      forall k | 0 <= k <= |ops[1..]|
        ensures StateOf(Run(Step(reg, ops[0]), ops[1..][..k]), t) == Closed
      {
        assert StateOf(Run(reg, ops[..k + 1]), t) == Closed;
      }
    }
  }

  /** A human who is on no roster is never put on one. */
  lemma {:induction false} HumansStayOff(reg: Registry, ops: seq<TeamOp>, h: SessionId)
    requires h in reg.humans && forall t :: !OnRoster(Roster(reg, t), h)
    ensures forall t :: !OnRoster(Roster(Run(reg, ops), t), h)
    decreases |ops|
  {
    if ops != [] {
      var reg' := Step(reg, ops[0]);
      forall t
        ensures !OnRoster(Roster(reg', t), h)
      {
        assert !OnRoster(Roster(reg, t), h);
        if ops[0].MarkEnded? { EndMemberLowers(Roster(reg, t), ops[0].session); }
      }
      HumansStayOff(reg', ops[1..], h);
    }
  }
}
