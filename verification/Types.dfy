/** Vocabulary shared by the bus and spawn models. */
module Types {

  // A UUID is only ever compared for equality, so a number stands in for it.
  type SessionId = int
  type TeamId = int
  type WorkspaceId = int
  type MessageId = int

  const U8_MAX: nat := 0xFF
  const U32_MAX: nat := 0xFFFF_FFFF
  const U64_MAX: nat := 0xFFFF_FFFF_FFFF_FFFF

  datatype Option<+T> = None | Some(value: T)

  datatype Result<+T, +E> = Ok(value: T) | Err(error: E)

  // The payload of a call that succeeds with nothing to report.
  datatype Unit = Unit

  /** The refusals the bus, the teams and the spawn executor return. */
  datatype BusError =
    | Ended(session: SessionId)
    | MailboxFull(session: SessionId, capacity: nat)
    | WaitWouldDeadlock(waiter: SessionId, blockedOn: SessionId, cycle: seq<SessionId>)
    | RateLimited(session: SessionId, retryAfterMs: nat)
    | Repetitive(to: SessionId, subject: string)
    | TtlExpired
    | DepthLimitExceeded(depth: nat, maxDepth: nat)
    | FanOutLimitExceeded(count: nat, max: nat)
    | TeamSizeLimitExceeded(count: nat, max: nat)
    | TeamDraining(team: TeamId)
    | NotAuthorized(team: TeamId, caller: SessionId)
    | HumanCannotJoinTeam(session: SessionId)

  function Min(a: real, b: real): real {
    if a <= b then a else b
  }

  /** No element occurs twice. */
  ghost predicate NoDup<T>(s: seq<T>) {
    forall i, j :: 0 <= i < j < |s| ==> s[i] != s[j]
  }

  lemma NoDupAppend<T>(a: seq<T>, b: seq<T>)
    requires NoDup(a) && NoDup(b) && forall x :: x in a ==> x !in b
    ensures NoDup(a + b)
  {
    forall i, j | 0 <= i < j < |a + b|
      ensures (a + b)[i] != (a + b)[j]
    {
      if i < |a| <= j {
        assert (a + b)[i] in a && (a + b)[j] in b;
      }
    }
  }

  /** A nonempty set has a member to start from. */
  lemma Pick<T(!new)>(s: set<T>) returns (x: T)
    requires s != {}
    ensures x in s
  {
    assert (forall y :: y !in s) ==> s == {};
    x :| x in s;
  }
}
