/**
 The in-process bus: bounded mailboxes, the idempotency ledger, the rate limiter, the repetition damper and the wait
 graph behind `Send`, `Poll` and `Requeue`. Every public method of the source is taken as one atomic step; `now` is
 the clock reading the source takes inside `send`.
*/
module LocalBuses {
  import opened Types
  import opened Mailboxes
  import opened RateLimits
  import opened EventSinks
  import W = WaitGraphs

  datatype BusState = BusState(
    boxes: map<SessionId, Box>, humans: set<SessionId>, notices: map<SessionId, seq<Envelope>>,
    ledger: set<(SessionId, MessageId)>, limiter: Limiter, damper: map<DamperKey, nat>)

  predicate FromHuman(st: BusState, e: Envelope) {
    e.from in st.humans || e.origin == User
  }

  function Notify(st: BusState, e: Envelope): BusState {
    st.(notices := st.notices[e.to := (if e.to in st.notices then st.notices[e.to] else []) + [e]])
  }

  /** The mailbox half of a send: human feed, missing mailbox, redelivery, overflow, or a real delivery. */
  function Deliver(st: BusState, e: Envelope): (BusState, Result<Unit, BusError>) {
    if e.to in st.humans then (Notify(st, e), Ok(Unit))
    else if e.to !in st.boxes then (st, Err(Ended(e.to)))
    else if (e.to, e.id) in st.ledger then (st, Ok(Unit))
    else if !HasRoom(st.boxes[e.to]) then (st, Err(MailboxFull(e.to, st.boxes[e.to].kind.capacity)))
    else (st.(boxes := st.boxes[e.to := Pushed(st.boxes[e.to], e)], ledger := st.ledger + {(e.to, e.id)}), Ok(Unit))
  }

  /** Everything a send is charged for before anybody looks at the recipient: a hop, a token (a human's send spends only
      its own), and an agent's repetition count. */
  ghost function Meter(st: BusState, e: Envelope, now: real): (r: (BusState, Result<Unit, BusError>))
    requires RateLimits.Valid(st.limiter)
    ensures RateLimits.Valid(r.0.limiter)
  {
    if e.ttlHops == 0 then (st, Err(TtlExpired))
    else
      var human := FromHuman(st, e);
      var (limiter', v) := Acquire(st.limiter, e.from, now, human);
      var metered := st.(limiter := limiter');
      var key := (e.from, e.to, e.subject);
      if !v.Admitted? then (metered, Reply(e.from, v))
      else if human then (metered, Ok(Unit))
      else if Count(st.damper, key) >= DAMPER_LIMIT then
        (metered.(damper := st.damper[key := Count(st.damper, key)]), Err(Repetitive(e.to, e.subject)))
      else (metered.(damper := st.damper[key := Count(st.damper, key) + 1]), Ok(Unit))
  }

  /** The charge is not undone when delivery fails. */
  ghost function AfterSend(st: BusState, e: Envelope, now: real): (r: (BusState, Result<Unit, BusError>))
    requires RateLimits.Valid(st.limiter)
    ensures RateLimits.Valid(r.0.limiter)
  {
    var (metered, r) := Meter(st, e, now);
    if r.Err? then (metered, r) else Deliver(metered, e.(ttlHops := e.ttlHops - 1))
  }

  function AfterPoll(st: BusState, s: SessionId): (BusState, Result<Option<Envelope>, BusError>) {
    if s !in st.boxes then (st, Err(Ended(s)))
    else if st.boxes[s].queue == [] then (st, Ok(None))
    else (st.(boxes := st.boxes[s := st.boxes[s].(queue := st.boxes[s].queue[1..])]), Ok(Some(st.boxes[s].queue[0])))
  }

  function AfterRequeue(st: BusState, e: Envelope): (BusState, Result<Unit, BusError>) {
    if e.to in st.humans then (Notify(st, e), Ok(Unit))
    else if e.to !in st.boxes then (st, Err(Ended(e.to)))
    else if !HasRoom(st.boxes[e.to]) then (st, Err(MailboxFull(e.to, st.boxes[e.to].kind.capacity)))
    else (st.(boxes := st.boxes[e.to := Pushed(st.boxes[e.to], e)]), Ok(Unit))
  }

  function Register(st: BusState, s: SessionId, kind: MailboxKind): BusState {
    if s in st.boxes then st else st.(boxes := st.boxes[s := Box(kind, [])])
  }

  class LocalBus {
    var mailboxes: map<SessionId, Mailbox>
    var humans: set<SessionId>
    var notices: map<SessionId, seq<Envelope>>
    const sink: EventSink
    const limiter: RateLimiter
    const damper: RepetitionDamper
    const waits: W.WaitGraph

    ghost function Repr(): set<object>
      reads this
    {
      {this, sink, limiter, damper, waits} + set s | s in mailboxes :: mailboxes[s]
    }

    /** No two sessions share a mailbox. */
    ghost predicate Valid()
      reads this, Repr()
    {
      && (forall s, t :: s in mailboxes && t in mailboxes && s != t ==> mailboxes[s] != mailboxes[t])
      && RateLimits.Valid(limiter.State())
    }

    ghost function State(): BusState
      reads this, Repr()
    {
      BusState(map s | s in mailboxes :: mailboxes[s].State(),
               humans, notices, sink.seen, limiter.State(), damper.counts)
    }

    constructor ()
      ensures Valid() && fresh(Repr())
      ensures State() == BusState(map[], {}, map[], {}, Default(), map[])
      ensures waits.edges == map[]
    {
      mailboxes, humans, notices := map[], {}, map[];
      sink := new EventSink();
      limiter := new RateLimiter(DEFAULT_RATE_PER_MIN, DEFAULT_BURST, GLOBAL_RATE_PER_MIN, GLOBAL_BURST);
      damper := new RepetitionDamper();
      waits := new W.WaitGraph();
    }

    method RegisterHuman(session: SessionId)
      requires Valid()
      modifies this
      ensures Valid() && State() == old(State()).(humans := old(humans) + {session})
      ensures mailboxes == old(mailboxes)
    {
      humans := humans + {session};
    }

    method RegisterMailbox(session: SessionId, kind: MailboxKind)
      requires Valid()
      modifies this
      ensures Valid() && State() == Register(old(State()), session, kind)
      ensures forall s :: s in mailboxes <==> s in old(mailboxes) || s == session
      ensures forall s :: s in old(mailboxes) ==> mailboxes[s] == old(mailboxes[s])
      ensures fresh(Repr() - old(Repr()))
    {
      if session !in mailboxes {
        var box := new Mailbox(kind);
        mailboxes := mailboxes[session := box];
      }
    }

    method DeregisterMailbox(session: SessionId)
      requires Valid()
      modifies this
      ensures Valid() && State() == old(State()).(boxes := old(State()).boxes - {session})
      ensures mailboxes == old(mailboxes) - {session}
    {
      mailboxes := mailboxes - {session};
    }

    method Send(envelope: Envelope, now: real) returns (r: Result<Unit, BusError>)
      requires Valid()
      modifies Repr()
      ensures Valid() && mailboxes == old(mailboxes)
      ensures (State(), r) == AfterSend(old(State()), envelope, now)
    {
      r := Charge(envelope, now);
      if r.Err? {
        return;
      }
      r := Hand(envelope.(ttlHops := envelope.ttlHops - 1));
    }

    /** The part of `send` that meters. */
    method Charge(envelope: Envelope, now: real) returns (r: Result<Unit, BusError>)
      requires Valid()
      modifies limiter, damper
      ensures Valid() && mailboxes == old(mailboxes)
      ensures (State(), r) == Meter(old(State()), envelope, now)
    {
      if envelope.ttlHops == 0 {
        return Err(TtlExpired);
      }
      var human := envelope.from in humans || envelope.origin == User;
      if human {
        r := limiter.TryAcquireSessionOnly(envelope.from, now);
      } else {
        r := limiter.TryAcquire(envelope.from, now);
      }
      assert State() == old(State()).(limiter := limiter.State());
      if r.Err? || human {
        return;
      }
      r := damper.CheckAndRecord(envelope.from, envelope.to, envelope.subject);
      assert State() == old(State()).(limiter := limiter.State(), damper := damper.counts);
    }

    /** The part of `send` after all metering. */
    method Hand(envelope: Envelope) returns (r: Result<Unit, BusError>)
      requires Valid()
      modifies Repr()
      ensures Valid() && mailboxes == old(mailboxes)
      ensures (State(), r) == Deliver(old(State()), envelope)
    {
      ghost var before := State();
      var to := envelope.to;
      if to in humans {
        notices := notices[to := (if to in notices then notices[to] else []) + [envelope]];
        assert State() == before.(notices := notices);
        return Ok(Unit);
      }
      if to !in mailboxes {
        return Err(Ended(to));
      }
      if sink.IsDuplicate(to, envelope.id) {
        return Ok(Unit);
      }
      r := mailboxes[to].Push(to, envelope);
      forall s | s in mailboxes && s != to
        ensures mailboxes[s].State() == before.boxes[s]
      {
        assert mailboxes[s] != mailboxes[to];
      }
      assert State().boxes == before.boxes[to := Pushed(before.boxes[to], envelope)];
      if r.Ok? {
        ghost var boxes := State().boxes;
        sink.RecordInbound(to, envelope.id);
        assert State() == before.(boxes := boxes, ledger := sink.seen);
      } else {
        assert State() == before;
      }
    }

    method Poll(session: SessionId) returns (r: Result<Option<Envelope>, BusError>)
      requires Valid()
      modifies Repr()
      ensures Valid() && mailboxes == old(mailboxes)
      ensures (State(), r) == AfterPoll(old(State()), session)
    {
      if session !in mailboxes {
        return Err(Ended(session));
      }
      ghost var before := State();
      var front := mailboxes[session].PopFront();
      forall s | s in mailboxes && s != session
        ensures mailboxes[s].State() == before.boxes[s]
      {
        assert mailboxes[s] != mailboxes[session];
      }
      assert State().boxes == before.boxes[session := mailboxes[session].State()];
      if front.None? { assert State().boxes == before.boxes; }
      if front.Some? { assert before.boxes[session].queue[1..] == mailboxes[session].queue; }
      assert State() == before.(boxes := State().boxes);
      return Ok(front);
    }

    method Requeue(envelope: Envelope) returns (r: Result<Unit, BusError>)
      requires Valid()
      modifies Repr()
      ensures Valid() && mailboxes == old(mailboxes)
      ensures (State(), r) == AfterRequeue(old(State()), envelope)
    {
      ghost var before := State();
      var to := envelope.to;
      if to in humans {
        notices := notices[to := (if to in notices then notices[to] else []) + [envelope]];
        assert State() == before.(notices := notices);
        return Ok(Unit);
      }
      if to !in mailboxes {
        return Err(Ended(to));
      }
      r := mailboxes[to].Push(to, envelope);
      forall s | s in mailboxes && s != to
        ensures mailboxes[s].State() == before.boxes[s]
      {
        assert mailboxes[s] != mailboxes[to];
      }
      assert State().boxes == before.boxes[to := Pushed(before.boxes[to], envelope)];
      assert State() == before.(boxes := State().boxes);
      if r.Err? { assert State() == before; }
    }
  }
}
