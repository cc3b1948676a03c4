/** Laws of the bus over whole runs: nothing queued is lost, reordered or delivered twice. */
module BusLaws {
  import opened Types
  import opened Mailboxes
  import opened LocalBuses
  import opened RateLimits

  /** `NoteOp` is the damper's own reset, which nothing in the repository calls yet. */
  datatype BusOp =
    | RegisterHumanOp(session: SessionId)
    | RegisterOp(session: SessionId, kind: MailboxKind)
    | DeregisterOp(session: SessionId)
    | SendOp(envelope: Envelope, now: real)
    | PollOp(session: SessionId)
    | RequeueOp(envelope: Envelope)
    | NoteOp(key: DamperKey)

  ghost predicate Metered(st: BusState) {
    RateLimits.Valid(st.limiter)
  }

  ghost function Step(st: BusState, op: BusOp): (r: BusState)
    requires Metered(st)
    ensures Metered(r)
  {
    match op
    case RegisterHumanOp(s) => st.(humans := st.humans + {s})
    case RegisterOp(s, kind) => Register(st, s, kind)
    case DeregisterOp(s) => st.(boxes := st.boxes - {s})
    case SendOp(e, now) => AfterSend(st, e, now).0
    case PollOp(s) => AfterPoll(st, s).0
    case RequeueOp(e) => AfterRequeue(st, e).0
    case NoteOp(k) => st.(damper := st.damper - {k})
  }

  ghost function Run(st: BusState, ops: seq<BusOp>): (r: BusState)
    requires Metered(st)
    ensures Metered(r)
    decreases |ops|
  {
    if ops == [] then st else Run(Step(st, ops[0]), ops[1..])
  }

  function QueueOf(st: BusState, s: SessionId): seq<Envelope> {
    if s in st.boxes then st.boxes[s].queue else []
  }

  /** What a successful, non-duplicate send to an ordinary session puts into the queue of `s`. */
  ghost function SentInto(st: BusState, op: BusOp, s: SessionId): seq<Envelope>
    requires Metered(st)
  {
    if op.SendOp? && op.envelope.to == s && AfterSend(st, op.envelope, op.now).1.Ok?
       && s !in st.humans && (s, op.envelope.id) !in st.ledger
    then [op.envelope.(ttlHops := op.envelope.ttlHops - 1)] else []
  }

  ghost function RequeuedInto(st: BusState, op: BusOp, s: SessionId): seq<Envelope> {
    if op.RequeueOp? && op.envelope.to == s && s !in st.humans && AfterRequeue(st, op.envelope).1.Ok?
        then [op.envelope] else []
  }

  /** What a poll hands out, or closing the mailbox throws away. */
  ghost function TakenFrom(st: BusState, op: BusOp, s: SessionId): seq<Envelope> {
    if op.PollOp? && op.session == s && AfterPoll(st, s).1.Ok? && AfterPoll(st, s).1.value.Some?
        then [AfterPoll(st, s).1.value.value]
    else if op.DeregisterOp? && op.session == s then QueueOf(st, s)
    else []
  }

  ghost function Entered(st: BusState, ops: seq<BusOp>, s: SessionId): seq<Envelope>
    requires Metered(st)
    decreases |ops|
  {
    if ops == [] then []
    else SentInto(st, ops[0], s) + RequeuedInto(st, ops[0], s) + Entered(Step(st, ops[0]), ops[1..], s)
  }

  ghost function Sent(st: BusState, ops: seq<BusOp>, s: SessionId): seq<Envelope>
    requires Metered(st)
    decreases |ops|
  {
    if ops == [] then [] else SentInto(st, ops[0], s) + Sent(Step(st, ops[0]), ops[1..], s)
  }

  ghost function Taken(st: BusState, ops: seq<BusOp>, s: SessionId): seq<Envelope>
    requires Metered(st)
    decreases |ops|
  {
    if ops == [] then [] else TakenFrom(st, ops[0], s) + Taken(Step(st, ops[0]), ops[1..], s)
  }

  // ----- conservation, in order -----

  lemma {:induction false} StepConserves(st: BusState, op: BusOp, s: SessionId)
    requires Metered(st)
    ensures TakenFrom(st, op, s) + QueueOf(Step(st, op), s) == QueueOf(st, s) + SentInto(st, op, s)
            + RequeuedInto(st, op, s)
  {
    if op.SendOp? {
      SendBoxes(st, op.envelope, op.now);
    } else {
      OtherStepConserves(st, op, s);
    }
  }

  lemma {:induction false} OtherStepConserves(st: BusState, op: BusOp, s: SessionId)
    requires Metered(st) && !op.SendOp?
    ensures TakenFrom(st, op, s) + QueueOf(Step(st, op), s) == QueueOf(st, s) + RequeuedInto(st, op, s)
    ensures SentInto(st, op, s) == []
  {
  }

  /** The only boxes a send touches, and how. */
  lemma {:induction false} SendBoxes(st: BusState, e: Envelope, now: real)
    requires Metered(st)
    ensures var st' := AfterSend(st, e, now).0; var sent := SentInto(st, SendOp(e, now), e.to);
            && st'.boxes == (if sent == [] then st.boxes
                             else st.boxes[e.to := st.boxes[e.to].(queue := st.boxes[e.to].queue + sent)])
            && (sent != [] ==> e.to in st.boxes && HasRoom(st.boxes[e.to]) && |sent| == 1 && sent[0].to == e.to)
  {
  }

  /** Whatever happens, what left a session's queue followed by what is still in it is what was in it followed by what
      entered it: nothing is lost, invented or overtaken. */
  lemma {:induction false} QueuesAreFifo(st: BusState, ops: seq<BusOp>, s: SessionId)
    requires Metered(st)
    ensures Taken(st, ops, s) + QueueOf(Run(st, ops), s) == QueueOf(st, s) + Entered(st, ops, s)
    decreases |ops|
  {
    if ops != [] {
      StepConserves(st, ops[0], s);
      QueuesAreFifo(Step(st, ops[0]), ops[1..], s);
      var st' := Step(st, ops[0]);
      Regroup(TakenFrom(st, ops[0], s), Taken(st', ops[1..], s), QueueOf(Run(st, ops), s), QueueOf(st', s),
              Entered(st', ops[1..], s), QueueOf(st, s), SentInto(st, ops[0], s) + RequeuedInto(st, ops[0], s));
    }
  }

  lemma Regroup<T>(t0: seq<T>, t1: seq<T>, end: seq<T>, mid: seq<T>, e1: seq<T>, q: seq<T>, e0: seq<T>)
    requires t0 + mid == q + e0 && t1 + end == mid + e1
    ensures (t0 + t1) + end == q + (e0 + e1)
  {
    assert (t0 + t1) + end == t0 + (t1 + end);
    assert t0 + (mid + e1) == (t0 + mid) + e1;
    assert (q + e0) + e1 == q + (e0 + e1);
  }

  /** Without requeues, what entered a queue is exactly what was sent to it. */
  lemma {:induction false} OnlySendsEnter(st: BusState, ops: seq<BusOp>, s: SessionId)
    requires Metered(st) && forall op :: op in ops ==> !op.RequeueOp?
    ensures Entered(st, ops, s) == Sent(st, ops, s)
    decreases |ops|
  {
    if ops != [] {
      assert ops[0] in ops;
      OnlySendsEnter(Step(st, ops[0]), ops[1..], s);
    }
  }

  function From(es: seq<Envelope>, sender: SessionId): seq<Envelope> {
    if es == [] then [] else (if es[0].from == sender then [es[0]] else []) + From(es[1..], sender)
  }

  lemma SumAssoc(a: seq<Envelope>, b: seq<Envelope>, c: seq<Envelope>)
    ensures a + (b + c) == (a + b) + c
  {
  }

  lemma {:induction false} FromAppend(a: seq<Envelope>, b: seq<Envelope>, sender: SessionId)
    ensures From(a + b, sender) == From(a, sender) + From(b, sender)
  {
    if a == [] {
      assert a + b == b;
    } else {
      assert (a + b)[0] == a[0] && (a + b)[1..] == a[1..] + b;
      FromAppend(a[1..], b, sender);
      SumAssoc(if a[0].from == sender then [a[0]] else [], From(a[1..], sender), From(b, sender));
    }
  }

  /** Per sender and recipient, what comes out is, in order, what was in and what went in: over any run. */
  lemma {:induction false} SenderOrderOverRun(st: BusState, ops: seq<BusOp>, s: SessionId, sender: SessionId)
    requires Metered(st)
    ensures From(Taken(st, ops, s), sender) + From(QueueOf(Run(st, ops), s), sender)
            == From(QueueOf(st, s), sender) + From(Entered(st, ops, s), sender)
  {
    QueuesAreFifo(st, ops, s);
    FromAppend(Taken(st, ops, s), QueueOf(Run(st, ops), s), sender);
    FromAppend(QueueOf(st, s), Entered(st, ops, s), sender);
  }

  lemma {:induction false} OthersRequeued(st: BusState, ops: seq<BusOp>, s: SessionId, sender: SessionId)
    requires Metered(st)
    requires forall op :: op in ops && op.RequeueOp? && op.envelope.to == s ==> op.envelope.from != sender
    ensures From(Entered(st, ops, s), sender) == From(Sent(st, ops, s), sender)
    decreases |ops|
  {
    if ops != [] {
      assert ops[0] in ops;
      var st' := Step(st, ops[0]);
      var sent, back := SentInto(st, ops[0], s), RequeuedInto(st, ops[0], s);
      OthersRequeued(st', ops[1..], s, sender);
      FromAppend(sent + back, Entered(st', ops[1..], s), sender);
      FromAppend(sent, back, sender);
      FromAppend(sent, Sent(st', ops[1..], s), sender);
      assert From(back, sender) == [] by {
        if back != [] { assert back[1..] == []; }
      }
    }
  }

  /** The documented ordering promise: per (sender, recipient) pair, envelopes come out in the order they were sent,
      over any run that puts back none of that sender's own. Other senders' envelopes may be put back at will. */
  lemma {:induction false} FifoPerSender(st: BusState, ops: seq<BusOp>, s: SessionId, sender: SessionId)
    requires Metered(st)
    requires forall op :: op in ops && op.RequeueOp? && op.envelope.to == s ==> op.envelope.from != sender
    ensures From(Taken(st, ops, s), sender) + From(QueueOf(Run(st, ops), s), sender)
            == From(QueueOf(st, s), sender) + From(Sent(st, ops, s), sender)
  {
    SenderOrderOverRun(st, ops, s, sender);
    OthersRequeued(st, ops, s, sender);
  }

  // ----- effectively once -----

  function Ids(es: seq<Envelope>): seq<MessageId> {
    if es == [] then [] else [es[0].id] + Ids(es[1..])
  }

  lemma {:induction false} StepLedger(st: BusState, op: BusOp, s: SessionId)
    requires Metered(st)
    ensures forall id :: (s, id) in Step(st, op).ledger <==> (s, id) in st.ledger || id in Ids(SentInto(st, op, s))
    ensures forall id :: id in Ids(SentInto(st, op, s)) ==> (s, id) !in st.ledger
    ensures NoDup(Ids(SentInto(st, op, s)))
  {
    var sent := SentInto(st, op, s);
    if sent != [] {
      assert sent[1..] == [];
      assert Ids(sent) == [op.envelope.id];
    }
  }

  lemma {:induction false} IdsAppend(a: seq<Envelope>, b: seq<Envelope>)
    ensures Ids(a + b) == Ids(a) + Ids(b)
  {
    if a == [] {
      assert a + b == b;
    } else {
      assert (a + b)[0] == a[0] && (a + b)[1..] == a[1..] + b;
      IdsAppend(a[1..], b);
    }
  }

  /** Over any run, polls, requeues and closed mailboxes included, no message id is ever queued twice for a session, and
      the ledger grows by exactly the ids queued. */
  lemma {:induction false} DeliveredAtMostOnce(st: BusState, ops: seq<BusOp>, s: SessionId)
    requires Metered(st)
    ensures NoDup(Ids(Sent(st, ops, s)))
    ensures forall id :: id in Ids(Sent(st, ops, s)) ==> (s, id) !in st.ledger
    ensures forall id :: (s, id) in Run(st, ops).ledger <==> (s, id) in st.ledger || id in Ids(Sent(st, ops, s))
    decreases |ops|
  {
    if ops != [] {
      var st' := Step(st, ops[0]);
      StepLedger(st, ops[0], s);
      DeliveredAtMostOnce(st', ops[1..], s);
      var now, later := Ids(SentInto(st, ops[0], s)), Ids(Sent(st', ops[1..], s));
      IdsAppend(SentInto(st, ops[0], s), Sent(st', ops[1..], s));
      assert forall id :: id in now ==> id !in later;
      NoDupAppend(now, later);
    }
  }

  /** A send that fails has delivered nothing: queues, ledger and human feeds are untouched, so the same envelope can
      be sent again. */
  lemma {:induction false} FailedSendDeliversNothing(st: BusState, e: Envelope, now: real)
    requires Metered(st) && AfterSend(st, e, now).1.Err?
    ensures var st' := AfterSend(st, e, now).0;
            st'.boxes == st.boxes && st'.ledger == st.ledger && st'.notices == st.notices
  {
  }

  /** After a bounce on a full mailbox and one poll, the same envelope can be sent again: it arrives exactly when the
      meters let it through once more and the mailbox has any capacity at all, and then it is queued at the back with
      one hop less. The bounce was charged in full: a token, and for an agent a repetition. */
  lemma {:induction false} BounceCanBeRetried(st: BusState, e: Envelope, now: real, st': BusState, later: real)
    requires Metered(st) && Tidy(st) && AfterSend(st, e, now).1.Err? && AfterSend(st, e, now).1.error.MailboxFull?
    requires st' == AfterPoll(AfterSend(st, e, now).0, e.to).0
    ensures e.to in st.boxes && st.boxes[e.to].kind.Bounded?
    ensures AfterSend(st', e, later).1.Ok? <==> Meter(st', e, later).1.Ok? && st.boxes[e.to].kind.capacity > 0
    ensures AfterSend(st', e, later).1.Ok? ==>
              QueueOf(st, e.to) != []
              && QueueOf(AfterSend(st', e, later).0, e.to)
                 == QueueOf(st, e.to)[1..] + [e.(ttlHops := e.ttlHops - 1)]
    ensures var (limiter', v) := Acquire(st.limiter, e.from, now, FromHuman(st, e));
            v.Admitted? && st'.limiter == limiter'
    ensures var k := (e.from, e.to, e.subject);
            Count(st'.damper, k) == Count(st.damper, k) + if FromHuman(st, e) then 0 else 1
  {
    BounceFacts(st, e, now);
    MeterKeepsMail(st', e, later);
    if Meter(st', e, later).1.Ok? {
      RetryDelivers(st, st', e, Meter(st', e, later).0);
    }
  }

  /** Once past the meters, a retry finds the room the poll has made. */
  lemma {:induction false} RetryDelivers(st: BusState, st': BusState, e: Envelope, metered: BusState)
    requires Tidy(st) && e.ttlHops > 0 && e.to !in st.humans && e.to in st.boxes && (e.to, e.id) !in st.ledger
    requires !HasRoom(st.boxes[e.to]) && st'.boxes == AfterPoll(st, e.to).0.boxes
    requires metered.boxes == st'.boxes && metered.ledger == st.ledger && metered.humans == st.humans
    ensures var (end, r) := Deliver(metered, e.(ttlHops := e.ttlHops - 1));
            && (r.Ok? <==> st.boxes[e.to].kind.capacity > 0)
            && (r.Ok? ==> QueueOf(st, e.to) != []
                          && QueueOf(end, e.to) == QueueOf(st, e.to)[1..] + [e.(ttlHops := e.ttlHops - 1)])
  {
  }

  lemma {:induction false} MeterKeepsMail(st: BusState, e: Envelope, now: real)
    requires Metered(st)
    ensures var st' := Meter(st, e, now).0;
            st'.boxes == st.boxes && st'.ledger == st.ledger && st'.humans == st.humans
    ensures Meter(st, e, now).1.Ok? ==> e.ttlHops > 0
  {
  }

  lemma {:induction false} BounceFacts(st: BusState, e: Envelope, now: real)
    requires Metered(st) && AfterSend(st, e, now).1.Err? && AfterSend(st, e, now).1.error.MailboxFull?
    ensures var st' := AfterSend(st, e, now).0;
            st'.boxes == st.boxes && st'.ledger == st.ledger && st'.humans == st.humans
    ensures e.to !in st.humans && e.to in st.boxes && (e.to, e.id) !in st.ledger && !HasRoom(st.boxes[e.to])
    ensures Meter(st, e, now).1.Ok? && AfterSend(st, e, now).0 == Meter(st, e, now).0
  {
  }

  // ----- bounds and addresses -----

  ghost predicate Tidy(st: BusState) {
    forall s :: s in st.boxes ==>
      && (st.boxes[s].kind.Bounded? ==> |st.boxes[s].queue| <= st.boxes[s].kind.capacity)
      && forall e :: e in st.boxes[s].queue ==> e.to == s
  }

  lemma {:induction false} StepTidy(st: BusState, op: BusOp)
    requires Metered(st) && Tidy(st)
    ensures Tidy(Step(st, op))
  {
    if op.SendOp? { SendBoxes(st, op.envelope, op.now); }
  }

  /** A bounded mailbox never holds more than its capacity, and every queue holds only its own session's mail. */
  lemma {:induction false} RunTidy(st: BusState, ops: seq<BusOp>)
    requires Metered(st) && Tidy(st)
    ensures Tidy(Run(st, ops))
    decreases |ops|
  {
    if ops != [] {
      StepTidy(st, ops[0]);
      RunTidy(Step(st, ops[0]), ops[1..]);
    }
  }

  // ----- the damper -----

  /** An agent's send with this sender, recipient and subject that got past the meters, delivered or bounced. */
  ghost predicate AgentSendMetered(st: BusState, op: BusOp, k: DamperKey)
    requires Metered(st)
  {
    op.SendOp? && !FromHuman(st, op.envelope) && (op.envelope.from, op.envelope.to, op.envelope.subject) == k
    && Meter(st, op.envelope, op.now).1.Ok?
  }

  ghost function MeteredSends(st: BusState, ops: seq<BusOp>, k: DamperKey): nat
    requires Metered(st)
    decreases |ops|
  {
    if ops == [] then 0
    else (if AgentSendMetered(st, ops[0], k) then 1 else 0) + MeteredSends(Step(st, ops[0]), ops[1..], k)
  }

  lemma {:induction false} StepDamper(st: BusState, op: BusOp, k: DamperKey)
    requires Metered(st) && op != NoteOp(k) && Count(st.damper, k) <= DAMPER_LIMIT
    ensures Count(Step(st, op).damper, k)
            == Count(st.damper, k) + (if AgentSendMetered(st, op, k) then 1 else 0) <= DAMPER_LIMIT
  {
    if op.SendOp? {
      MeterDamper(st, op.envelope, op.now, k);
      if Meter(st, op.envelope, op.now).1.Ok? {
        var e := op.envelope;
        DeliverKeepsDamper(Meter(st, e, op.now).0, e.(ttlHops := e.ttlHops - 1));
      }
    }
  }

  /** A send counts its own key, below the limit, once it is past hop count and rate, unless a human sent it. */
  lemma {:induction false} MeterDamper(st: BusState, e: Envelope, now: real, k: DamperKey)
    requires Metered(st) && Count(st.damper, k) <= DAMPER_LIMIT
    ensures var counted := !FromHuman(st, e) && (e.from, e.to, e.subject) == k && Meter(st, e, now).1.Ok?;
            Count(Meter(st, e, now).0.damper, k) == Count(st.damper, k) + (if counted then 1 else 0) <= DAMPER_LIMIT
    ensures Meter(st, e, now).1.Ok? ==> e.ttlHops > 0
  {
  }

  lemma {:induction false} DeliverKeepsDamper(st: BusState, e: Envelope)
    ensures Deliver(st, e).0.damper == st.damper
  {
  }

  /** While no state change is noted for them, the damper counts exactly the identical agent sends that got past the
      meters, bounced ones included, and there are never more than three. */
  lemma {:induction false} RepetitionStops(st: BusState, ops: seq<BusOp>, k: DamperKey)
    requires Metered(st) && NoteOp(k) !in ops && Count(st.damper, k) <= DAMPER_LIMIT
    ensures Count(Run(st, ops).damper, k) == Count(st.damper, k) + MeteredSends(st, ops, k) <= 3
    decreases |ops|
  {
    if ops != [] {
      assert ops[0] in ops;
      StepDamper(st, ops[0], k);
      RepetitionStops(Step(st, ops[0]), ops[1..], k);
    }
  }

  /** So an agent's send that has a hop and a token left is refused as repetitive exactly when three identical ones got
      past the meters before it, since the last note of a state change. */
  lemma {:induction false} FourthIsRefused(st: BusState, ops: seq<BusOp>, e: Envelope, now: real)
    requires Metered(st) && Count(st.damper, (e.from, e.to, e.subject)) == 0
    requires NoteOp((e.from, e.to, e.subject)) !in ops
    requires var end := Run(st, ops);
             !FromHuman(end, e) && e.ttlHops > 0 && Acquire(end.limiter, e.from, now, false).1.Admitted?
    ensures AfterSend(Run(st, ops), e, now).1 == Err(Repetitive(e.to, e.subject))
            <==> MeteredSends(st, ops, (e.from, e.to, e.subject)) == 3
  {
    RepetitionStops(st, ops, (e.from, e.to, e.subject));
  }

  /** A note of a state change starts its own key anew, whatever the count was, and leaves everything else alone. */
  lemma {:induction false} NoteStartsAnew(st: BusState, ops: seq<BusOp>, k: DamperKey)
    requires Metered(st) && NoteOp(k) !in ops
    ensures var noted := Step(st, NoteOp(k));
            && Count(Run(noted, ops).damper, k) == MeteredSends(noted, ops, k) <= 3
            && noted == st.(damper := noted.damper)
            && forall x :: x != k ==> Count(noted.damper, x) == Count(st.damper, x)
  {
    RepetitionStops(Step(st, NoteOp(k)), ops, k);
  }

  // ----- who is on the bus -----

  /** A session that is taken off has no mailbox to poll and loses its mail; everybody else keeps theirs. */
  lemma DeregisterEnds(st: BusState, s: SessionId)
    requires Metered(st)
    ensures var st' := Step(st, DeregisterOp(s));
            && st' == st.(boxes := st'.boxes) && AfterPoll(st', s).1 == Err(Ended(s)) && QueueOf(st', s) == []
            && forall x :: x != s ==> (x in st'.boxes <==> x in st.boxes)
                                      && (x in st.boxes ==> st'.boxes[x] == st.boxes[x])
  {
  }

  /** A session that is put on has an empty mailbox of the kind asked for, or the mailbox it had, mail and kind. */
  lemma RegisterOpens(st: BusState, s: SessionId, kind: MailboxKind)
    requires Metered(st)
    ensures var st' := Step(st, RegisterOp(s, kind));
            && st' == st.(boxes := st'.boxes) && st'.boxes.Keys == st.boxes.Keys + {s}
            && (s !in st.boxes ==> st'.boxes[s] == Box(kind, []))
            && forall x :: x in st.boxes ==> st'.boxes[x] == st.boxes[x]
  {
  }

  /** Mail to a session registered as human goes to its feed from then on, and into no mailbox. */
  lemma HumansGetNotices(st: BusState, ops: seq<BusOp>, s: SessionId)
    requires Metered(st)
    ensures var marked := Step(st, RegisterHumanOp(s));
            && marked == st.(humans := marked.humans) && (forall x :: x in marked.humans <==> x in st.humans || x == s)
            && s in Run(marked, ops).humans
            && forall e: Envelope :: e.to == s ==>
                 var (end, r) := AfterRequeue(Run(marked, ops), e);
                 r == Ok(Unit) && end.boxes == Run(marked, ops).boxes
  {
    HumansStay(Step(st, RegisterHumanOp(s)), ops, s);
  }

  lemma {:induction false} HumansStay(st: BusState, ops: seq<BusOp>, s: SessionId)
    requires Metered(st) && s in st.humans
    ensures s in Run(st, ops).humans
    decreases |ops|
  {
    if ops != [] { HumansStay(Step(st, ops[0]), ops[1..], s); }
  }

  // ----- rotating a mailbox -----

  /** Poll one envelope and put it straight back. */
  function Cycle(st: BusState, s: SessionId): (BusState, Result<Unit, BusError>) {
    var (st', r) := AfterPoll(st, s);
    if r.Ok? && r.value.Some? then AfterRequeue(st', r.value.value) else (st', Ok(Unit))
  }

  function Cycles(st: BusState, s: SessionId, k: nat): BusState {
    if k == 0 then st else Cycle(Cycles(st, s, k - 1), s).0
  }

  function WithQueue(st: BusState, s: SessionId, q: seq<Envelope>): BusState
    requires s in st.boxes
  {
    st.(boxes := st.boxes[s := st.boxes[s].(queue := q)])
  }

  lemma WithQueueTwice(st: BusState, s: SessionId, q: seq<Envelope>, r: seq<Envelope>)
    requires s in st.boxes
    ensures WithQueue(WithQueue(st, s, q), s, r) == WithQueue(st, s, r)
    ensures WithQueue(st, s, st.boxes[s].queue) == st
  {
    var b := st.boxes[s];
    assert st.boxes[s := b.(queue := q)][s := b.(queue := r)] == st.boxes[s := b.(queue := r)];
    assert st.boxes[s := b] == st.boxes;
  }

  function Turned<T>(q: seq<T>, k: nat): seq<T>
    requires k <= |q|
  {
    q[k..] + q[..k]
  }

  lemma TurnOnce<T>(q: seq<T>, k: nat)
    requires k < |q|
    ensures var r := Turned(q, k); r != [] && r[0] == q[k] && r[1..] + [r[0]] == Turned(q, k + 1) && r[0] in q
    ensures Turned(q, 0) == q && Turned(q, |q|) == q
  {
    assert q[..k + 1] == q[..k] + [q[k]];
    assert Turned(q, k)[1..] == q[k + 1..] + q[..k];
  }

  lemma Turning<T>(q: seq<T>, k: nat) returns (r: seq<T>)
    requires k < |q|
    ensures r == Turned(q, k) && |r| == |q| && r[0] in q && r[1..] + [r[0]] == Turned(q, k + 1)
  {
    TurnOnce(q, k);
    r := Turned(q, k);
  }

  /** A cycle cannot fail on a full mailbox, and moves the front envelope to the back. */
  lemma {:induction false} CycleRotates(st: BusState, s: SessionId)
    requires s in st.boxes && s !in st.humans && st.boxes[s].queue != [] && st.boxes[s].queue[0].to == s
    requires st.boxes[s].kind.Bounded? ==> |st.boxes[s].queue| <= st.boxes[s].kind.capacity
    ensures Cycle(st, s) == (WithQueue(st, s, Turned(st.boxes[s].queue, 1)), Ok(Unit))
  {
    var q := st.boxes[s].queue;
    WithQueueTwice(st, s, q[1..], q[1..] + [q[0]]);
    assert Turned(q, 1) == q[1..] + [q[0]];
  }

  /** When putting an envelope back keeps every sender's order: exactly when nothing else of its own sender is queued
      behind it. */
  lemma {:induction false} RequeueKeepsOrderExactly(st: BusState, s: SessionId)
    requires s in st.boxes && s !in st.humans && st.boxes[s].queue != [] && st.boxes[s].queue[0].to == s
    requires st.boxes[s].kind.Bounded? ==> |st.boxes[s].queue| <= st.boxes[s].kind.capacity
    ensures var q := st.boxes[s].queue;
            (forall sender :: From(QueueOf(Cycle(st, s).0, s), sender) == From(q, sender))
            <==> forall e :: e in q[1..] && e.from == q[0].from ==> e == q[0]
  {
    var q := st.boxes[s].queue;
    var e, rest := q[0], q[1..];
    CycleRotates(st, s);
    assert Turned(q, 1) == rest + [e];
    forall sender
      ensures From(rest + [e], sender) == From(rest, sender) + if e.from == sender then [e] else []
    {
      FromAppend(rest, [e], sender);
      assert [e][1..] == [];
    }
    FromMembers(rest, e.from);
    SnocIsCons(From(rest, e.from), e);
    assert From(q, e.from) == [e] + From(rest, e.from);
    assert forall sender :: sender != e.from ==> From(q, sender) == From(rest, sender) == From(rest + [e], sender);
    assert From(QueueOf(Cycle(st, s).0, s), e.from) == From(rest, e.from) + [e];
  }

  lemma {:induction false} FromMembers(es: seq<Envelope>, sender: SessionId)
    ensures forall e :: e in From(es, sender) <==> e in es && e.from == sender
  {
    if es != [] {
      FromMembers(es[1..], sender);
      assert es == [es[0]] + es[1..];
    }
  }

  /** Moving an element past a row leaves the row as it is only when the row is made of that element. */
  lemma {:induction false} SnocIsCons(es: seq<Envelope>, e: Envelope)
    ensures es + [e] == [e] + es <==> forall x :: x in es ==> x == e
  {
    if es != [] && es + [e] == [e] + es {
      assert es[0] == (es + [e])[0] == e;
      assert es[1..] + [e] == (es + [e])[1..] == ([e] + es)[1..] == es == [e] + es[1..];
      SnocIsCons(es[1..], e);
      assert es == [es[0]] + es[1..];
    }
    if forall x :: x in es ==> x == e {
      forall k | 0 <= k < |es|
        ensures es[k] == e
      {
        assert es[k] in es;
      }
      assert es + [e] == [e] + es;
    }
  }

  lemma {:induction false} CycleTurned(st: BusState, s: SessionId, r: seq<Envelope>)
    requires Tidy(st) && s in st.boxes && s !in st.humans && |r| == |st.boxes[s].queue|
    requires r != [] && r[0] in st.boxes[s].queue
    ensures Cycle(WithQueue(st, s, r), s).0 == WithQueue(st, s, r[1..] + [r[0]])
  {
    CycleRotates(WithQueue(st, s, r), s);
    WithQueueTwice(st, s, r, r[1..] + [r[0]]);
    assert Turned(r, 1) == r[1..] + [r[0]];
  }

  lemma {:induction false} CyclesRotate(st: BusState, s: SessionId, k: nat)
    requires Tidy(st) && s in st.boxes && s !in st.humans && k <= |st.boxes[s].queue|
    ensures Cycles(st, s, k) == WithQueue(st, s, Turned(st.boxes[s].queue, k))
  {
    var q := st.boxes[s].queue;
    if k == 0 {
      assert Turned(q, 0) == q;
      WithQueueTwice(st, s, q, q);
    } else {
      var r := Turning(q, k - 1);
      CyclesRotate(st, s, k - 1);
      CycleTurned(st, s, r);
      assert Cycles(st, s, k) == Cycle(WithQueue(st, s, r), s).0;
    }
  }

  /** A full turn restores the mailbox; and a loop that puts back what it does not want meets the first envelope it does
      want after exactly as many polls as it has envelopes ahead of it. */
  lemma {:induction false} ScanFindsFirstMatch(st: BusState, s: SessionId, wanted: Envelope -> bool, k: nat)
    requires Tidy(st) && s in st.boxes && s !in st.humans
    requires k < |st.boxes[s].queue| && wanted(st.boxes[s].queue[k])
    requires forall i :: 0 <= i < k ==> !wanted(st.boxes[s].queue[i])
    ensures Cycles(st, s, |st.boxes[s].queue|) == st
    ensures AfterPoll(Cycles(st, s, k), s).1 == Ok(Some(st.boxes[s].queue[k]))
    ensures forall i :: 0 <= i < k ==> AfterPoll(Cycles(st, s, i), s).1 == Ok(Some(st.boxes[s].queue[i]))
  {
    var q := st.boxes[s].queue;
    CyclesRotate(st, s, |q|);
    TurnOnce(q, k);
    WithQueueTwice(st, s, q, q);
    forall i | 0 <= i <= k
      ensures AfterPoll(Cycles(st, s, i), s).1 == Ok(Some(q[i]))
    {
      CyclesRotate(st, s, i);
      TurnOnce(q, i);
    }
  }
}
