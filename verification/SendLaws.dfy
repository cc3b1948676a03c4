/**
 What a send is charged, what it is told and what it leaves behind, said in the bus's own terms: hops, the tokens of the
 two buckets, the count of identical sends, mailboxes, the ledger and the human feeds. A send counts as a person's when
 its sender is registered as one or its origin says so.
*/
module SendLaws {
  import opened Types
  import opened Mailboxes
  import opened LocalBuses
  import opened RateLimits

  /** The tokens the sender's own bucket holds at `now`, and the shared one's. */
  ghost function Own(st: BusState, e: Envelope, now: real): real {
    SessionBucket(st.limiter, e.from, now).tokens
  }

  ghost function Shared(st: BusState, now: real): real {
    GlobalBucket(st.limiter, now).tokens
  }

  ghost function Repeats(st: BusState, e: Envelope): nat {
    if (e.from, e.to, e.subject) in st.damper then st.damper[(e.from, e.to, e.subject)] else 0
  }

  /** A person's send pays with the person's own tokens only: the shared bucket and the damper stay as they were, it is
      never called repetitive, and what holds it back, a missing hop aside, is its own bucket. */
  lemma {:induction false} HumanSendIsExempt(st: BusState, e: Envelope, now: real)
    requires RateLimits.Valid(st.limiter) && (e.from in st.humans || e.origin == User)
    ensures var (st', r) := AfterSend(st, e, now);
            && st'.limiter.global == st.limiter.global && st'.damper == st.damper
            && !(r.Err? && r.error.Repetitive?)
            && (r.Err? && r.error.RateLimited? <==> e.ttlHops > 0 && Own(st, e, now) < 1.0)
            && (e.ttlHops > 0 && Own(st, e, now) >= 1.0 ==>
                  e.from in st'.limiter.buckets
                  && st'.limiter.buckets[e.from] == Bucket(Own(st, e, now) - 1.0, now))
  {
    BucketsSane(st.limiter, e.from, now);
  }

  /** Anybody else's send takes a shared token as well, and counts as one more of its kind as long as fewer than three
      went before; the fourth has still paid its tokens. */
  lemma {:induction false} AgentSendIsCharged(st: BusState, e: Envelope, now: real)
    requires RateLimits.Valid(st.limiter) && e.from !in st.humans && e.origin != User
    requires e.ttlHops > 0 && Own(st, e, now) >= 1.0 && Shared(st, now) >= 1.0
    ensures var (st', r) := AfterSend(st, e, now);
            && st'.limiter.global == Some(Bucket(Shared(st, now) - 1.0, now))
            && e.from in st'.limiter.buckets && st'.limiter.buckets[e.from] == Bucket(Own(st, e, now) - 1.0, now)
            && Repeats(st', e) == (if Repeats(st, e) < 3 then Repeats(st, e) + 1 else Repeats(st, e))
            && (r == Err(Repetitive(e.to, e.subject)) <==> Repeats(st, e) >= 3)
  {
    BucketsSane(st.limiter, e.from, now);
  }

  /** What a send is told: the first of these that applies. */
  lemma {:induction false} SendAnswers(st: BusState, e: Envelope, now: real)
    requires RateLimits.Valid(st.limiter)
    ensures var r := AfterSend(st, e, now).1;
            var human := e.from in st.humans || e.origin == User;
            if e.ttlHops == 0 then r == Err(TtlExpired)
            else if Own(st, e, now) < 1.0 then
              r == Err(RateLimited(e.from, RetryAfterMs(Own(st, e, now), st.limiter.rate)))
            else if !human && Shared(st, now) < 1.0 then
              r.Err? && r.error.RateLimited? && r.error.session == e.from && r.error.retryAfterMs >= 250
            else if !human && Repeats(st, e) >= 3 then r == Err(Repetitive(e.to, e.subject))
            else if e.to in st.humans then r == Ok(Unit)
            else if e.to !in st.boxes then r == Err(Ended(e.to))
            else if (e.to, e.id) in st.ledger then r == Ok(Unit)
            else if st.boxes[e.to].kind.Bounded? && |st.boxes[e.to].queue| >= st.boxes[e.to].kind.capacity then
              r == Err(MailboxFull(e.to, st.boxes[e.to].kind.capacity))
            else r == Ok(Unit)
  {
    BucketsSane(st.limiter, e.from, now);
  }

  /** What a send that got past its charges leaves behind: one more notice for a person, one more envelope and one more
      ledger entry for anybody else it is new to, with one hop less; and otherwise nothing. */
  lemma {:induction false} SendEffects(st: BusState, e: Envelope, now: real)
    requires RateLimits.Valid(st.limiter)
    ensures var (st', r) := AfterSend(st, e, now);
            var sent := if e.ttlHops > 0 then [e.(ttlHops := e.ttlHops - 1)] else [];
            Leaves(st, st', e.to, sent, r.Ok? && e.to in st.humans,
                   r.Ok? && e.to !in st.humans && (e.to, e.id) !in st.ledger, e.id)
  {
    var (metered, r) := Meter(st, e, now);
    MeterKeeps(st, e, now);
    if r.Ok? {
      DeliverLeaves(metered, e.(ttlHops := e.ttlHops - 1));
    } else {
      assert Leaves(st, metered, e.to, if e.ttlHops > 0 then [e.(ttlHops := e.ttlHops - 1)] else [], false, false,
                    e.id);
    }
  }

  /** From `st` to `st'`, the mail `sent` went to the feed of `to`, or into its queue and the ledger, or nowhere. */
  ghost predicate Leaves(st: BusState, st': BusState, to: SessionId, sent: seq<Envelope>, toHuman: bool, queued: bool,
                         id: MessageId) {
    && st'.humans == st.humans && st'.boxes.Keys == st.boxes.Keys
    && (forall s :: Notices(st', s) == Notices(st, s) + if toHuman && s == to then sent else [])
    && (forall s :: s in st.boxes ==>
          st'.boxes[s].kind == st.boxes[s].kind
          && st'.boxes[s].queue == st.boxes[s].queue + if queued && s == to then sent else [])
    && st'.ledger == st.ledger + if queued then {(to, id)} else {}
  }

  lemma {:induction false} MeterKeeps(st: BusState, e: Envelope, now: real)
    requires RateLimits.Valid(st.limiter)
    ensures var (st', r) := Meter(st, e, now);
            && st'.humans == st.humans && st'.boxes == st.boxes && st'.ledger == st.ledger && st'.notices == st.notices
            && (r.Ok? ==> e.ttlHops > 0)
  {
  }

  lemma {:induction false} DeliverLeaves(st: BusState, e: Envelope)
    ensures var (st', r) := Deliver(st, e);
            Leaves(st, st', e.to, [e], r.Ok? && e.to in st.humans,
                   r.Ok? && e.to !in st.humans && (e.to, e.id) !in st.ledger, e.id)
  {
  }

  function Notices(st: BusState, s: SessionId): seq<Envelope> {
    if s in st.notices then st.notices[s] else []
  }

  /** Putting an envelope back is free and leaves no trace but the envelope itself; it is refused only where there is no
      mailbox, or no room. */
  lemma {:induction false} RequeueAnswers(st: BusState, e: Envelope)
    ensures var (st', r) := AfterRequeue(st, e);
            && st'.limiter == st.limiter && st'.damper == st.damper && st'.ledger == st.ledger
            && st'.humans == st.humans && st'.boxes.Keys == st.boxes.Keys
            && (if e.to in st.humans then r == Ok(Unit)
                else if e.to !in st.boxes then r == Err(Ended(e.to))
                else if st.boxes[e.to].kind.Bounded? && |st.boxes[e.to].queue| >= st.boxes[e.to].kind.capacity then
                  r == Err(MailboxFull(e.to, st.boxes[e.to].kind.capacity))
                else r == Ok(Unit))
            && (forall s :: Notices(st', s) == Notices(st, s) + if e.to in st.humans && s == e.to then [e] else [])
            && (forall s :: s in st.boxes ==>
                  st'.boxes[s].kind == st.boxes[s].kind
                  && st'.boxes[s].queue
                     == st.boxes[s].queue + if r.Ok? && e.to !in st.humans && s == e.to then [e] else [])
  {
  }

  /** A poll hands out the front of the session's own queue and touches nothing else; an empty mailbox has nothing to
      hand out, and a missing one is said to have ended. */
  lemma {:induction false} PollAnswers(st: BusState, s: SessionId)
    ensures var (st', r) := AfterPoll(st, s);
            && st' == st.(boxes := st'.boxes) && st'.boxes.Keys == st.boxes.Keys
            && (forall x :: x in st.boxes && x != s ==> st'.boxes[x] == st.boxes[x])
            && (if s !in st.boxes then r == Err(Ended(s))
                else if st.boxes[s].queue == [] then r == Ok(None) && st'.boxes[s] == st.boxes[s]
                else
                  && r.Ok? && r.value.Some? && st'.boxes[s].kind == st.boxes[s].kind
                  && st.boxes[s].queue == [r.value.value] + st'.boxes[s].queue)
  {
  }
}
