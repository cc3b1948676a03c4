/** A session's queue of envelopes, possibly bounded. On overflow the send is rejected; nothing queued is dropped. */
module Mailboxes {
  import opened Types

  datatype Origin = User | Model | System | Peer | Trigger | Client

  /** The parts of an envelope the bus looks at, and the body it carries. */
  datatype Envelope = Envelope(id: MessageId, from: SessionId, to: SessionId, subject: string, body: string,
                               inReplyTo: Option<MessageId>, ttlHops: nat, origin: Origin)

  datatype MailboxKind = Bounded(capacity: nat) | Unbounded

  const DEFAULT_MAILBOX_CAPACITY: nat := 64

  datatype Box = Box(kind: MailboxKind, queue: seq<Envelope>)

  predicate HasRoom(b: Box) {
    b.kind.Bounded? ==> |b.queue| < b.kind.capacity
  }

  function Pushed(b: Box, e: Envelope): Box {
    if HasRoom(b) then b.(queue := b.queue + [e]) else b
  }

  class Mailbox {
    const kind: MailboxKind
    var queue: seq<Envelope>

    function State(): Box
      reads this
    {
      Box(kind, queue)
    }

    constructor (kind: MailboxKind)
      ensures State() == Box(kind, [])
    {
      this.kind := kind;
      this.queue := [];
    }

    method Push(session: SessionId, envelope: Envelope) returns (r: Result<Unit, BusError>)
      modifies this
      ensures State() == Pushed(old(State()), envelope)
      ensures r == if HasRoom(old(State())) then Ok(Unit) else Err(MailboxFull(session, kind.capacity))
    {
      if kind.Bounded? && |queue| >= kind.capacity {
        return Err(MailboxFull(session, kind.capacity));
      }
      queue := queue + [envelope];
      return Ok(Unit);
    }

    method PopFront() returns (r: Option<Envelope>)
      modifies this
      ensures old(queue) == [] ==> r.None? && queue == []
      ensures old(queue) != [] ==> r.Some? && old(queue) == [r.value] + queue
    {
      if queue == [] {
        return None;
      }
      r := Some(queue[0]);
      queue := queue[1..];
    }
  }
}
