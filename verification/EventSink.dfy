/** The ledger of what each session has been handed, which makes a redelivery a no-op. */
module EventSinks {
  import opened Types

  class EventSink {
    var seen: set<(SessionId, MessageId)>

    constructor ()
      ensures seen == {}
    {
      seen := {};
    }

    function IsDuplicate(session: SessionId, id: MessageId): bool
      reads this
    {
      (session, id) in seen
    }

    method RecordInbound(session: SessionId, id: MessageId)
      modifies this
      ensures seen == old(seen) + {(session, id)}
    {
      seen := seen + {(session, id)};
    }
  }
}
