/** The one path a message takes on its way out. Source:
    mosh-core/src/conversation/outbound.rs. */
module Outboxes {
  import opened Wrappers
  import opened Primitives
  import opened Messages
  import opened MessageLogs

  datatype Prepared = Prepared(messageId: string, sentAt: u64, ciphertextBytes: nat, retryCount: u32, payload: Bytes)

  datatype Settled = Settled(status: Status, error: Option<string>)

  datatype OnSent = Forget | Retain

  /** The log and the attempts still in flight. */
  datatype Sends = Sends(log: Log, attempts: Attempts)

  function SaturatingNext(n: u32): (r: u32) {
    if n == U32_LIMIT - 1 then n else n + 1
  }

  function IdOf(m: Message): (id: string) {
    if m.id.Some? then m.id.value else ""
  }

  function SentAtOf(m: Message, now: u64): (at: u64) {
    if m.sentAt.Some? then m.sentAt.value else now
  }

  function WithAttempt(s: Sends, id: string, attempt: Attempt): (r: Sends) {
    s.(attempts := s.attempts[id := attempt])
  }

  /** `mark_delivery`, with the failure it reports when no message has the id. */
  function MarkedSend(s: Sends, id: string, status: Status, error: Option<string>, retryCount: u32)
    : (r: (Sends, Result<(), LogError>))
  {
    (s.(log := Marked(s.log, id, DeliveryMeta(status, error, retryCount))),
     if IndexOf(s.log.messages, id).Some? then Ok(()) else Err(Missing(id)))
  }

  /** A message erased for this device alone leaves a published attempt as it is. */
  predicate SyncSkips(s: Sends, id: string) {
    var found := IndexOf(s.log.messages, id);
    && found.Some? && Hidden(s.log.messages[found.value])
    && id in s.attempts && s.attempts[id].everPublished != Some(false)
  }

  function Synced(s: Sends, id: string): (r: (Sends, Result<(), LogError>)) {
    if SyncSkips(s, id) then (s, Ok(()))
    else
      var json := JsonFor(s.log.messages, id);
      if json.Err? then (s, Err(json.error))
      else if id !in s.attempts then (s, Ok(()))
      else (WithAttempt(s, id, s.attempts[id].(messageJson := json.value)), Ok(()))
  }

  function FirstAttempt(id: string, sentAt: u64, conversationId: string, payload: Bytes, ciphertextBytes: nat,
                        status: Status, json: Text<Message>): (a: Attempt) {
    Attempt(Some(false), conversationId, id, sentAt, ciphertextBytes, json, Encoded(payload), status, None, 0, 0, sentAt)
  }

  function Filed(s: Sends, m: Message, conversationId: string, payload: Bytes, ciphertextBytes: nat, status: Status, now: u64)
    : (r: (Sends, Result<Prepared, LogError>))
  {
    var id, sentAt := IdOf(m), SentAtOf(m, now);
    var (marked, ok) := MarkedSend(s.(log := Upserted(s.log, m)), id, status, None, 0);
    var json := JsonFor(marked.log.messages, id);
    if ok.Err? then (marked, Err(ok.error))
    else if json.Err? then (marked, Err(json.error))
    else (WithAttempt(marked, id, FirstAttempt(id, sentAt, conversationId, payload, ciphertextBytes, status, json.value)),
          Ok(Prepared(id, sentAt, ciphertextBytes, 0, payload)))
  }

  /** `status` is what the attempt goes back to; the message itself always goes
      back to Pending, also when it is queued again. */
  function ReopenedAs(s: Sends, id: string, status: Status): (r: (Sends, Result<Prepared, LogError>)) {
    if id !in s.attempts then (s, Err(Missing(id)))
    else
      var attempt := s.attempts[id].(retryCount := SaturatingNext(s.attempts[id].retryCount), status := status, error := None);
      var counted := WithAttempt(s, id, attempt);
      var payload := Decode(attempt.payload);
      if payload.None? then (counted, Err(Codec))
      else
        var (marked, ok) := MarkedSend(counted, id, Pending, None, attempt.retryCount);
        if ok.Err? then (marked, Err(ok.error))
        else
          var (synced, done) := Synced(marked, id);
          (synced, if done.Err? then Err(done.error)
                   else Ok(Prepared(id, attempt.sentAt, attempt.ciphertextBytes, attempt.retryCount, payload.value)))
  }

  /** The transport took the frame. */
  function SettledSent(s: Sends, id: string, onSent: OnSent, now: u64): (r: (Sends, Result<Settled, LogError>)) {
    var (marked, ok) := MarkedSend(s, id, Sent, None, if id in s.attempts then s.attempts[id].retryCount else 0);
    if ok.Err? then (marked, Err(ok.error))
    else if onSent.Forget? then (marked.(attempts := marked.attempts - {id}), Ok(Settled(Sent, None)))
    else
      var published := if id !in marked.attempts then marked else
        WithAttempt(marked, id, marked.attempts[id].(everPublished := Some(true), status := Sent, error := None, lastSend := now));
      var (synced, done) := Synced(published, id);
      (synced, if done.Err? then Err(done.error) else Ok(Settled(Sent, None)))
  }

  /** The transport refused the frame. */
  function SettledFailed(s: Sends, id: string, error: string): (r: (Sends, Result<Settled, LogError>)) {
    var noted := if id !in s.attempts then s else
      WithAttempt(s, id, s.attempts[id].(status := Failed, error := Some(error)));
    var (marked, ok) := MarkedSend(noted, id, Failed, Some(error), if id in s.attempts then s.attempts[id].retryCount else 0);
    if ok.Err? then (marked, Err(ok.error))
    else
      var (synced, done) := Synced(marked, id);
      (synced, if done.Err? then Err(done.error) else Ok(Settled(Failed, Some(error))))
  }

  function Activated(s: Sends, id: string): (r: (Sends, Result<(), LogError>)) {
    if id !in s.attempts then (s, Err(Missing(id)))
    else
      var queued := WithAttempt(s, id, s.attempts[id].(status := Queued, error := None));
      var (marked, ok) := MarkedSend(queued, id, Queued, None, s.attempts[id].retryCount);
      if ok.Err? then (marked, ok) else Synced(marked, id)
  }

  class Outbox {
    const log: MessageLog
    var attempts: Attempts

    constructor (log: MessageLog, attempts: Attempts)
      ensures this.log == log && this.attempts == attempts
    {
      this.log, this.attempts := log, attempts;
    }

    function State(): (s: Sends)
      reads this, log
    {
      Sends(log.State(), attempts)
    }

    /** Files a first send: Pending, with its payload. */
    method Open(m: Message, conversationId: string, payload: Bytes, ciphertextBytes: nat, now: u64)
      returns (r: Result<Prepared, LogError>)
      modifies this, log
      ensures (State(), r) == Filed(old(State()), m, conversationId, payload, ciphertextBytes, Pending, now)
    {
      r := File(m, conversationId, payload, ciphertextBytes, Pending, now);
    }

    /** Files a message that waits for its transport: Queued, without payload. */
    method Queue(m: Message, conversationId: string, now: u64) returns (r: Result<Prepared, LogError>)
      modifies this, log
      ensures (State(), r) == Filed(old(State()), m, conversationId, [], 0, Queued, now)
    {
      r := File(m, conversationId, [], 0, Queued, now);
    }

    method File(m: Message, conversationId: string, payload: Bytes, ciphertextBytes: nat, status: Status, now: u64)
      returns (r: Result<Prepared, LogError>)
      modifies this, log
      ensures (State(), r) == Filed(old(State()), m, conversationId, payload, ciphertextBytes, status, now)
    {
      var id, sentAt := IdOf(m), SentAtOf(m, now);
      log.Upsert(m);
      var marked := log.MarkDelivery(id, status, None, 0);
      if marked.Err? {
        return Err(marked.error);
      }
      var json := log.ToJson(id);
      if json.Err? {
        return Err(json.error);
      }
      attempts := attempts[id := FirstAttempt(id, sentAt, conversationId, payload, ciphertextBytes, status, json.value)];
      return Ok(Prepared(id, sentAt, ciphertextBytes, 0, payload));
    }

    /** Prepares a re-send; the stored payload comes back unchanged. */
    method Reopen(id: string) returns (r: Result<Prepared, LogError>)
      modifies this, log
      ensures (State(), r) == ReopenedAs(old(State()), id, Pending)
    {
      r := ReopenAs(id, Pending);
    }

    /** Puts a message back in the queue. */
    method Requeue(id: string) returns (r: Result<Prepared, LogError>)
      modifies this, log
      ensures (State(), r) == ReopenedAs(old(State()), id, Queued)
    {
      r := ReopenAs(id, Queued);
    }

    method ReopenAs(id: string, status: Status) returns (r: Result<Prepared, LogError>)
      modifies this, log
      ensures (State(), r) == ReopenedAs(old(State()), id, status)
    {
      if id !in attempts {
        return Err(Missing(id));
      }
      var attempt := attempts[id].(retryCount := SaturatingNext(attempts[id].retryCount), status := status, error := None);
      attempts := attempts[id := attempt];
      if attempt.payload.Garbled? {
        return Err(Codec);
      }
      var marked := log.MarkDelivery(id, Pending, None, attempt.retryCount);
      if marked.Err? {
        return Err(marked.error);
      }
      var synced := SyncMessageJson(id);
      if synced.Err? {
        return Err(synced.error);
      }
      return Ok(Prepared(id, attempt.sentAt, attempt.ciphertextBytes, attempt.retryCount, attempt.payload.value));
    }

    /** Records what the transport said. */
    method Settle(id: string, outcome: Result<(), string>, onSent: OnSent, now: u64) returns (r: Result<Settled, LogError>)
      modifies this, log
      ensures (State(), r) == if outcome.Ok? then SettledSent(old(State()), id, onSent, now)
                              else SettledFailed(old(State()), id, outcome.error)
    {
      var retryCount: u32 := if id in attempts then attempts[id].retryCount else 0;
      if outcome.Ok? {
        var marked := log.MarkDelivery(id, Sent, None, retryCount);
        if marked.Err? {
          return Err(marked.error);
        }
        if onSent.Forget? {
          attempts := attempts - {id};
        } else {
          if id in attempts {
            attempts := attempts[id := attempts[id].(everPublished := Some(true), status := Sent, error := None, lastSend := now)];
          }
          var synced := SyncMessageJson(id);
          if synced.Err? {
            return Err(synced.error);
          }
        }
        return Ok(Settled(Sent, None));
      }
      if id in attempts {
        attempts := attempts[id := attempts[id].(status := Failed, error := Some(outcome.error))];
      }
      var marked := log.MarkDelivery(id, Failed, Some(outcome.error), retryCount);
      if marked.Err? {
        return Err(marked.error);
      }
      var synced := SyncMessageJson(id);
      if synced.Err? {
        return Err(synced.error);
      }
      return Ok(Settled(Failed, Some(outcome.error)));
    }

    method ActivateQueue(id: string) returns (r: Result<(), LogError>)
      modifies this, log
      ensures (State(), r) == Activated(old(State()), id)
    {
      if id !in attempts {
        return Err(Missing(id));
      }
      attempts := attempts[id := attempts[id].(status := Queued, error := None)];
      var marked := log.MarkDelivery(id, Queued, None, attempts[id].retryCount);
      if marked.Err? {
        return marked;
      }
      r := SyncMessageJson(id);
    }

    method SyncMessageJson(id: string) returns (r: Result<(), LogError>)
      modifies this
      ensures (State(), r) == Synced(old(State()), id)
    {
      var found := log.Position(id);
      if found.Some? && Hidden(log.messages[found.value]) && id in attempts && attempts[id].everPublished != Some(false) {
        return Ok(());
      }
      var json := log.ToJson(id);
      if json.Err? {
        return Err(json.error);
      }
      if id in attempts {
        attempts := attempts[id := attempts[id].(messageJson := json.value)];
      }
      return Ok(());
    }
  }
}
