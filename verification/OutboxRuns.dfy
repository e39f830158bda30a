/** The log and the attempts agree through every run of sends, re-sends and
    settlements of freshly stamped messages. */
module OutboxRuns {
  import opened Wrappers
  import opened Primitives
  import opened Messages
  import opened MessageLogs
  import opened Outboxes

  datatype Op =
    | Open(message: Message, conversationId: string, payload: Bytes, ciphertextBytes: nat, now: u64)
    | Queue(message: Message, conversationId: string, now: u64)
    | Reopen(id: string)
    | Requeue(id: string)
    | Settle(id: string, outcome: Result<(), string>, onSent: OnSent, now: u64)
    | Activate(id: string)
    | Receive(message: Message)

  function SettledAs(s: Sends, id: string, outcome: Result<(), string>, onSent: OnSent, now: u64)
    : (r: (Sends, Result<Settled, LogError>))
  {
    if outcome.Ok? then SettledSent(s, id, onSent, now) else SettledFailed(s, id, outcome.error)
  }

  function Stepped(s: Sends, op: Op): (r: Sends) {
    match op
    case Open(m, conversationId, payload, size, now) => Filed(s, m, conversationId, payload, size, Pending, now).0
    case Queue(m, conversationId, now) => Filed(s, m, conversationId, [], 0, Queued, now).0
    case Reopen(id) => ReopenedAs(s, id, Pending).0
    case Requeue(id) => ReopenedAs(s, id, Queued).0
    case Settle(id, outcome, onSent, now) =>
      SettledAs(s, id, outcome, onSent, now).0
    case Activate(id) => Activated(s, id).0
    case Receive(m) => s.(log := Pushed(s.log, m))
  }

  /** A message is filed under an id the log does not hold yet, and not erased here. */
  predicate FreshlyStamped(s: Sends, op: Op) {
    op.Open? || op.Queue? ==>
      op.message.id.Some? && IndexOf(s.log.messages, op.message.id.value).None? && !Hidden(op.message)
  }

  /** The log and the attempts before and after each operation. */
  ghost predicate Run(states: seq<Sends>, ops: seq<Op>) {
    && |states| == |ops| + 1
    && states[0] == Sends(EMPTY, map[])
    && forall i {:trigger ops[i]} :: 0 <= i < |ops| ==>
         FreshlyStamped(states[i], ops[i]) && states[i + 1] == Stepped(states[i], ops[i])
  }

  // ---------- the account of one message ----------

  /** What was handed in: the message, and the bytes that publish it. */
  datatype Filing = Filing(message: Message, conversationId: string, payload: Bytes, size: nat, sentAt: u64)

  /** What happened to one send since it was filed. */
  datatype Account = Account(filed: Filing, resends: nat, published: bool, status: Status, error: Option<string>,
                             lastSend: u64, requeued: bool)

  predicate Concerns(op: Op, id: string) {
    match op
    case Open(m, _, _, _, _) => m.id == Some(id)
    case Queue(m, _, _) => m.id == Some(id)
    case Reopen(x) => x == id
    case Requeue(x) => x == id
    case Settle(x, _, _, _) => x == id
    case Activate(x) => x == id
    case Receive(_) => false
  }

  /** A first send: with the message's own time, if it has one. */
  function FilingOf(op: Op): (f: Filing)
    requires op.Open? || op.Queue?
  {
    var sentAt := if op.message.sentAt.Some? then op.message.sentAt.value else op.now;
    match op
    case Open(m, conversationId, payload, size, _) => Filing(m, conversationId, payload, size, sentAt)
    case Queue(m, conversationId, _) => Filing(m, conversationId, [], 0, sentAt)
  }

  function Started(op: Op): (t: Account)
    requires op.Open? || op.Queue?
  {
    Account(FilingOf(op), 0, false, if op.Open? then Pending else Queued, None, FilingOf(op).sentAt, false)
  }

  function Booked(t: Account, op: Op): (r: Option<Account>) {
    match op
    case Reopen(_) => Some(t.(resends := t.resends + 1, status := Pending, error := None, requeued := false))
    case Requeue(_) => Some(t.(resends := t.resends + 1, status := Queued, error := None, requeued := true))
    case Activate(_) => Some(t.(status := Queued, error := None, requeued := false))
    case Settle(_, outcome, onSent, now) =>
      if outcome.Err? then Some(t.(status := Failed, error := Some(outcome.error), requeued := false))
      else if onSent.Forget? then None
      else Some(t.(published := true, status := Sent, error := None, lastSend := now, requeued := false))
    case _ => Some(t)
  }

  /** The account of one id, read off the operations that name it. */
  function AccountOf(ops: seq<Op>, id: string): (t: Option<Account>) {
    if ops == [] then None
    else
      var before, op := AccountOf(ops[..|ops| - 1], id), ops[|ops| - 1];
      if !Concerns(op, id) then before
      else if op.Open? || op.Queue? then Some(Started(op))
      else if before.None? then None
      else Booked(before.value, op)
  }

  function Saturated(n: nat): (r: u32) {
    if n < U32_LIMIT then n else U32_LIMIT - 1
  }

  /** What the message shows: the status of its attempt, but Pending after a requeue. */
  function Shown(t: Account): (status: Status) {
    if t.requeued then Pending else t.status
  }

  /** The message as the log is to show it: as filed, with its send's state. */
  function MessageOf(t: Account): (m: Message) {
    t.filed.message.(delivery :=
      Delivery(Some(Shown(t)), t.error, Some(Shown(t) == Failed), Some(Saturated(t.resends))))
  }

  /** The attempt as it is to stand. */
  function RecordOf(t: Account, id: string): (a: Attempt) {
    Attempt(Some(t.published), t.filed.conversationId, id, t.filed.sentAt, t.filed.size, Encoded(MessageOf(t)),
            Encoded(t.filed.payload), t.status, t.error, Saturated(t.resends), 0, t.lastSend)
  }

  /** The attempt and the message it sends both say what the account says. */
  ghost predicate Agrees(s: Sends, id: string, t: Option<Account>) {
    && (id in s.attempts <==> t.Some?)
    && (t.Some? ==>
          var found := IndexOf(s.log.messages, id);
          && found.Some? && !Hidden(t.value.filed.message)
          && s.attempts[id] == RecordOf(t.value, id)
          && s.log.messages[found.value] == MessageOf(t.value))
  }

  // ---------- frames ----------

  lemma SameIdsSameIndex(before: seq<Message>, after: seq<Message>, id: string)
    requires |before| <= |after|
    requires forall i :: 0 <= i < |before| ==> after[i].id == before[i].id
    ensures IndexOf(before, id).Some? ==> IndexOf(after, id) == IndexOf(before, id)
    ensures |before| == |after| ==> IndexOf(after, id) == IndexOf(before, id)
  {
    var i, j := IndexOf(before, id), IndexOf(after, id);
    if i.Some? {
      assert after[i.value].id == Some(id);
    }
  }

  lemma MarkMovesOnlyItsMessage(log: Log, marked: string, delivery: Delivery, id: string)
    ensures IndexOf(Marked(log, marked, delivery).messages, id) == IndexOf(log.messages, id)
    ensures var found := IndexOf(log.messages, id); found.Some? ==>
      Marked(log, marked, delivery).messages[found.value]
      == if id == marked then log.messages[found.value].(delivery := delivery) else log.messages[found.value]
  {
    SameIdsSameIndex(log.messages, Marked(log, marked, delivery).messages, id);
  }

  lemma AppendMovesNothing(messages: seq<Message>, m: Message, id: string)
    ensures IndexOf(messages, id).Some? ==> IndexOf(messages + [m], id) == IndexOf(messages, id)
    ensures IndexOf(messages, id).None? && m.id == Some(id) ==> IndexOf(messages + [m], id) == Some(|messages|)
  {
    SameIdsSameIndex(messages, messages + [m], id);
    var after := messages + [m];
    if IndexOf(messages, id).None? && m.id == Some(id) {
      assert after[|messages|].id == Some(id);
      assert forall i :: 0 <= i < |messages| ==> after[i] == messages[i];
    }
  }

  lemma LastIsReplaced(messages: seq<Message>, m: Message, n: Message)
    ensures (messages + [m])[|messages| := n] == messages + [n]
  {
  }

  lemma UpsertedAtTheEnd(log: Log, m: Message, id: string)
    requires m.id == Some(id) && IndexOf(log.messages, id).None?
    ensures Upserted(log, m).messages == log.messages + [m]
    ensures IndexOf(Upserted(log, m).messages, id) == Some(|log.messages|)
  {
    AppendMovesNothing(log.messages, m, id);
  }

  lemma MarkedAtTheEnd(log: Log, messages: seq<Message>, m: Message, id: string, delivery: Delivery)
    requires log.messages == messages + [m] && IndexOf(log.messages, id) == Some(|messages|)
    ensures Marked(log, id, delivery).messages == messages + [m.(delivery := delivery)]
    ensures IndexOf(Marked(log, id, delivery).messages, id) == Some(|messages|)
  {
    LastIsReplaced(messages, m, m.(delivery := delivery));
    MarkMovesOnlyItsMessage(log, id, delivery, id);
  }

  /** The log after a message with a new id was filed: it stands at the end, marked. */
  lemma FiledAtTheEnd(s: Sends, m: Message, id: string, conversationId: string, payload: Bytes, size: nat, status: Status, now: u64)
    requires m.id == Some(id) && IndexOf(s.log.messages, id).None?
    ensures var r := Filed(s, m, conversationId, payload, size, status, now).0;
      var marked := m.(delivery := DeliveryMeta(status, None, 0));
      && r.log.messages == s.log.messages + [marked]
      && IndexOf(r.log.messages, id) == Some(|s.log.messages|)
      && r.attempts == s.attempts[id := FirstAttempt(id, SentAtOf(m, now), conversationId, payload, size, status, Encoded(marked))]
  {
    UpsertedAtTheEnd(s.log, m, id);
    MarkedAtTheEnd(Upserted(s.log, m), s.log.messages, m, id, DeliveryMeta(status, None, 0));
  }

  lemma NewAgrees(s: Sends, m: Message, id: string, f: Filing, status: Status, now: u64)
    requires m.id == Some(id) && IndexOf(s.log.messages, id).None? && !Hidden(m) && (status == Pending || status == Queued)
    requires f.message == m && f.sentAt == SentAtOf(m, now)
    ensures Agrees(Filed(s, m, f.conversationId, f.payload, f.size, status, now).0, id,
                   Some(Account(f, 0, false, status, None, f.sentAt, false)))
  {
    FiledAtTheEnd(s, m, id, f.conversationId, f.payload, f.size, status, now);
  }

  lemma OthersStillAgree(s: Sends, m: Message, other: string, f: Filing, status: Status, now: u64, id: string, t: Option<Account>)
    requires m.id == Some(other) && other != id && IndexOf(s.log.messages, other).None? && Agrees(s, id, t)
    ensures Agrees(Filed(s, m, f.conversationId, f.payload, f.size, status, now).0, id, t)
  {
    FiledAtTheEnd(s, m, other, f.conversationId, f.payload, f.size, status, now);
    AppendMovesNothing(s.log.messages, m.(delivery := DeliveryMeta(status, None, 0)), id);
  }

  lemma FileAgrees(s: Sends, op: Op, id: string, t: Option<Account>)
    requires (op.Open? || op.Queue?) && FreshlyStamped(s, op) && Agrees(s, id, t)
    ensures Agrees(Stepped(s, op), id, if op.message.id == Some(id) then Some(Started(op)) else t)
  {
    var f, status := FilingOf(op), if op.Open? then Pending else Queued;
    if op.message.id == Some(id) {
      NewAgrees(s, op.message, id, f, status, op.now);
    } else {
      OthersStillAgree(s, op.message, op.message.id.value, f, status, op.now, id, t);
    }
  }

  /** Marking a message, its attempt already up to date, and syncing its JSON. */
  lemma MarkAndSyncAgree(s: Sends, x: string, status: Status, error: Option<string>, retryCount: u32, id: string, t: Option<Account>)
    requires x != id ==> Agrees(s, id, t)
    requires x == id ==> (id in s.attempts <==> t.Some?)
    requires x == id && t.Some? ==>
      && IndexOf(s.log.messages, id).Some? && !Hidden(t.value.filed.message)
      && s.log.messages[IndexOf(s.log.messages, id).value]
         == t.value.filed.message.(delivery := s.log.messages[IndexOf(s.log.messages, id).value].delivery)
      && s.attempts[id] == RecordOf(t.value, id).(messageJson := s.attempts[id].messageJson)
      && status == Shown(t.value) && error == t.value.error && retryCount == Saturated(t.value.resends)
    ensures var (marked, ok) := MarkedSend(s, x, status, error, retryCount);
      && (ok.Err? ==> Agrees(marked, id, t))
      && Agrees(Synced(marked, x).0, id, t)
      && (x == id && t.Some? ==> ok.Ok? && Synced(marked, x).1.Ok?)
  {
    MarkMovesOnlyItsMessage(s.log, x, DeliveryMeta(status, error, retryCount), id);
    MarkMovesOnlyItsMessage(s.log, x, DeliveryMeta(status, error, retryCount), x);
  }

  predicate ReopenReports(r: Result<Prepared, LogError>, id: string, t: Option<Account>) {
    if t.None? then r == Err(Missing(id))
    else
      var f := t.value.filed;
      r == Ok(Prepared(id, f.sentAt, f.size, Saturated(t.value.resends + 1), f.payload))
  }

  lemma ReopenAgrees(s: Sends, x: string, status: Status, id: string, t: Option<Account>)
    requires status == Pending || status == Queued
    requires Agrees(s, id, t)
    ensures var r := ReopenedAs(s, x, status);
      && Agrees(r.0, id, if x == id && t.Some? then Booked(t.value, if status == Pending then Reopen(id) else Requeue(id)) else t)
      && (x == id ==> ReopenReports(r.1, id, t))
  {
    if x in s.attempts {
      var attempt := s.attempts[x].(retryCount := SaturatingNext(s.attempts[x].retryCount), status := status, error := None);
      var counted := WithAttempt(s, x, attempt);
      var booked := if x == id then Booked(t.value, if status == Pending then Reopen(id) else Requeue(id)) else t;
      assert x != id ==> Agrees(counted, id, t);
      MarkAndSyncAgree(counted, x, Pending, None, attempt.retryCount, id, booked);
    }
  }

  lemma ActivateAgrees(s: Sends, x: string, id: string, t: Option<Account>)
    requires Agrees(s, id, t)
    ensures Agrees(Activated(s, x).0, id, if x == id && t.Some? then Booked(t.value, Activate(id)) else t)
    ensures x == id ==> Activated(s, id).1 == if t.Some? then Ok(()) else Err(Missing(id))
  {
    if x in s.attempts {
      var queued := WithAttempt(s, x, s.attempts[x].(status := Queued, error := None));
      var booked := if x == id then Booked(t.value, Activate(id)) else t;
      assert x != id ==> Agrees(queued, id, t);
      MarkAndSyncAgree(queued, x, Queued, None, s.attempts[x].retryCount, id, booked);
    }
  }

  lemma FailAgrees(s: Sends, x: string, error: string, id: string, t: Option<Account>, onSent: OnSent, now: u64)
    requires Agrees(s, id, t)
    ensures Agrees(SettledFailed(s, x, error).0, id,
                   if x == id && t.Some? then Booked(t.value, Settle(id, Err(error), onSent, now)) else t)
  {
    var retryCount := if x in s.attempts then s.attempts[x].retryCount else 0;
    var noted := if x !in s.attempts then s else WithAttempt(s, x, s.attempts[x].(status := Failed, error := Some(error)));
    var booked := if x == id && t.Some? then Booked(t.value, Settle(id, Err(error), onSent, now)) else t;
    assert x != id ==> Agrees(noted, id, t);
    MarkAndSyncAgree(noted, x, Failed, Some(error), retryCount, id, booked);
  }

  lemma ForgetAgrees(s: Sends, x: string, id: string, t: Option<Account>, now: u64)
    requires Agrees(s, id, t)
    ensures Agrees(SettledSent(s, x, Forget, now).0, id, if x == id then None else t)
  {
    var retryCount := if x in s.attempts then s.attempts[x].retryCount else 0;
    MarkMovesOnlyItsMessage(s.log, x, DeliveryMeta(Sent, None, retryCount), id);
  }

  /** Marking comes first here, so the attempt catches up with the message. */
  lemma RetainAgrees(s: Sends, x: string, id: string, t: Option<Account>, now: u64)
    requires Agrees(s, id, t)
    ensures Agrees(SettledSent(s, x, Retain, now).0, id,
                   if x == id && t.Some? then Booked(t.value, Settle(id, Ok(()), Retain, now)) else t)
  {
    var retryCount := if x in s.attempts then s.attempts[x].retryCount else 0;
    MarkMovesOnlyItsMessage(s.log, x, DeliveryMeta(Sent, None, retryCount), id);
    MarkMovesOnlyItsMessage(s.log, x, DeliveryMeta(Sent, None, retryCount), x);
  }

  lemma StepAgrees(s: Sends, op: Op, id: string, before: Option<Account>, after: Option<Account>)
    requires FreshlyStamped(s, op) && Agrees(s, id, before)
    requires after ==
      if !Concerns(op, id) then before
      else if op.Open? || op.Queue? then Some(Started(op))
      else if before.None? then None
      else Booked(before.value, op)
    ensures Agrees(Stepped(s, op), id, after)
  {
    match op {
      case Open(_, _, _, _, _) => FileAgrees(s, op, id, before);
      case Queue(_, _, _) => FileAgrees(s, op, id, before);
      case Reopen(x) => ReopenAgrees(s, x, Pending, id, before);
      case Requeue(x) => ReopenAgrees(s, x, Queued, id, before);
      case Settle(x, outcome, onSent, now) =>
        if outcome.Err? {
          FailAgrees(s, x, outcome.error, id, before, onSent, now);
        } else if onSent.Forget? {
          ForgetAgrees(s, x, id, before, now);
        } else {
          RetainAgrees(s, x, id, before, now);
        }
      case Activate(x) => ActivateAgrees(s, x, id, before);
      case Receive(m) => AppendMovesNothing(s.log.messages, m, id);
    }
  }

  // ---------- main results

  /** Through every run, an attempt exists exactly while its account is open; it
      holds the filed bytes and the message as the log has it, counts the re-sends,
      and knows whether it was ever published. */
  lemma {:induction false} LogAndAttemptsAgree(states: seq<Sends>, ops: seq<Op>, n: nat, id: string)
    requires Run(states, ops) && n <= |ops|
    ensures Agrees(states[n], id, AccountOf(ops[..n], id))
    decreases n
  {
    if n > 0 {
      LogAndAttemptsAgree(states, ops, n - 1, id);
      assert FreshlyStamped(states[n - 1], ops[n - 1]);
      assert ops[..n][..n - 1] == ops[..n - 1];
      StepAgrees(states[n - 1], ops[n - 1], id, AccountOf(ops[..n - 1], id), AccountOf(ops[..n], id));
    }
  }

  /** A re-send of an existing attempt always succeeds, with the bytes first filed,
      their size and time; without an attempt it reports the message missing. */
  lemma ReopenReturnsTheFiledBytes(states: seq<Sends>, ops: seq<Op>, n: nat, id: string, status: Status)
    requires Run(states, ops) && n <= |ops| && (status == Pending || status == Queued)
    ensures ReopenReports(ReopenedAs(states[n], id, status).1, id, AccountOf(ops[..n], id))
  {
    LogAndAttemptsAgree(states, ops, n, id);
    ReopenAgrees(states[n], id, status, id, AccountOf(ops[..n], id));
  }

  /** Settling answers what the transport said, and the message then shows that answer,
      its status and its error, whether an attempt stands behind it or not; it fails
      only if the log has no such message. */
  lemma SettleReports(s: Sends, id: string, outcome: Result<(), string>, onSent: OnSent, now: u64)
    ensures var (after, answer) := SettledAs(s, id, outcome, onSent, now);
      var (status, error) := if outcome.Ok? then (Sent, None) else (Failed, Some(outcome.error));
      if IndexOf(s.log.messages, id).None? then answer == Err(Missing(id))
      else answer == Ok(Settled(status, error)) && StatusShown(after, id) == Some(status) && ErrorShown(after, id) == error
  {
    var (status, error) := if outcome.Ok? then (Sent, None) else (Failed, Some(outcome.error));
    var retryCount := if id in s.attempts then s.attempts[id].retryCount else 0;
    MarkMovesOnlyItsMessage(s.log, id, DeliveryMeta(status, error, retryCount), id);
  }

  /** What an operation answers at its moment of a run. */
  ghost predicate Answers(s: Sends, op: Op, t: Option<Account>) {
    match op
    case Open(m, conversationId, payload, size, now) =>
      && m.id.Some?
      && Filed(s, m, conversationId, payload, size, Pending, now).1
         == Ok(Prepared(m.id.value, FilingOf(op).sentAt, size, 0, payload))
    case Queue(m, conversationId, now) =>
      && m.id.Some?
      && Filed(s, m, conversationId, [], 0, Queued, now).1 == Ok(Prepared(m.id.value, FilingOf(op).sentAt, 0, 0, []))
    case Reopen(id) => ReopenReports(ReopenedAs(s, id, Pending).1, id, t)
    case Requeue(id) => ReopenReports(ReopenedAs(s, id, Queued).1, id, t)
    case Activate(id) => Activated(s, id).1 == if t.Some? then Ok(()) else Err(Missing(id))
    case Settle(id, outcome, onSent, now) =>
      var answer := SettledAs(s, id, outcome, onSent, now).1;
      && (t.Some? ==> answer == Ok(if outcome.Ok? then Settled(Sent, None) else Settled(Failed, Some(outcome.error))))
      && (answer.Err? <==> IndexOf(s.log.messages, id).None?)
      && (answer.Err? ==> answer == Err(Missing(id)))
    case Receive(_) => true
  }

  function Named(op: Op): (id: Option<string>) {
    match op
    case Open(m, _, _, _, _) => m.id
    case Queue(m, _, _) => m.id
    case Reopen(id) => Some(id)
    case Requeue(id) => Some(id)
    case Settle(id, _, _, _) => Some(id)
    case Activate(id) => Some(id)
    case Receive(_) => None
  }

  /** Every operation of a run answers by the account of the send it names: a first
      send with what was filed, a re-send with the same bytes and one more retry, a
      settlement with what the transport said. */
  lemma EveryOperationAnswers(states: seq<Sends>, ops: seq<Op>, n: nat)
    requires Run(states, ops) && n < |ops|
    ensures Answers(states[n], ops[n], if Named(ops[n]).Some? then AccountOf(ops[..n], Named(ops[n]).value) else None)
  {
    var s, op := states[n], ops[n];
    assert FreshlyStamped(s, op);
    if Named(op).Some? {
      var id := Named(op).value;
      LogAndAttemptsAgree(states, ops, n, id);
      AnswersByAccount(s, op, id, AccountOf(ops[..n], id));
    }
  }

  lemma AnswersByAccount(s: Sends, op: Op, id: string, t: Option<Account>)
    requires Named(op) == Some(id) && FreshlyStamped(s, op) && Agrees(s, id, t)
    ensures Answers(s, op, t)
  {
    match op {
      case Open(m, _, _, _, _) => AppendMovesNothing(s.log.messages, m, id);
        MarkMovesOnlyItsMessage(Upserted(s.log, m), id, DeliveryMeta(Pending, None, 0), id);
      case Queue(m, _, _) => AppendMovesNothing(s.log.messages, m, id);
        MarkMovesOnlyItsMessage(Upserted(s.log, m), id, DeliveryMeta(Queued, None, 0), id);
      case Reopen(_) => ReopenAgrees(s, id, Pending, id, t);
      case Requeue(_) => ReopenAgrees(s, id, Queued, id, t);
      case Settle(_, outcome, onSent, now) => SettleReports(s, id, outcome, onSent, now);
      case Activate(_) => ActivateAgrees(s, id, id, t);
      case Receive(_) =>
    }
  }

  /** What the message of an id shows, if the log holds it. */
  function StatusShown(s: Sends, id: string): (status: Option<Status>) {
    var found := IndexOf(s.log.messages, id);
    if found.None? then None else s.log.messages[found.value].delivery.status
  }

  /** The error it shows with it. */
  function ErrorShown(s: Sends, id: string): (error: Option<string>) {
    var found := IndexOf(s.log.messages, id);
    if found.None? then None else s.log.messages[found.value].delivery.error
  }

  /** The statuses of an attempt and its message differ exactly when the last
      operation on it was a requeue. */
  lemma StatusesDifferOnlyAfterRequeue(states: seq<Sends>, ops: seq<Op>, n: nat, id: string)
    requires Run(states, ops) && n <= |ops| && id in states[n].attempts
    ensures AccountOf(ops[..n], id).Some?
    ensures StatusShown(states[n], id) != Some(states[n].attempts[id].status) <==> AccountOf(ops[..n], id).value.requeued
    ensures AccountOf(ops[..n], id).value.requeued ==>
      states[n].attempts[id].status == Queued && StatusShown(states[n], id) == Some(Pending)
  {
    LogAndAttemptsAgree(states, ops, n, id);
    RequeuedIsQueued(ops[..n], id);
  }

  /** Any message that is queued and then queued again: its attempt says Queued, and
      the message Pending. */
  lemma RequeuedMessageShowsPending(m: Message, id: string, conversationId: string, now: u64)
    returns (states: seq<Sends>, ops: seq<Op>)
    requires m.id == Some(id) && !Hidden(m)
    ensures Run(states, ops) && ops == [Queue(m, conversationId, now), Requeue(id)]
    ensures id in states[2].attempts && states[2].attempts[id].status == Queued
    ensures StatusShown(states[2], id) == Some(Pending)
  {
    ops := [Queue(m, conversationId, now), Requeue(id)];
    states := RunOfTwo(ops);
    QueuedThenRequeued(ops, id);
    LogAndAttemptsAgree(states, ops, 2, id);
    assert ops[..2] == ops;
    StatusesDifferOnlyAfterRequeue(states, ops, 2, id);
  }

  lemma RunOfTwo(ops: seq<Op>) returns (states: seq<Sends>)
    requires |ops| == 2 && FreshlyStamped(Sends(EMPTY, map[]), ops[0]) && !ops[1].Open? && !ops[1].Queue?
    ensures Run(states, ops)
  {
    var first := Sends(EMPTY, map[]);
    var second := Stepped(first, ops[0]);
    states := [first, second, Stepped(second, ops[1])];
  }

  lemma QueuedThenRequeued(ops: seq<Op>, id: string)
    requires |ops| == 2 && ops[0].Queue? && ops[0].message.id == Some(id) && ops[1] == Requeue(id)
    ensures AccountOf(ops, id).Some? && AccountOf(ops, id).value.requeued
  {
    assert ops[..1][..0] == [];
    assert AccountOf(ops[..1], id) == Some(Started(ops[0]));
  }

  lemma {:induction false} RequeuedIsQueued(ops: seq<Op>, id: string)
    ensures var t := AccountOf(ops, id); t.Some? && t.value.requeued ==> t.value.status == Queued
  {
    if ops != [] {
      RequeuedIsQueued(ops[..|ops| - 1], id);
    }
  }

  lemma FiledOnlyOnce(s: Sends, op: Op, id: string, t: Account)
    requires FreshlyStamped(s, op) && Agrees(s, id, Some(t)) && Concerns(op, id)
    ensures !op.Open? && !op.Queue?
  {
  }

  lemma BookingKeepsPublished(t: Account, op: Op)
    requires t.published
    ensures Booked(t, op).Some? ==> Booked(t, op).value.published
  {
  }

  /** Once published, an attempt stays so for as long as it exists. */
  lemma PublishedStaysPublished(states: seq<Sends>, ops: seq<Op>, n: nat, id: string)
    requires Run(states, ops) && n < |ops| && id in states[n].attempts && id in states[n + 1].attempts
    requires states[n].attempts[id].everPublished == Some(true)
    ensures states[n + 1].attempts[id].everPublished == Some(true)
  {
    LogAndAttemptsAgree(states, ops, n, id);
    LogAndAttemptsAgree(states, ops, n + 1, id);
    var t, op := AccountOf(ops[..n], id), ops[n];
    assert ops[..n + 1][..n] == ops[..n];
    if Concerns(op, id) {
      FiledOnlyOnce(states[n], op, id, t.value);
      BookingKeepsPublished(t.value, op);
    }
  }

  /** An attempt whose bytes cannot be read is not sent again, but the try is counted;
      the message is left as it was. */
  lemma UnreadablePayloadIsCounted(s: Sends, id: string, status: Status)
    requires id in s.attempts && s.attempts[id].payload.Garbled?
    ensures var (r, answer) := ReopenedAs(s, id, status);
      && answer == Err(Codec) && r.log == s.log && id in r.attempts
      && r.attempts[id].retryCount == Saturated(s.attempts[id].retryCount + 1)
      && r.attempts[id].status == status && r.attempts[id].error == None
  {
  }

  /** A message that nobody stamped with an id is shown, but not filed for sending. */
  lemma UnstampedIsNotFiled(s: Sends, m: Message, conversationId: string, payload: Bytes, size: nat, status: Status, now: u64)
    requires m.id.None? && IndexOf(s.log.messages, "").None?
    ensures var (r, answer) := Filed(s, m, conversationId, payload, size, status, now);
      && answer == Err(Missing("")) && r.attempts == s.attempts && r.log.messages == s.log.messages + [m]
  {
    assert forall i :: 0 <= i < |s.log.messages + [m]| ==> (s.log.messages + [m])[i].id != Some("");
  }

  // ---------- erased for this device alone ----------

  /** The message is a tombstone here, and its attempt may have reached the peer. */
  ghost predicate HiddenButSent(s: Sends, id: string, json: Text<Message>) {
    var found := IndexOf(s.log.messages, id);
    && found.Some? && s.log.messages[found.value].deletion == Some(ForMe)
    && id in s.attempts && s.attempts[id].everPublished != Some(false) && s.attempts[id].messageJson == json
  }

  lemma MarkAndSyncKeepSent(s: Sends, x: string, status: Status, error: Option<string>, retryCount: u32, id: string, json: Text<Message>)
    requires HiddenButSent(s, id, json)
    ensures var marked := MarkedSend(s, x, status, error, retryCount).0;
      HiddenButSent(marked, id, json) && HiddenButSent(Synced(marked, x).0, id, json)
  {
    MarkMovesOnlyItsMessage(s.log, x, DeliveryMeta(status, error, retryCount), id);
  }

  lemma StepKeepsSent(s: Sends, op: Op, id: string, json: Text<Message>)
    requires HiddenButSent(s, id, json) && FreshlyStamped(s, op)
    requires !(op.Settle? && op.id == id && op.outcome.Ok? && op.onSent.Forget?)
    ensures HiddenButSent(Stepped(s, op), id, json)
  {
    match op {
      case Open(m, conversationId, payload, size, now) => FileKeepsSent(s, m, conversationId, payload, size, Pending, now, id, json);
      case Queue(m, conversationId, now) => FileKeepsSent(s, m, conversationId, [], 0, Queued, now, id, json);
      case Reopen(x) => ReopenKeepsSent(s, x, Pending, id, json);
      case Requeue(x) => ReopenKeepsSent(s, x, Queued, id, json);
      case Settle(x, outcome, onSent, now) => SettleKeepsSent(s, x, outcome, onSent, now, id, json);
      case Activate(x) => ActivateKeepsSent(s, x, id, json);
      case Receive(m) => AppendMovesNothing(s.log.messages, m, id);
    }
  }

  lemma FileKeepsSent(s: Sends, m: Message, conversationId: string, payload: Bytes, size: nat, status: Status, now: u64, id: string, json: Text<Message>)
    requires HiddenButSent(s, id, json) && m.id.Some? && IndexOf(s.log.messages, m.id.value).None?
    ensures HiddenButSent(Filed(s, m, conversationId, payload, size, status, now).0, id, json)
  {
    var upserted := s.(log := Upserted(s.log, m));
    AppendMovesNothing(s.log.messages, m, id);
    assert m.id.value != id;
    MarkMovesOnlyItsMessage(upserted.log, m.id.value, DeliveryMeta(status, None, 0), id);
  }

  lemma ActivateKeepsSent(s: Sends, x: string, id: string, json: Text<Message>)
    requires HiddenButSent(s, id, json)
    ensures HiddenButSent(Activated(s, x).0, id, json)
  {
    if x in s.attempts {
      var queued := WithAttempt(s, x, s.attempts[x].(status := Queued, error := None));
      MarkAndSyncKeepSent(queued, x, Queued, None, s.attempts[x].retryCount, id, json);
    }
  }

  lemma ReopenKeepsSent(s: Sends, x: string, status: Status, id: string, json: Text<Message>)
    requires HiddenButSent(s, id, json)
    ensures HiddenButSent(ReopenedAs(s, x, status).0, id, json)
  {
    if x in s.attempts {
      var attempt := s.attempts[x].(retryCount := SaturatingNext(s.attempts[x].retryCount), status := status, error := None);
      MarkAndSyncKeepSent(WithAttempt(s, x, attempt), x, Pending, None, attempt.retryCount, id, json);
    }
  }

  lemma SettleKeepsSent(s: Sends, x: string, outcome: Result<(), string>, onSent: OnSent, now: u64, id: string, json: Text<Message>)
    requires HiddenButSent(s, id, json) && !(x == id && outcome.Ok? && onSent.Forget?)
    ensures HiddenButSent(SettledAs(s, x, outcome, onSent, now).0, id, json)
  {
    var retryCount := if x in s.attempts then s.attempts[x].retryCount else 0;
    if outcome.Err? {
      var noted := if x !in s.attempts then s else
        WithAttempt(s, x, s.attempts[x].(status := Failed, error := Some(outcome.error)));
      MarkAndSyncKeepSent(noted, x, Failed, Some(outcome.error), retryCount, id, json);
    } else {
      MarkMovesOnlyItsMessage(s.log, x, DeliveryMeta(Sent, None, retryCount), id);
    }
  }

  /** Erasing a message for this device takes nothing from a send that may have reached
      the peer: whatever is done with it afterwards, its attempt keeps the message it was
      sent with, until the send is settled for good. */
  lemma {:induction false} HiddenKeepsWhatWasSent(states: seq<Sends>, ops: seq<Op>, id: string)
    requires |states| == |ops| + 1
    requires forall i {:trigger ops[i]} :: 0 <= i < |ops| ==>
      FreshlyStamped(states[i], ops[i]) && states[i + 1] == Stepped(states[i], ops[i])
    requires forall op :: op in ops ==> !(op.Settle? && op.id == id && op.outcome.Ok? && op.onSent.Forget?)
    requires id in states[0].attempts && HiddenButSent(states[0], id, states[0].attempts[id].messageJson)
    ensures id in states[|ops|].attempts
    ensures states[|ops|].attempts[id].messageJson == states[0].attempts[id].messageJson
  {
    HiddenSentAt(states, ops, id, |ops|);
  }

  lemma {:induction false} HiddenSentAt(states: seq<Sends>, ops: seq<Op>, id: string, n: nat)
    requires |states| == |ops| + 1 && n <= |ops|
    requires forall i {:trigger ops[i]} :: 0 <= i < |ops| ==>
      FreshlyStamped(states[i], ops[i]) && states[i + 1] == Stepped(states[i], ops[i])
    requires forall op :: op in ops ==> !(op.Settle? && op.id == id && op.outcome.Ok? && op.onSent.Forget?)
    requires id in states[0].attempts && HiddenButSent(states[0], id, states[0].attempts[id].messageJson)
    ensures HiddenButSent(states[n], id, states[0].attempts[id].messageJson)
  {
    if n > 0 {
      HiddenSentAt(states, ops, id, n - 1);
      assert ops[n - 1] in ops;
      StepKeepsSent(states[n - 1], ops[n - 1], id, states[0].attempts[id].messageJson);
    }
  }

  /** A send that never reached the peer is erased with its message: the next thing
      done with its attempt puts the tombstone in it. */
  lemma UnsentIsErasedToo(s: Sends, op: Op, id: string)
    requires IndexOf(s.log.messages, id).Some? && s.log.messages[IndexOf(s.log.messages, id).value].deletion == Some(ForMe)
    requires id in s.attempts && s.attempts[id].everPublished == Some(false) && s.attempts[id].payload.Encoded?
    requires op == Reopen(id) || op == Requeue(id) || op == Activate(id)
             || (op.Settle? && op.id == id && op.outcome.Err?)
    ensures var r := Stepped(s, op);
      && id in r.attempts && r.attempts[id].messageJson.Encoded?
      && r.attempts[id].messageJson.value.deletion == Some(ForMe)
      && r.attempts[id].messageJson.value.body == s.log.messages[IndexOf(s.log.messages, id).value].body
  {
    var attempt := s.attempts[id];
    var retried := SaturatingNext(attempt.retryCount);
    MarkMovesOnlyItsMessage(s.log, id, DeliveryMeta(Pending, None, retried), id);
    MarkMovesOnlyItsMessage(s.log, id, DeliveryMeta(Queued, None, attempt.retryCount), id);
    if op.Settle? {
      MarkMovesOnlyItsMessage(s.log, id, DeliveryMeta(Failed, Some(op.outcome.error), attempt.retryCount), id);
    }
  }
}
