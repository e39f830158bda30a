/** Whole lives of a conversation: sends and edits in memory, tail and send
    writes that fail at any row, and restarts from the disk at any moment. */
module HistoryRuns {
  import opened Wrappers
  import opened Primitives
  import opened Messages
  import opened MessageLogs
  import opened Outboxes
  import opened HistoryStores
  import opened Histories
  import opened HistoryReplay
  import Sending = OutboxRuns
  import Erasing = MessageErasure

  /** One conversation: its memory, the rows counted as written, its disk. */
  datatype Session = Session(sends: Sends, count: nat, disk: Disk)

  datatype Event =
    | Live(op: Sending.Op)
    | Edit(edit: Erasing.Edit)
    | Cancel(id: string)
    | Tail(times: seq<u64>, outcomes: seq<WriteOutcome>)
    | Send(id: string, now: u64, outcome: WriteOutcome)
    | Acknowledged(count: nat)
    | Forget
    | Restart(rowKeys: Option<seq<RowKey>>, attemptKeys: Option<seq<string>>)

  /** The id a message without one is written under: from its own time, or from the
      time of the write if it has none. */
  ghost predicate MadeFor(m: Message, i: nat, id: string) {
    exists now: u64 :: id == GeneratedId(SentAtOf(m, now), i)
  }

  /** The message at index i goes by this id on disk. */
  ghost predicate GoesBy(m: Message, i: nat, id: string) {
    if m.id.Some? then m.id == Some(id) else MadeFor(m, i, id)
  }

  /** The message at index i is on disk. */
  ghost predicate CoveredAt(disk: Disk, m: Message, i: nat) {
    exists id :: GoesBy(m, i, id) && RowOnDisk(disk, id)
  }

  ghost predicate Covered(disk: Disk, messages: seq<Message>, count: nat) {
    count <= |messages| && forall i {:trigger CoveredAt(disk, messages[i], i)} :: 0 <= i < count ==> CoveredAt(disk, messages[i], i)
  }

  /** A log edit fits and moves no message without an id in time, an acknowledged count is one the store really holds, and a
      listing, if the store gives one, is of its own keys. */
  ghost predicate Possible(w: Session, event: Event) {
    match event
    case Edit(edit) =>
      && Erasing.Fits(w.sends.log, edit)
      && (edit.Swap? && edit.message.id.None? ==> edit.message.sentAt == w.sends.log.messages[edit.index].sentAt)
    case Acknowledged(count) => Covered(w.disk, w.sends.log.messages, count)
    case Restart(rowKeys, attemptKeys) =>
      && (rowKeys.Some? ==> Enumerates(rowKeys.value, w.disk.rows.Keys))
      && (attemptKeys.Some? ==> Enumerates(attemptKeys.value, w.disk.attempts.Keys))
    case _ => true
  }

  ghost function Reloaded(disk: Disk, rowKeys: Option<seq<RowKey>>, attemptKeys: Option<seq<string>>): (s: Sends)
    requires rowKeys.Some? ==> Enumerates(rowKeys.value, disk.rows.Keys)
    requires attemptKeys.Some? ==> Enumerates(attemptKeys.value, disk.attempts.Keys)
  {
    Replayed(Sends(EMPTY, map[]),
             if rowKeys.Some? then Some(Listing(disk.rows, rowKeys.value)) else None,
             if attemptKeys.Some? then Some(Listing(disk.attempts, attemptKeys.value)) else None)
  }

  ghost function Step(w: Session, event: Event): (r: Session)
    requires Possible(w, event)
  {
    match event
    case Live(op) => w.(sends := Sending.Stepped(w.sends, op))
    case Edit(edit) => w.(sends := w.sends.(log := Erasing.Edited(w.sends.log, edit)))
    case Cancel(id) => w.(sends := w.sends.(attempts := w.sends.attempts - {id}))
    case Tail(times, outcomes) =>
      var written := TailWritten(w.disk.rows, w.sends.log.messages, w.count, times, outcomes);
      Session(w.sends, written.1, w.disk.(rows := written.0))
    case Send(id, now, outcome) => w.(disk := SendWritten(w.disk, w.sends, id, now, outcome).0)
    case Acknowledged(count) => w.(count := count)
    case Forget => w.(count := 0)
    case Restart(rowKeys, attemptKeys) =>
      var s := Reloaded(w.disk, rowKeys, attemptKeys);
      Session(s, |s.log.messages|, w.disk)
  }

  /** Each attempt is filed under its own id, with a message of that id. */
  ghost predicate OwnAttempts(attempts: Attempts) {
    forall id :: id in attempts ==> attempts[id].messageId == id && WellFiled(Encoded(attempts[id]))
  }

  /** No attempt row without a message row. */
  ghost predicate Backed(disk: Disk) {
    forall id {:trigger AttemptOnDisk(disk, id)} :: AttemptOnDisk(disk, id) ==> RowOnDisk(disk, id)
  }

  ghost predicate Inv(w: Session) {
    && InPlace(w.disk) && Backed(w.disk)
    && OwnAttempts(w.sends.attempts)
    && Covered(w.disk, w.sends.log.messages, w.count)
  }

  // ---------- memory: ids stay where they are ----------

  ghost predicate KeepsIds(before: seq<Message>, after: seq<Message>) {
    && |before| <= |after|
    && forall i :: 0 <= i < |before| ==>
         after[i].id == before[i].id && (before[i].id.None? ==> after[i].sentAt == before[i].sentAt)
  }

  lemma SameTimeSameId(before: Message, after: Message, i: nat, id: string)
    requires GoesBy(before, i, id)
    requires after.id == before.id && (before.id.None? ==> after.sentAt == before.sentAt)
    ensures GoesBy(after, i, id)
  {
    if before.id.None? {
      var now: u64 :| id == GeneratedId(SentAtOf(before, now), i);
      assert SentAtOf(after, now) == SentAtOf(before, now);
    }
  }

  lemma KeepingIdsKeepsCover(disk: Disk, before: seq<Message>, after: seq<Message>, count: nat)
    requires Covered(disk, before, count) && KeepsIds(before, after)
    ensures Covered(disk, after, count)
  {
    forall i | 0 <= i < count ensures CoveredAt(disk, after[i], i) {
      assert CoveredAt(disk, before[i], i);
      var id :| GoesBy(before[i], i, id) && RowOnDisk(disk, id);
      SameTimeSameId(before[i], after[i], i, id);
    }
  }

  lemma MarkedSendKeeps(s: Sends, id: string, status: Status, error: Option<string>, retryCount: u32)
    requires OwnAttempts(s.attempts)
    ensures var r := MarkedSend(s, id, status, error, retryCount).0;
      KeepsIds(s.log.messages, r.log.messages) && OwnAttempts(r.attempts)
  {
  }

  lemma SyncedKeeps(s: Sends, id: string)
    requires OwnAttempts(s.attempts)
    ensures Synced(s, id).0.log == s.log && OwnAttempts(Synced(s, id).0.attempts)
  {
  }

  /** Marking and then syncing, as every operation on a filed attempt ends. */
  lemma MarkAndSyncKeep(s: Sends, id: string, status: Status, error: Option<string>, retryCount: u32)
    requires OwnAttempts(s.attempts)
    ensures var r := MarkedSend(s, id, status, error, retryCount).0;
      && KeepsIds(s.log.messages, r.log.messages) && OwnAttempts(r.attempts)
      && Synced(r, id).0.log == r.log && OwnAttempts(Synced(r, id).0.attempts)
  {
    MarkedSendKeeps(s, id, status, error, retryCount);
    SyncedKeeps(MarkedSend(s, id, status, error, retryCount).0, id);
  }

  lemma FiledKeeps(s: Sends, m: Message, conversationId: string, payload: Bytes, size: nat, status: Status, now: u64)
    requires OwnAttempts(s.attempts)
    ensures var r := Filed(s, m, conversationId, payload, size, status, now).0;
      KeepsIds(s.log.messages, r.log.messages) && OwnAttempts(r.attempts)
  {
    var upserted := s.(log := Upserted(s.log, m));
    assert KeepsIds(s.log.messages, upserted.log.messages);
    MarkedSendKeeps(upserted, IdOf(m), status, None, 0);
  }

  lemma ReopenedKeeps(s: Sends, id: string, status: Status)
    requires OwnAttempts(s.attempts)
    ensures var r := ReopenedAs(s, id, status).0;
      KeepsIds(s.log.messages, r.log.messages) && OwnAttempts(r.attempts)
  {
    if id in s.attempts {
      var attempt := s.attempts[id].(retryCount := SaturatingNext(s.attempts[id].retryCount), status := status, error := None);
      MarkAndSyncKeep(WithAttempt(s, id, attempt), id, Pending, None, attempt.retryCount);
    }
  }

  lemma ActivatedKeeps(s: Sends, id: string)
    requires OwnAttempts(s.attempts)
    ensures var r := Activated(s, id).0;
      KeepsIds(s.log.messages, r.log.messages) && OwnAttempts(r.attempts)
  {
    if id in s.attempts {
      var queued := WithAttempt(s, id, s.attempts[id].(status := Queued, error := None));
      MarkAndSyncKeep(queued, id, Queued, None, s.attempts[id].retryCount);
    }
  }

  lemma SettledKeeps(s: Sends, id: string, outcome: Result<(), string>, onSent: OnSent, now: u64)
    requires OwnAttempts(s.attempts)
    ensures var r := if outcome.Ok? then SettledSent(s, id, onSent, now).0 else SettledFailed(s, id, outcome.error).0;
      KeepsIds(s.log.messages, r.log.messages) && OwnAttempts(r.attempts)
  {
    var retryCount := if id in s.attempts then s.attempts[id].retryCount else 0;
    if outcome.Err? {
      var noted := if id !in s.attempts then s else
        WithAttempt(s, id, s.attempts[id].(status := Failed, error := Some(outcome.error)));
      MarkAndSyncKeep(noted, id, Failed, Some(outcome.error), retryCount);
    } else {
      MarkedSendKeeps(s, id, Sent, None, retryCount);
      var marked := MarkedSend(s, id, Sent, None, retryCount).0;
      var published := if id !in marked.attempts then marked else
        WithAttempt(marked, id, marked.attempts[id].(everPublished := Some(true), status := Sent, error := None, lastSend := now));
      SyncedKeeps(published, id);
    }
  }

  lemma LiveKeeps(s: Sends, op: Sending.Op)
    requires OwnAttempts(s.attempts)
    ensures KeepsIds(s.log.messages, Sending.Stepped(s, op).log.messages) && OwnAttempts(Sending.Stepped(s, op).attempts)
  {
    match op {
      case Open(m, conversationId, payload, size, now) => FiledKeeps(s, m, conversationId, payload, size, Pending, now);
      case Queue(m, conversationId, now) => FiledKeeps(s, m, conversationId, [], 0, Queued, now);
      case Reopen(id) => ReopenedKeeps(s, id, Pending);
      case Requeue(id) => ReopenedKeeps(s, id, Queued);
      case Settle(id, outcome, onSent, now) => SettledKeeps(s, id, outcome, onSent, now);
      case Activate(id) => ActivatedKeeps(s, id);
      case Receive(m) =>
    }
  }

  // ---------- disk: rows are never lost ----------

  ghost predicate Grows(before: Disk, after: Disk) {
    forall id {:trigger RowOnDisk(after, id)} :: RowOnDisk(before, id) ==> RowOnDisk(after, id)
  }

  lemma RowWrittenGrows(disk: Disk, key: RowKey, row: Row)
    requires InPlace(disk) && Names(Encoded(row), key.id)
    ensures var after := disk.(rows := RowWritten(disk.rows, key, row));
      InPlace(after) && Grows(disk, after) && RowOnDisk(after, key.id)
  {
    var after := disk.(rows := RowWritten(disk.rows, key, row));
    forall id | RowOnDisk(disk, id) ensures RowOnDisk(after, id) {
      var k :| k in disk.rows && disk.rows[k].Encoded? && k.id == id;
      assert k in after.rows && after.rows[k].Encoded?;
    }
    assert key in after.rows && after.rows[key].Encoded?;
  }

  lemma GrowingKeepsCover(before: Disk, after: Disk, messages: seq<Message>, count: nat)
    requires Grows(before, after) && Covered(before, messages, count)
    ensures Covered(after, messages, count)
  {
    forall i | 0 <= i < count ensures CoveredAt(after, messages[i], i) {
      assert CoveredAt(before, messages[i], i);
      var id :| GoesBy(messages[i], i, id) && RowOnDisk(before, id);
      assert RowOnDisk(after, id);
    }
  }

  lemma SameAttemptsStayBacked(before: Disk, after: Disk)
    requires Backed(before) && Grows(before, after) && after.attempts == before.attempts
    ensures Backed(after)
  {
    forall id | AttemptOnDisk(after, id) ensures RowOnDisk(after, id) {
      assert AttemptOnDisk(before, id);
    }
  }

  lemma TailRowIsNamed(m: Message, i: nat, now: u64)
    ensures Names(Encoded(TailRow(m, TailKey(m, i, now))), TailKey(m, i, now).id)
    ensures GoesBy(m, i, TailKey(m, i, now).id)
  {
    if m.id.None? {
      assert TailKey(m, i, now).id == GeneratedId(SentAtOf(m, now), i);
      assert MadeFor(m, i, TailKey(m, i, now).id);
    }
  }

  lemma {:induction false} TailKeepsDisk(disk: Disk, messages: seq<Message>, start: nat, times: seq<u64>, outcomes: seq<WriteOutcome>)
    requires InPlace(disk) && Backed(disk) && Covered(disk, messages, start)
    ensures var (rows, count, _) := TailWritten(disk.rows, messages, start, times, outcomes);
      var after := disk.(rows := rows);
      InPlace(after) && Backed(after) && Grows(disk, after) && start <= count && Covered(after, messages, count)
    decreases |messages| - start
  {
    if start < |messages| && OutcomeAt(outcomes, start) != Refused {
      var m := messages[start];
      var key := TailKey(m, start, NowAt(times, start));
      var written := disk.(rows := RowWritten(disk.rows, key, TailRow(m, key)));
      TailRowIsNamed(m, start, NowAt(times, start));
      RowWrittenGrows(disk, key, TailRow(m, key));
      GrowingKeepsCover(disk, written, messages, start);
      SameAttemptsStayBacked(disk, written);
      if OutcomeAt(outcomes, start) == Saved {
        assert CoveredAt(written, m, start);
        TailKeepsDisk(written, messages, start + 1, times, outcomes);
      }
    }
  }

  lemma SendCommittedKeeps(disk: Disk, key: RowKey, row: Row, attempt: Option<Attempt>)
    requires InPlace(disk) && Backed(disk) && Names(Encoded(row), key.id)
    requires attempt.Some? ==> attempt.value.messageId == key.id && WellFiled(Encoded(attempt.value))
    ensures var after := SendCommitted(disk, key, row, attempt); InPlace(after) && Backed(after) && Grows(disk, after)
  {
    var written := disk.(rows := RowWritten(disk.rows, key, row));
    var after := SendCommitted(disk, key, row, attempt);
    RowWrittenGrows(disk, key, row);
    SameRowsSameCover(written, after);
    forall id | AttemptOnDisk(after, id) ensures RowOnDisk(after, id) {
      assert id != key.id ==> AttemptOnDisk(disk, id);
      assert RowOnDisk(written, id);
    }
    forall id | RowOnDisk(disk, id) ensures RowOnDisk(after, id) {
      assert RowOnDisk(written, id);
    }
  }

  lemma SameRowsSameCover(before: Disk, after: Disk)
    requires before.rows == after.rows
    ensures Grows(before, after)
  {
  }

  lemma SendKeepsDisk(disk: Disk, s: Sends, id: string, now: u64, outcome: WriteOutcome)
    requires InPlace(disk) && Backed(disk) && OwnAttempts(s.attempts)
    ensures var after := SendWritten(disk, s, id, now, outcome).0; InPlace(after) && Backed(after) && Grows(disk, after)
  {
    var found := IndexOf(s.log.messages, id);
    if found.Some? {
      var m := s.log.messages[found.value];
      var attempt := if id in s.attempts then Some(s.attempts[id]) else None;
      SendCommittedKeeps(disk, RowKey(SentAtOf(m, now), id), Row(SentAtOf(m, now), id, m), attempt);
    }
  }

  // ---------- restarts ----------

  lemma ReloadedIds(disk: Disk, rowKeys: Option<seq<RowKey>>, attemptKeys: Option<seq<string>>, id: string)
    requires InPlace(disk)
    requires rowKeys.Some? ==> Enumerates(rowKeys.value, disk.rows.Keys)
    requires attemptKeys.Some? ==> Enumerates(attemptKeys.value, disk.attempts.Keys)
    ensures var s := Reloaded(disk, rowKeys, attemptKeys);
      && Keyed(s.log.messages)
      && (Get(s.log.messages, id).Some? ==> RowOnDisk(disk, id) || AttemptOnDisk(disk, id))
      && (id in s.attempts ==> AttemptOnDisk(disk, id))
  {
    var rows := if rowKeys.Some? then Listing(disk.rows, rowKeys.value) else [];
    var attempts := if attemptKeys.Some? then Listing(disk.attempts, attemptKeys.value) else [];
    var read := Sends(RowsReplayed(EMPTY, rows), map[]);
    RowsKeyed(rows);
    RowsNameTheLog(rows, id);
    if rowKeys.Some? {
      ListedRows(disk, rowKeys.value, id);
    }
    if attemptKeys.Some? {
      ListedAreWellFiled(disk, attemptKeys.value);
      ListedAttempts(disk, attemptKeys.value, id);
    }
    AttemptsKeyedAndShown(read, attempts);
    AttemptsNameTheLog(read, attempts, id);
    SettlingGet(AttemptsReplayed(read, attempts), id);
  }

  lemma {:induction false} ReplayedAttemptsAreOwn(s: Sends, rows: seq<Text<Attempt>>)
    requires OwnAttempts(s.attempts) && forall i :: 0 <= i < |rows| ==> WellFiled(rows[i])
    ensures OwnAttempts(AttemptsReplayed(s, rows).attempts)
  {
    if rows != [] {
      ReplayedAttemptsAreOwn(s, rows[..|rows| - 1]);
      assert WellFiled(rows[|rows| - 1]);
    }
  }

  lemma RestartKeepsInv(disk: Disk, rowKeys: Option<seq<RowKey>>, attemptKeys: Option<seq<string>>)
    requires InPlace(disk) && Backed(disk)
    requires rowKeys.Some? ==> Enumerates(rowKeys.value, disk.rows.Keys)
    requires attemptKeys.Some? ==> Enumerates(attemptKeys.value, disk.attempts.Keys)
    ensures var s := Reloaded(disk, rowKeys, attemptKeys);
      Inv(Session(s, |s.log.messages|, disk))
  {
    var s := Reloaded(disk, rowKeys, attemptKeys);
    ReloadedIds(disk, rowKeys, attemptKeys, "");
    forall i | 0 <= i < |s.log.messages| ensures CoveredAt(disk, s.log.messages[i], i) {
      var id := s.log.messages[i].id.value;
      KeyedGet(s.log.messages, i);
      ReloadedIds(disk, rowKeys, attemptKeys, id);
      assert AttemptOnDisk(disk, id) ==> RowOnDisk(disk, id);
      assert GoesBy(s.log.messages[i], i, id);
    }
    if attemptKeys.Some? {
      ListedAreWellFiled(disk, attemptKeys.value);
      var rows := if rowKeys.Some? then Listing(disk.rows, rowKeys.value) else [];
      ReplayedAttemptsAreOwn(Sends(RowsReplayed(EMPTY, rows), map[]), Listing(disk.attempts, attemptKeys.value));
    }
  }

  // ---------- runs ----------

  lemma StepKeepsInv(w: Session, event: Event)
    requires Inv(w) && Possible(w, event)
    ensures Inv(Step(w, event))
  {
    var after := Step(w, event);
    match event {
      case Live(op) =>
        LiveKeeps(w.sends, op);
        KeepingIdsKeepsCover(w.disk, w.sends.log.messages, after.sends.log.messages, w.count);
      case Edit(edit) =>
        KeepingIdsKeepsCover(w.disk, w.sends.log.messages, after.sends.log.messages, w.count);
      case Tail(times, outcomes) =>
        TailKeepsDisk(w.disk, w.sends.log.messages, w.count, times, outcomes);
      case Send(id, now, outcome) =>
        SendKeepsDisk(w.disk, w.sends, id, now, outcome);
        GrowingKeepsCover(w.disk, after.disk, w.sends.log.messages, w.count);
      case Restart(rowKeys, attemptKeys) =>
        RestartKeepsInv(w.disk, rowKeys, attemptKeys);
      case _ =>
    }
  }

  ghost predicate Run(ws: seq<Session>, events: seq<Event>) {
    && |ws| == |events| + 1
    && forall i {:trigger events[i]} :: 0 <= i < |events| ==> Possible(ws[i], events[i]) && ws[i + 1] == Step(ws[i], events[i])
  }

  lemma {:induction false} RunsKeepInv(ws: seq<Session>, events: seq<Event>, i: nat)
    requires Run(ws, events) && Inv(ws[0]) && i < |ws|
    ensures Inv(ws[i])
  {
    if i > 0 {
      RunsKeepInv(ws, events, i - 1);
      assert Possible(ws[i - 1], events[i - 1]);
      StepKeepsInv(ws[i - 1], events[i - 1]);
    }
  }

  // ---------- main results ----------

  /** A process starts with nothing in memory, on whatever an earlier one left. */
  lemma NewProcessStartsSound(disk: Disk)
    requires InPlace(disk) && Backed(disk)
    ensures Inv(Session(Sends(EMPTY, map[]), 0, disk))
    ensures InPlace(Disk(map[], map[])) && Backed(Disk(map[], map[]))
  {
  }

  /** Exactly one message has this id. */
  ghost predicate Once(messages: seq<Message>, id: string) {
    exists k :: 0 <= k < |messages| && messages[k].id == Some(id)
                && forall j :: 0 <= j < |messages| && j != k ==> messages[j].id != Some(id)
  }

  lemma HeldOnce(messages: seq<Message>, id: string)
    requires Keyed(messages) && Get(messages, id).Some?
    ensures Once(messages, id)
  {
    var k := IndexOf(messages, id).value;
    assert messages[k].id == Some(id);
  }

  /** At any moment of any run a restart loses nothing below the counter: each of
      those messages is back, exactly once, under its id or the one made for it. */
  lemma NothingCoveredIsLost(ws: seq<Session>, events: seq<Event>, n: nat, i: nat, rowKeys: seq<RowKey>, attemptKeys: seq<string>)
    returns (id: string)
    requires Run(ws, events) && Inv(ws[0]) && n < |ws| && i < ws[n].count
    requires Enumerates(rowKeys, ws[n].disk.rows.Keys) && Enumerates(attemptKeys, ws[n].disk.attempts.Keys)
    ensures i < |ws[n].sends.log.messages|
    ensures GoesBy(ws[n].sends.log.messages[i], i, id)
    ensures Once(Restarted(ws[n].disk, rowKeys, attemptKeys).log.messages, id)
  {
    RunsKeepInv(ws, events, n);
    var w := ws[n];
    var m := w.sends.log.messages[i];
    assert CoveredAt(w.disk, m, i);
    var found :| GoesBy(m, i, found) && RowOnDisk(w.disk, found);
    id := found;
    RestartReturnsTheDiskIds(w.disk, rowKeys, attemptKeys, id);
    HeldOnce(Restarted(w.disk, rowKeys, attemptKeys).log.messages, id);
  }

  /** The row is the message at index i of this log, to the letter, filed under its own
      id and time; one without an id goes by the id made for it, and one without a time
      by the time of the write. */
  ghost predicate RowFrom(messages: seq<Message>, i: nat, now: u64, key: RowKey, row: Text<Row>) {
    && i < |messages| && row.Encoded? && row.value.id == key.id && row.value.sentAt == key.sentAt
    && key.sentAt == (if messages[i].sentAt.Some? then messages[i].sentAt.value else now)
    && key.id == (if messages[i].id.Some? then messages[i].id.value else GeneratedId(key.sentAt, i))
    && MessageOf(row) == Message(Some(key.id), Some(key.sentAt), messages[i].author, messages[i].body,
                                 messages[i].deletion, messages[i].delivery)
  }

  /** The time a write takes for the message at index i. */
  function ClockOf(event: Event, i: nat): (now: u64) {
    match event
    case Tail(times, _) => if i < |times| then times[i] else 0
    case Send(_, now, _) => now
    case _ => 0
  }

  /** The row holds a message of this log, as this write files it. */
  ghost predicate RowOf(messages: seq<Message>, event: Event, key: RowKey, row: Text<Row>) {
    exists i :: 0 <= i < |messages| && RowFrom(messages, i, ClockOf(event, i), key, row)
  }

  lemma {:induction false} TailRowsAreMessages(rows: Rows, messages: seq<Message>, start: nat, times: seq<u64>, outcomes: seq<WriteOutcome>, key: RowKey)
    ensures var after := TailWritten(rows, messages, start, times, outcomes).0;
      key in after ==> (key in rows && after[key] == rows[key]) || RowOf(messages, Tail(times, outcomes), key, after[key])
    decreases |messages| - start
  {
    if start < |messages| && OutcomeAt(outcomes, start) != Refused {
      var m, now := messages[start], NowAt(times, start);
      var first := TailKey(m, start, now);
      var row := TailRow(m, first);
      var written := RowWritten(rows, first, row);
      TailRowIsNamed(m, start, now);
      assert RowFrom(messages, start, ClockOf(Tail(times, outcomes), start), first, Encoded(row));
      if OutcomeAt(outcomes, start) == Saved {
        TailRowsAreMessages(written, messages, start + 1, times, outcomes, key);
      }
    }
  }

  /** Every counted message got its row: its own, that of a message with the same
      key, or the tombstone that was there. */
  lemma {:induction false} TailStoresEachMessage(rows: Rows, messages: seq<Message>, start: nat, times: seq<u64>, outcomes: seq<WriteOutcome>, i: nat)
    requires start <= i < TailWritten(rows, messages, start, times, outcomes).1
    ensures i < |messages|
    ensures var after := TailWritten(rows, messages, start, times, outcomes).0;
      var sentAt := if messages[i].sentAt.Some? then messages[i].sentAt.value else ClockOf(Tail(times, outcomes), i);
      var key := RowKey(sentAt, if messages[i].id.Some? then messages[i].id.value else GeneratedId(sentAt, i));
      key in after && (Erased(after, key) || RowOf(messages, Tail(times, outcomes), key, after[key]))
    decreases |messages| - start
  {
    if start < |messages| {
      var m, now := messages[start], NowAt(times, start);
      var first := TailKey(m, start, now);
      var row := TailRow(m, first);
      var written := RowWritten(rows, first, row);
      TailRowIsNamed(m, start, now);
      if i > start {
        TailStoresEachMessage(written, messages, start + 1, times, outcomes, i);
      } else {
        assert RowFrom(messages, start, ClockOf(Tail(times, outcomes), start), first, Encoded(row));
        RowSurvivesTail(written, messages, start + 1, times, outcomes, first);
        TailRowsAreMessages(written, messages, start + 1, times, outcomes, first);
      }
    }
  }

  lemma {:induction false} RowSurvivesTail(rows: Rows, messages: seq<Message>, start: nat, times: seq<u64>, outcomes: seq<WriteOutcome>, key: RowKey)
    requires key in rows
    ensures var after := TailWritten(rows, messages, start, times, outcomes).0;
      key in after && (Erased(rows, key) ==> after[key] == rows[key])
    decreases |messages| - start
  {
    if start < |messages| && OutcomeAt(outcomes, start) == Saved {
      var first := TailKey(messages[start], start, NowAt(times, start));
      RowSurvivesTail(RowWritten(rows, first, TailRow(messages[start], first)), messages, start + 1, times, outcomes, key);
    }
  }

  /** A tail write ends at the first refusal, and says so: everything counted before it
      was saved, and the row of the refused message is there only if the store kept it
      all the same. Without a refusal the whole log is counted. */
  lemma {:induction false} TailStopsAtTheFirstRefusal(rows: Rows, messages: seq<Message>, start: nat, times: seq<u64>, outcomes: seq<WriteOutcome>)
    ensures var (after, count, ok) := TailWritten(rows, messages, start, times, outcomes);
      && start <= count && (forall i :: start <= i < count ==> i >= |outcomes| || outcomes[i] == Saved)
      && (if ok then count == (if start <= |messages| then |messages| else start)
          else count < |messages| && count < |outcomes| && outcomes[count] != Saved)
    decreases |messages| - start
  {
    if start < |messages| && OutcomeAt(outcomes, start) == Saved {
      var first := TailKey(messages[start], start, NowAt(times, start));
      var written := RowWritten(rows, first, TailRow(messages[start], first));
      TailStopsAtTheFirstRefusal(written, messages, start + 1, times, outcomes);
    }
  }

  /** A send write answers whether the message is in the log, or that the store refused;
      a plain refusal leaves the disk as it was, any other write as a saved one does. */
  lemma SendAnswers(disk: Disk, s: Sends, id: string, now: u64, outcome: WriteOutcome)
    ensures var (after, answer) := SendWritten(disk, s, id, now, outcome);
      && (answer == Ok(false) <==> forall i :: 0 <= i < |s.log.messages| ==> s.log.messages[i].id != Some(id))
      && (answer.Err? ==> outcome != Saved) && (answer == Ok(true) ==> outcome == Saved)
      && (answer == Ok(false) || outcome == Refused ==> after == disk)
      && (outcome == RefusedButSaved ==> after == SendWritten(disk, s, id, now, Saved).0)
  {
    var found := IndexOf(s.log.messages, id);
    if found.Some? {
      assert s.log.messages[found.value].id == Some(id);
    }
  }

  lemma SendRowIsMessage(disk: Disk, s: Sends, id: string, now: u64, outcome: WriteOutcome, key: RowKey)
    ensures var after := SendWritten(disk, s, id, now, outcome).0.rows;
      key in after ==> (key in disk.rows && after[key] == disk.rows[key]) || RowOf(s.log.messages, Send(id, now, outcome), key, after[key])
  {
    var found := IndexOf(s.log.messages, id);
    if found.Some? {
      var m := s.log.messages[found.value];
      var written := RowKey(SentAtOf(m, now), id);
      var row := Row(written.sentAt, id, m);
      assert RowFrom(s.log.messages, found.value, ClockOf(Send(id, now, outcome), found.value), written, Encoded(row));
    }
  }

  /** A row that changed holds a message the log had when it was written. */
  lemma StepRowsAreMessages(w: Session, event: Event, key: RowKey)
    requires Possible(w, event)
    ensures var after := Step(w, event).disk.rows;
      key in after ==>
        (key in w.disk.rows && after[key] == w.disk.rows[key])
        || ((event.Tail? || event.Send?) && RowOf(w.sends.log.messages, event, key, after[key]))
  {
    match event {
      case Tail(times, outcomes) =>
        TailRowsAreMessages(w.disk.rows, w.sends.log.messages, w.count, times, outcomes, key);
      case Send(id, now, outcome) =>
        SendRowIsMessage(w.disk, w.sends, id, now, outcome, key);
      case _ =>
    }
  }

  /** The row at this key is still what it was at the start, or it is what the write
      at step j put there: a message of the log of that moment. */
  ghost predicate WrittenAt(ws: seq<Session>, events: seq<Event>, n: nat, key: RowKey, j: nat) {
    && j < n < |ws| && j < |events| && key in ws[n].disk.rows
    && (events[j].Tail? || events[j].Send?)
    && RowOf(ws[j].sends.log.messages, events[j], key, ws[n].disk.rows[key])
    && forall l :: j < l <= n ==> key in ws[l].disk.rows && ws[l].disk.rows[key] == ws[n].disk.rows[key]
  }

  ghost predicate Untouched(ws: seq<Session>, n: nat, key: RowKey) {
    && n < |ws| && key in ws[0].disk.rows
    && key in ws[n].disk.rows && ws[n].disk.rows[key] == ws[0].disk.rows[key]
  }

  ghost predicate WrittenOnce(ws: seq<Session>, events: seq<Event>, n: nat, key: RowKey) {
    exists j :: WrittenAt(ws, events, n, key, j)
  }

  lemma StillWritten(ws: seq<Session>, events: seq<Event>, n: nat, key: RowKey)
    requires 0 < n < |ws| && WrittenOnce(ws, events, n - 1, key)
    requires key in ws[n].disk.rows && ws[n].disk.rows[key] == ws[n - 1].disk.rows[key]
    ensures WrittenOnce(ws, events, n, key)
  {
    var j :| WrittenAt(ws, events, n - 1, key, j);
    assert WrittenAt(ws, events, n, key, j);
  }

  lemma {:induction false} RowsHaveASource(ws: seq<Session>, events: seq<Event>, n: nat, key: RowKey)
    requires Run(ws, events) && n < |ws| && key in ws[n].disk.rows
    ensures Untouched(ws, n, key) || WrittenOnce(ws, events, n, key)
  {
    if n > 0 {
      assert Possible(ws[n - 1], events[n - 1]);
      StepRowsAreMessages(ws[n - 1], events[n - 1], key);
      if key in ws[n - 1].disk.rows && ws[n].disk.rows[key] == ws[n - 1].disk.rows[key] {
        RowsHaveASource(ws, events, n - 1, key);
        if WrittenOnce(ws, events, n - 1, key) {
          StillWritten(ws, events, n, key);
        }
      } else {
        assert WrittenAt(ws, events, n, key, n - 1);
      }
    }
  }

  /** What comes back under an id is a message as the log had it when it was last
      written, or as the disk had it from the start; rebuilt from its attempt if there
      is one, and failed if its send died. */
  lemma WhatWasWrittenComesBack(ws: seq<Session>, events: seq<Event>, n: nat, id: string, rowKeys: seq<RowKey>, attemptKeys: seq<string>)
    returns (key: RowKey)
    requires Run(ws, events) && Inv(ws[0]) && n < |ws| && RowOnDisk(ws[n].disk, id)
    requires Enumerates(rowKeys, ws[n].disk.rows.Keys) && Enumerates(attemptKeys, ws[n].disk.attempts.Keys)
    ensures key in ws[n].disk.rows && ws[n].disk.rows[key].Encoded? && key.id == id
    ensures Get(Restarted(ws[n].disk, rowKeys, attemptKeys).log.messages, id)
         == Some(Returned(MessageOf(ws[n].disk.rows[key]), ws[n].disk, id))
    ensures Untouched(ws, n, key) || WrittenOnce(ws, events, n, key)
  {
    RunsKeepInv(ws, events, n);
    key := RestartReturnsSomeRow(ws[n].disk, rowKeys, attemptKeys, id);
    RowsHaveASource(ws, events, n, key);
  }

  /** After a restart the counter covers only ids with rows on disk, nothing is left
      pending, and every attempt shows in its message. */
  lemma RestartIsConsistent(ws: seq<Session>, events: seq<Event>, n: nat, id: string, rowKeys: seq<RowKey>, attemptKeys: seq<string>)
    requires Run(ws, events) && Inv(ws[0]) && n < |ws|
    requires Enumerates(rowKeys, ws[n].disk.rows.Keys) && Enumerates(attemptKeys, ws[n].disk.attempts.Keys)
    ensures var s := Restarted(ws[n].disk, rowKeys, attemptKeys);
      && (Get(s.log.messages, id).Some? <==> RowOnDisk(ws[n].disk, id))
      && (id in s.attempts <==> AttemptOnDisk(ws[n].disk, id))
      && (id in s.attempts ==> s.attempts[id].status != Pending && ShowsAttempt(Get(s.log.messages, id), s.attempts[id]))
      && (var m := Get(s.log.messages, id);
          m.Some? && m.value.deletion.None? ==> m.value.delivery.status != Some(Pending))
  {
    RunsKeepInv(ws, events, n);
    RestartReturnsTheDiskIds(ws[n].disk, rowKeys, attemptKeys, id);
    RestartLeavesNothingPending(ws[n].disk, rowKeys, attemptKeys, id);
    assert AttemptOnDisk(ws[n].disk, id) ==> RowOnDisk(ws[n].disk, id);
  }

  /** The counter set by a restart covers only what has a row exactly when every
      readable attempt on disk has one, which `write_send` sees to. */
  lemma RestartCountsOnlyRowsIffBacked(disk: Disk, rowKeys: seq<RowKey>, attemptKeys: seq<string>)
    requires InPlace(disk) && Enumerates(rowKeys, disk.rows.Keys) && Enumerates(attemptKeys, disk.attempts.Keys)
    ensures var messages := Restarted(disk, rowKeys, attemptKeys).log.messages;
      Covered(disk, messages, |messages|) <==> Backed(disk)
  {
    var messages := Restarted(disk, rowKeys, attemptKeys).log.messages;
    if Backed(disk) {
      RestartKeepsInv(disk, Some(rowKeys), Some(attemptKeys));
    }
    if Covered(disk, messages, |messages|) {
      forall id | AttemptOnDisk(disk, id) ensures RowOnDisk(disk, id) {
        RestartReturnsTheDiskIds(disk, rowKeys, attemptKeys, id);
        var i := IndexOf(messages, id).value;
        assert CoveredAt(disk, messages[i], i);
      }
    }
  }

  /** The row at this key holds a tombstone of this kind. */
  predicate TombstoneAt(rows: Rows, key: RowKey, scope: Scope) {
    key in rows && rows[key].Encoded? && rows[key].value.message.deletion == Some(scope)
  }

  /** A saved write of a send leaves an attempt on disk exactly if there is one and its
      row does not say that the message is gone: erased for everyone, or erased here
      before the send ever reached anyone. Without the message nothing is written. */
  lemma SavedSendLeavesItsAttempt(disk: Disk, s: Sends, id: string, now: u64)
    ensures var (after, answer) := SendWritten(disk, s, id, now, Saved);
      if Get(s.log.messages, id).None? then after == disk && answer == Ok(false)
      else
        && answer == Ok(true)
        && (id in after.attempts <==>
              && id in s.attempts
              && var key := RowKey(s.attempts[id].sentAt, id);
              && !TombstoneAt(after.rows, key, ForEveryone)
              && !(TombstoneAt(after.rows, key, ForMe) && s.attempts[id].everPublished == Some(false)))
        && (id in after.attempts ==> after.attempts[id] == Encoded(s.attempts[id]))
        && (forall other :: other != id ==> (other in after.attempts <==> other in disk.attempts)
                                            && (other in disk.attempts ==> after.attempts[other] == disk.attempts[other]))
  {
    var found := IndexOf(s.log.messages, id);
    if found.Some? && id in s.attempts {
      var m := s.log.messages[found.value];
      var a, key := s.attempts[id], RowKey(SentAtOf(m, now), id);
      var rows := RowWritten(disk.rows, key, Row(key.sentAt, id, m));
      CancelledSaysGone(rows, id, a);
      assert SendWritten(disk, s, id, now, Saved).0.rows == rows;
    }
  }

  lemma CancelledSaysGone(rows: Rows, id: string, a: Attempt)
    ensures Cancelled(rows, id, a) <==>
      || TombstoneAt(rows, RowKey(a.sentAt, id), ForEveryone)
      || (TombstoneAt(rows, RowKey(a.sentAt, id), ForMe) && a.everPublished == Some(false))
  {
    var key := RowKey(a.sentAt, id);
    if Erased(rows, key) {
      var scope := rows[key].value.message.deletion.value;
      assert scope == ForMe || scope == ForEveryone;
    }
  }

  predicate SendsOf(event: Event, id: string) {
    event.Send? && event.id == id
  }

  lemma {:induction false} OnlySendsTouchAttempts(ws: seq<Session>, events: seq<Event>, id: string, i: nat)
    requires Run(ws, events) && i < |ws| && forall k :: 0 <= k < i ==> !SendsOf(events[k], id)
    ensures id in ws[i].disk.attempts <==> id in ws[0].disk.attempts
    ensures id in ws[0].disk.attempts ==> ws[i].disk.attempts[id] == ws[0].disk.attempts[id]
  {
    if i > 0 {
      OnlySendsTouchAttempts(ws, events, id, i - 1);
      assert Possible(ws[i - 1], events[i - 1]) && !SendsOf(events[i - 1], id);
    }
  }

  /** A send that was saved survives: until its next write, every restart returns
      its attempt with the same bytes, failed if it was still pending. */
  lemma SavedSendSurvives(ws: seq<Session>, events: seq<Event>, id: string, now: u64, rowKeys: seq<RowKey>, attemptKeys: seq<string>)
    requires Run(ws, events) && Inv(ws[0]) && |events| > 0 && events[0] == Send(id, now, Saved)
    requires forall k :: 1 <= k < |events| ==> !SendsOf(events[k], id)
    requires Get(ws[0].sends.log.messages, id).Some? && id in ws[0].sends.attempts
    requires ws[0].sends.attempts[id].messageJson.Encoded?
    requires !Cancelled(ws[1].disk.rows, id, ws[0].sends.attempts[id])
    requires Enumerates(rowKeys, ws[|events|].disk.rows.Keys) && Enumerates(attemptKeys, ws[|events|].disk.attempts.Keys)
    ensures var s := Restarted(ws[|events|].disk, rowKeys, attemptKeys);
      && id in s.attempts
      && s.attempts[id] == Surviving(ws[0].sends.attempts[id])
  {
    var last := ws[|events|].disk;
    assert Possible(ws[0], events[0]) && ws[1] == Step(ws[0], events[0]);
    assert Run(ws[1..], events[1..]);
    OnlySendsTouchAttempts(ws[1..], events[1..], id, |events| - 1);
    assert last.attempts[id] == Encoded(ws[0].sends.attempts[id]);
    RunsKeepInv(ws, events, |events|);
    RestartReturnsTheAttempt(last, rowKeys, attemptKeys, id);
  }
}
