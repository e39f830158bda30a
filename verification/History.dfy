/** The history a conversation keeps on disk. Source:
    mosh-core/src/conversation/history.rs. */
module Histories {
  import opened Wrappers
  import opened Primitives
  import opened Messages
  import opened MessageLogs
  import opened Outboxes
  import opened HistoryStores

  const INTERRUPTED_SEND: string := "app closed before the send completed"

  // ---------- reading back ----------

  function FilledIn(m: Message, id: string, sentAt: u64): (r: Message) {
    m.(id := if m.id.Some? then m.id else Some(id), sentAt := if m.sentAt.Some? then m.sentAt else Some(sentAt))
  }

  /** Upserts the messages of the readable rows, in the order listed. */
  function RowsReplayed(log: Log, rows: seq<Text<Row>>): (r: Log) {
    if rows == [] then log
    else
      var before, last := RowsReplayed(log, rows[..|rows| - 1]), rows[|rows| - 1];
      if last.Garbled? then before
      else Upserted(before, FilledIn(last.value.message, last.value.id, last.value.sentAt))
  }

  /** Whoever held a pending attempt died with the process. */
  function Interrupted(a: Attempt): (r: Attempt) {
    if a.status == Pending then a.(status := Failed, error := Some(INTERRUPTED_SEND)) else a
  }

  predicate Readable(row: Text<Attempt>) {
    row.Encoded? && row.value.messageJson.Encoded?
  }

  /** The message an attempt rebuilds, with the delivery state of the attempt. */
  function Rebuilt(a: Attempt): (m: Message)
    requires a.messageJson.Encoded?
  {
    var b := Interrupted(a);
    FilledIn(a.messageJson.value, a.messageId, a.sentAt).(delivery := DeliveryMeta(b.status, b.error, b.retryCount))
  }

  function AttemptReplayed(s: Sends, row: Text<Attempt>): (r: Sends) {
    if !Readable(row) then s
    else Sends(Upserted(s.log, Rebuilt(row.value)), s.attempts[row.value.messageId := Interrupted(row.value)])
  }

  function AttemptsReplayed(s: Sends, rows: seq<Text<Attempt>>): (r: Sends) {
    if rows == [] then s
    else AttemptReplayed(AttemptsReplayed(s, rows[..|rows| - 1]), rows[|rows| - 1])
  }

  /** Pending with no attempt behind it: there are no bytes to replay. */
  predicate Orphaned(m: Message, attempts: Attempts) {
    m.delivery.status == Some(Pending) && m.id.Some? && m.id.value !in attempts
  }

  const ORPHANED: Delivery := Delivery(Some(Failed), Some(INTERRUPTED_SEND), Some(false), None)

  function Orphans(messages: seq<Message>, attempts: Attempts): (ids: seq<string>) {
    if messages == [] then []
    else
      var last := messages[|messages| - 1];
      Orphans(messages[..|messages| - 1], attempts) + if Orphaned(last, attempts) then [last.id.value] else []
  }

  function AllMarked(log: Log, ids: seq<string>, delivery: Delivery): (r: Log) {
    if ids == [] then log
    else Marked(AllMarked(log, ids[..|ids| - 1], delivery), ids[|ids| - 1], delivery)
  }

  function OrphansSettled(s: Sends): (r: Sends) {
    s.(log := AllMarked(s.log, Orphans(s.log.messages, s.attempts), ORPHANED))
  }

  /** None: the store could not list. */
  function Replayed(s: Sends, rows: Option<seq<Text<Row>>>, attempts: Option<seq<Text<Attempt>>>): (r: Sends) {
    var read := if rows.None? then s else s.(log := RowsReplayed(s.log, rows.value));
    OrphansSettled(if attempts.None? then read else AttemptsReplayed(read, attempts.value))
  }

  // ---------- writing down ----------

  function Digits(n: nat): (s: string) {
    (if n < 10 then "" else Digits(n / 10)) + [(n % 10) as char + '0']
  }

  function Padded(s: string, width: nat): (r: string)
    decreases width - |s|
  {
    if |s| >= width then s else Padded("0" + s, width)
  }

  /** The id of a message that has none, once it is written. */
  function GeneratedId(sentAt: u64, index: nat): (id: string) {
    Digits(sentAt) + "-" + Padded(Digits(index), 6)
  }

  function ReadDigits(s: string): (n: int) {
    if s == "" then 0 else 10 * ReadDigits(s[..|s| - 1]) + (s[|s| - 1] as int - '0' as int)
  }

  predicate OnlyDigits(s: string) {
    forall i :: 0 <= i < |s| ==> '0' <= s[i] <= '9'
  }

  lemma {:induction false} DigitsReadBack(n: nat)
    ensures OnlyDigits(Digits(n)) && ReadDigits(Digits(n)) == n
  {
    if n >= 10 {
      DigitsReadBack(n / 10);
    }
    var last := (n % 10) as char + '0';
    assert Digits(n)[..|Digits(n)| - 1] == if n < 10 then "" else Digits(n / 10);
    assert last as int - '0' as int == n % 10;
  }

  lemma {:induction false} LeadingZero(s: string)
    ensures ReadDigits("0" + s) == ReadDigits(s)
  {
    if s != "" {
      LeadingZero(s[..|s| - 1]);
      assert ("0" + s)[..|s|] == "0" + s[..|s| - 1];
    }
  }

  lemma {:induction false} PaddingReadsTheSame(s: string, width: nat)
    requires OnlyDigits(s)
    ensures OnlyDigits(Padded(s, width)) && ReadDigits(Padded(s, width)) == ReadDigits(s)
    decreases width - |s|
  {
    if |s| < width {
      LeadingZero(s);
      PaddingReadsTheSame("0" + s, width);
    }
  }

  lemma DashSplits(a: string, b: string, c: string, d: string)
    requires OnlyDigits(a) && OnlyDigits(c) && a + "-" + b == c + "-" + d
    ensures a == c && b == d
  {
    var s := a + "-" + b;
    assert s[|a|] == '-' && s[|c|] == '-';
    assert forall i :: 0 <= i < |a| ==> s[i] == a[i];
    assert forall i :: 0 <= i < |c| ==> s[i] == c[i];
    assert |a| == |c|;
    assert s[..|a|] == a && s[..|c|] == c;
    assert s[|a| + 1..] == b && s[|c| + 1..] == d;
  }

  /** No two messages without an id are written under the same one. */
  lemma GeneratedIdsDiffer(sentAt: u64, index: nat, otherSentAt: u64, otherIndex: nat)
    ensures GeneratedId(sentAt, index) == GeneratedId(otherSentAt, otherIndex) <==> sentAt == otherSentAt && index == otherIndex
  {
    if GeneratedId(sentAt, index) == GeneratedId(otherSentAt, otherIndex) {
      DigitsReadBack(sentAt);
      DigitsReadBack(otherSentAt);
      DigitsReadBack(index);
      DigitsReadBack(otherIndex);
      PaddingReadsTheSame(Digits(index), 6);
      PaddingReadsTheSame(Digits(otherIndex), 6);
      DashSplits(Digits(sentAt), Padded(Digits(index), 6), Digits(otherSentAt), Padded(Digits(otherIndex), 6));
    }
  }

  lemma {:induction false} PaddedTo(s: string, width: nat)
    ensures |Padded(s, width)| == if |s| >= width then |s| else width
    ensures |s| >= width ==> Padded(s, width) == s
    decreases width - |s|
  {
    if |s| < width {
      PaddedTo("0" + s, width);
    }
  }

  lemma {:induction false} NoLeadingZero(n: nat)
    requires n > 0
    ensures Digits(n)[0] != '0'
  {
    if n >= 10 {
      NoLeadingZero(n / 10);
    }
  }

  /** A made id is the time in decimal, a dash, and the position in decimal, with zeros
      in front up to six places. */
  lemma GeneratedIdReads(sentAt: u64, index: nat) returns (time: string, place: string)
    ensures GeneratedId(sentAt, index) == time + "-" + place
    ensures OnlyDigits(time) && ReadDigits(time) == sentAt && (sentAt > 0 ==> time[0] != '0')
    ensures OnlyDigits(place) && ReadDigits(place) == index && |place| >= 6 && (|place| > 6 ==> place[0] != '0')
  {
    time, place := Digits(sentAt), Padded(Digits(index), 6);
    DigitsReadBack(sentAt);
    DigitsReadBack(index);
    PaddingReadsTheSame(Digits(index), 6);
    PaddedTo(Digits(index), 6);
    if sentAt > 0 { NoLeadingZero(sentAt); }
    if index > 0 { NoLeadingZero(index); }
  }

  function TailKey(m: Message, index: nat, now: u64): (key: RowKey) {
    var sentAt := SentAtOf(m, now);
    RowKey(sentAt, if m.id.Some? then m.id.value else GeneratedId(sentAt, index))
  }

  function TailRow(m: Message, key: RowKey): (row: Row) {
    Row(key.sentAt, key.id, FilledIn(m, key.id, key.sentAt))
  }

  function NowAt(times: seq<u64>, i: nat): (now: u64) {
    if i < |times| then times[i] else 0
  }

  function OutcomeAt(outcomes: seq<WriteOutcome>, i: nat): (outcome: WriteOutcome) {
    if i < |outcomes| then outcomes[i] else Saved
  }

  /** The rows on disk and the number of messages covered, once the messages from
      `start` on were appended one by one, up to the first refusal. */
  function TailWritten(rows: Rows, messages: seq<Message>, start: nat, times: seq<u64>, outcomes: seq<WriteOutcome>)
    : (r: (Rows, nat, bool))
    decreases |messages| - start
  {
    if start >= |messages| then (rows, start, true)
    else
      var key := TailKey(messages[start], start, NowAt(times, start));
      var written := RowWritten(rows, key, TailRow(messages[start], key));
      match OutcomeAt(outcomes, start)
      case Saved => TailWritten(written, messages, start + 1, times, outcomes)
      case Refused => (rows, start, false)
      case RefusedButSaved => (written, start, false)
  }

  /** Err: the store refused. Ok(false): the log does not hold the message. */
  function SendWritten(disk: Disk, s: Sends, id: string, now: u64, outcome: WriteOutcome): (r: (Disk, Result<bool, ()>)) {
    var found := IndexOf(s.log.messages, id);
    if found.None? then (disk, Ok(false))
    else
      var m := s.log.messages[found.value];
      var key := RowKey(SentAtOf(m, now), id);
      var committed := SendCommitted(disk, key, Row(key.sentAt, id, m), if id in s.attempts then Some(s.attempts[id]) else None);
      match outcome
      case Saved => (committed, Ok(true))
      case Refused => (disk, Err(()))
      case RefusedButSaved => (committed, Err(()))
  }

  class History {
    var persistedCounts: map<string, nat>

    constructor ()
      ensures persistedCounts == map[]
    {
      persistedCounts := map[];
    }

    function Count(conversationId: string): (n: nat)
      reads this
    {
      if conversationId in persistedCounts then persistedCounts[conversationId] else 0
    }

    /** Reads one conversation back in; the listings are what the store returned. */
    method Replay(conversationId: string, rows: Option<seq<Text<Row>>>, attempts: Option<seq<Text<Attempt>>>, into: Outbox)
      modifies this, into, into.log
      ensures into.State() == Replayed(old(into.State()), rows, attempts)
      ensures persistedCounts == old(persistedCounts)[conversationId := |into.log.messages|]
    {
      if rows.Some? {
        ReplayRows(rows.value, into.log);
      }
      if attempts.Some? {
        ReplayAttempts(attempts.value, into);
      }
      SettleOrphanedSends(into);
      persistedCounts := persistedCounts[conversationId := |into.log.messages|];
    }

    static method ReplayRows(rows: seq<Text<Row>>, log: MessageLog)
      modifies log
      ensures log.State() == RowsReplayed(old(log.State()), rows)
    {
      for i := 0 to |rows|
        invariant log.State() == RowsReplayed(old(log.State()), rows[..i])
      {
        assert rows[..i + 1][..i] == rows[..i];
        if rows[i].Encoded? {
          var row := rows[i].value;
          log.Upsert(FilledIn(row.message, row.id, row.sentAt));
        }
      }
      assert rows[..|rows|] == rows;
    }

    static method ReplayAttempts(rows: seq<Text<Attempt>>, into: Outbox)
      modifies into, into.log
      ensures into.State() == AttemptsReplayed(old(into.State()), rows)
    {
      for i := 0 to |rows|
        invariant into.State() == AttemptsReplayed(old(into.State()), rows[..i])
      {
        assert rows[..i + 1][..i] == rows[..i];
        if rows[i].Garbled? {
          continue;
        }
        var attempt := rows[i].value;
        if attempt.status == Pending {
          attempt := attempt.(status := Failed, error := Some(INTERRUPTED_SEND));
        }
        if attempt.messageJson.Garbled? {
          continue;
        }
        var message := FilledIn(attempt.messageJson.value, attempt.messageId, attempt.sentAt);
        into.log.Upsert(message.(delivery := DeliveryMeta(attempt.status, attempt.error, attempt.retryCount)));
        into.attempts := into.attempts[attempt.messageId := attempt];
      }
      assert rows[..|rows|] == rows;
    }

    static method SettleOrphanedSends(into: Outbox)
      modifies into.log
      ensures into.State() == OrphansSettled(old(into.State()))
    {
      var orphaned := [];
      for i := 0 to |into.log.messages|
        invariant orphaned == Orphans(into.log.messages[..i], into.attempts)
      {
        assert into.log.messages[..i + 1][..i] == into.log.messages[..i];
        if Orphaned(into.log.messages[i], into.attempts) {
          orphaned := orphaned + [into.log.messages[i].id.value];
        }
      }
      assert into.log.messages[..|into.log.messages|] == into.log.messages;
      for i := 0 to |orphaned|
        invariant into.log.State() == AllMarked(old(into.log.State()), orphaned[..i], ORPHANED)
      {
        assert orphaned[..i + 1][..i] == orphaned[..i];
        SetDelivery(into.log, orphaned[i], ORPHANED);
      }
      assert orphaned[..|orphaned|] == orphaned;
    }

    static method SetDelivery(log: MessageLog, id: string, delivery: Delivery)
      modifies log
      ensures log.State() == Marked(old(log.State()), id, delivery)
    {
      log.revision := NextRevision(log.revision);
      var found := log.Position(id);
      if found.Some? {
        log.messages := log.messages[found.value := log.messages[found.value].(delivery := delivery)];
      }
    }

    /** Appends the messages gained since the last write; the counter moves with
        each row, so a refusal in the middle keeps what came before it. */
    method WriteTail(store: HistoryStore, conversationId: string, log: MessageLog, times: seq<u64>, outcomes: seq<WriteOutcome>)
      returns (r: Result<bool, ()>)
      modifies this, store
      ensures store.disk.attempts == old(store.disk).attempts
      ensures (store.disk.rows, Count(conversationId), r != Err(()))
           == TailWritten(old(store.disk).rows, log.messages, old(Count(conversationId)), times, outcomes)
      ensures r.Ok? ==> r.value == (old(Count(conversationId)) < |log.messages|)
      ensures forall c :: c != conversationId ==>
        (c in persistedCounts <==> c in old(persistedCounts))
        && (c in persistedCounts ==> persistedCounts[c] == old(persistedCounts)[c])
    {
      var start := Count(conversationId);
      if |log.messages| <= start {
        return Ok(false);
      }
      ghost var rows := store.disk.rows;
      for index := start to |log.messages|
        invariant store.disk.attempts == old(store.disk).attempts
        invariant Count(conversationId) == index
        invariant TailWritten(store.disk.rows, log.messages, index, times, outcomes)
               == TailWritten(rows, log.messages, start, times, outcomes)
        invariant forall c :: c != conversationId ==>
          (c in persistedCounts <==> c in old(persistedCounts))
          && (c in persistedCounts ==> persistedCounts[c] == old(persistedCounts)[c])
      {
        var m := log.messages[index];
        var sentAt := SentAtOf(m, NowAt(times, index));
        var id := if m.id.Some? then m.id.value else GeneratedId(sentAt, index);
        var row := Row(sentAt, id, FilledIn(m, id, sentAt));
        var ok := store.AppendMessage(RowKey(sentAt, id), row, OutcomeAt(outcomes, index));
        if !ok {
          return Err(());
        }
        persistedCounts := persistedCounts[conversationId := index + 1];
      }
      return Ok(true);
    }

    /** Writes one message and the state of its send, in one transaction. */
    method WriteSend(store: HistoryStore, id: string, outbox: Outbox, now: u64, outcome: WriteOutcome)
      returns (r: Result<bool, ()>)
      modifies store
      ensures (store.disk, r) == SendWritten(old(store.disk), outbox.State(), id, now, outcome)
    {
      var found := outbox.log.Position(id);
      if found.None? {
        return Ok(false);
      }
      var m := outbox.log.messages[found.value];
      var sentAt := SentAtOf(m, now);
      var attempt := if id in outbox.attempts then Some(outbox.attempts[id]) else None;
      var ok := store.CommitSend(RowKey(sentAt, id), Row(sentAt, id, m), attempt, outcome);
      if !ok {
        return Err(());
      }
      return Ok(true);
    }

    method Acknowledge(conversationId: string, count: nat)
      modifies this
      ensures persistedCounts == old(persistedCounts)[conversationId := count]
    {
      persistedCounts := persistedCounts[conversationId := count];
    }

    method Forget(conversationId: string)
      modifies this
      ensures persistedCounts == old(persistedCounts) - {conversationId}
      ensures Count(conversationId) == 0
    {
      persistedCounts := persistedCounts - {conversationId};
    }
  }
}
