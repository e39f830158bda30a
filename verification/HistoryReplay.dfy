/** What a restart brings back: the log and the attempts replayed from a disk
    image, whatever order the store lists its rows in. */
module HistoryReplay {
  import opened Wrappers
  import opened Primitives
  import opened Messages
  import opened MessageLogs
  import opened Outboxes
  import opened HistoryStores
  import opened Histories

  /** The message filed under an id. */
  function Get(messages: seq<Message>, id: string): (m: Option<Message>) {
    var found := IndexOf(messages, id);
    if found.None? then None else Some(messages[found.value])
  }

  /** Every message has an id of its own. */
  ghost predicate Keyed(messages: seq<Message>) {
    && (forall i :: 0 <= i < |messages| ==> messages[i].id.Some?)
    && (forall i, j :: 0 <= i < j < |messages| ==> messages[i].id != messages[j].id)
  }

  lemma KeyedGet(messages: seq<Message>, i: nat)
    requires Keyed(messages) && i < |messages|
    ensures Get(messages, messages[i].id.value) == Some(messages[i])
  {
    var found := IndexOf(messages, messages[i].id.value);
    assert found.Some? && found.value == i;
  }

  // ---------- pointwise effect of the log operations ----------

  /** What an upsert leaves under the id it names. */
  function Merged(existing: Option<Message>, m: Message): (r: Message) {
    if existing.Some? && existing.value.deletion.Some? then existing.value else m
  }

  lemma GetWithLonger(messages: seq<Message>, m: Message, id: string)
    ensures Get(messages + [m], id)
         == if Get(messages, id).Some? then Get(messages, id) else if m.id == Some(id) then Some(m) else None
  {
    var found, after := IndexOf(messages, id), messages + [m];
    assert forall i :: 0 <= i < |messages| ==> after[i] == messages[i];
    if found.Some? {
      assert after[found.value].id == Some(id);
    } else if m.id == Some(id) {
      assert after[|messages|].id == Some(id);
    }
  }

  lemma GetWithChange(messages: seq<Message>, i: nat, m: Message, id: string)
    requires i < |messages| && m.id == messages[i].id && m.id.Some? && IndexOf(messages, m.id.value) == Some(i)
    ensures Get(messages[i := m], id) == if m.id == Some(id) then Some(m) else Get(messages, id)
  {
    var after := messages[i := m];
    var found := IndexOf(messages, id);
    assert forall k :: 0 <= k < |messages| ==> after[k].id == messages[k].id;
    if found.Some? {
      assert after[found.value].id == Some(id);
    }
  }

  lemma UpsertGet(log: Log, m: Message, id: string)
    requires m.id.Some?
    ensures Get(Upserted(log, m).messages, id)
         == if m.id == Some(id) then Some(Merged(Get(log.messages, id), m)) else Get(log.messages, id)
  {
    var found := IndexOf(log.messages, m.id.value);
    if found.None? {
      GetWithLonger(log.messages, m, id);
    } else {
      GetWithChange(log.messages, found.value, m, id);
    }
  }

  lemma UpsertKeyed(log: Log, m: Message)
    requires Keyed(log.messages) && m.id.Some?
    ensures Keyed(Upserted(log, m).messages)
  {
  }

  lemma MarkGet(log: Log, marked: string, delivery: Delivery, id: string)
    ensures var existing := Get(log.messages, id);
      Get(Marked(log, marked, delivery).messages, id)
      == if marked == id && existing.Some? then Some(existing.value.(delivery := delivery)) else existing
  {
    var found := IndexOf(log.messages, marked);
    if found.Some? {
      GetWithChange(log.messages, found.value, log.messages[found.value].(delivery := delivery), id);
    }
  }

  lemma MarkKeyed(log: Log, marked: string, delivery: Delivery)
    requires Keyed(log.messages)
    ensures Keyed(Marked(log, marked, delivery).messages)
  {
  }

  // ---------- the rows ----------

  /** A readable row's message has this id, or none while the row has it. */
  predicate Names(row: Text<Row>, id: string) {
    row.Encoded? && (row.value.message.id == Some(id) || (row.value.message.id.None? && row.value.id == id))
  }

  /** The message a row stores: everything as it was written, with the id and the time
      of the row where it has none of its own. */
  function MessageOf(row: Text<Row>): (m: Message)
    requires row.Encoded?
  {
    var stored := row.value.message;
    Message(if stored.id.Some? then stored.id else Some(row.value.id),
            if stored.sentAt.Some? then stored.sentAt else Some(row.value.sentAt),
            stored.author, stored.body, stored.deletion, stored.delivery)
  }

  predicate SomeRowNames(rows: seq<Text<Row>>, id: string) {
    exists i :: 0 <= i < |rows| && Names(rows[i], id)
  }

  lemma {:induction false} RowsKeyed(rows: seq<Text<Row>>)
    ensures Keyed(RowsReplayed(EMPTY, rows).messages)
  {
    if rows != [] {
      var before, last := rows[..|rows| - 1], rows[|rows| - 1];
      RowsKeyed(before);
      if last.Encoded? {
        UpsertKeyed(RowsReplayed(EMPTY, before), MessageOf(last));
      }
    }
  }

  lemma SomeRowNamesLast(before: seq<Text<Row>>, last: Text<Row>, id: string)
    ensures SomeRowNames(before + [last], id) <==> SomeRowNames(before, id) || Names(last, id)
  {
    var rows := before + [last];
    if SomeRowNames(before, id) {
      var i :| 0 <= i < |before| && Names(before[i], id);
      assert Names(rows[i], id);
    }
    if Names(last, id) {
      assert Names(rows[|before|], id);
    }
  }

  /** An id comes back from the rows exactly when a readable row names it. */
  lemma {:induction false} RowsNameTheLog(rows: seq<Text<Row>>, id: string)
    ensures Get(RowsReplayed(EMPTY, rows).messages, id).Some? <==> SomeRowNames(rows, id)
  {
    if rows != [] {
      var before, last := rows[..|rows| - 1], rows[|rows| - 1];
      RowsNameTheLog(before, id);
      if last.Encoded? {
        UpsertGet(RowsReplayed(EMPTY, before), MessageOf(last), id);
      }
      SomeRowNamesLast(before, last, id);
      assert rows == before + [last];
    }
  }

  /** A single row for an id comes back as it was written. */
  lemma {:induction false} OnlyRowComesBack(rows: seq<Text<Row>>, k: nat, id: string)
    requires k < |rows| && Names(rows[k], id)
    requires forall i :: 0 <= i < |rows| && i != k ==> !Names(rows[i], id)
    ensures Get(RowsReplayed(EMPTY, rows).messages, id) == Some(MessageOf(rows[k]))
  {
    var before, last := rows[..|rows| - 1], rows[|rows| - 1];
    if last.Encoded? {
      UpsertGet(RowsReplayed(EMPTY, before), MessageOf(last), id);
    }
    if k == |rows| - 1 {
      RowsNameTheLog(before, id);
      assert !SomeRowNames(before, id);
    } else {
      OnlyRowComesBack(before, k, id);
    }
  }

  /** What comes back from the rows is one of them, as it was written. */
  lemma {:induction false} GetIsARow(rows: seq<Text<Row>>, id: string) returns (k: nat)
    requires Get(RowsReplayed(EMPTY, rows).messages, id).Some?
    ensures k < |rows| && Names(rows[k], id)
    ensures Get(RowsReplayed(EMPTY, rows).messages, id) == Some(MessageOf(rows[k]))
  {
    var before, last := rows[..|rows| - 1], rows[|rows| - 1];
    if last.Encoded? {
      UpsertGet(RowsReplayed(EMPTY, before), MessageOf(last), id);
    }
    if Get(RowsReplayed(EMPTY, before).messages, id) == Get(RowsReplayed(EMPTY, rows).messages, id) {
      k := GetIsARow(before, id);
    } else {
      k := |rows| - 1;
    }
  }

  /** The position of the first readable row that names an id. */
  function FirstNaming(rows: seq<Text<Row>>, id: string): (r: Option<nat>) {
    if rows == [] then None
    else
      var before := FirstNaming(rows[..|rows| - 1], id);
      if before.Some? then before else if Names(rows[|rows| - 1], id) then Some(|rows| - 1) else None
  }

  lemma PlacesOfLonger(messages: seq<Message>, m: Message, id: string)
    ensures IndexOf(messages + [m], id)
         == if IndexOf(messages, id).Some? then IndexOf(messages, id)
            else if m.id == Some(id) then Some(|messages|) else None
  {
    assert (messages + [m])[..|messages|] == messages;
  }

  lemma PlacesOfSameIds(messages: seq<Message>, after: seq<Message>, id: string)
    requires |messages| == |after| && forall i :: 0 <= i < |messages| ==> after[i].id == messages[i].id
    ensures IndexOf(after, id) == IndexOf(messages, id)
  {
    var found := IndexOf(messages, id);
    if found.Some? {
      assert after[found.value].id == Some(id);
    }
  }

  lemma UpsertKeepsPlaces(log: Log, m: Message, id: string)
    requires m.id.Some?
    ensures IndexOf(Upserted(log, m).messages, id)
         == if IndexOf(log.messages, id).Some? then IndexOf(log.messages, id)
            else if m.id == Some(id) then Some(|log.messages|) else None
  {
    if IndexOf(log.messages, m.id.value).None? {
      PlacesOfLonger(log.messages, m, id);
    } else {
      PlacesOfSameIds(log.messages, Upserted(log, m).messages, id);
    }
  }

  /** The next row gives a new id the next place. */
  lemma PlacesNext(rows: seq<Text<Row>>, id: string)
    requires rows != []
    ensures var before := RowsReplayed(EMPTY, rows[..|rows| - 1]).messages;
      IndexOf(RowsReplayed(EMPTY, rows).messages, id)
      == if IndexOf(before, id).Some? then IndexOf(before, id)
         else if Names(rows[|rows| - 1], id) then Some(|before|) else None
  {
    var last := rows[|rows| - 1];
    if last.Encoded? {
      UpsertKeepsPlaces(RowsReplayed(EMPTY, rows[..|rows| - 1]), MessageOf(last), id);
    }
  }

  /** Messages come back in the order in which their first rows are listed. */
  lemma {:induction false} RowsKeepTheirOrder(rows: seq<Text<Row>>, p: string, q: string)
    ensures var messages := RowsReplayed(EMPTY, rows).messages;
      InSameOrder(FirstNaming(rows, p), FirstNaming(rows, q), IndexOf(messages, p), IndexOf(messages, q))
  {
    if rows != [] {
      var before := rows[..|rows| - 1];
      RowsKeepTheirOrder(before, p, q);
      FirstNamingIsFound(before, p);
      FirstNamingIsFound(before, q);
      PlacesNext(rows, p);
      PlacesNext(rows, q);
    }
  }

  predicate InSameOrder(i: Option<nat>, j: Option<nat>, k: Option<nat>, l: Option<nat>) {
    && (i.Some? <==> k.Some?) && (j.Some? <==> l.Some?)
    && (i.Some? && j.Some? ==> (i.value < j.value <==> k.value < l.value))
  }

  lemma {:induction false} FirstNamingIsFound(rows: seq<Text<Row>>, id: string)
    ensures FirstNaming(rows, id).Some? ==> FirstNaming(rows, id).value < |rows|
  {
    if rows != [] {
      FirstNamingIsFound(rows[..|rows| - 1], id);
    }
  }

  // ---------- the attempts ----------

  /** Attempts filed under their own id, with a message that has no other. */
  predicate WellFiled(row: Text<Attempt>) {
    Readable(row) ==>
      var id := row.value.messageJson.value.id; id.None? || id == Some(row.value.messageId)
  }

  /** What remains of an attempt: all of it, but a pending one has failed. */
  function Surviving(a: Attempt): (b: Attempt) {
    if a.status == Pending then
      a.(status := Failed, error := Some("app closed before the send completed"))
    else a
  }

  /** The message of an attempt: as it was when the attempt was written, with the id and
      the time of the attempt where it has none, and with how the attempt stands. */
  function MessageFrom(a: Attempt): (m: Message)
    requires a.messageJson.Encoded?
  {
    var (stored, b) := (a.messageJson.value, Surviving(a));
    Message(if stored.id.Some? then stored.id else Some(a.messageId),
            if stored.sentAt.Some? then stored.sentAt else Some(a.sentAt),
            stored.author, stored.body, stored.deletion,
            Delivery(Some(b.status), b.error, Some(b.status == Failed), Some(a.retryCount)))
  }

  predicate ReadableFor(row: Text<Attempt>, id: string) {
    Readable(row) && row.value.messageId == id
  }

  predicate SomeAttemptFor(rows: seq<Text<Attempt>>, id: string) {
    exists i :: 0 <= i < |rows| && ReadableFor(rows[i], id)
  }

  /** A message that is not erased shows how its attempt stands. */
  predicate ShowsAttempt(m: Option<Message>, a: Attempt) {
    m.Some? && (m.value.deletion.None? ==>
      m.value.delivery == Delivery(Some(a.status), a.error, Some(a.status == Failed), Some(a.retryCount)))
  }

  /** Every attempt is settled, and its message shows it. */
  ghost predicate Shown(s: Sends) {
    forall id {:trigger id in s.attempts} :: id in s.attempts ==>
      s.attempts[id].status != Pending && ShowsAttempt(Get(s.log.messages, id), s.attempts[id])
  }

  lemma AttemptKeepsShown(s: Sends, row: Text<Attempt>)
    requires Shown(s) && WellFiled(row)
    ensures Shown(AttemptReplayed(s, row))
  {
    if Readable(row) {
      var after := AttemptReplayed(s, row);
      forall id | id in after.attempts
        ensures after.attempts[id].status != Pending && ShowsAttempt(Get(after.log.messages, id), after.attempts[id])
      {
        UpsertGet(s.log, Rebuilt(row.value), id);
      }
    }
  }

  lemma {:induction false} AttemptsKeyedAndShown(s: Sends, rows: seq<Text<Attempt>>)
    requires Keyed(s.log.messages) && s.attempts == map[]
    requires forall i :: 0 <= i < |rows| ==> WellFiled(rows[i])
    ensures Keyed(AttemptsReplayed(s, rows).log.messages)
    ensures Shown(AttemptsReplayed(s, rows))
  {
    if rows != [] {
      var before, last := rows[..|rows| - 1], rows[|rows| - 1];
      AttemptsKeyedAndShown(s, before);
      AttemptKeepsShown(AttemptsReplayed(s, before), last);
      if Readable(last) {
        UpsertKeyed(AttemptsReplayed(s, before).log, Rebuilt(last.value));
      }
    }
  }

  lemma SomeAttemptForLast(before: seq<Text<Attempt>>, last: Text<Attempt>, id: string)
    ensures SomeAttemptFor(before + [last], id) <==> SomeAttemptFor(before, id) || ReadableFor(last, id)
  {
    var rows := before + [last];
    if SomeAttemptFor(before, id) {
      var i :| 0 <= i < |before| && ReadableFor(before[i], id);
      assert ReadableFor(rows[i], id);
    }
    if ReadableFor(last, id) {
      assert ReadableFor(rows[|before|], id);
    }
  }

  /** An id is in the log afterwards if it was before or an attempt names it; an
      attempt is back exactly when a readable row holds it. */
  lemma {:induction false} AttemptsNameTheLog(s: Sends, rows: seq<Text<Attempt>>, id: string)
    requires s.attempts == map[]
    requires forall i :: 0 <= i < |rows| ==> WellFiled(rows[i])
    ensures var r := AttemptsReplayed(s, rows);
      && (id in r.attempts <==> SomeAttemptFor(rows, id))
      && (Get(r.log.messages, id).Some? <==> Get(s.log.messages, id).Some? || SomeAttemptFor(rows, id))
  {
    if rows != [] {
      var before, last := rows[..|rows| - 1], rows[|rows| - 1];
      AttemptsNameTheLog(s, before, id);
      if Readable(last) {
        UpsertGet(AttemptsReplayed(s, before).log, Rebuilt(last.value), id);
      }
      SomeAttemptForLast(before, last, id);
      assert rows == before + [last];
    }
  }

  lemma ReplayedAttempt(s: Sends, row: Text<Attempt>, id: string)
    requires WellFiled(row)
    ensures var r := AttemptReplayed(s, row);
      if ReadableFor(row, id) then
        && id in r.attempts && r.attempts[id] == Surviving(row.value)
        && Get(r.log.messages, id) == Some(Merged(Get(s.log.messages, id), MessageFrom(row.value)))
      else
        && (id in r.attempts <==> id in s.attempts) && (id in s.attempts ==> r.attempts[id] == s.attempts[id])
        && Get(r.log.messages, id) == Get(s.log.messages, id)
  {
    if Readable(row) {
      UpsertGet(s.log, Rebuilt(row.value), id);
    }
  }

  /** The only attempt listed for an id comes back, its bytes unchanged, and its
      message with it. */
  lemma {:induction false} OnlyAttemptComesBack(s: Sends, rows: seq<Text<Attempt>>, k: nat)
    requires k < |rows| && Readable(rows[k])
    requires forall i :: 0 <= i < |rows| ==> WellFiled(rows[i])
    requires forall i :: 0 <= i < |rows| && i != k ==> !ReadableFor(rows[i], rows[k].value.messageId)
    ensures var (r, a) := (AttemptsReplayed(s, rows), rows[k].value);
      && a.messageId in r.attempts && r.attempts[a.messageId] == Surviving(a)
      && Get(r.log.messages, a.messageId) == Some(Merged(Get(s.log.messages, a.messageId), MessageFrom(a)))
  {
    var before, last := rows[..|rows| - 1], rows[|rows| - 1];
    var id := rows[k].value.messageId;
    ReplayedAttempt(AttemptsReplayed(s, before), last, id);
    if k == |rows| - 1 {
      OthersLeaveItAlone(s, before, id);
    } else {
      OnlyAttemptComesBack(s, before, k);
    }
  }

  lemma {:induction false} OthersLeaveItAlone(s: Sends, rows: seq<Text<Attempt>>, id: string)
    requires forall i :: 0 <= i < |rows| ==> WellFiled(rows[i]) && !ReadableFor(rows[i], id)
    ensures Get(AttemptsReplayed(s, rows).log.messages, id) == Get(s.log.messages, id)
  {
    if rows != [] {
      var before, last := rows[..|rows| - 1], rows[|rows| - 1];
      OthersLeaveItAlone(s, before, id);
      if Readable(last) {
        UpsertGet(AttemptsReplayed(s, before).log, Rebuilt(last.value), id);
      }
    }
  }

  // ---------- the orphans ----------

  ghost predicate OrphanedUnder(messages: seq<Message>, attempts: Attempts, id: string) {
    exists m :: m in messages && m.id == Some(id) && Orphaned(m, attempts)
  }

  lemma {:induction false} OrphansAreListed(messages: seq<Message>, attempts: Attempts, id: string)
    ensures id in Orphans(messages, attempts) <==> OrphanedUnder(messages, attempts, id)
  {
    if messages != [] {
      var before, last := messages[..|messages| - 1], messages[|messages| - 1];
      OrphansAreListed(before, attempts, id);
      assert messages == before + [last];
    }
  }

  lemma {:induction false} AllMarkedGet(log: Log, ids: seq<string>, delivery: Delivery, id: string)
    requires Keyed(log.messages)
    ensures Keyed(AllMarked(log, ids, delivery).messages)
    ensures |AllMarked(log, ids, delivery).messages| == |log.messages|
    ensures var existing := Get(log.messages, id);
      Get(AllMarked(log, ids, delivery).messages, id)
      == if id in ids && existing.Some? then Some(existing.value.(delivery := delivery)) else existing
  {
    if ids != [] {
      var before, last := ids[..|ids| - 1], ids[|ids| - 1];
      assert ids == before + [last];
      AllMarkedGet(log, before, delivery, id);
      MarkGet(AllMarked(log, before, delivery), last, delivery, id);
      MarkKeyed(AllMarked(log, before, delivery), last, delivery);
    }
  }

  /** How a send that died with the process is shown: failed, and beyond retrying. */
  const FAILED: Delivery := Delivery(Some(Failed), Some("app closed before the send completed"), Some(false), None)

  /** Settling the orphans changes exactly the pending messages without attempt. */
  function Resettled(m: Message, attempts: Attempts): (r: Message) {
    if m.delivery.status == Some(Pending) && m.id.Some? && m.id.value !in attempts then m.(delivery := FAILED) else m
  }

  lemma SettlingGet(s: Sends, id: string)
    requires Keyed(s.log.messages)
    ensures Keyed(OrphansSettled(s).log.messages)
    ensures var existing := Get(s.log.messages, id);
      Get(OrphansSettled(s).log.messages, id)
      == if existing.None? then None else Some(Resettled(existing.value, s.attempts))
  {
    AllMarkedGet(s.log, Orphans(s.log.messages, s.attempts), ORPHANED, id);
    OrphansAreListed(s.log.messages, s.attempts, id);
    if id in Orphans(s.log.messages, s.attempts) {
      var m :| m in s.log.messages && m.id == Some(id) && Orphaned(m, s.attempts);
      var i :| 0 <= i < |s.log.messages| && s.log.messages[i] == m;
      KeyedGet(s.log.messages, i);
    }
  }

  // ---------- main results ----------

  /** The store lists each key once, in some order; a key is present in the listing
      exactly when it is in the table. */
  ghost predicate Enumerates<K(!new)>(keys: seq<K>, all: set<K>) {
    && (forall k :: k in keys <==> k in all)
    && (forall i, j :: 0 <= i < j < |keys| ==> keys[i] != keys[j])
  }

  function Listing<K, V>(table: map<K, V>, keys: seq<K>): (rows: seq<V>)
    requires forall k :: k in keys ==> k in table
    ensures |rows| == |keys| && forall i :: 0 <= i < |keys| ==> rows[i] == table[keys[i]]
  {
    seq(|keys|, i requires 0 <= i < |keys| => table[keys[i]])
  }

  /** Rows and attempts sit under the ids they name. */
  ghost predicate InPlace(disk: Disk) {
    && (forall k :: k in disk.rows && disk.rows[k].Encoded? ==> Names(disk.rows[k], k.id))
    && (forall id :: id in disk.attempts ==>
          WellFiled(disk.attempts[id]) && (Readable(disk.attempts[id]) ==> disk.attempts[id].value.messageId == id))
  }

  ghost predicate RowOnDisk(disk: Disk, id: string) {
    exists k :: k in disk.rows && disk.rows[k].Encoded? && k.id == id
  }

  predicate AttemptOnDisk(disk: Disk, id: string) {
    id in disk.attempts && Readable(disk.attempts[id])
  }

  function Restarted(disk: Disk, rowKeys: seq<RowKey>, attemptKeys: seq<string>): (s: Sends)
    requires (forall k :: k in rowKeys ==> k in disk.rows) && (forall k :: k in attemptKeys ==> k in disk.attempts)
  {
    Replayed(Sends(EMPTY, map[]), Some(Listing(disk.rows, rowKeys)), Some(Listing(disk.attempts, attemptKeys)))
  }

  lemma ListedRows(disk: Disk, keys: seq<RowKey>, id: string)
    requires InPlace(disk) && Enumerates(keys, disk.rows.Keys)
    ensures SomeRowNames(Listing(disk.rows, keys), id) <==> RowOnDisk(disk, id)
  {
    var rows := Listing(disk.rows, keys);
    if SomeRowNames(rows, id) {
      var i :| 0 <= i < |rows| && Names(rows[i], id);
      assert keys[i] in disk.rows && disk.rows[keys[i]].Encoded? && keys[i].id == id;
    }
    if RowOnDisk(disk, id) {
      var k :| k in disk.rows && disk.rows[k].Encoded? && k.id == id;
      assert k in keys;
      var i :| 0 <= i < |keys| && keys[i] == k;
      assert Names(rows[i], id);
    }
  }

  lemma ListedAttempts(disk: Disk, keys: seq<string>, id: string)
    requires InPlace(disk) && Enumerates(keys, disk.attempts.Keys)
    ensures SomeAttemptFor(Listing(disk.attempts, keys), id) <==> AttemptOnDisk(disk, id)
  {
    var rows := Listing(disk.attempts, keys);
    if SomeAttemptFor(rows, id) {
      var i :| 0 <= i < |rows| && ReadableFor(rows[i], id);
      assert keys[i] in disk.attempts;
    }
    if AttemptOnDisk(disk, id) {
      assert id in keys;
      var i :| 0 <= i < |keys| && keys[i] == id;
      assert ReadableFor(rows[i], id);
    }
  }

  lemma ListedAreWellFiled(disk: Disk, keys: seq<string>)
    requires InPlace(disk) && Enumerates(keys, disk.attempts.Keys)
    ensures forall i :: 0 <= i < |keys| ==> WellFiled(Listing(disk.attempts, keys)[i])
  {
    forall i | 0 <= i < |keys| ensures WellFiled(Listing(disk.attempts, keys)[i]) {
      assert keys[i] in disk.attempts;
    }
  }

  /** A restart returns every id of the disk once, and no other. */
  lemma RestartReturnsTheDiskIds(disk: Disk, rowKeys: seq<RowKey>, attemptKeys: seq<string>, id: string)
    requires InPlace(disk) && Enumerates(rowKeys, disk.rows.Keys) && Enumerates(attemptKeys, disk.attempts.Keys)
    ensures var s := Restarted(disk, rowKeys, attemptKeys);
      && Keyed(s.log.messages)
      && (Get(s.log.messages, id).Some? <==> RowOnDisk(disk, id) || AttemptOnDisk(disk, id))
      && (id in s.attempts <==> AttemptOnDisk(disk, id))
  {
    var rows, attempts := Listing(disk.rows, rowKeys), Listing(disk.attempts, attemptKeys);
    var read := Sends(RowsReplayed(EMPTY, rows), map[]);
    ListedAreWellFiled(disk, attemptKeys);
    RowsKeyed(rows);
    RowsNameTheLog(rows, id);
    ListedRows(disk, rowKeys, id);
    AttemptsKeyedAndShown(read, attempts);
    AttemptsNameTheLog(read, attempts, id);
    ListedAttempts(disk, attemptKeys, id);
    SettlingGet(AttemptsReplayed(read, attempts), id);
  }

  /** After a restart nothing waits for a send that died with the process: no
      attempt is pending, no message that still has content is, and each attempt's
      message shows the attempt's own status. */
  lemma RestartLeavesNothingPending(disk: Disk, rowKeys: seq<RowKey>, attemptKeys: seq<string>, id: string)
    requires InPlace(disk) && Enumerates(rowKeys, disk.rows.Keys) && Enumerates(attemptKeys, disk.attempts.Keys)
    ensures var s := Restarted(disk, rowKeys, attemptKeys);
      && (id in s.attempts ==> s.attempts[id].status != Pending && ShowsAttempt(Get(s.log.messages, id), s.attempts[id]))
      && (var m := Get(s.log.messages, id);
          m.Some? && m.value.deletion.None? ==> m.value.delivery.status != Some(Pending))
  {
    var rows, attempts := Listing(disk.rows, rowKeys), Listing(disk.attempts, attemptKeys);
    var read := Sends(RowsReplayed(EMPTY, rows), map[]);
    ListedAreWellFiled(disk, attemptKeys);
    RowsKeyed(rows);
    AttemptsKeyedAndShown(read, attempts);
    var s := AttemptsReplayed(read, attempts);
    SettlingGet(s, id);
    NamedByItsId(s.log.messages, id);
  }

  lemma NamedByItsId(messages: seq<Message>, id: string)
    ensures Get(messages, id).Some? ==> Get(messages, id).value.id == Some(id)
  {
  }

  /** An unsettled attempt comes back with its bytes, failed if it was pending, and
      its message is rebuilt from it unless the row says it was erased. */
  lemma RestartReturnsTheAttempt(disk: Disk, rowKeys: seq<RowKey>, attemptKeys: seq<string>, id: string)
    requires InPlace(disk) && Enumerates(rowKeys, disk.rows.Keys) && Enumerates(attemptKeys, disk.attempts.Keys)
    requires AttemptOnDisk(disk, id)
    ensures var (s, a) := (Restarted(disk, rowKeys, attemptKeys), disk.attempts[id].value);
      && id in s.attempts && s.attempts[id] == Surviving(a)
      && (var fromRows := Get(RowsReplayed(EMPTY, Listing(disk.rows, rowKeys)).messages, id);
          Get(s.log.messages, id) == Some(Merged(fromRows, MessageFrom(a))))
  {
    var rows, attempts := Listing(disk.rows, rowKeys), Listing(disk.attempts, attemptKeys);
    var read := Sends(RowsReplayed(EMPTY, rows), map[]);
    ListedAreWellFiled(disk, attemptKeys);
    RowsKeyed(rows);
    AttemptsKeyedAndShown(read, attempts);
    assert id in attemptKeys;
    var k :| 0 <= k < |attemptKeys| && attemptKeys[k] == id;
    forall i | 0 <= i < |attempts| && i != k ensures !ReadableFor(attempts[i], id) {
      assert attemptKeys[i] in disk.attempts && attemptKeys[i] != id;
    }
    OnlyAttemptComesBack(read, attempts, k);
    SettlingGet(AttemptsReplayed(read, attempts), id);
    NamedByItsId(AttemptsReplayed(read, attempts).log.messages, id);
  }

  /** A message with one row and no attempt comes back as written, except that a
      send that never ended is reported as failed. */
  lemma RestartReturnsTheRow(disk: Disk, rowKeys: seq<RowKey>, attemptKeys: seq<string>, key: RowKey)
    requires InPlace(disk) && Enumerates(rowKeys, disk.rows.Keys) && Enumerates(attemptKeys, disk.attempts.Keys)
    requires key in disk.rows && disk.rows[key].Encoded? && !AttemptOnDisk(disk, key.id)
    requires forall k :: k in disk.rows && disk.rows[k].Encoded? && k.id == key.id ==> k == key
    ensures var s := Restarted(disk, rowKeys, attemptKeys);
      Get(s.log.messages, key.id) == Some(Resettled(MessageOf(disk.rows[key]), s.attempts))
  {
    var rows, attempts := Listing(disk.rows, rowKeys), Listing(disk.attempts, attemptKeys);
    var read := Sends(RowsReplayed(EMPTY, rows), map[]);
    ListedAreWellFiled(disk, attemptKeys);
    RowsKeyed(rows);
    AttemptsKeyedAndShown(read, attempts);
    assert key in rowKeys;
    var k :| 0 <= k < |rowKeys| && rowKeys[k] == key;
    forall i | 0 <= i < |rows| && i != k ensures !Names(rows[i], key.id) {
      assert rowKeys[i] in disk.rows && rowKeys[i] != key;
    }
    OnlyRowComesBack(rows, k, key.id);
    forall i | 0 <= i < |attempts| ensures !ReadableFor(attempts[i], key.id) {
      assert attemptKeys[i] in disk.attempts;
    }
    OthersLeaveItAlone(read, attempts, key.id);
    SettlingGet(AttemptsReplayed(read, attempts), key.id);
  }

  /** A table the store cannot list is replayed as if it were empty. */
  lemma UnlistedIsEmpty(s: Sends, rows: Option<seq<Text<Row>>>, attempts: Option<seq<Text<Attempt>>>)
    ensures Replayed(s, None, attempts) == Replayed(s, Some([]), attempts)
    ensures Replayed(s, rows, None) == Replayed(s, rows, Some([]))
  {
  }

  /** What a restart makes of the message of a row. */
  function Returned(base: Message, disk: Disk, id: string): (m: Message) {
    if AttemptOnDisk(disk, id) then Merged(Some(base), MessageFrom(disk.attempts[id].value))
    else if base.delivery.status == Some(Pending) then base.(delivery := FAILED)
    else base
  }

  /** Every id with a row comes back as one of its rows was written, or rebuilt from
      its attempt. */
  lemma RestartReturnsSomeRow(disk: Disk, rowKeys: seq<RowKey>, attemptKeys: seq<string>, id: string) returns (key: RowKey)
    requires InPlace(disk) && Enumerates(rowKeys, disk.rows.Keys) && Enumerates(attemptKeys, disk.attempts.Keys)
    requires RowOnDisk(disk, id)
    ensures key in disk.rows && disk.rows[key].Encoded? && key.id == id
    ensures Get(Restarted(disk, rowKeys, attemptKeys).log.messages, id)
         == Some(Returned(MessageOf(disk.rows[key]), disk, id))
  {
    var rows, attempts := Listing(disk.rows, rowKeys), Listing(disk.attempts, attemptKeys);
    var read := Sends(RowsReplayed(EMPTY, rows), map[]);
    ListedRows(disk, rowKeys, id);
    RowsNameTheLog(rows, id);
    var k := GetIsARow(rows, id);
    key := rowKeys[k];
    assert key in rowKeys;
    if AttemptOnDisk(disk, id) {
      RestartReturnsTheAttempt(disk, rowKeys, attemptKeys, id);
    } else {
      ListedAreWellFiled(disk, attemptKeys);
      forall i | 0 <= i < |attempts| ensures !ReadableFor(attempts[i], id) {
        assert attemptKeys[i] in disk.attempts;
      }
      OthersLeaveItAlone(read, attempts, id);
      AttemptsNameTheLog(read, attempts, id);
      ListedAttempts(disk, attemptKeys, id);
      RowsKeyed(rows);
      AttemptsKeyedAndShown(read, attempts);
      SettlingGet(AttemptsReplayed(read, attempts), id);
      NamedByItsId(read.log.messages, id);
    }
  }
}
