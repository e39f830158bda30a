/** The rows of one conversation in the encrypted store. Source:
    mosh-core/src/persistence/history.rs, history_erasure.rs, outbound.rs,
    outbound_guard.rs. */
module HistoryStores {
  import opened Wrappers
  import opened Primitives
  import opened Messages

  datatype RowKey = RowKey(sentAt: u64, id: string)

  /** One message as it sits in the store; the row repeats the key it is filed under. */
  datatype Row = Row(sentAt: u64, id: string, message: Message)

  type Rows = map<RowKey, Text<Row>>

  datatype Disk = Disk(rows: Rows, attempts: map<string, Text<Attempt>>)

  /** The readable row at this key holds a tombstone. */
  predicate Erased(rows: Rows, key: RowKey) {
    key in rows && rows[key].Encoded? && rows[key].value.message.deletion.Some?
  }

  /** A late write cannot put content back into an erased row. */
  function RowWritten(rows: Rows, key: RowKey, row: Row): (r: Rows) {
    if Erased(rows, key) then rows else rows[key := Encoded(row)]
  }

  /** The message is gone: for everyone, or before its send was ever published. */
  predicate Cancelled(rows: Rows, id: string, a: Attempt) {
    var key := RowKey(a.sentAt, id);
    && Erased(rows, key)
    && (rows[key].value.message.deletion == Some(ForEveryone) || a.everPublished == Some(false))
  }

  /** The history row and its replay attempt, in one transaction; without an
      attempt, or with one that is cancelled, the stored attempt goes away. */
  function SendCommitted(disk: Disk, key: RowKey, row: Row, attempt: Option<Attempt>): (r: Disk) {
    var rows := RowWritten(disk.rows, key, row);
    if attempt.None? || Cancelled(rows, key.id, attempt.value) then Disk(rows, disk.attempts - {key.id})
    else Disk(rows, disk.attempts[key.id := Encoded(attempt.value)])
  }

  class HistoryStore {
    var disk: Disk

    constructor (disk: Disk)
      ensures this.disk == disk
    {
      this.disk := disk;
    }

    method AppendMessage(key: RowKey, row: Row, outcome: WriteOutcome) returns (ok: bool)
      modifies this
      ensures ok == (outcome == Saved)
      ensures disk == if outcome == Refused then old(disk) else old(disk).(rows := RowWritten(old(disk).rows, key, row))
    {
      if outcome != Refused {
        if !Erased(disk.rows, key) {
          disk := disk.(rows := disk.rows[key := Encoded(row)]);
        }
      }
      ok := outcome == Saved;
    }

    method CommitSend(key: RowKey, row: Row, attempt: Option<Attempt>, outcome: WriteOutcome) returns (ok: bool)
      modifies this
      ensures ok == (outcome == Saved)
      ensures disk == if outcome == Refused then old(disk) else SendCommitted(old(disk), key, row, attempt)
    {
      if outcome != Refused {
        if !Erased(disk.rows, key) {
          disk := disk.(rows := disk.rows[key := Encoded(row)]);
        }
        if attempt.None? || Cancelled(disk.rows, key.id, attempt.value) {
          disk := disk.(attempts := disk.attempts - {key.id});
        } else {
          disk := disk.(attempts := disk.attempts[key.id := Encoded(attempt.value)]);
        }
      }
      ok := outcome == Saved;
    }
  }
}
