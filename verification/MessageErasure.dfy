/** An erased message stays erased: which logs let content back in, and which
    do not. */
module MessageErasure {
  import opened Wrappers
  import opened Primitives
  import opened Messages
  import opened MessageLogs

  datatype Change = Push(message: Message) | Upsert(message: Message) | Mark(id: string, delivery: Delivery)

  function Changed(log: Log, change: Change): (r: Log) {
    match change
    case Push(m) => Pushed(log, m)
    case Upsert(m) => Upserted(log, m)
    case Mark(id, delivery) => Marked(log, id, delivery)
  }

  function Ran(log: Log, changes: seq<Change>): (r: Log) {
    if changes == [] then log
    else Changed(Ran(log, changes[..|changes| - 1]), changes[|changes| - 1])
  }

  // ---------- one message at a time ----------

  /** Its content is gone. */
  predicate ErasedIn(messages: seq<Message>, id: string) {
    forall i :: 0 <= i < |messages| && messages[i].id == Some(id) ==> messages[i].deletion.Some?
  }

  /** The id is remembered, held, and held only as tombstones. */
  predicate Sealed(log: Log, id: string) {
    && id in log.erasedIds
    && IndexOf(log.messages, id).Some?
    && ErasedIn(log.messages, id)
  }

  /** Every message with this id, in order, without its delivery state. */
  function Entries(messages: seq<Message>, id: string): (r: seq<Message>) {
    if messages == [] then []
    else
      var last := messages[|messages| - 1];
      Entries(messages[..|messages| - 1], id)
      + if last.id == Some(id) then [last.(delivery := Delivery(None, None, None, None))] else []
  }

  lemma {:induction false} EntriesSeeNoOtherId(messages: seq<Message>, i: nat, m: Message, id: string)
    requires i < |messages| && messages[i].id != Some(id) && m.id != Some(id)
    ensures Entries(messages[i := m], id) == Entries(messages, id)
  {
    var before := messages[..|messages| - 1];
    if i == |messages| - 1 {
      assert messages[i := m][..|messages| - 1] == before;
    } else {
      assert messages[i := m][..|messages| - 1] == before[i := m];
      EntriesSeeNoOtherId(before, i, m, id);
    }
  }

  lemma {:induction false} EntriesIgnoreDelivery(messages: seq<Message>, i: nat, delivery: Delivery, id: string)
    requires i < |messages|
    ensures Entries(messages[i := messages[i].(delivery := delivery)], id) == Entries(messages, id)
  {
    var before := messages[..|messages| - 1];
    var m := messages[i].(delivery := delivery);
    if i == |messages| - 1 {
      assert messages[i := m][..|messages| - 1] == before;
    } else {
      assert messages[i := m][..|messages| - 1] == before[i := m];
      EntriesIgnoreDelivery(before, i, delivery, id);
    }
  }

  lemma EntriesOfLonger(messages: seq<Message>, m: Message, id: string)
    requires m.id != Some(id)
    ensures Entries(messages + [m], id) == Entries(messages, id)
  {
    assert (messages + [m])[..|messages|] == messages;
  }

  lemma IndexSurvives(messages: seq<Message>, longer: seq<Message>, id: string)
    requires IndexOf(messages, id).Some? && |messages| <= |longer|
    requires forall i :: 0 <= i < |messages| ==> longer[i].id == messages[i].id
    ensures IndexOf(longer, id).Some?
  {
    var i := IndexOf(messages, id).value;
    assert longer[i].id == Some(id);
  }

  lemma PushKeepsSeal(log: Log, m: Message, id: string)
    requires Sealed(log, id)
    ensures Sealed(Pushed(log, m), id)
    ensures Entries(Pushed(log, m).messages, id) == Entries(log.messages, id)
  {
    IndexSurvives(log.messages, Pushed(log, m).messages, id);
    if m.id != Some(id) {
      EntriesOfLonger(log.messages, m, id);
    }
  }

  lemma UpsertKeepsSeal(log: Log, m: Message, id: string)
    requires Sealed(log, id)
    ensures Sealed(Upserted(log, m), id)
    ensures Entries(Upserted(log, m).messages, id) == Entries(log.messages, id)
  {
    var found := if m.id.Some? then IndexOf(log.messages, m.id.value) else None;
    IndexSurvives(log.messages, Upserted(log, m).messages, id);
    if found.None? {
      EntriesOfLonger(log.messages, m, id);
    } else if log.messages[found.value].deletion.None? {
      EntriesSeeNoOtherId(log.messages, found.value, m, id);
    }
  }

  lemma MarkKeepsSeal(log: Log, marked: string, delivery: Delivery, id: string)
    requires Sealed(log, id)
    ensures Sealed(Marked(log, marked, delivery), id)
    ensures Entries(Marked(log, marked, delivery).messages, id) == Entries(log.messages, id)
  {
    var found := IndexOf(log.messages, marked);
    IndexSurvives(log.messages, Marked(log, marked, delivery).messages, id);
    if found.Some? {
      EntriesIgnoreDelivery(log.messages, found.value, delivery, id);
    }
  }

  lemma ChangeKeepsSeal(log: Log, change: Change, id: string)
    requires Sealed(log, id)
    ensures Sealed(Changed(log, change), id)
    ensures Entries(Changed(log, change).messages, id) == Entries(log.messages, id)
  {
    match change {
      case Push(m) => PushKeepsSeal(log, m, id);
      case Upsert(m) => UpsertKeepsSeal(log, m, id);
      case Mark(marked, delivery) => MarkKeepsSeal(log, marked, delivery, id);
    }
  }

  /** No run of appends, upserts and delivery marks touches a sealed message: the
      same tombstones stay, and nothing else appears under its id. */
  lemma {:induction false} SealedIsForGood(log: Log, changes: seq<Change>, id: string)
    requires Sealed(log, id)
    ensures Sealed(Ran(log, changes), id)
    ensures Entries(Ran(log, changes).messages, id) == Entries(log.messages, id)
  {
    if changes != [] {
      SealedIsForGood(log, changes[..|changes| - 1], id);
      ChangeKeepsSeal(Ran(log, changes[..|changes| - 1]), changes[|changes| - 1], id);
    }
  }

  ghost predicate NeverRestored(log: Log, id: string) {
    forall changes: seq<Change> :: ErasedIn(Ran(log, changes).messages, id)
  }

  /** Exactly the sealed ids are safe: an id that is not remembered comes back by an
      append, and one that is remembered but not held comes back by an upsert. */
  lemma NeverRestoredIffSealed(log: Log, id: string)
    ensures NeverRestored(log, id) <==> Sealed(log, id)
  {
    if Sealed(log, id) {
      forall changes: seq<Change> ensures ErasedIn(Ran(log, changes).messages, id) {
        SealedIsForGood(log, changes, id);
      }
    } else {
      var content := Message(Some(id), None, "", "content", None, Delivery(None, None, None, None));
      var change := if id in log.erasedIds then Upsert(content) else Push(content);
      assert Ran(log, []) == log;
      assert [change][..0] == [];
      assert Ran(log, [change]) == Changed(log, change);
      if ErasedIn(log.messages, id) {
        var after := Changed(log, change).messages;
        assert after == log.messages + [content];
        assert after[|log.messages|].id == Some(id) && after[|log.messages|].deletion.None?;
        assert !ErasedIn(Ran(log, [change]).messages, id);
      } else {
        assert !ErasedIn(Ran(log, []).messages, id);
      }
    }
  }

  // ---------- erasures made through the log itself ----------

  ghost predicate UniqueIds(messages: seq<Message>) {
    forall i, j :: 0 <= i < j < |messages| && messages[i].id.Some? ==> messages[i].id != messages[j].id
  }

  predicate HeldErased(messages: seq<Message>, id: string) {
    exists i :: 0 <= i < |messages| && messages[i].id == Some(id) && messages[i].deletion.Some?
  }

  /** Every remembered erasure is still held as a tombstone. */
  ghost predicate Honest(log: Log) {
    forall id {:trigger HeldErased(log.messages, id)} :: id in log.erasedIds ==> HeldErased(log.messages, id)
  }

  lemma UpsertKeepsHonest(log: Log, m: Message)
    requires Honest(log)
    ensures Honest(Upserted(log, m))
  {
    var after := Upserted(log, m);
    forall id | id in after.erasedIds ensures HeldErased(after.messages, id) {
      if id in log.erasedIds {
        assert HeldErased(log.messages, id);
        var i :| 0 <= i < |log.messages| && log.messages[i].id == Some(id) && log.messages[i].deletion.Some?;
        assert after.messages[i] == log.messages[i];
      } else {
        var found := IndexOf(log.messages, id);
        var i := if found.Some? then found.value else |log.messages|;
        assert after.messages[i].id == Some(id) && after.messages[i].deletion.Some?;
      }
    }
  }

  lemma PushKeepsHonest(log: Log, m: Message)
    requires Honest(log)
    ensures Honest(Pushed(log, m))
  {
    var after := Pushed(log, m);
    forall id | id in after.erasedIds ensures HeldErased(after.messages, id) {
      if id in log.erasedIds {
        assert HeldErased(log.messages, id);
        var i :| 0 <= i < |log.messages| && log.messages[i].id == Some(id) && log.messages[i].deletion.Some?;
        assert after.messages[i] == log.messages[i];
      } else {
        assert after.messages[|log.messages|] == m;
      }
    }
  }

  /** Erasing in place: the same id, and never content over a tombstone. */
  lemma ReplaceKeepsHonest(log: Log, index: nat, m: Message)
    requires Honest(log) && index < |log.messages|
    requires m.id == log.messages[index].id && (log.messages[index].deletion.Some? ==> m.deletion.Some?)
    ensures Honest(Replaced(log, index, m))
  {
    var after := Replaced(log, index, m);
    forall id | id in after.erasedIds ensures HeldErased(after.messages, id) {
      if id in log.erasedIds {
        assert HeldErased(log.messages, id);
        var i :| 0 <= i < |log.messages| && log.messages[i].id == Some(id) && log.messages[i].deletion.Some?;
        assert after.messages[i].id == Some(id) && after.messages[i].deletion.Some?;
      } else {
        assert after.messages[index] == m;
      }
    }
  }

  datatype Edit = Apply(change: Change) | Swap(index: nat, message: Message)

  /** A swap keeps the id, and never puts content over a tombstone. */
  predicate Fits(log: Log, edit: Edit) {
    edit.Swap? ==>
      && edit.index < |log.messages|
      && edit.message.id == log.messages[edit.index].id
      && (log.messages[edit.index].deletion.Some? ==> edit.message.deletion.Some?)
  }

  function Edited(log: Log, edit: Edit): (r: Log)
    requires Fits(log, edit)
  {
    match edit
    case Apply(change) => Changed(log, change)
    case Swap(index, m) => Replaced(log, index, m)
  }

  lemma MarkKeepsHonest(log: Log, marked: string, delivery: Delivery)
    requires Honest(log)
    ensures Honest(Marked(log, marked, delivery))
  {
    var after := Marked(log, marked, delivery);
    forall id | id in after.erasedIds ensures HeldErased(after.messages, id) {
      assert HeldErased(log.messages, id);
      var i :| 0 <= i < |log.messages| && log.messages[i].id == Some(id) && log.messages[i].deletion.Some?;
      assert after.messages[i].id == Some(id) && after.messages[i].deletion.Some?;
    }
  }

  lemma EditKeepsHonest(log: Log, edit: Edit)
    requires Honest(log) && Fits(log, edit)
    ensures Honest(Edited(log, edit))
  {
    match edit {
      case Apply(Push(m)) => PushKeepsHonest(log, m);
      case Apply(Upsert(m)) => UpsertKeepsHonest(log, m);
      case Apply(Mark(id, delivery)) => MarkKeepsHonest(log, id, delivery);
      case Swap(index, m) => ReplaceKeepsHonest(log, index, m);
    }
  }

  /** A run of edits from an empty log, one log for each moment. */
  ghost predicate Timeline(logs: seq<Log>, edits: seq<Edit>) {
    && |logs| == |edits| + 1 && logs[0] == EMPTY
    && forall i :: 0 <= i < |edits| ==> Fits(logs[i], edits[i]) && logs[i + 1] == Edited(logs[i], edits[i])
  }

  lemma {:induction false} TimelinesAreHonest(logs: seq<Log>, edits: seq<Edit>, i: nat)
    requires Timeline(logs, edits) && i < |logs|
    ensures Honest(logs[i])
  {
    if i > 0 {
      TimelinesAreHonest(logs, edits, i - 1);
      EditKeepsHonest(logs[i - 1], edits[i - 1]);
    }
  }

  /** Once a log with unique ids holds an erased id, no later run restores it. */
  lemma ErasedStaysErased(log: Log, id: string, changes: seq<Change>)
    requires Honest(log) && UniqueIds(log.messages) && id in log.erasedIds
    ensures Sealed(log, id)
    ensures ErasedIn(Ran(log, changes).messages, id)
    ensures Entries(Ran(log, changes).messages, id) == Entries(log.messages, id)
  {
    assert HeldErased(log.messages, id);
    var i :| 0 <= i < |log.messages| && log.messages[i].id == Some(id) && log.messages[i].deletion.Some?;
    SealedIsForGood(log, changes, id);
  }

  /** Exactly one message of the log has this id, or none. */
  ghost predicate AtMostOne(messages: seq<Message>, id: string) {
    forall i, j :: 0 <= i < j < |messages| && messages[i].id == Some(id) ==> messages[j].id != Some(id)
  }

  lemma PushedIsSealed(log: Log, id: string, tombstone: Message)
    requires IndexOf(log.messages, id).None? && id !in log.erasedIds && tombstone.id == Some(id) && tombstone.deletion.Some?
    ensures Sealed(Pushed(log, tombstone), id)
  {
    assert Pushed(log, tombstone).messages[|log.messages|] == tombstone;
  }

  lemma UpsertedIsSealed(log: Log, id: string, tombstone: Message)
    requires AtMostOne(log.messages, id) && tombstone.id == Some(id) && tombstone.deletion.Some?
    ensures Sealed(Upserted(log, tombstone), id)
  {
    var after, found := Upserted(log, tombstone).messages, IndexOf(log.messages, id);
    assert after[if found.None? then |log.messages| else found.value].id == Some(id);
  }

  lemma ReplacedIsSealed(log: Log, id: string, tombstone: Message, i: nat)
    requires AtMostOne(log.messages, id) && tombstone.id == Some(id) && tombstone.deletion.Some?
    requires i < |log.messages| && log.messages[i].id == Some(id)
    ensures Sealed(Replaced(log, i, tombstone), id)
  {
    assert Replaced(log, i, tombstone).messages[i] == tombstone;
  }

  /** Erasing a message seals it, whichever way the tombstone gets into a log that holds
      the message at most once: appended, upserted, or put in its place. */
  lemma ErasingSeals(log: Log, id: string, tombstone: Message)
    requires AtMostOne(log.messages, id) && tombstone.id == Some(id) && tombstone.deletion.Some?
    ensures IndexOf(log.messages, id).None? && id !in log.erasedIds ==> Sealed(Pushed(log, tombstone), id)
    ensures Sealed(Upserted(log, tombstone), id)
    ensures forall i :: 0 <= i < |log.messages| && log.messages[i].id == Some(id) ==> Sealed(Replaced(log, i, tombstone), id)
  {
    if IndexOf(log.messages, id).None? && id !in log.erasedIds {
      PushedIsSealed(log, id, tombstone);
    }
    UpsertedIsSealed(log, id, tombstone);
    forall i | 0 <= i < |log.messages| && log.messages[i].id == Some(id) ensures Sealed(Replaced(log, i, tombstone), id) {
      ReplacedIsSealed(log, id, tombstone, i);
    }
  }

  /** Every message of the id is erased for this device. */
  ghost predicate AllHidden(messages: seq<Message>, id: string) {
    forall i :: 0 <= i < |messages| && messages[i].id == Some(id) ==> Hidden(messages[i])
  }

  ghost predicate AllEntriesHidden(entries: seq<Message>) {
    forall i :: 0 <= i < |entries| ==> Hidden(entries[i])
  }

  lemma AllHiddenSnoc(before: seq<Message>, last: Message, id: string)
    ensures AllHidden(before + [last], id) <==> AllHidden(before, id) && (last.id == Some(id) ==> Hidden(last))
  {
    var messages := before + [last];
    assert messages[|before|] == last;
    assert forall i :: 0 <= i < |before| ==> messages[i] == before[i];
  }

  lemma AllEntriesHiddenSnoc(before: seq<Message>, last: Message)
    ensures AllEntriesHidden(before + [last]) <==> AllEntriesHidden(before) && Hidden(last)
  {
    var entries := before + [last];
    assert entries[|before|] == last;
    assert forall i :: 0 <= i < |before| ==> entries[i] == before[i];
  }

  lemma {:induction false} HiddenEntries(messages: seq<Message>, id: string)
    ensures AllHidden(messages, id) <==> AllEntriesHidden(Entries(messages, id))
  {
    if messages != [] {
      var before, last := messages[..|messages| - 1], messages[|messages| - 1];
      var stripped := last.(delivery := Delivery(None, None, None, None));
      HiddenEntries(before, id);
      AllHiddenSnoc(before, last, id);
      assert messages == before + [last];
      assert Hidden(stripped) <==> Hidden(last);
      if last.id == Some(id) {
        assert Entries(messages, id) == Entries(before, id) + [stripped];
        AllEntriesHiddenSnoc(Entries(before, id), stripped);
      } else {
        assert Entries(messages, id) == Entries(before, id);
      }
    }
  }

  /** A message erased for this device never shows again. */
  lemma HiddenIsNeverVisible(log: Log, id: string, changes: seq<Change>, m: Message)
    requires Sealed(log, id) && AllHidden(log.messages, id) && m.id == Some(id)
    ensures m !in Visible(Ran(log, changes).messages)
  {
    var after := Ran(log, changes).messages;
    SealedIsForGood(log, changes, id);
    HiddenEntries(log.messages, id);
    HiddenEntries(after, id);
    HiddenIsInvisible(after, id, m);
  }

  lemma HiddenIsInvisible(messages: seq<Message>, id: string, m: Message)
    requires AllHidden(messages, id) && m.id == Some(id)
    ensures m !in Visible(messages)
  {
    if m in messages {
      var i :| 0 <= i < |messages| && messages[i] == m;
      assert Hidden(messages[i]);
    }
  }

  // ---------- what a reader notices ----------

  /** The revision of a log that starts empty counts its edits, modulo 2^64, whether an
      edit changed a message or was turned away. */
  lemma {:induction false} RevisionCountsEdits(logs: seq<Log>, edits: seq<Edit>, i: nat)
    requires Timeline(logs, edits) && i < |logs|
    ensures logs[i].revision == i % U64_LIMIT
  {
    if i > 0 {
      RevisionCountsEdits(logs, edits, i - 1);
      assert Fits(logs[i - 1], edits[i - 1]) && logs[i] == Edited(logs[i - 1], edits[i - 1]);
    }
  }

  // ---------- what is shown ----------

  /** The shown messages are these of the log, in this order. */
  ghost predicate Picks(messages: seq<Message>, shown: seq<Message>, at: seq<nat>) {
    && |at| == |shown|
    && (forall k :: 0 <= k < |at| ==> at[k] < |messages| && shown[k] == messages[at[k]])
    && (forall k, l :: 0 <= k < l < |at| ==> at[k] < at[l])
    && (forall i :: 0 <= i < |messages| ==> (i in at <==> messages[i].deletion != Some(ForMe)))
  }

  lemma PicksMore(messages: seq<Message>, shown: seq<Message>, at: seq<nat>, last: Message)
    requires Picks(messages, shown, at)
    ensures last.deletion == Some(ForMe) ==> Picks(messages + [last], shown, at)
    ensures last.deletion != Some(ForMe) ==> Picks(messages + [last], shown + [last], at + [|messages|])
  {
    assert forall i :: i in at ==> i < |messages|;
    assert forall i :: i in at + [|messages|] <==> i in at || i == |messages|;
  }

  /** The app shows every message of the log once and in its place, but for those this
      device erased for itself. */
  lemma {:induction false} ShownInOrder(messages: seq<Message>) returns (at: seq<nat>)
    ensures Picks(messages, Visible(messages), at)
  {
    if messages == [] {
      at := [];
    } else {
      var before, last := messages[..|messages| - 1], messages[|messages| - 1];
      var earlier := ShownInOrder(before);
      PicksMore(before, Visible(before), earlier, last);
      assert messages == before + [last];
      at := if Hidden(last) then earlier else earlier + [|before|];
    }
  }

  // ---------- copies ----------

  /** Messages of different authors are never copies; those with ids are exactly if the
      ids agree, whatever became of their text; the others exactly if time and text do.
      Which of the two is held does not matter. */
  lemma CopiesExactly(m: Message, n: Message)
    ensures SameMessage(m, n) == SameMessage(n, m) && SameMessage(m, m)
    ensures m.author != n.author ==> !SameMessage(m, n)
    ensures m.author == n.author && HasId(m) && HasId(n) ==> (SameMessage(m, n) <==> m.id == n.id)
    ensures m.author == n.author && !(HasId(m) && HasId(n)) ==>
      (SameMessage(m, n) <==> m.sentAt == n.sentAt && m.body == n.body)
  {
  }

  predicate HasId(m: Message) {
    m.id.Some? && m.id != Some("")
  }

  /** What a log that starts empty makes of these arrivals. */
  function ReceivedAll(arrivals: seq<Message>): (log: Log) {
    if arrivals == [] then EMPTY
    else Received(ReceivedAll(arrivals[..|arrivals| - 1]), arrivals[|arrivals| - 1])
  }

  ghost predicate NoCopies(messages: seq<Message>) {
    forall i, j :: 0 <= i < j < |messages| ==> !SameMessage(messages[i], messages[j])
  }

  /** Nothing is kept twice, and nothing is lost: what arrived has a copy in the
      log, or its id was erased. */
  lemma {:induction false} ArrivalsAreKeptOnce(arrivals: seq<Message>, k: nat)
    ensures NoCopies(ReceivedAll(arrivals).messages)
    ensures k < |arrivals| ==>
      || HoldsCopy(ReceivedAll(arrivals).messages, arrivals[k])
      || (arrivals[k].id.Some? && arrivals[k].id.value in ReceivedAll(arrivals).erasedIds)
  {
    if arrivals != [] {
      ArrivalsAreKeptOnce(arrivals[..|arrivals| - 1], k);
      var before, m := ReceivedAll(arrivals[..|arrivals| - 1]), arrivals[|arrivals| - 1];
      var after := ReceivedAll(arrivals);
      if k < |arrivals| - 1 && HoldsCopy(before.messages, arrivals[k]) {
        var i :| 0 <= i < |before.messages| && SameMessage(before.messages[i], arrivals[k]);
        assert after.messages[i] == before.messages[i];
      } else if k == |arrivals| - 1 && !HoldsCopy(before.messages, m) && |after.messages| > |before.messages| {
        assert SameMessage(after.messages[|before.messages|], m);
      }
    }
  }

  /** The kept messages are these of the arrivals, to the letter and in this order. */
  ghost predicate KeptAt(arrivals: seq<Message>, kept: seq<Message>, at: seq<nat>) {
    && |at| == |kept|
    && (forall k :: 0 <= k < |at| ==> at[k] < |arrivals| && kept[k] == arrivals[at[k]])
    && (forall k, l :: 0 <= k < l < |at| ==> at[k] < at[l])
  }

  /** What is kept of the arrivals is kept as it came. */
  lemma {:induction false} ArrivalsAreKeptAsTheyCame(arrivals: seq<Message>) returns (at: seq<nat>)
    ensures KeptAt(arrivals, ReceivedAll(arrivals).messages, at)
  {
    if arrivals == [] {
      at := [];
    } else {
      var n := |arrivals| - 1;
      var before := ReceivedAll(arrivals[..n]);
      at := ArrivalsAreKeptAsTheyCame(arrivals[..n]);
      if |ReceivedAll(arrivals).messages| > |before.messages| {
        at := at + [n];
      }
    }
  }
}
