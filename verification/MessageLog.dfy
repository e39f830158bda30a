/** The messages of one conversation, oldest first. Source:
    mosh-core/src/conversation/message_log.rs. */
module MessageLogs {
  import opened Wrappers
  import opened Primitives
  import opened Messages

  datatype Log = Log(messages: seq<Message>, erasedIds: set<string>, revision: u64)

  const EMPTY: Log := Log([], {}, 0)

  /** A reader that remembers a revision notices every change. */
  function NextRevision(revision: u64): (r: u64)
    ensures r != revision
  {
    (revision + 1) % U64_LIMIT
  }

  /** The first message with this id. */
  function IndexOf(messages: seq<Message>, id: string): (r: Option<nat>)
    ensures r.Some? ==> r.value < |messages| && messages[r.value].id == Some(id)
    ensures r.Some? ==> forall i :: 0 <= i < r.value ==> messages[i].id != Some(id)
    ensures r.None? ==> forall i :: 0 <= i < |messages| ==> messages[i].id != Some(id)
  {
    if messages == [] then None
    else
      var before := IndexOf(messages[..|messages| - 1], id);
      if before.Some? then before
      else if messages[|messages| - 1].id == Some(id) then Some(|messages| - 1)
      else None
  }

  function Remembered(erasedIds: set<string>, m: Message): (r: set<string>) {
    if m.deletion.Some? && m.id.Some? then erasedIds + {m.id.value} else erasedIds
  }

  function Pushed(log: Log, m: Message): (r: Log) {
    var revision := NextRevision(log.revision);
    if m.id.Some? && m.id.value in log.erasedIds then log.(revision := revision)
    else Log(log.messages + [m], Remembered(log.erasedIds, m), revision)
  }

  function Upserted(log: Log, m: Message): (r: Log) {
    var changed := Log(log.messages, Remembered(log.erasedIds, m), NextRevision(log.revision));
    var found := if m.id.Some? then IndexOf(log.messages, m.id.value) else None;
    if found.None? then changed.(messages := log.messages + [m])
    else if log.messages[found.value].deletion.Some? then changed
    else changed.(messages := log.messages[found.value := m])
  }

  function Replaced(log: Log, index: nat, m: Message): (r: Log)
    requires index < |log.messages|
  {
    Log(log.messages[index := m], Remembered(log.erasedIds, m), NextRevision(log.revision))
  }

  /** Sets the delivery state of the first message with this id. */
  function Marked(log: Log, id: string, delivery: Delivery): (r: Log) {
    var found := IndexOf(log.messages, id);
    var revision := NextRevision(log.revision);
    if found.None? then log.(revision := revision)
    else log.(messages := log.messages[found.value := log.messages[found.value].(delivery := delivery)], revision := revision)
  }

  function JsonFor(messages: seq<Message>, id: string): (r: Result<Text<Message>, LogError>) {
    var found := IndexOf(messages, id);
    if found.None? then Err(Missing(id)) else Ok(Encoded(messages[found.value]))
  }

  /** What the app shows: all but the messages this device erased for itself. */
  function Visible(messages: seq<Message>): (r: seq<Message>)
    ensures forall m :: m in r <==> m in messages && !Hidden(m)
  {
    if messages == [] then []
    else
      var last := messages[|messages| - 1];
      assert messages == messages[..|messages| - 1] + [last];
      Visible(messages[..|messages| - 1]) + if Hidden(last) then [] else [last]
  }

  /** Ids decide when both sides have one, else sender, time and text. */
  predicate SameMessage(left: Message, right: Message) {
    && left.author == right.author
    && if left.id.Some? && right.id.Some? && left.id.value != "" && right.id.value != "" then left.id == right.id
       else left.sentAt == right.sentAt && left.body == right.body
  }

  predicate HoldsCopy(messages: seq<Message>, candidate: Message) {
    exists i :: 0 <= i < |messages| && SameMessage(messages[i], candidate)
  }

  /** Appends what arrives from the network, unless the log holds a copy of it. */
  function Received(log: Log, m: Message): (r: Log) {
    if HoldsCopy(log.messages, m) then log else Pushed(log, m)
  }

  class MessageLog {
    var messages: seq<Message>
    var erasedIds: set<string>
    var revision: u64

    constructor ()
      ensures State() == EMPTY
    {
      messages, erasedIds, revision := [], {}, 0;
    }

    function State(): (log: Log)
      reads this
    {
      Log(messages, erasedIds, revision)
    }

    /** Appends a stamped message, unless its id was erased. */
    method Push(m: Message)
      modifies this
      ensures State() == Pushed(old(State()), m)
    {
      revision := NextRevision(revision);
      if m.id.Some? && m.id.value in erasedIds {
        return;
      }
      RememberErasure(m);
      messages := messages + [m];
    }

    /** Replaces the message with the same id, or appends it; an erased one stays. */
    method Upsert(m: Message)
      modifies this
      ensures State() == Upserted(old(State()), m)
    {
      revision := NextRevision(revision);
      RememberErasure(m);
      if m.id.Some? {
        var found := Position(m.id.value);
        if found.Some? {
          if messages[found.value].deletion.Some? {
            return;
          }
          messages := messages[found.value := m];
          return;
        }
      }
      messages := messages + [m];
    }

    method Replace(index: nat, m: Message)
      requires index < |messages|
      modifies this
      ensures State() == Replaced(old(State()), index, m)
    {
      revision := NextRevision(revision);
      RememberErasure(m);
      messages := messages[index := m];
    }

    method RememberErasure(m: Message)
      modifies this`erasedIds
      ensures erasedIds == Remembered(old(erasedIds), m)
    {
      if m.deletion.Some? && m.id.Some? {
        erasedIds := erasedIds + {m.id.value};
      }
    }

    method Position(id: string) returns (found: Option<nat>)
      ensures found == IndexOf(messages, id)
    {
      for i := 0 to |messages|
        invariant forall k :: 0 <= k < i ==> messages[k].id != Some(id)
      {
        if messages[i].id == Some(id) {
          return Some(i);
        }
      }
      return None;
    }

    method MarkDelivery(id: string, status: Status, error: Option<string>, retryCount: u32)
      returns (r: Result<(), LogError>)
      modifies this
      ensures State() == Marked(old(State()), id, DeliveryMeta(status, error, retryCount))
      ensures r == if IndexOf(old(messages), id).Some? then Ok(()) else Err(Missing(id))
    {
      revision := NextRevision(revision);
      var found := Position(id);
      if found.None? {
        return Err(Missing(id));
      }
      messages := messages[found.value := messages[found.value].(delivery := DeliveryMeta(status, error, retryCount))];
      return Ok(());
    }

    method ToJson(id: string) returns (r: Result<Text<Message>, LogError>)
      ensures r == JsonFor(messages, id)
    {
      var found := Position(id);
      if found.None? {
        return Err(Missing(id));
      }
      return Ok(Encoded(messages[found.value]));
    }

    method VisibleMessages() returns (shown: seq<Message>)
      ensures shown == Visible(messages)
    {
      shown := [];
      for i := 0 to |messages|
        invariant shown == Visible(messages[..i])
      {
        assert messages[..i + 1][..i] == messages[..i];
        if !Hidden(messages[i]) {
          shown := shown + [messages[i]];
        }
      }
      assert messages[..|messages|] == messages;
    }

    method HoldsCopyOf(candidate: Message) returns (held: bool)
      ensures held == HoldsCopy(messages, candidate)
    {
      for i := 0 to |messages|
        invariant forall k :: 0 <= k < i ==> !SameMessage(messages[k], candidate)
      {
        if SameMessage(messages[i], candidate) {
          return true;
        }
      }
      return false;
    }
  }

  /** A text or a file offer that a group member receives. */
  method ReceiveMessage(log: MessageLog, m: Message)
    modifies log
    ensures log.State() == Received(old(log.State()), m)
  {
    var held := log.HoldsCopyOf(m);
    if held {
      return;
    }
    log.Push(m);
  }
}
