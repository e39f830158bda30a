/** What a conversation keeps for each message and for each send in flight.
    Source: mosh-core/src/conversation/message_log.rs, outbound_delivery.rs. */
module Messages {
  import opened Wrappers
  import opened Primitives

  datatype Status = Pending | Queued | Sent | Delivered | Failed

  datatype Scope = ForMe | ForEveryone

  datatype Delivery = Delivery(status: Option<Status>, error: Option<string>, retryable: Option<bool>, retryCount: Option<u32>)

  /** `deletion`: the tombstone, once the content was erased. */
  datatype Message = Message(id: Option<string>, sentAt: Option<u64>, author: string, body: string,
                             deletion: Option<Scope>, delivery: Delivery)

  datatype LogError = Missing(id: string) | Codec

  /** Only a failed send can be retried. */
  function DeliveryMeta(status: Status, error: Option<string>, retryCount: u32): (d: Delivery)
    ensures d.retryable == Some(true) <==> d.status == Some(Failed)
  {
    Delivery(Some(status), error, Some(status == Failed), Some(retryCount))
  }

  predicate Hidden(m: Message) {
    m.deletion == Some(ForMe)
  }

  /** A send in flight, with the bytes it publishes and the message as it stood. */
  datatype Attempt = Attempt(everPublished: Option<bool>, conversationId: string, messageId: string, sentAt: u64,
                             ciphertextBytes: nat, messageJson: Text<Message>, payload: Text<Bytes>,
                             status: Status, error: Option<string>, retryCount: u32,
                             autoResends: u32, lastSend: u64)

  type Attempts = map<string, Attempt>
}
