/** First-in first-out memories of at most 4096 keys. Source:
    mosh-core/src/conversation/dedup.rs, signature_verification.rs. */
module BoundedMemories {
  import opened Wrappers
  import opened Primitives

  const CAPACITY: nat := 4096

  datatype Memory<!K> = Memory(keys: set<K>, order: seq<K>)

  /** Records a key that is new, and drops the oldest of one too many. */
  function Recorded<K>(m: Memory<K>, key: K): (r: Memory<K>) {
    if key in m.keys then m
    else
      var order := m.order + [key];
      if |order| > CAPACITY then Memory(m.keys + {key} - {order[0]}, order[1..]) else Memory(m.keys + {key}, order)
  }

  /** A frame is known by its channel and the digest of its bytes. */
  datatype FrameKey = FrameKey(channel: string, digest: Digest)

  function KeyOf(channel: string, payload: Bytes): (key: FrameKey) {
    FrameKey(channel, Sha256(payload))
  }

  class SeenFrames {
    var keys: set<FrameKey>
    var order: seq<FrameKey>

    constructor ()
      ensures State() == Memory({}, [])
    {
      keys, order := {}, [];
    }

    function State(): (m: Memory<FrameKey>)
      reads this
    {
      Memory(keys, order)
    }

    predicate Contains(channel: string, payload: Bytes)
      reads this
    {
      KeyOf(channel, payload) in keys
    }

    /** Records a frame and says whether it had already been recorded. */
    method SeenBefore(channel: string, payload: Bytes) returns (seen: bool)
      modifies this
      ensures State() == Recorded(old(State()), KeyOf(channel, payload))
      ensures seen <==> KeyOf(channel, payload) in old(keys)
    {
      var key := KeyOf(channel, payload);
      if key in keys {
        return true;
      }
      keys := keys + {key};
      order := order + [key];
      if |order| > CAPACITY {
        var evicted := order[0];
        order := order[1..];
        keys := keys - {evicted};
      }
      return false;
    }
  }

  /** A checked statement, as the digest of what was checked. */
  datatype Fact = Signature(digest: Digest) | Certificate(digest: Digest)

  /** What is checked: a signature under a key, or a deletion certificate. */
  datatype Statement = Signed(key: Bytes, signature: Bytes, input: Bytes) | Certified(certificate: Bytes)

  /** Keys have 32 bytes and signatures 64. */
  predicate Sized(s: Statement) {
    s.Signed? ==> |s.key| == 32 && |s.signature| == 64
  }

  function FactOf(s: Statement): (fact: Fact) {
    match s
    case Signed(key, signature, input) => Signature(Sha256(key + signature + input))
    case Certified(certificate) => Certificate(Sha256(certificate))
  }

  /** One fact, one statement: the digest of three parts run together still tells
      them apart, because the first two have a fixed length. */
  lemma FactsTellApart(s: Statement, t: Statement)
    requires Sized(s) && Sized(t)
    ensures FactOf(s) == FactOf(t) <==> s == t
  {
    if FactOf(s) == FactOf(t) && s.Signed? {
      var all := s.key + s.signature + s.input;
      assert t.Signed? && all == t.key + t.signature + t.input;
      assert s.key == all[..32] == t.key;
      assert s.signature == all[32..96] == t.signature;
      assert s.input == all[96..] == t.input;
    }
  }

  datatype Verdict = Passes | Fails(error: string)

  class VerifiedFacts {
    var keys: set<Fact>
    var order: seq<Fact>

    constructor ()
      ensures State() == Memory({}, [])
    {
      keys, order := {}, [];
    }

    function State(): (m: Memory<Fact>)
      reads this
    {
      Memory(keys, order)
    }

    method Remember(key: Fact)
      modifies this
      ensures State() == Recorded(old(State()), key)
    {
      if key in keys {
        return;
      }
      keys := keys + {key};
      order := order + [key];
      if |order| > CAPACITY {
        var oldest := order[0];
        order := order[1..];
        keys := keys - {oldest};
      }
    }

    /** Nothing is remembered that the check would not pass. */
    ghost predicate AllPass(check: Fact -> Verdict)
      reads this
    {
      forall f :: f in keys ==> check(f) == Passes
    }

    /** First step of a verification: a hit is answered at once, as the check would. */
    method LookUp(fact: Fact, ghost check: Fact -> Verdict) returns (answer: Option<Verdict>)
      requires AllPass(check)
      ensures answer.Some? <==> fact in keys
      ensures answer.Some? ==> answer.value == check(fact)
    {
      if fact in keys {
        return Some(Passes);
      }
      return None;
    }

    /** Second step, after a miss: only a check that passed is remembered. */
    method Conclude(fact: Fact, checked: Verdict, ghost check: Fact -> Verdict) returns (answer: Verdict)
      requires AllPass(check) && checked == check(fact)
      modifies this
      ensures AllPass(check) && answer == check(fact)
      ensures State() == if checked.Passes? then Recorded(old(State()), fact) else old(State())
    {
      if checked.Fails? {
        return checked;
      }
      Remember(fact);
      return Passes;
    }
  }
}
