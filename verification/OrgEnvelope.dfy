/** Sender authentication over the gossip path: what is signed, and that it can
    be signed for one context only. Source: mosh-core/src/org_envelope.rs. */
module OrgEnvelopes {
  import opened Wrappers
  import opened Primitives

  /** The bytes of "mosh-org-v1". */
  const DOMAIN: Bytes := [109, 111, 115, 104, 45, 111, 114, 103, 45, 118, 49]

  /** The strings of a context, as their UTF-8 bytes. */
  datatype OrgContext = OrgContext(orgPubkey: Bytes, meshId: Bytes, channelKind: Bytes)

  // ---------- length-prefixed fields ----------

  /** The low `width` bytes of n, least significant first. */
  function LittleEndian(n: nat, width: nat): (bytes: Bytes)
    ensures |bytes| == width
  {
    if width == 0 then [] else [(n % 256) as byte] + LittleEndian(n / 256, width - 1)
  }

  function ReadLittleEndian(bytes: Bytes): (n: nat) {
    if bytes == [] then 0 else bytes[0] as nat + 256 * ReadLittleEndian(bytes[1..])
  }

  predicate FitsIn(n: nat, width: nat) {
    if width == 0 then n == 0 else FitsIn(n / 256, width - 1)
  }

  lemma {:induction false} ReadsWhatWasWritten(n: nat, width: nat)
    requires FitsIn(n, width)
    ensures ReadLittleEndian(LittleEndian(n, width)) == n
  {
    if width > 0 {
      ReadsWhatWasWritten(n / 256, width - 1);
      assert LittleEndian(n, width)[1..] == LittleEndian(n / 256, width - 1);
    }
  }

  lemma EightBytesHoldU64(n: nat)
    requires n < U64_LIMIT
    ensures FitsIn(n, 8)
  {
    var a, b := n / 0x1_0000_0000, n % 0x1_0000_0000;
    assert n / 256 / 256 / 256 / 256 == a;
    assert a / 256 / 256 / 256 / 256 == 0;
    assert FitsIn(a / 256 / 256 / 256 / 256, 0);
    assert FitsIn(a / 256 / 256, 2);
    assert FitsIn(a, 4);
    assert FitsIn(n / 256 / 256, 6);
  }

  function Field(part: Bytes): (bytes: Bytes) {
    LittleEndian(|part|, 8) + part
  }

  function Fields(parts: seq<Bytes>): (bytes: Bytes) {
    if parts == [] then [] else Fields(parts[..|parts| - 1]) + Field(parts[|parts| - 1])
  }

  function Parts(ctx: OrgContext, payload: Bytes): (parts: seq<Bytes>) {
    [ctx.orgPubkey, ctx.meshId, ctx.channelKind, payload]
  }

  function SigningInput(ctx: OrgContext, payload: Bytes): (bytes: Bytes) {
    DOMAIN + Fields(Parts(ctx, payload))
  }

  method BuildSigningInput(ctx: OrgContext, payload: Bytes) returns (out: Bytes)
    ensures out == SigningInput(ctx, payload)
  {
    var parts := [ctx.orgPubkey, ctx.meshId, ctx.channelKind, payload];
    out := DOMAIN;
    for i := 0 to |parts|
      invariant out == DOMAIN + Fields(parts[..i])
    {
      assert parts[..i + 1][..i] == parts[..i];
      out := out + LittleEndian(|parts[i]|, 8);
      out := out + parts[i];
    }
    assert parts[..|parts|] == parts;
  }

  // ---------- reading it back ----------

  /** The first field and what follows it. */
  function TakeField(bytes: Bytes): (r: Option<(Bytes, Bytes)>) {
    if |bytes| < 8 then None
    else
      var n := ReadLittleEndian(bytes[..8]);
      if |bytes| - 8 < n then None else Some((bytes[8..8 + n], bytes[8 + n..]))
  }

  function TakeFields(bytes: Bytes, count: nat): (r: Option<seq<Bytes>>)
    ensures r.Some? ==> |r.value| == count
    decreases count
  {
    if count == 0 then if bytes == [] then Some([]) else None
    else
      var first := TakeField(bytes);
      if first.None? then None
      else
        var rest := TakeFields(first.value.1, count - 1);
        if rest.None? then None else Some([first.value.0] + rest.value)
  }

  /** Recovers the context and the payload from what was signed. */
  function Recovered(bytes: Bytes): (r: Option<(OrgContext, Bytes)>) {
    if !(DOMAIN <= bytes) then None
    else
      var parts := TakeFields(bytes[|DOMAIN|..], 4);
      if parts.None? then None
      else Some((OrgContext(parts.value[0], parts.value[1], parts.value[2]), parts.value[3]))
  }

  lemma TakesTheField(part: Bytes, rest: Bytes)
    requires |part| < U64_LIMIT
    ensures TakeField(Field(part) + rest) == Some((part, rest))
  {
    var bytes := Field(part) + rest;
    EightBytesHoldU64(|part|);
    ReadsWhatWasWritten(|part|, 8);
    assert bytes[..8] == LittleEndian(|part|, 8);
    assert bytes[8..8 + |part|] == part;
    assert bytes[8 + |part|..] == rest;
  }

  lemma {:induction false} FirstFieldFirst(parts: seq<Bytes>)
    requires |parts| > 0
    ensures Fields(parts) == Field(parts[0]) + Fields(parts[1..])
  {
    if |parts| == 1 {
      assert parts[..0] == [] && parts[1..] == [];
    } else {
      var n := |parts| - 1;
      var before, rest := parts[..n], parts[1..];
      var first, middle, last := Field(parts[0]), Fields(before[1..]), Field(parts[n]);
      FirstFieldFirst(before);
      assert Fields(before) == first + middle;
      assert rest[..n - 1] == before[1..];
      assert Fields(rest) == middle + last;
      Regroup(first, middle, last);
    }
  }

  lemma Regroup(a: Bytes, b: Bytes, c: Bytes)
    ensures (a + b) + c == a + (b + c)
  {
  }

  lemma {:induction false} TakesTheFields(parts: seq<Bytes>)
    requires forall i :: 0 <= i < |parts| ==> |parts[i]| < U64_LIMIT
    ensures TakeFields(Fields(parts), |parts|) == Some(parts)
  {
    if parts != [] {
      FirstFieldFirst(parts);
      TakesTheField(parts[0], Fields(parts[1..]));
      TakesTheFields(parts[1..]);
      assert [parts[0]] + parts[1..] == parts;
    }
  }

  /** A buffer in memory: its length fits the u64 of the prefix. */
  predicate InMemory(ctx: OrgContext, payload: Bytes) {
    && |ctx.orgPubkey| < U64_LIMIT && |ctx.meshId| < U64_LIMIT && |ctx.channelKind| < U64_LIMIT
    && |payload| < U64_LIMIT
  }

  /** Whatever bytes the fields hold, the signed form gives them back. */
  lemma SigningInputIsDecodable(ctx: OrgContext, payload: Bytes)
    requires InMemory(ctx, payload)
    ensures Recovered(SigningInput(ctx, payload)) == Some((ctx, payload))
  {
    var parts := Parts(ctx, payload);
    var bytes := SigningInput(ctx, payload);
    assert bytes[..|DOMAIN|] == DOMAIN;
    assert bytes[|DOMAIN|..] == Fields(parts);
    TakesTheFields(parts);
  }

  /** Two different contexts or payloads are never signed as the same bytes. */
  lemma SigningInputIsInjective(ctx: OrgContext, payload: Bytes, otherCtx: OrgContext, otherPayload: Bytes)
    requires InMemory(ctx, payload) && InMemory(otherCtx, otherPayload)
    ensures SigningInput(ctx, payload) == SigningInput(otherCtx, otherPayload) <==> ctx == otherCtx && payload == otherPayload
  {
    SigningInputIsDecodable(ctx, payload);
    SigningInputIsDecodable(otherCtx, otherPayload);
  }

  // ---------- signatures ----------

  /** A 32-byte key in hex, which may be weak, or text that is no key. */
  datatype PeerId = PeerKey(key: int, weak: bool) | NotAKey

  /** An Ed25519 signature is the term that made it, or bytes nobody signed. */
  datatype SignatureBytes = SignedWith(key: int, input: Bytes) | Unsigned | WrongLength

  datatype OrgSigned = OrgSigned(payload: Bytes, peerId: PeerId, sig: SignatureBytes)

  datatype EnvelopeError = BadPeerId | BadSignature

  datatype Verdict = Genuine | Rejected(error: EnvelopeError)

  function Sign(key: int, ctx: OrgContext, payload: Bytes): (env: OrgSigned) {
    OrgSigned(payload, PeerKey(key, false), SignedWith(key, SigningInput(ctx, payload)))
  }

  function Verify(env: OrgSigned, ctx: OrgContext): (v: Verdict) {
    if env.peerId.NotAKey? then Rejected(BadPeerId)
    else if env.sig.WrongLength? then Rejected(BadSignature)
    else if !env.peerId.weak && env.sig == SignedWith(env.peerId.key, SigningInput(ctx, env.payload)) then Genuine
    else Rejected(BadSignature)
  }

  /** An envelope is told off for its sender's id exactly if that is no key; any other
      that its sender did not sign for this context, or could not, for its signature. */
  lemma RejectedExactly(env: OrgSigned, ctx: OrgContext)
    ensures Verify(env, ctx) == Rejected(BadPeerId) <==> env.peerId == NotAKey
    ensures Verify(env, ctx) == Genuine <==>
      exists key :: env.peerId == PeerKey(key, false) && env.sig == Sign(key, ctx, env.payload).sig
  {
    if env.peerId.PeerKey? {
      assert Sign(env.peerId.key, ctx, env.payload).sig == SignedWith(env.peerId.key, SigningInput(ctx, env.payload));
    }
  }

  /** An envelope made for one context passes, whatever else about it was changed,
      exactly if the signer, the payload and the context are the ones signed. */
  lemma EnvelopeIsBoundToItsContext(key: int, ctx: OrgContext, payload: Bytes, env: OrgSigned, seen: OrgContext)
    requires InMemory(ctx, payload) && InMemory(seen, env.payload)
    requires env.sig == Sign(key, ctx, payload).sig
    ensures Verify(env, seen) == Genuine <==> env.peerId == PeerKey(key, false) && env.payload == payload && seen == ctx
  {
    SigningInputIsInjective(ctx, payload, seen, env.payload);
  }
}
