/** Machine widths, and the ideal forms of the libraries the core calls.

    Cryptography is symbolic: a digest or a ciphertext is the term that built
    it, so hashing and sealing are injective and nothing opens without the key
    it was sealed under. A text encoding is either the encoding of a value or
    text that does not decode.
 */
module Primitives {
  import opened Wrappers

  const U32_LIMIT: nat := 0x1_0000_0000
  const U64_LIMIT: nat := 0x1_0000_0000_0000_0000

  type u32 = n: int | 0 <= n < 0x1_0000_0000
  type u64 = n: int | 0 <= n < 0x1_0000_0000_0000_0000

  newtype byte = b: int | 0 <= b < 256
  type Bytes = seq<byte>

  type Key = int
  type NoncePrefix = int

  /** A SHA-256 digest in hex, or text that is no digest of anything. */
  datatype Digest = Sha256(preimage: Bytes) | NoDigest(text: string)

  /** An AES-GCM ciphertext for one chunk, or bytes nobody sealed. */
  datatype Ciphertext =
    | Sealed(key: Key, prefix: NoncePrefix, index: nat, body: Bytes)
    | Unsealed(bytes: Bytes)

  /** Base64 or JSON text: what it decodes to, if it decodes. */
  datatype Text<+T> = Encoded(value: T) | Garbled

  /** What became of a write to the store. A refused write may have reached the
      disk all the same. */
  datatype WriteOutcome = Saved | Refused | RefusedButSaved

  function Decode<T>(text: Text<T>): (r: Option<T>) {
    match text
    case Encoded(value) => Some(value)
    case Garbled => None
  }

  /** Authenticated decryption: the nonce holds the prefix and the chunk index. */
  function OpenChunk(key: Key, prefix: NoncePrefix, index: nat, sealed: Ciphertext): (r: Option<Bytes>) {
    match sealed
    case Sealed(k, p, i, body) => if k == key && p == prefix && i == index then Some(body) else None
    case Unsealed(_) => None
  }

  function Min(a: int, b: int): (r: int) {
    if a <= b then a else b
  }

  function Max(a: int, b: int): (r: int) {
    if a <= b then b else a
  }

  /** The last n elements of s, or all of it. */
  function LastN<T>(s: seq<T>, n: nat): (r: seq<T>) {
    if |s| <= n then s else s[|s| - n..]
  }
}
