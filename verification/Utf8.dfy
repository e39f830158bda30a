/** The UTF-8 form of a string (section 3 of RFC 3629), in whose bytes Rust counts
    and compares strings. */
module Utf8 {
  import opened Primitives
  import opened Order

  /** The encoding of one scalar value. */
  function Encoding(c: char): (bytes: Bytes)
    ensures 1 <= |bytes| <= 4
  {
    var n := c as int;
    if n < 0x80 then [n as byte]
    else if n < 0x800 then [(0xC0 + n / 0x40) as byte, Trailing(n)]
    else if n < 0x1_0000 then [(0xE0 + n / 0x1000) as byte, Trailing(n / 0x40), Trailing(n)]
    else [(0xF0 + n / 0x4_0000) as byte, Trailing(n / 0x1000), Trailing(n / 0x40), Trailing(n)]
  }

  /** A byte that continues a scalar value: its six low bits. */
  function Trailing(n: nat): (b: byte)
    ensures 0x80 <= b as int < 0xC0
  {
    (0x80 + n % 0x40) as byte
  }

  function Utf8Bytes(s: string): (bytes: Bytes) {
    if s == [] then [] else Encoding(s[0]) + Utf8Bytes(s[1..])
  }

  // ---------- it can be read back ----------

  /** The scalar value that the bytes begin with, and how many bytes it takes. */
  function Leading(bytes: Bytes): (r: (int, nat))
    requires |bytes| >= 4
  {
    var a, b, c, d := bytes[0] as int, bytes[1] as int - 0x80, bytes[2] as int - 0x80, bytes[3] as int - 0x80;
    if a < 0x80 then (a, 1)
    else if a < 0xE0 then ((a - 0xC0) * 0x40 + b, 2)
    else if a < 0xF0 then ((a - 0xE0) * 0x1000 + b * 0x40 + c, 3)
    else ((a - 0xF0) * 0x4_0000 + b * 0x1000 + c * 0x40 + d, 4)
  }

  /** Whatever follows, a scalar value is read back from its encoding. */
  lemma ScalarIsReadBack(c: char, rest: Bytes)
    requires |rest| >= 3
    ensures Leading(Encoding(c) + rest) == (c as int, |Encoding(c)|)
  {
    var n := c as int;
    assert n == n / 0x40 * 0x40 + n % 0x40;
    assert n / 0x40 == n / 0x1000 * 0x40 + n / 0x40 % 0x40;
    assert n / 0x1000 == n / 0x4_0000 * 0x40 + n / 0x1000 % 0x40;
  }

  // ---------- it keeps the order ----------

  /** The order of Rust strings: byte by byte, a prefix first. */
  predicate BytesBelow(a: Bytes, b: Bytes) {
    b != [] && (a == [] || a[0] < b[0] || (a[0] == b[0] && BytesBelow(a[1..], b[1..])))
  }

  lemma {:induction false} SamePrefix(p: Bytes, a: Bytes, b: Bytes)
    ensures BytesBelow(p + a, p + b) <==> BytesBelow(a, b)
  {
    if p == [] {
      assert p + a == a && p + b == b;
    } else {
      assert (p + a)[1..] == p[1..] + a && (p + b)[1..] == p[1..] + b;
      SamePrefix(p[1..], a, b);
    }
  }

  /** The first difference decides. */
  lemma {:induction false} DecidedAt(a: Bytes, b: Bytes, k: nat)
    requires k < |a| && k < |b| && a[..k] == b[..k] && a[k] < b[k]
    ensures BytesBelow(a, b) && !BytesBelow(b, a)
  {
    if k > 0 {
      assert a[0] == a[..k][0] && b[0] == b[..k][0];
      assert a[1..][..k - 1] == a[..k][1..] && b[1..][..k - 1] == b[..k][1..];
      DecidedAt(a[1..], b[1..], k - 1);
    }
  }

  /** The low six bits decide only if the bits above them agree. */
  lemma SixBits(m: nat, n: nat)
    requires m < n
    ensures m / 0x40 < n / 0x40 || (m / 0x40 == n / 0x40 && Trailing(m) < Trailing(n))
  {
    assert m == m / 0x40 * 0x40 + m % 0x40 && n == n / 0x40 * 0x40 + n % 0x40;
  }

  lemma LongerIsGreater(c: char, d: char)
    requires c < d && |Encoding(c)| != |Encoding(d)|
    ensures Encoding(c)[0] < Encoding(d)[0]
  {
  }

  /** The place of the first difference: where the numbers, cut to that many
      groups of six bits, first differ. */
  function FirstDifference(c: char, d: char): (k: nat)
    requires c < d
    ensures k < |Encoding(c)|
  {
    var m, n, size := c as int, d as int, |Encoding(c)|;
    if size != |Encoding(d)| || size == 1 then 0
    else if size == 2 then if m / 0x40 < n / 0x40 then 0 else 1
    else if size == 3 then
      if m / 0x1000 < n / 0x1000 then 0 else if m / 0x40 < n / 0x40 then 1 else 2
    else if m / 0x4_0000 < n / 0x4_0000 then 0
    else if m / 0x1000 < n / 0x1000 then 1
    else if m / 0x40 < n / 0x40 then 2 else 3
  }

  lemma Groups(n: nat)
    ensures n / 0x40 / 0x40 == n / 0x1000 && n / 0x1000 / 0x40 == n / 0x4_0000
  {
  }

  /** There the smaller scalar value has the smaller byte. */
  lemma EncodingsDiffer(c: char, d: char)
    requires c < d
    ensures var k := FirstDifference(c, d);
      && k < |Encoding(d)|
      && Encoding(c)[..k] == Encoding(d)[..k] && Encoding(c)[k] < Encoding(d)[k]
  {
    var m, n := c as int, d as int;
    if |Encoding(c)| != |Encoding(d)| {
      LongerIsGreater(c, d);
    } else {
      Groups(m);
      Groups(n);
      SixBits(m, n);
      if m / 0x40 < n / 0x40 {
        SixBits(m / 0x40, n / 0x40);
        if m / 0x1000 < n / 0x1000 {
          SixBits(m / 0x1000, n / 0x1000);
        }
      }
    }
  }

  lemma ScalarDecides(c: char, d: char, x: Bytes, y: Bytes)
    requires c < d
    ensures BytesBelow(Encoding(c) + x, Encoding(d) + y) && !BytesBelow(Encoding(d) + y, Encoding(c) + x)
  {
    var k := FirstDifference(c, d);
    EncodingsDiffer(c, d);
    var a, b := Encoding(c) + x, Encoding(d) + y;
    assert a[..k] == Encoding(c)[..k] && b[..k] == Encoding(d)[..k];
    DecidedAt(a, b, k);
  }

  /** Comparing scalar values is comparing UTF-8 bytes. */
  lemma {:induction false} OrderOfBytes(a: string, b: string)
    ensures Below(a, b) <==> BytesBelow(Utf8Bytes(a), Utf8Bytes(b))
  {
    if a != [] && b != [] {
      if a[0] == b[0] {
        OrderOfBytes(a[1..], b[1..]);
        SamePrefix(Encoding(a[0]), Utf8Bytes(a[1..]), Utf8Bytes(b[1..]));
      } else if a[0] < b[0] {
        ScalarDecides(a[0], b[0], Utf8Bytes(a[1..]), Utf8Bytes(b[1..]));
      } else {
        ScalarDecides(b[0], a[0], Utf8Bytes(b[1..]), Utf8Bytes(a[1..]));
      }
    }
  }
}
