/** Bytes, UTF-8 encoding and lowercase hex, the concrete parts around an abstract SHA-256.
    The hash itself is a parameter `sha: seq<Byte> -> Digest` wherever it is used. */
module Digest {

  type Byte = b: int | 0 <= b < 256

  /** A SHA-256 result: exactly 32 bytes. */
  type Digest = d: seq<Byte> | |d| == 32 witness seq(32, _ => 0)

  // ---------------------------------------------------------------------------
  // UTF-8 (`str::as_bytes`)
  // ---------------------------------------------------------------------------

  /** The UTF-8 encoding of one Unicode scalar value. */
  function Utf8Char(c: char): (r: seq<Byte>)
    ensures 1 <= |r| <= 4
    ensures |r| == 1 <==> c as int < 0x80
    ensures |r| == 1 ==> r[0] == c as int
  {
    var n := c as int;
    if n < 0x80 then [n]
    else if n < 0x800 then [0xC0 + n / 0x40, 0x80 + n % 0x40]
    else if n < 0x10000 then [0xE0 + n / 0x1000, 0x80 + (n / 0x40) % 0x40, 0x80 + n % 0x40]
    else [0xF0 + n / 0x40000, 0x80 + (n / 0x1000) % 0x40, 0x80 + (n / 0x40) % 0x40, 0x80 + n % 0x40]
  }

  /** The UTF-8 encoding of a text. */
  function Utf8(s: string): (r: seq<Byte>)
    ensures |s| <= |r| <= 4 * |s|
  {
    if |s| == 0 then [] else Utf8Char(s[0]) + Utf8(s[1..])
  }

  lemma {:induction false} Utf8Append(a: string, b: string)
    ensures Utf8(a + b) == Utf8(a) + Utf8(b)
  {
    if |a| > 0 {
      assert (a + b)[0] == a[0];
      assert (a + b)[1..] == a[1..] + b;
      Utf8Append(a[1..], b);
    } else {
      assert a + b == b;
    }
  }

  /** An ASCII text encodes to its own code points, one byte each. */
  lemma {:induction false} Utf8Ascii(s: string)
    requires forall i :: 0 <= i < |s| ==> s[i] as int < 0x80
    ensures |Utf8(s)| == |s|
    ensures forall i :: 0 <= i < |s| ==> Utf8(s)[i] == s[i] as int
  {
    if |s| > 0 {
      Utf8Ascii(s[1..]);
    }
  }

  // ---------------------------------------------------------------------------
  // Lowercase hex (`format!("{:02x}", b)` per byte)
  // ---------------------------------------------------------------------------

  predicate IsLowerHex(c: char) {
    '0' <= c <= '9' || 'a' <= c <= 'f'
  }

  function HexDigit(n: nat): (c: char)
    requires n < 16
    ensures IsLowerHex(c)
  {
    if n < 10 then ('0' as int + n) as char else ('a' as int + n - 10) as char
  }

  /** The value of a lowercase hex digit; undoes `HexDigit`. */
  function HexValue(c: char): (n: nat)
    requires IsLowerHex(c)
    ensures n < 16 && HexDigit(n) == c
  {
    if c <= '9' then c as int - '0' as int else c as int - 'a' as int + 10
  }

  lemma HexValueDigit(n: nat)
    requires n < 16
    ensures HexValue(HexDigit(n)) == n
  {
  }

  /** `{:02x}`: two lowercase hex digits, high nibble first. */
  function ByteHex(b: Byte): (r: string)
    ensures |r| == 2 && IsLowerHex(r[0]) && IsLowerHex(r[1])
    ensures HexValue(r[0]) * 16 + HexValue(r[1]) == b
  {
    HexValueDigit(b / 16);
    HexValueDigit(b % 16);
    [HexDigit(b / 16), HexDigit(b % 16)]
  }

  /** The concatenated `{:02x}` of every byte. */
  function Hex(d: seq<Byte>): (r: string)
    ensures |r| == 2 * |d|
    ensures forall i :: 0 <= i < |r| ==> IsLowerHex(r[i])
  {
    if |d| == 0 then "" else ByteHex(d[0]) + Hex(d[1..])
  }

  /** Reads bytes back from pairs of lowercase hex digits. */
  function Unhex(s: string): (r: seq<Byte>)
    requires |s| % 2 == 0
    requires forall i :: 0 <= i < |s| ==> IsLowerHex(s[i])
    ensures |r| == |s| / 2
  {
    if |s| == 0 then [] else [HexValue(s[0]) * 16 + HexValue(s[1])] + Unhex(s[2..])
  }

  /** Hex encoding loses nothing: the bytes can be read back. */
  lemma {:induction false} UnhexHex(d: seq<Byte>)
    ensures Unhex(Hex(d)) == d
  {
    if |d| > 0 {
      var h := Hex(d);
      assert h == ByteHex(d[0]) + Hex(d[1..]);
      assert h[2..] == Hex(d[1..]);
      UnhexHex(d[1..]);
    }
  }

  /** The hex text of a byte sequence starts with the hex text of any prefix of it. */
  lemma {:induction false} HexPrefix(d: seq<Byte>, k: nat)
    requires k <= |d|
    ensures Hex(d)[..2 * k] == Hex(d[..k])
  {
    if k > 0 {
      HexPrefix(d[1..], k - 1);
      assert d[..k][1..] == d[1..][..k - 1];
      assert Hex(d[..k]) == ByteHex(d[0]) + Hex(d[1..][..k - 1]);
    }
  }

  /** The first eight hex characters of a digest: `hex[..8]`. */
  function Hex8(d: Digest): (r: string)
    ensures |r| == 8
    ensures forall i :: 0 <= i < 8 ==> IsLowerHex(r[i])
  {
    Hex(d)[..8]
  }

  /** The eight characters are the hex of the digest's first four bytes. */
  lemma Hex8FirstBytes(d: Digest)
    ensures Hex8(d) == ByteHex(d[0]) + ByteHex(d[1]) + ByteHex(d[2]) + ByteHex(d[3])
    ensures Unhex(Hex8(d)) == d[..4]
  {
    HexPrefix(d, 4);
    UnhexHex(d[..4]);
    var p := d[..4];
    assert Hex(p) == ByteHex(p[0]) + Hex(p[1..]);
    assert Hex(p[1..]) == ByteHex(p[1]) + Hex(p[2..]);
    assert Hex(p[2..]) == ByteHex(p[2]) + Hex(p[3..]);
    assert Hex(p[3..]) == ByteHex(p[3]) + Hex(p[4..]);
  }
}
