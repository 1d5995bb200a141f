/*
 * Little-endian integer codecs of libballoon/encode.c.
 *
 * Integers are unbounded here; the 64- and 32-bit widths of the C types
 * appear as bounds on the values and as an explicit reduction modulo 2^32.
 */
module Encode {
  import opened Bytes

  /** The value of a byte string read little-endian (bytes[0] least significant). */
  function LittleEndian(bytes: seq<byte>): (v: nat)
    ensures v < Pow256(|bytes|)
  {
    if |bytes| == 0 then 0 else bytes[0] as nat + 256 * LittleEndian(bytes[1..])
  }

  /** The low n bytes of value, least significant first. */
  function LittleEndianBytes(value: nat, n: nat): (r: seq<byte>)
    ensures |r| == n
  {
    if n == 0 then [] else [(value % 256) as byte] + LittleEndianBytes(value / 256, n - 1)
  }

  lemma ModSplit(v: nat, m: nat)
    requires m >= 1
    ensures v % (256 * m) == v % 256 + 256 * ((v / 256) % m)
  {
    var q, r := v / 256, v % 256;
    var s := 256 * (q % m) + r;
    assert v == 256 * m * (q / m) + s by {
      assert q == m * (q / m) + q % m;
      assert v == 256 * q + r;
    }
    assert 0 <= s < 256 * m;
    DivModUnique(v, 256 * m, q / m, s);
  }

  /** One more than a byte below 255, as a number. */
  lemma ByteSucc(b: byte)
    requires b as nat < 255
    ensures (b + 1) as nat == b as nat + 1
  {
  }

  /** The byte worth x, built by counting up from zero. */
  ghost function ByteOf(x: nat): (b: byte)
    requires x < 256
    ensures b as nat == x
  {
    if x == 0 then 0
    else
      var p := ByteOf(x - 1);
      ByteSucc(p);
      p + 1
  }

  /** A number below 256 survives the conversion to a byte and back. */
  lemma ByteValue(x: nat)
    requires x < 256
    ensures (x as byte) as nat == x
  {
    var b := ByteOf(x);
    assert x as byte == b;
  }

  /** Encoding n bytes and decoding them gives back value modulo 256^n. */
  lemma {:induction false} DecodeEncode(value: nat, n: nat)
    ensures LittleEndian(LittleEndianBytes(value, n)) == value % Pow256(n)
  {
    if n > 0 {
      var r := LittleEndianBytes(value, n);
      assert r[1..] == LittleEndianBytes(value / 256, n - 1);
      DecodeEncode(value / 256, n - 1);
      var m := Pow256(n - 1);
      ModSplit(value, m);
      ByteValue(value % 256);
      calc {
        LittleEndian(r);
        r[0] as nat + 256 * LittleEndian(r[1..]);
        value % 256 + 256 * ((value / 256) % m);
        value % (256 * m);
      }
    }
  }

  /** Decoding a byte string and encoding it again at its own length gives it back. */
  lemma {:induction false} EncodeDecode(bytes: seq<byte>)
    ensures LittleEndianBytes(LittleEndian(bytes), |bytes|) == bytes
  {
    if |bytes| > 0 {
      var v := LittleEndian(bytes);
      var rest := LittleEndian(bytes[1..]);
      assert v == bytes[0] as nat + 256 * rest;
      assert v % 256 == bytes[0] as nat && v / 256 == rest by {
        DivModUnique(v, 256, rest, bytes[0] as nat);
      }
      EncodeDecode(bytes[1..]);
    }
  }

  /** Bytes past the k-th of the encoding of a value below 256^k are zero. */
  lemma {:induction false} EncodeHighBytesZero(value: nat, k: nat, n: nat, i: nat)
    requires value < Pow256(k) && k <= i < n
    ensures LittleEndianBytes(value, n)[i] == 0
  {
    if k == 0 {
      ZeroEncodesToZeros(n, i);
    } else {
      assert LittleEndianBytes(value, n)[i] == LittleEndianBytes(value / 256, n - 1)[i - 1];
      EncodeHighBytesZero(value / 256, k - 1, n - 1, i - 1);
    }
  }

  lemma {:induction false} ZeroEncodesToZeros(n: nat, i: nat)
    requires i < n
    ensures LittleEndianBytes(0, n)[i] == 0
  {
    if i > 0 {
      ZeroEncodesToZeros(n - 1, i - 1);
    }
  }

  /** bytes_to_littleend_uint64: at most the first eight bytes, read little-endian. */
  method BytesToLittleendUint64(bytes: seq<byte>, nBytes: nat) returns (out: nat)
    requires (if nBytes > 8 then 8 else nBytes) <= |bytes|
    ensures out == LittleEndian(bytes[..if nBytes > 8 then 8 else nBytes])
    ensures out <= UINT64_MAX
  {
    var n := if nBytes > 8 then 8 else nBytes;
    out := 0;
    var i: int := n - 1;
    while i >= 0
      invariant -1 <= i < n
      invariant out == LittleEndian(bytes[i + 1..n])
    {
      // out < 256^(n-1-i) <= 256^7, so the 64-bit shift loses nothing and the
      // OR fills the cleared low byte: shift-then-OR is out * 256 + byte
      assert bytes[i..n][1..] == bytes[i + 1..n];
      out := out * 256 + bytes[i] as nat;
      i := i - 1;
    }
    assert bytes[0..n] == bytes[..n];
    Pow256Monotone(n, 8);
    Pow256Eight();
  }

  /** bytes_to_littleend_uint32: the 64-bit decoding truncated to 32 bits. */
  method BytesToLittleendUint32(bytes: seq<byte>, nBytes: nat) returns (out: nat)
    requires (if nBytes > 8 then 8 else nBytes) <= |bytes|
    ensures out == LittleEndian(bytes[..if nBytes > 8 then 8 else nBytes]) % (UINT32_MAX + 1)
    ensures out <= UINT32_MAX
  {
    var outBig := BytesToLittleendUint64(bytes, nBytes);
    out := outBig % (UINT32_MAX + 1);
  }

  /**
   * The loop both encoders share: byte i takes the low eight bits of the
   * value, which is then shifted right by eight.
   */
  method WriteLittleEndian(bytes: array<byte>, nBytes: nat, value: nat)
    requires nBytes <= bytes.Length
    modifies bytes
    ensures bytes[..nBytes] == LittleEndianBytes(value, nBytes)
    ensures bytes[nBytes..] == old(bytes[nBytes..])
  {
    ghost var enc := LittleEndianBytes(value, nBytes);
    var v: nat := value;
    var i := 0;
    while i < nBytes
      invariant i <= nBytes
      invariant LittleEndianBytes(v, nBytes - i) == enc[i..]
      invariant forall k :: 0 <= k < i ==> bytes[k] == enc[k]
      invariant forall k :: nBytes <= k < bytes.Length ==> bytes[k] == old(bytes[k])
    {
      ghost var rest := LittleEndianBytes(v, nBytes - i);
      assert rest[0] == (v % 256) as byte && rest[1..] == LittleEndianBytes(v / 256, nBytes - i - 1);
      assert enc[i + 1..] == enc[i..][1..];
      bytes[i] := (v % 256) as byte;
      v := v / 256;
      i := i + 1;
    }
  }

  /** uint64_to_littleend_bytes: the low nBytes bytes of value, least significant first. */
  method Uint64ToLittleendBytes(bytes: array<byte>, nBytes: nat, value: nat)
    requires nBytes <= bytes.Length && value <= UINT64_MAX
    modifies bytes
    ensures bytes[..nBytes] == LittleEndianBytes(value, nBytes)
    ensures bytes[nBytes..] == old(bytes[nBytes..])
  {
    WriteLittleEndian(bytes, nBytes, value);
  }

  /** uint32_to_littleend_bytes: the low nBytes bytes of a 32-bit value. */
  method Uint32ToLittleendBytes(bytes: array<byte>, nBytes: nat, value: nat)
    requires nBytes <= bytes.Length && value <= UINT32_MAX
    modifies bytes
    ensures bytes[..nBytes] == LittleEndianBytes(value, nBytes)
    ensures bytes[nBytes..] == old(bytes[nBytes..])
  {
    WriteLittleEndian(bytes, nBytes, value);
  }
}
