/*
 * The random stream of libballoon/bitstream.c.
 *
 * The stream hashes its seed bytes (SHA-256 in the source), turns the digest
 * into an AES-128-CTR key when finalized, and then produces keystream bytes
 * by encrypting a buffer of zeros.  As in the libbaghash stream, the
 * keystream is the Keystream parameter: ks(key, p) is the byte at position p.
 */
module Bitstream {
  import opened Bytes
  import opened Errors
  import opened Primitives
  import Encode

  /** BITSTREAM_BUF_SIZE: 32 AES blocks of 16 bytes are encrypted per call. */
  const BITSTREAM_BUF_SIZE: nat := 32 * 16

  class Bitstream {
    const ks: Keystream
    var initialized: bool
    /** Every byte accepted by SeedAdd so far. */
    var seed: seq<byte>
    /** The seed that SeedFinalize hashed into the AES key. */
    var key: seq<byte>
    /** Keystream bytes consumed since the key was set. */
    var pos: nat

    /** bitstream_init: not finalized, nothing hashed yet. */
    constructor (ks: Keystream)
      ensures this.ks == ks && !initialized && seed == [] && key == [] && pos == 0
    {
      this.ks := ks;
      initialized := false;
      seed := [];
      key := [];
      pos := 0;
    }

    /** bitstream_seed_add: refused once the stream is finalized, and then the seed is left alone. */
    method SeedAdd(bytes: seq<byte>) returns (err: ErrorCode)
      modifies this`seed
      ensures old(initialized) ==> err == ErrorBitstreamFinalized && seed == old(seed)
      ensures !old(initialized) ==> err == ErrorNone && seed == old(seed) + bytes
    {
      if initialized {
        return ErrorBitstreamFinalized;
      }
      seed := seed + bytes;
      err := ErrorNone;
    }

    /**
     * bitstream_seed_finalize: the key is the digest of the seed so far and
     * the counter starts again at zero.  A second finalize is not refused.
     * It runs SHA256_Final on a context the first call already finished, so
     * its key is not the digest of the seed.  The model leaves that key open.
     */
    method SeedFinalize() returns (err: ErrorCode)
      modifies this`initialized, this`key, this`pos
      ensures err == ErrorNone && initialized && pos == 0
      ensures !old(initialized) ==> key == seed
    {
      if initialized {
        key := *;
      } else {
        key := seed;
      }
      pos := 0;
      initialized := true;
      err := ErrorNone;
    }

    /** encrypt_partial: encrypt toEncrypt zero bytes into out at offset, i.e. write keystream there. */
    method EncryptPartial(out: array<byte>, offset: nat, toEncrypt: nat)
      requires offset + toEncrypt <= out.Length
      modifies this`pos, out
      ensures pos == old(pos) + toEncrypt
      ensures out[..offset] == old(out[..offset])
      ensures out[offset..offset + toEncrypt] == KeystreamBytes(ks, key, old(pos), toEncrypt)
      ensures out[offset + toEncrypt..] == old(out[offset + toEncrypt..])
    {
      var i := 0;
      while i < toEncrypt
        invariant 0 <= i <= toEncrypt && pos == old(pos)
        invariant forall j :: 0 <= j < offset ==> out[j] == old(out[j])
        invariant forall j :: offset <= j < offset + i ==> out[j] == ks(key, pos + (j - offset))
        invariant forall j :: offset + i <= j < out.Length ==> out[j] == old(out[j])
      {
        out[offset + i] := ks(key, pos + i);
        i := i + 1;
      }
      assert out[offset..offset + toEncrypt] == KeystreamBytes(ks, key, pos, toEncrypt);
      pos := pos + toEncrypt;
    }

    /**
     * bitstream_fill_buffer: outlen keystream bytes, written in chunks of at
     * most BITSTREAM_BUF_SIZE; the bytes do not depend on the chunking.
     */
    method FillBuffer(out: array<byte>, outlen: nat) returns (err: ErrorCode)
      requires outlen <= out.Length
      modifies this`pos, out
      ensures !initialized ==> err == ErrorBitstreamUninitialized && pos == old(pos) && out[..] == old(out[..])
      ensures initialized ==> (err == ErrorNone && pos == old(pos) + outlen
        && out[..outlen] == KeystreamBytes(ks, key, old(pos), outlen)
        && out[outlen..] == old(out[outlen..]))
    {
      if !initialized {
        return ErrorBitstreamUninitialized;
      }
      var total := 0;
      while total < outlen
        invariant total <= outlen && pos == old(pos) + total
        invariant out[..total] == KeystreamBytes(ks, key, old(pos), total)
        invariant out[total..] == old(out[total..])
        decreases outlen - total
      {
        var toEncrypt := if outlen - total < BITSTREAM_BUF_SIZE then outlen - total else BITSTREAM_BUF_SIZE;
        ghost var done := out[..total];
        EncryptPartial(out, total, toEncrypt);
        KeystreamSplit(ks, key, old(pos), total, toEncrypt);
        assert out[..total + toEncrypt] == done + out[total..total + toEncrypt];
        assert out[total + toEncrypt..] == old(out[total..])[toEncrypt..];
        total := total + toEncrypt;
      }
      err := ErrorNone;
    }

    /** bitstream_rand_uint64: the next eight keystream bytes read little-endian. */
    method RandUint64() returns (err: ErrorCode, out: nat)
      modifies this`pos
      ensures !initialized ==> err == ErrorBitstreamUninitialized && pos == old(pos)
      ensures initialized ==> (err == ErrorNone && pos == old(pos) + 8
        && out == Encode.LittleEndian(KeystreamBytes(ks, key, old(pos), 8)))
      ensures out <= UINT64_MAX
    {
      var buf := new byte[8];
      err := FillBuffer(buf, 8);
      if err != ErrorNone {
        return err, 0;
      }
      out := Encode.BytesToLittleendUint64(buf[..], 8);
    }
  }
}
