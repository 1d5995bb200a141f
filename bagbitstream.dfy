/*
 * The random stream of libbaghash/bitstream.c.
 *
 * A stream collects seed bytes (SHA-256 in the source), is finalized into an
 * AES-128-CTR key, and then hands out keystream bytes.  The keystream is the
 * Keystream parameter: ks(key, p) is the byte at position p.  The struct's
 * OpenSSL contexts become three fields: the seed bytes added so far, the
 * seed that was hashed into the key, and the keystream position.
 */
module BagBitstream {
  import opened Bytes
  import opened Errors
  import opened Primitives

  /**
   * The source retries rejection sampling without bound; the model gives up
   * after this many attempts with ErrorDrawLimit.
   */
  const ATTEMPT_LIMIT: nat := 0x1_0000_0000

  /** Largest size_t. */
  const SIZE_MAX: nat := UINT64_MAX

  /** AES_CTR_KEY_LEN: the key length in bits that seed_finalize asks OpenSSL for. */
  const AES_CTR_KEY_LEN: nat := 256

  /**
   * What OpenSSL's AES_set_encrypt_key returns for two non-null pointers,
   * as OpenSSL documents it: 0 for a 128-, 192- or 256-bit key, -2 for any
   * other length.
   */
  function AesSetEncryptKey(bits: nat): int
  {
    if bits == 128 || bits == 192 || bits == 256 then 0 else -2
  }

  /** The number of bits in v: 0 for 0, otherwise the position of its top bit plus one. */
  function BitLength(v: nat): nat
  {
    if v == 0 then 0 else 1 + BitLength(v / 2)
  }

  /** BitLength is the bit length: 2^(b-1) <= v < 2^b. */
  lemma {:induction false} BitLengthBounds(v: nat)
    ensures v < Pow2(BitLength(v))
    ensures v > 0 ==> BitLength(v) >= 1 && Pow2(BitLength(v) - 1) <= v
  {
    if v > 0 {
      BitLengthBounds(v / 2);
    }
  }

  /** The least k < 8 with v < 256^k, and 8 when there is none. */
  function BytesNeeded(v: nat): nat
  {
    BytesNeededFrom(v, 0)
  }

  function BytesNeededFrom(v: nat, k: nat): (r: nat)
    requires k <= 8
    ensures k <= r <= 8
    ensures r < 8 ==> v < Pow256(r)
    decreases 8 - k
  {
    if k >= 8 || v < Pow256(k) then k else BytesNeededFrom(v, k + 1)
  }

  /** BytesNeededFrom stops at the first k that is enough: every smaller count from k on is too few bytes. */
  lemma {:induction false} BytesNeededLeast(v: nat, k: nat)
    requires k <= 8
    ensures forall j :: k <= j < BytesNeededFrom(v, k) ==> Pow256(j) <= v
    decreases 8 - k
  {
    if k < 8 && v >= Pow256(k) {
      BytesNeededLeast(v, k + 1);
    }
  }

  /**
   * A value below 2^64 fits in BytesNeeded(v) bytes, and its bit length
   * fits in that many bytes' bits: the masked draw of rand_int ranges over
   * [0, 2^BitLength(max)), which contains [0, max] and is no wider than the
   * bytes drawn.
   */
  lemma MaskCoversBound(max: nat)
    requires max <= SIZE_MAX
    ensures max < Pow2(BitLength(max))
    ensures Pow2(BitLength(max)) <= Pow256(BytesNeeded(max))
  {
    BitLengthBounds(max);
    var n := BytesNeeded(max);
    BytesNeededCovers(max);
    Pow256IsPow2(n);
    BitLengthAtMost(max, 8 * n);
    Pow2Monotone(BitLength(max), 8 * n);
  }

  /** Every value up to SIZE_MAX is below 256^BytesNeeded. */
  lemma BytesNeededCovers(max: nat)
    requires max <= SIZE_MAX
    ensures max < Pow256(BytesNeeded(max))
  {
    if BytesNeeded(max) == 8 {
      Pow256Eight();
    }
  }

  /** A value below 2^m has at most m bits. */
  lemma BitLengthAtMost(v: nat, m: nat)
    requires v < Pow2(m)
    ensures BitLength(v) <= m
  {
    BitLengthBounds(v);
    if v > 0 {
      Pow2Below(BitLength(v) - 1, m);
    }
  }

  /** 2^a < 2^b only when a < b. */
  lemma Pow2Below(a: nat, b: nat)
    requires Pow2(a) < Pow2(b)
    ensures a < b
  {
    if b <= a {
      Pow2Monotone(b, a);
    }
  }

  /** The value of a byte string read big-endian (bytes[0] most significant). */
  function BigEndian(bytes: seq<byte>): (v: nat)
    ensures v < Pow256(|bytes|)
  {
    if |bytes| == 0 then 0
    else 256 * BigEndian(bytes[..|bytes| - 1]) + bytes[|bytes| - 1] as nat
  }

  /** One rand_int attempt: nBytes keystream bytes read big-endian, reduced modulo 2^bits. */
  function Attempt(ks: Keystream, key: seq<byte>, pos: nat, nBytes: nat, bits: nat): (v: nat)
    ensures v < Pow2(bits)
  {
    StreamValue(ks, key, pos, nBytes) % Pow2(bits)
  }

  /** The value of the n keystream bytes from pos, read big-endian. */
  function StreamValue(ks: Keystream, key: seq<byte>, pos: nat, n: nat): nat
  {
    if n == 0 then 0 else 256 * StreamValue(ks, key, pos, n - 1) + ks(key, pos + n - 1) as nat
  }

  /** StreamValue is BigEndian of the bytes drawn. */
  lemma {:induction false} StreamValueIsBigEndian(ks: Keystream, key: seq<byte>, pos: nat, n: nat)
    ensures BigEndian(KeystreamBytes(ks, key, pos, n)) == StreamValue(ks, key, pos, n)
  {
    if n > 0 {
      StreamValueIsBigEndian(ks, key, pos, n - 1);
      assert KeystreamBytes(ks, key, pos, n)[..n - 1] == KeystreamBytes(ks, key, pos, n - 1);
    }
  }

  datatype Draw = Drawn(value: nat, next: nat) | GaveUp(next: nat)

  /**
   * rand_int's rejection loop from keystream position pos, with its byte
   * count and bit count already computed: attempts are made at consecutive
   * stretches of the keystream until one is below max.
   */
  function DrawLoop(ks: Keystream, key: seq<byte>, pos: nat, max: nat, nBytes: nat, bits: nat, attempts: nat): Draw
    decreases attempts
  {
    if attempts == 0 then GaveUp(pos)
    else
      var v := Attempt(ks, key, pos, nBytes, bits);
      if v < max then Drawn(v, pos + nBytes)
      else DrawLoop(ks, key, pos + nBytes, max, nBytes, bits, attempts - 1)
  }

  /** rand_int(max): the rejection loop with bytes_required(max) bytes and bits_in_int(max) bits per attempt. */
  function DrawBelow(ks: Keystream, key: seq<byte>, pos: nat, max: nat, attempts: nat): Draw
  {
    DrawLoop(ks, key, pos, max, BytesNeeded(max), BitLength(max), attempts)
  }

  /** An attempt below the bound ends the rejection loop with its value. */
  lemma DrawLoopAccept(ks: Keystream, key: seq<byte>, pos: nat, max: nat, nBytes: nat, bits: nat, attempts: nat, v: nat)
    requires attempts > 0 && v == Attempt(ks, key, pos, nBytes, bits) && v < max
    ensures DrawLoop(ks, key, pos, max, nBytes, bits, attempts) == Drawn(v, pos + nBytes)
  {
  }

  /** An attempt at or above the bound moves the rejection loop past its bytes. */
  lemma DrawLoopReject(ks: Keystream, key: seq<byte>, pos: nat, max: nat, nBytes: nat, bits: nat, attempts: nat, v: nat)
    requires attempts > 0 && v == Attempt(ks, key, pos, nBytes, bits) && v >= max
    ensures DrawLoop(ks, key, pos, max, nBytes, bits, attempts) == DrawLoop(ks, key, pos + nBytes, max, nBytes, bits, attempts - 1)
  {
  }

  /** An accepted draw is below the bound, is an attempt's value, and consumed whole attempts. */
  lemma {:induction false} DrawnBelowMax(ks: Keystream, key: seq<byte>, pos: nat, max: nat, nBytes: nat, bits: nat, attempts: nat)
    requires DrawLoop(ks, key, pos, max, nBytes, bits, attempts).Drawn?
    ensures DrawLoop(ks, key, pos, max, nBytes, bits, attempts).value < max
    ensures pos < DrawLoop(ks, key, pos, max, nBytes, bits, attempts).next || nBytes == 0
    decreases attempts
  {
    if Attempt(ks, key, pos, nBytes, bits) >= max {
      DrawnBelowMax(ks, key, pos + nBytes, max, nBytes, bits, attempts - 1);
    }
  }

  /** With max = 0 every attempt is 0 >= max: the loop never accepts (the source spins forever). */
  lemma {:induction false} ZeroBoundNeverAccepts(ks: Keystream, key: seq<byte>, pos: nat, nBytes: nat, bits: nat, attempts: nat)
    ensures DrawLoop(ks, key, pos, 0, nBytes, bits, attempts).GaveUp?
    decreases attempts
  {
    if attempts > 0 {
      ZeroBoundNeverAccepts(ks, key, pos + nBytes, nBytes, bits, attempts - 1);
    }
  }

  /** Bytes XORed one by one with the keystream are the XOR of the prefix with the keystream bytes. */
  lemma XorStreamDone(prior: seq<byte>, cur: seq<byte>, ks: Keystream, key: seq<byte>, pos: nat, n: nat)
    requires n <= |prior| == |cur|
    requires forall j :: 0 <= j < n ==> cur[j] == prior[j] ^ ks(key, pos + j)
    ensures cur[..n] == Xor(prior[..n], KeystreamBytes(ks, key, pos, n))
  {
    var stream := KeystreamBytes(ks, key, pos, n);
    assert forall j :: 0 <= j < n ==> cur[..n][j] == prior[..n][j] ^ stream[j];
    XorPointwise(prior[..n], stream, cur[..n]);
  }

  /** What a caller of rand_int sees for a given run of the rejection loop. */
  ghost predicate Outcome(d: Draw, err: ErrorCode, r: nat, pos: nat) {
    match d
    case Drawn(v, next) => err == ErrorNone && r == v && pos == next
    case GaveUp(next) => err == ErrorDrawLimit && pos == next
  }

  ghost predicate NoDuplicates(s: seq<nat>) {
    forall i, j :: 0 <= i < j < |s| ==> s[i] != s[j]
  }

  /**
   * bits_in_int: shift right until zero, counting the shifts.
   */
  method BitsInInt(val: nat) returns (ret: nat)
    ensures ret == BitLength(val)
    ensures val < Pow2(ret) && (val > 0 ==> Pow2(ret - 1) <= val)
  {
    ret := 0;
    var v := val;
    while v != 0
      invariant ret + BitLength(v) == BitLength(val)
    {
      v := v / 2;
      ret := ret + 1;
    }
    BitLengthBounds(val);
  }

  /**
   * bytes_required: the least k below 8 with val < 256^k, else 8.  The
   * source's test for val = 1 expects 0; the code returns 1.
   */
  method BytesRequired(val: nat) returns (k: nat)
    ensures k <= 8
    ensures k < 8 ==> val < Pow256(k)
    ensures forall j :: 0 <= j < k ==> Pow256(j) <= val
    ensures k == BytesNeeded(val)
  {
    k := 0;
    while k < 8
      invariant k <= 8
      invariant forall j :: 0 <= j < k ==> Pow256(j) <= val
      invariant BytesNeededFrom(val, k) == BytesNeeded(val)
    {
      // the source writes 256^k as the int shift 1 << (8 * k)
      if val < Pow256(k) {
        break;
      }
      k := k + 1;
    }
  }

  /**
   * bytes_to_int: the first n bytes read big-endian.  Its one caller passes
   * n = bytes_required(max) <= 8, so the 64-bit shift never drops bits.
   */
  method BytesToInt(bytes: seq<byte>, n: nat) returns (out: nat)
    requires n <= |bytes| && n <= 8
    ensures out == BigEndian(bytes[..n])
    ensures out < Pow256(n)
  {
    out := 0;
    var i := 0;
    while i < n
      invariant 0 <= i <= n
      invariant out == BigEndian(bytes[..i])
    {
      assert bytes[..i + 1][..i] == bytes[..i];
      out := out * 256 + bytes[i] as nat;
      i := i + 1;
    }
  }

  /** A keystream XORed into the existing bytes equals the keystream only when those bytes were zero. */
  lemma XorFillNeedsZeroedBuffer(prior: seq<byte>, stream: seq<byte>)
    requires |prior| == |stream|
    ensures Xor(prior, stream) == stream <==> prior == Zero(|prior|)
  {
    if Xor(prior, stream) == stream {
      forall i | 0 <= i < |prior| ensures prior[i] == 0 {
        assert prior[i] ^ stream[i] == stream[i];
      }
    }
  }

  class BagBitstream {
    const ks: Keystream
    var initialized: bool
    /** Every byte passed to SeedAdd so far. */
    var seed: seq<byte>
    /** The seed that SeedFinalize hashed into the AES key. */
    var key: seq<byte>
    /** Keystream bytes consumed. */
    var pos: nat

    /** bitstream_init: not initialized, empty seed, counter at zero. */
    constructor (ks: Keystream)
      ensures this.ks == ks && !initialized && seed == [] && key == [] && pos == 0
    {
      this.ks := ks;
      initialized := false;
      seed := [];
      key := [];
      pos := 0;
    }

    /**
     * bitstream_init_with_seed (declared in libbaghash/bitstream.h, body not
     * shown): init, add the seed, finalize.
     */
    constructor InitWithSeed(ks: Keystream, s: seq<byte>)
      ensures this.ks == ks && initialized && seed == s && key == s && pos == 0
    {
      this.ks := ks;
      initialized := true;
      seed := s;
      key := s;
      pos := 0;
    }

    /** bitstream_seed_add: appends to the seed; this version never refuses, even after finalize. */
    method SeedAdd(bytes: seq<byte>) returns (err: ErrorCode)
      modifies this`seed
      ensures err == ErrorNone && seed == old(seed) + bytes
    {
      seed := seed + bytes;
      err := ErrorNone;
    }

    /**
     * bitstream_seed_finalize as written.  setKey is what AES_set_encrypt_key
     * returned.  The test `!AES_set_encrypt_key(...)` takes OpenSSL's success
     * code 0 for a failure: then ERROR_OPENSSL_AES is returned and the stream
     * stays as it was.  On a real OpenSSL failure the stream is marked
     * initialized although no key was set.
     */
    method SeedFinalizeAsWritten(setKey: int) returns (err: ErrorCode)
      modifies this`initialized
      ensures setKey == 0 ==> err == ErrorOpensslAes && initialized == old(initialized)
      ensures setKey != 0 ==> err == ErrorNone && initialized
    {
      if setKey == 0 {
        return ErrorOpensslAes;
      }
      initialized := true;
      err := ErrorNone;
    }

    /**
     * bitstream_seed_finalize with the key test the library's tests expect:
     * a non-zero setKey is the OpenSSL failure.  Otherwise the key is the seed
     * so far; the counter is not reset.
     */
    method SeedFinalize(setKey: int) returns (err: ErrorCode)
      modifies this`initialized, this`key
      ensures setKey == 0 ==> err == ErrorNone && initialized && key == seed
      ensures setKey != 0 ==> err == ErrorOpensslAes && initialized == old(initialized) && key == old(key)
    {
      if setKey != 0 {
        return ErrorOpensslAes;
      }
      key := seed;
      initialized := true;
      err := ErrorNone;
    }

    /**
     * bitstream_fill_buffer as written: AES-CTR "encrypts" out in place, so
     * the keystream is XORed into whatever out already holds.
     */
    method FillBufferAsWritten(out: array<byte>, outlen: nat) returns (err: ErrorCode)
      requires outlen <= out.Length
      modifies this`pos, out
      ensures !initialized ==> err == ErrorBitstreamUninitialized && pos == old(pos) && out[..] == old(out[..])
      ensures initialized ==> (err == ErrorNone && pos == old(pos) + outlen
        && out[..outlen] == Xor(old(out[..outlen]), KeystreamBytes(ks, key, old(pos), outlen))
        && out[outlen..] == old(out[outlen..]))
    {
      if !initialized {
        return ErrorBitstreamUninitialized;
      }
      XorKeystream(out, outlen);
      pos := pos + outlen;
      err := ErrorNone;
    }

    /** The XOR loop of fill_buffer: out[i] ^= the keystream byte at pos + i. */
    method XorKeystream(out: array<byte>, outlen: nat)
      requires outlen <= out.Length
      modifies out
      ensures out[..outlen] == Xor(old(out[..outlen]), KeystreamBytes(ks, key, pos, outlen))
      ensures out[outlen..] == old(out[outlen..])
    {
      var i := 0;
      while i < outlen
        invariant 0 <= i <= outlen
        invariant forall j :: 0 <= j < i ==> out[j] == old(out[j]) ^ ks(key, pos + j)
        invariant forall j :: i <= j < out.Length ==> out[j] == old(out[j])
      {
        out[i] := out[i] ^ ks(key, pos + i);
        i := i + 1;
      }
      XorStreamDone(old(out[..]), out[..], ks, key, pos, outlen);
    }

    /**
     * bitstream_fill_buffer as its header documents it: out is overwritten
     * with the next outlen keystream bytes.
     */
    method FillBuffer(out: array<byte>, outlen: nat) returns (err: ErrorCode)
      requires outlen <= out.Length
      modifies this`pos, out
      ensures !initialized ==> err == ErrorBitstreamUninitialized && pos == old(pos) && out[..] == old(out[..])
      ensures initialized ==> (err == ErrorNone && pos == old(pos) + outlen
        && out[..outlen] == KeystreamBytes(ks, key, old(pos), outlen)
        && out[outlen..] == old(out[outlen..]))
    {
      if !initialized {
        return ErrorBitstreamUninitialized;
      }
      var i := 0;
      while i < outlen
        invariant 0 <= i <= outlen && pos == old(pos)
        invariant forall j :: 0 <= j < i ==> out[j] == ks(key, pos + j)
        invariant forall j :: i <= j < out.Length ==> out[j] == old(out[j])
      {
        out[i] := ks(key, pos + i);
        i := i + 1;
      }
      pos := pos + outlen;
      err := ErrorNone;
    }

    /** bitstream_rand_byte: the next keystream byte. */
    method RandByte() returns (err: ErrorCode, b: byte)
      modifies this`pos
      ensures !initialized ==> err == ErrorBitstreamUninitialized && pos == old(pos)
      ensures initialized ==> err == ErrorNone && b == ks(key, old(pos)) && pos == old(pos) + 1
    {
      if !initialized {
        return ErrorBitstreamUninitialized, 0;
      }
      b := ks(key, pos);
      pos := pos + 1;
      err := ErrorNone;
    }

    /** Read n keystream bytes with RandByte into a fresh buffer. */
    method DrawBytes(n: nat) returns (err: ErrorCode, buf: seq<byte>)
      modifies this`pos
      ensures !initialized && n > 0 ==> err == ErrorBitstreamUninitialized && pos == old(pos)
      ensures initialized || n == 0 ==>
        err == ErrorNone && buf == KeystreamBytes(ks, key, old(pos), n) && pos == old(pos) + n
    {
      buf := [];
      var i := 0;
      while i < n
        invariant 0 <= i <= n && pos == old(pos) + i
        invariant !initialized ==> i == 0
        invariant buf == KeystreamBytes(ks, key, old(pos), i)
      {
        var b;
        err, b := RandByte();
        if err != ErrorNone {
          return;
        }
        buf := buf + [b];
        i := i + 1;
      }
      err := ErrorNone;
    }

    /** One pass of rand_int's do-while body: draw the bytes, decode, reduce. */
    method TryOnce(nBytes: nat, bits: nat) returns (err: ErrorCode, r: nat)
      requires nBytes <= 8
      modifies this`pos
      ensures !initialized && nBytes > 0 ==> err == ErrorBitstreamUninitialized && pos == old(pos)
      ensures initialized || nBytes == 0 ==>
        err == ErrorNone && r == Attempt(ks, key, old(pos), nBytes, bits) && pos == old(pos) + nBytes
    {
      var buf;
      err, buf := DrawBytes(nBytes);
      if err != ErrorNone {
        return err, 0;
      }
      var retval := BytesToInt(buf, nBytes);
      assert buf[..nBytes] == buf;
      r := retval % Pow2(bits);
      StreamValueIsBigEndian(ks, key, old(pos), nBytes);
    }

    /**
     * bitstream_rand_int: rejection sampling of a value below max.  The
     * source's mask 1 << bits is an int shift; the model uses 2^bits.
     */
    method RandInt(max: nat) returns (err: ErrorCode, r: nat)
      requires max <= SIZE_MAX
      modifies this`pos
      ensures !initialized && BytesNeeded(max) > 0 ==> err == ErrorBitstreamUninitialized && pos == old(pos)
      ensures initialized || BytesNeeded(max) == 0 ==>
        Outcome(DrawBelow(ks, key, old(pos), max, ATTEMPT_LIMIT), err, r, pos)
      ensures err == ErrorNone ==> r < max
      ensures pos >= old(pos)
    {
      var nBytes := BytesRequired(max);
      var bits := BitsInInt(max);
      err, r := Sample(max, nBytes, bits);
    }

    /** rand_int's do-while loop, given the byte count (at most 8) and bit count of max. */
    method Sample(max: nat, nBytes: nat, bits: nat) returns (err: ErrorCode, r: nat)
      requires nBytes <= 8
      modifies this`pos
      ensures !initialized && nBytes > 0 ==> err == ErrorBitstreamUninitialized && pos == old(pos)
      ensures initialized || nBytes == 0 ==>
        Outcome(DrawLoop(ks, key, old(pos), max, nBytes, bits, ATTEMPT_LIMIT), err, r, pos)
      ensures err == ErrorNone ==> r < max
      ensures pos >= old(pos)
    {
      if !initialized && nBytes > 0 {
        // the first attempt already fails
        err, r := TryOnce(nBytes, bits);
        return;
      }
      err, r := SampleLoop(max, nBytes, bits);
    }

    /** The rejection loop of rand_int on a stream that can hand out the bytes. */
    method SampleLoop(max: nat, nBytes: nat, bits: nat) returns (err: ErrorCode, r: nat)
      requires nBytes <= 8 && (initialized || nBytes == 0)
      modifies this`pos
      ensures Outcome(DrawLoop(ks, key, old(pos), max, nBytes, bits, ATTEMPT_LIMIT), err, r, pos)
      ensures err == ErrorNone ==> r < max
      ensures pos >= old(pos)
    {
      ghost var spec := DrawLoop(ks, key, pos, max, nBytes, bits, ATTEMPT_LIMIT);
      ghost var left: nat := ATTEMPT_LIMIT;
      var tries := 0;
      while true
        invariant tries + left == ATTEMPT_LIMIT && pos >= old(pos)
        invariant spec == DrawLoop(ks, key, pos, max, nBytes, bits, left)
        decreases left
      {
        if tries == ATTEMPT_LIMIT {
          return ErrorDrawLimit, 0;
        }
        r := SampleStep(max, nBytes, bits, left, spec);
        if r < max {
          return ErrorNone, r;
        }
        tries := tries + 1;
        left := left - 1;
      }
    }

    /** One attempt of the rejection loop, read against what is left of the loop. */
    method SampleStep(max: nat, nBytes: nat, bits: nat, ghost left: nat, ghost spec: Draw) returns (r: nat)
      requires nBytes <= 8 && (initialized || nBytes == 0)
      requires left > 0 && spec == DrawLoop(ks, key, pos, max, nBytes, bits, left)
      modifies this`pos
      ensures r < max ==> spec == Drawn(r, pos)
      ensures r >= max ==> spec == DrawLoop(ks, key, pos, max, nBytes, bits, left - 1)
      ensures pos >= old(pos)
    {
      var err;
      err, r := TryOnce(nBytes, bits);
      if r < max {
        DrawLoopAccept(ks, key, old(pos), max, nBytes, bits, left, r);
      } else {
        DrawLoopReject(ks, key, old(pos), max, nBytes, bits, left, r);
      }
    }

    /** One value of rand_ints: a rand_int drawn again while it is among taken. */
    method DrawFresh(max: nat, taken: seq<nat>) returns (err: ErrorCode, v: nat)
      requires max <= SIZE_MAX
      modifies this`pos
      ensures err == ErrorNone ==> v < max && v !in taken
      ensures pos >= old(pos)
    {
      err, v := RandInt(max);
      var tries := 0;
      while err == ErrorNone && v in taken
        invariant pos >= old(pos) && tries <= ATTEMPT_LIMIT
        invariant err == ErrorNone ==> v < max
        decreases ATTEMPT_LIMIT - tries
      {
        if tries == ATTEMPT_LIMIT {
          return ErrorDrawLimit, v;
        }
        err, v := RandInt(max);
        tries := tries + 1;
      }
    }

    /**
     * bitstream_rand_ints (declared in libbaghash/bitstream.h, body not
     * shown): k values below max; with distinct, a value already drawn in
     * the batch is drawn again, and max < k fails before drawing.
     */
    method RandInts(k: nat, max: nat, distinct: bool) returns (err: ErrorCode, outs: seq<nat>)
      requires max <= SIZE_MAX
      modifies this`pos
      ensures distinct && max < k ==> err == ErrorBitstreamMaxTooSmall && pos == old(pos)
      ensures err == ErrorNone ==> |outs| == k
      ensures |outs| <= k && forall i :: 0 <= i < |outs| ==> outs[i] < max
      ensures distinct ==> NoDuplicates(outs)
      ensures pos >= old(pos)
    {
      outs := [];
      if distinct && max < k {
        return ErrorBitstreamMaxTooSmall, outs;
      }
      while |outs| < k
        invariant |outs| <= k && forall i :: 0 <= i < |outs| ==> outs[i] < max
        invariant distinct ==> NoDuplicates(outs)
        invariant pos >= old(pos)
        decreases k - |outs|
      {
        var v;
        err, v := DrawFresh(max, if distinct then outs else []);
        if err != ErrorNone {
          return;
        }
        outs := outs + [v];
      }
      err := ErrorNone;
    }
  }
}
