/*
 * The Catena bit-reversal strategy of libballoon/hash_state_catena.c.
 *
 * The block count is rounded down to a power of two 2^(k+1); the two halves
 * of 2^k blocks play src and dst, and dst[i] is the compression of the
 * previous dst block (src's last block for i = 0) and src[reverse(i)],
 * reverse being the reversal of the k low bits.  The halves swap after each
 * pass.
 */
module HashStateCatena {
  import opened Bytes
  import opened Errors
  import opened Primitives
  import opened Compress
  import opened HashStates

  /** The n low bits of x in reverse order: bit j of x becomes bit n - 1 - j. */
  function Rev(x: nat, n: nat): (r: nat)
    ensures r < Pow2(n)
  {
    if n == 0 then 0
    else if x % 2 == 0 then Rev(x / 2, n - 1)
    else Pow2(n - 1) + Rev(x / 2, n - 1)
  }

  /** Halving a * 2h + b: the low bit is b's, and the half is a * h + b / 2. */
  lemma Halve(a: nat, h: nat, b: nat)
    requires b < 2 * h
    ensures (a * (2 * h) + b) % 2 == b % 2 && (a * (2 * h) + b) / 2 == a * h + b / 2 && b / 2 < h
  {
    var x := a * (2 * h) + b;
    assert x == 2 * (a * h + b / 2) + b % 2;
    DivModUnique(x, 2, a * h + b / 2, b % 2);
  }

  /** Dividing by 2 and then by h is dividing by 2h. */
  lemma DivTwice(x: nat, h: nat)
    requires h >= 1
    ensures (x / 2) / h == x / (2 * h)
  {
    var q := (x / 2) / h;
    var r := (x / 2) % h;
    assert x / 2 == h * q + r;
    assert x == (2 * h) * q + (2 * r + x % 2);
    DivModUnique(x, 2 * h, q, 2 * r + x % 2);
  }

  /** x as q * d + r with r < d. */
  lemma Split(x: nat, d: nat) returns (q: nat, r: nat)
    requires d >= 1
    ensures x == q * d + r && r == x % d && r < d
  {
    q, r := x / d, x % d;
  }

  /** Bits of x at n and above play no part. */
  lemma {:induction false} RevHighIgnored(a: nat, b: nat, n: nat)
    requires b < Pow2(n)
    ensures Rev(a * Pow2(n) + b, n) == Rev(b, n)
  {
    if n > 0 {
      var half := Pow2(n - 1);
      assert Pow2(n) == 2 * half;
      Halve(a, half, b);
      RevHighIgnored(a, b / 2, n - 1);
    }
  }

  /** reverse_bits looks only at the n low bits of its input. */
  lemma RevLowBitsOnly(x: nat, n: nat)
    ensures Rev(x, n) == Rev(x % Pow2(n), n)
  {
    var d := Pow2(n);
    var q, r := Split(x, d);
    RevHighIgnored(q, r, n);
  }

  /** One more bit: the earlier ones move up one place and bit n lands at the bottom. */
  lemma {:induction false} RevSnoc(x: nat, n: nat)
    ensures Rev(x, n + 1) == 2 * Rev(x, n) + (x / Pow2(n)) % 2
  {
    if n > 0 {
      var h := x / 2;
      var half := Pow2(n - 1);
      var p := Pow2(n);
      RevSnoc(h, n - 1);
      assert p == 2 * half;
      DivTwice(x, half);
      assert (h / half) % 2 == (x / p) % 2;
      if x % 2 == 0 {
        assert Rev(x, n + 1) == Rev(h, n);
        assert Rev(x, n) == Rev(h, n - 1);
      } else {
        assert Rev(x, n + 1) == p + Rev(h, n);
        assert Rev(x, n) == half + Rev(h, n - 1);
      }
    }
  }

  /** Reversing n bits twice gives back any value below 2^n. */
  lemma {:induction false} RevInvolution(x: nat, n: nat)
    requires x < Pow2(n)
    ensures Rev(Rev(x, n), n) == x
  {
    if n > 0 {
      var m := n - 1;
      var b, low := x % 2, Rev(x / 2, m);
      RevTop(x, m);
      var y := b * Pow2(m) + low;
      assert x / 2 < Pow2(m);
      RevSnoc(y, m);
      DivModUnique(y, Pow2(m), b, low);
      RevHighIgnored(b, low, m);
      RevInvolution(x / 2, m);
    }
  }

  /** The low bit of x becomes the top bit of the n + 1 reversed bits. */
  lemma RevTop(x: nat, n: nat)
    ensures Rev(x, n + 1) == (x % 2) * Pow2(n) + Rev(x / 2, n)
  {
  }

  /** So reversal permutes [0, 2^n): distinct steps read distinct src blocks. */
  lemma RevInjective(i: nat, j: nat, n: nat)
    requires i < Pow2(n) && j < Pow2(n) && Rev(i, n) == Rev(j, n)
    ensures i == j
  {
    RevInvolution(i, n);
    RevInvolution(j, n);
  }

  /**
   * nearest_power_of_two: the largest power of two not above in, and its
   * exponent.  For in = 0 it is 0 with exponent -1.  The doubling variable
   * is a uint64_t, so the loop ends only for in < 2^63 (see DoublingNeverEnds).
   */
  method NearestPowerOfTwo(input: nat) returns (out: nat, nBits: int)
    requires input < POW2_63
    ensures input == 0 ==> out == 0 && nBits == -1
    ensures input >= 1 ==> nBits >= 0 && out == Pow2(nBits) && out <= input < 2 * out
  {
    var o: nat := 1;
    nBits := 0;
    while o <= input
      invariant nBits >= 0 && o == Pow2(nBits)
      invariant nBits == 0 || Pow2(nBits - 1) <= input
      invariant o == ShiftedOut(nBits)
      decreases 2 * input + 1 - o
    {
      ShiftedOutDoubles(nBits);
      o := o * 2;
      nBits := nBits + 1;
    }
    nBits := nBits - 1;
    out := o / 2;
  }

  /** out after k passes of the loop: 1 shifted left k times as a uint64_t. */
  function ShiftedOut(k: nat): (o: nat)
    ensures o <= UINT64_MAX
  {
    if k == 0 then 1 else (ShiftedOut(k - 1) * 2) % (UINT64_MAX + 1)
  }

  /** While out is below 2^63 the shift only doubles it. */
  lemma ShiftedOutDoubles(k: nat)
    requires ShiftedOut(k) < POW2_63
    ensures ShiftedOut(k + 1) == 2 * ShiftedOut(k)
  {
    var o := ShiftedOut(k);
    assert 2 * o < UINT64_MAX + 1;
  }

  /** out is 2^k for k < 64 and 0 once the bit has been shifted out. */
  lemma {:induction false} ShiftedOutValue(k: nat)
    ensures ShiftedOut(k) == if k < 64 then Pow2(k) else 0
  {
    if k > 0 {
      ShiftedOutValue(k - 1);
      var m := UINT64_MAX + 1;
      var x := ShiftedOut(k - 1) * 2;
      assert ShiftedOut(k) == x % m;
      if k <= 64 {
        assert x == Pow2(k);
        Pow2Of64();
        if k < 64 {
          Pow2Monotone(k, 63);
        }
        ModAtMost(x, m);
      }
    }
  }

  /** A value up to m is itself mod m, except m, which is 0. */
  lemma ModAtMost(x: nat, m: nat)
    requires 0 < m && x <= m
    ensures x % m == if x == m then 0 else x
  {
  }

  /**
   * From in = 2^63 on, every value out takes is at most in: out <= in holds
   * before every pass, so the loop never ends.
   */
  lemma DoublingNeverEnds(input: nat, k: nat)
    requires POW2_63 <= input <= UINT64_MAX
    ensures ShiftedOut(k) <= input
  {
    ShiftedOutValue(k);
    if k < 64 {
      Pow2Monotone(k, 63);
      Pow2Of63();
    }
  }

  /** Shifting the low bit of x into out keeps out * 2^m + Rev(x, m) with one bit fewer to go. */
  lemma ShiftIn(out: nat, x: nat, m: nat)
    ensures out * Pow2(m + 1) + Rev(x, m + 1) == (out * 2 + x % 2) * Pow2(m) + Rev(x / 2, m)
  {
    var h := Pow2(m);
    assert Pow2(m + 1) == 2 * h;
    assert out * (2 * h) == (out * 2) * h;
    if x % 2 == 1 {
      assert (out * 2 + 1) * h == (out * 2) * h + h;
    }
  }

  /** reverse_bits: the loop shifts the low bit of in into out, n_bits times. */
  method ReverseBits(input: nat, nBits: int) returns (out: nat)
    requires input <= UINT64_MAX && nBits <= 64
    ensures out == Rev(input, if nBits < 0 then 0 else nBits)
  {
    ghost var n: nat := if nBits < 0 then 0 else nBits;
    out := 0;
    var x: nat := input;
    var i: nat := 0;
    assert 0 * Pow2(n) == 0;
    while i < nBits
      invariant 0 <= i <= n
      invariant out * Pow2(n - i) + Rev(x, n - i) == Rev(input, n)
    {
      ghost var m := n - i - 1;
      assert n - i == m + 1;
      ShiftIn(out, x, m);
      out := out * 2 + x % 2;
      x := x / 2;
      i := i + 1;
    }
    assert Pow2(n - i) == 1 && out * 1 == out;
  }

  /** What the Catena mix relies on: halves of 2^(n_bits) blocks each. */
  ghost predicate CatenaReady(s: HashState)
    reads s
  {
    && s.extra.CatenaData?
    && 0 <= s.extra.nBits < 63
    && s.nBlocks / 2 == Pow2(s.extra.nBits)
    && ((s.extra.src == 0 && s.extra.dst == s.nBlocks / 2) || (s.extra.src == s.nBlocks / 2 && s.extra.dst == 0))
  }

  /**
   * hash_state_catena_init: n_blocks rounded down to a power of two 2^(k+1),
   * n_bits = k indexes one half, src the first half and dst the second.
   */
  method CatenaInit(s: HashState) returns (err: ErrorCode)
    requires s.Valid() && s.nBlocks < POW2_63
    modifies s`nBlocks, s`extra
    ensures s.Valid() && CatenaReady(s) && err == ErrorNone
    ensures s.nBlocks <= old(s.nBlocks) < 2 * s.nBlocks
    ensures s.nBlocks == Pow2(s.extra.nBits + 1)
    ensures s.extra == CatenaData(0, s.nBlocks / 2, s.extra.nBits)
  {
    var n, bits := NearestPowerOfTwo(s.nBlocks);
    if bits >= 63 {
      Pow2Monotone(63, bits);
      Pow2Of63();
    }
    assert bits >= 1;
    ghost var h := Pow2(bits - 1);
    assert n == 2 * h;
    assert n / 2 == h && n % 2 == 0 && 2 <= n <= s.buffer.Length;
    s.nBlocks := n;
    bits := bits - 1;
    s.extra := CatenaData(0, n / 2, bits);
    err := ErrorNone;
  }

  /** The two blocks dst[i] is computed from. */
  function CatenaInputs(before: seq<Block>, after: seq<Block>, src: nat, dst: nat, bpb: nat, nBits: nat, i: nat): seq<Block>
    requires bpb == Pow2(nBits) && src + bpb <= |before| && dst + bpb <= |after| && i < bpb
  {
    [if i == 0 then before[src + bpb - 1] else after[dst + i - 1], before[src + Rev(i, nBits)]]
  }

  ghost predicate CatenaMixed(p: Primitives, co: CompOptions, before: seq<Block>, after: seq<Block>,
                              src: nat, dst: nat, bpb: nat, nBits: nat, done: nat)
    requires bpb == Pow2(nBits) && src + bpb <= |before| && dst + bpb <= |after| && done <= bpb
  {
    forall k :: 0 <= k < done ==>
      var inputs := CatenaInputs(before, after, src, dst, bpb, nBits, k);
      WellFormedInput(co, inputs) && CompressSpec(p, co, inputs) == Ok(after[dst + k])
  }

  lemma CatenaMixedExtend(p: Primitives, co: CompOptions, before: seq<Block>, mid: seq<Block>, after: seq<Block>,
                          src: nat, dst: nat, bpb: nat, nBits: nat, done: nat, v: Block)
    requires bpb == Pow2(nBits) && src + bpb <= |before| && dst + bpb <= |mid| && done < bpb
    requires CatenaMixed(p, co, before, mid, src, dst, bpb, nBits, done)
    requires |after| == |mid| && after[dst + done] == v
    requires forall x :: 0 <= x < |mid| && x != dst + done ==> after[x] == mid[x]
    requires WellFormedInput(co, CatenaInputs(before, mid, src, dst, bpb, nBits, done))
    requires CompressSpec(p, co, CatenaInputs(before, mid, src, dst, bpb, nBits, done)) == Ok(v)
    ensures CatenaMixed(p, co, before, after, src, dst, bpb, nBits, done + 1)
  {
    forall k | 0 <= k < done + 1
      ensures var inputs := CatenaInputs(before, after, src, dst, bpb, nBits, k);
              WellFormedInput(co, inputs) && CompressSpec(p, co, inputs) == Ok(after[dst + k])
    {
      assert CatenaInputs(before, after, src, dst, bpb, nBits, k) == CatenaInputs(before, mid, src, dst, bpb, nBits, k);
    }
  }

  /**
   * The two blocks read from the buffer mid-pass are dst[i]'s inputs, given
   * that the src block and (for i = 0) the last src block still hold what
   * they held before the pass.
   */
  lemma CatenaInputsFromBuffer(before: seq<Block>, cur: seq<Block>, src: nat, dst: nat, bpb: nat, nBits: nat, i: nat,
                               blocks: seq<Block>, bs: nat)
    requires bpb == Pow2(nBits) && src + bpb <= |before| == |cur| && dst + bpb <= |cur| && i < bpb
    requires AllOfLength(cur, bs)
    requires cur[src + Rev(i, nBits)] == before[src + Rev(i, nBits)]
    requires i == 0 ==> cur[src + bpb - 1] == before[src + bpb - 1]
    requires blocks == [cur[if i == 0 then src + bpb - 1 else dst + i - 1], cur[src + Rev(i, nBits)]]
    ensures blocks == CatenaInputs(before, cur, src, dst, bpb, nBits, i) && AllOfLength(blocks, bs)
  {
  }

  /** reverse_bits(i, n_bits) for an index of a half: another index of the half. */
  method ReversedIndex(s: HashState, i: nat) returns (nb: nat)
    requires CatenaReady(s) && i < s.nBlocks / 2
    ensures nb == Rev(i, s.extra.nBits) && nb < s.nBlocks / 2
  {
    Pow2Monotone(s.extra.nBits, 64);
    Pow2Of64();
    nb := ReverseBits(i, s.extra.nBits);
  }

  /** The two blocks dst[i] is computed from, read from the buffer: the previous block and src[reverse_bits(i)]. */
  method CatenaGather(s: HashState, ghost before: seq<Block>, i: nat) returns (blocks: seq<Block>)
    requires s.Valid() && CatenaReady(s) && i < s.nBlocks / 2 && |before| == s.buffer.Length
    requires forall k :: 0 <= k < s.buffer.Length && !(s.extra.dst <= k < s.extra.dst + i) ==> s.buffer[k] == before[k]
    ensures |blocks| == 2 && AllOfLength(blocks, s.blockSize)
    ensures blocks == CatenaInputs(before, s.buffer[..], s.extra.src, s.extra.dst, s.nBlocks / 2, s.extra.nBits, i)
  {
    var bpb := s.nBlocks / 2;
    var src := s.extra.src;
    var prev := if i == 0 then src + bpb - 1 else s.extra.dst + i - 1;
    var nb := ReversedIndex(s, i);
    ghost var cur := s.buffer[..];
    blocks := [s.buffer[prev], s.buffer[src + nb]];
    assert cur[src + nb] == before[src + nb];
    assert i == 0 ==> cur[src + bpb - 1] == before[src + bpb - 1];
    CatenaInputsFromBuffer(before, cur, src, s.extra.dst, bpb, s.extra.nBits, i, blocks, s.blockSize);
  }

  /** One step: the two inputs of dst[i], compressed; nothing is written. */
  method CatenaStep(s: HashState, ghost before: seq<Block>, i: nat) returns (err: ErrorCode, out: Block)
    requires s.Valid() && CatenaReady(s) && i < s.nBlocks / 2 && |before| == s.buffer.Length
    requires forall k :: 0 <= k < s.buffer.Length && !(s.extra.dst <= k < s.extra.dst + i) ==> s.buffer[k] == before[k]
    ensures err == ErrorNone ==> |out| == s.blockSize
    ensures err == ErrorNone ==> WellFormedInput(s.opts.compOpts,
      CatenaInputs(before, s.buffer[..], s.extra.src, s.extra.dst, s.nBlocks / 2, s.extra.nBits, i))
    ensures err == ErrorNone ==> CompressSpec(s.p, s.opts.compOpts,
      CatenaInputs(before, s.buffer[..], s.extra.src, s.extra.dst, s.nBlocks / 2, s.extra.nBits, i)) == Ok(out)
    ensures err != ErrorNone ==> WellFormedInput(s.opts.compOpts,
      CatenaInputs(before, s.buffer[..], s.extra.src, s.extra.dst, s.nBlocks / 2, s.extra.nBits, i))
    ensures err != ErrorNone ==> CompressSpec(s.p, s.opts.compOpts,
      CatenaInputs(before, s.buffer[..], s.extra.src, s.extra.dst, s.nBlocks / 2, s.extra.nBits, i)) == Err(err)
  {
    var blocks := CatenaGather(s, before, i);
    var r := Compress.Compress(s.p, s.opts.compOpts, blocks);
    if r.Err? {
      return r.error, [];
    }
    CompressOutputSize(s.p, s.opts.compOpts, blocks);
    out := r.value;
    err := ErrorNone;
  }

  /**
   * hash_state_catena_brg_mix: the first done dst blocks rewritten (all of
   * them unless compress failed), nothing else written, src and dst swapped
   * after a complete pass.
   */
  method CatenaMix(s: HashState) returns (err: ErrorCode, ghost done: nat)
    requires s.Valid() && CatenaReady(s)
    modifies s.buffer, s`extra
    ensures s.Valid() && CatenaReady(s)
    ensures done <= s.nBlocks / 2 && (err == ErrorNone ==> done == s.nBlocks / 2)
    ensures CatenaMixed(s.p, s.opts.compOpts, old(s.buffer[..]), s.buffer[..], old(s.extra.src), old(s.extra.dst),
                        s.nBlocks / 2, s.extra.nBits, done)
    ensures forall k :: 0 <= k < s.buffer.Length && !(old(s.extra.dst) <= k < old(s.extra.dst) + done) ==>
      s.buffer[k] == old(s.buffer[k])
    ensures err == ErrorNone ==> s.extra == CatenaData(old(s.extra.dst), old(s.extra.src), old(s.extra.nBits))
    ensures err != ErrorNone ==> s.extra == old(s.extra)
    ensures err != ErrorNone ==> done < s.nBlocks / 2
    ensures err != ErrorNone ==> WellFormedInput(s.opts.compOpts,
      CatenaInputs(old(s.buffer[..]), s.buffer[..], s.extra.src, s.extra.dst, s.nBlocks / 2, s.extra.nBits, done))
    ensures err != ErrorNone ==>
      CompressSpec(s.p, s.opts.compOpts,
                   CatenaInputs(old(s.buffer[..]), s.buffer[..], s.extra.src, s.extra.dst, s.nBlocks / 2, s.extra.nBits, done))
        == Err(err)
  {
    var bpb := s.nBlocks / 2;
    ghost var before := s.buffer[..];
    done := 0;
    var i := 0;
    while i < bpb
      invariant i <= bpb && done == i
      invariant s.Valid() && s.extra == old(s.extra)
      invariant CatenaPassDone(s, before, i)
    {
      var out;
      err, out := CatenaStep(s, before, i);
      if err != ErrorNone {
        return;
      }
      CatenaWrite(s, before, i, out);
      i := i + 1;
      done := i;
    }
    s.extra := CatenaData(s.extra.dst, s.extra.src, s.extra.nBits);
    err := ErrorNone;
  }

  /** What the pass has done once its loop has reached i: dst[0..i) rewritten, every other block as before. */
  ghost predicate CatenaPassDone(s: HashState, before: seq<Block>, i: nat)
    requires CatenaReady(s) && s.nBlocks <= s.buffer.Length && i <= s.nBlocks / 2 && |before| == s.buffer.Length
    reads s, s.buffer
  {
    && CatenaMixed(s.p, s.opts.compOpts, before, s.buffer[..], s.extra.src, s.extra.dst, s.nBlocks / 2, s.extra.nBits, i)
    && forall k :: 0 <= k < s.buffer.Length && !(s.extra.dst <= k < s.extra.dst + i) ==> s.buffer[k] == before[k]
  }

  /** The write of one loop iteration: dst[i] gets its compressed inputs, extending the pass by one block. */
  method CatenaWrite(s: HashState, ghost before: seq<Block>, i: nat, out: Block)
    requires s.Valid() && CatenaReady(s) && i < s.nBlocks / 2 && |before| == s.buffer.Length
    requires CatenaPassDone(s, before, i) && |out| == s.blockSize
    requires WellFormedInput(s.opts.compOpts,
      CatenaInputs(before, s.buffer[..], s.extra.src, s.extra.dst, s.nBlocks / 2, s.extra.nBits, i))
    requires CompressSpec(s.p, s.opts.compOpts,
      CatenaInputs(before, s.buffer[..], s.extra.src, s.extra.dst, s.nBlocks / 2, s.extra.nBits, i)) == Ok(out)
    modifies s.buffer
    ensures s.Valid() && CatenaPassDone(s, before, i + 1)
  {
    ghost var mid := s.buffer[..];
    s.buffer[s.extra.dst + i] := out;
    CatenaMixedExtend(s.p, s.opts.compOpts, before, mid, s.buffer[..], s.extra.src, s.extra.dst, s.nBlocks / 2, s.extra.nBits, i, out);
    forall k | 0 <= k < s.buffer.Length && !(s.extra.dst <= k < s.extra.dst + (i + 1))
      ensures s.buffer[k] == before[k]
    {
      assert s.buffer[k] == mid[k];
    }
  }
}
