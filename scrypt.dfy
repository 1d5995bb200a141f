/*
 * The scrypt-style strategy of libballoon/hash_state_scrypt.c.
 *
 * fill chains the buffer (block i is the compression of block i - 1 and a
 * zero block), mix does nothing, and extract walks n_blocks data-dependent
 * steps: the accumulator, starting at the last block, is compressed with
 * the block that its own first eight bytes select.
 */
module HashStateScrypt {
  import opened Bytes
  import opened Errors
  import opened Primitives
  import opened Compress
  import opened HashStates
  import opened Encode

  /**
   * integrify: the first min(8, block_size) bytes of a block as a uint64_t;
   * memcpy gives the host's byte order, taken to be little-endian.
   */
  function Integrify(block: Block): (v: nat)
    ensures v <= UINT64_MAX
    ensures |block| >= 8 ==> v == LittleEndian(block[..8])
  {
    var k := if |block| < 8 then |block| else 8;
    Pow256Monotone(k, 8);
    Pow256Eight();
    LittleEndian(block[..k])
  }

  /** Block j holds the compression of block j - 1 and the zero block. */
  ghost predicate ChainLink(p: Primitives, co: CompOptions, blocks: seq<Block>, bs: nat, j: nat)
    requires 1 <= j < |blocks|
  {
    WellFormedInput(co, [blocks[j - 1], Zero(bs)]) && CompressSpec(p, co, [blocks[j - 1], Zero(bs)]) == Ok(blocks[j])
  }

  /** Blocks 1 .. k - 1 are each linked to their predecessor. */
  ghost predicate Chained(p: Primitives, co: CompOptions, blocks: seq<Block>, bs: nat, k: nat)
    requires k <= |blocks|
  {
    forall j :: 1 <= j < k ==> ChainLink(p, co, blocks, bs, j)
  }

  /** A chain is fixed by its first block: fill's result depends on in and salt only through block 0. */
  lemma {:induction false} ChainedDetermined(p: Primitives, co: CompOptions, a: seq<Block>, b: seq<Block>, bs: nat, k: nat)
    requires 1 <= k <= |a| && k <= |b| && a[0] == b[0]
    requires Chained(p, co, a, bs, k) && Chained(p, co, b, bs, k)
    ensures a[..k] == b[..k]
  {
    if k > 1 {
      ChainedDetermined(p, co, a, b, bs, k - 1);
      assert a[k - 2] == a[..k - 1][k - 2] == b[..k - 1][k - 2] == b[k - 2];
      assert ChainLink(p, co, a, bs, k - 1) && ChainLink(p, co, b, bs, k - 1);
      assert a[..k] == a[..k - 1] + [a[k - 1]];
      assert b[..k] == b[..k - 1] + [b[k - 1]];
    }
  }

  /** Writing block i from block i - 1 extends the chain by one link. */
  lemma ChainedExtend(p: Primitives, co: CompOptions, mid: seq<Block>, after: seq<Block>, bs: nat, i: nat, v: Block)
    requires 1 <= i < |mid| == |after| && Chained(p, co, mid, bs, i)
    requires after[i] == v && forall x :: 0 <= x < |mid| && x != i ==> after[x] == mid[x]
    requires WellFormedInput(co, [mid[i - 1], Zero(bs)]) && CompressSpec(p, co, [mid[i - 1], Zero(bs)]) == Ok(v)
    ensures Chained(p, co, after, bs, i + 1)
  {
    forall j | 1 <= j < i + 1 ensures ChainLink(p, co, after, bs, j) {
      if j < i {
        assert ChainLink(p, co, mid, bs, j);
      }
    }
  }

  /**
   * hash_state_scrypt_fill: block 0 from the stream seeded with in and salt,
   * then each later block from its predecessor.  done blocks are in place
   * (all n_blocks unless compress failed); the rest are untouched.
   */
  method ScryptFill(s: HashState, input: seq<byte>, salt: seq<byte>) returns (err: ErrorCode, ghost done: nat)
    requires s.Valid()
    modifies s.buffer
    ensures s.Valid()
    ensures 1 <= done <= s.nBlocks && (err == ErrorNone ==> done == s.nBlocks)
    ensures s.buffer[0] == KeystreamBytes(s.ks, input + salt, 0, s.blockSize)
    ensures Chained(s.p, s.opts.compOpts, s.buffer[..], s.blockSize, done)
    ensures forall k :: done <= k < s.buffer.Length ==> s.buffer[k] == old(s.buffer[k])
    ensures err != ErrorNone ==> done < s.nBlocks
    ensures err != ErrorNone ==> WellFormedInput(s.opts.compOpts, [s.buffer[done - 1], Zero(s.blockSize)])
    ensures err != ErrorNone ==> CompressSpec(s.p, s.opts.compOpts, [s.buffer[done - 1], Zero(s.blockSize)]) == Err(err)
  {
    err := s.FillFromStrings(0, 1, input, salt);
    var zeros := Zero(s.blockSize);
    var i := 1;
    done := 1;
    while i < s.nBlocks
      invariant 1 <= i <= s.nBlocks && done == i
      invariant s.Valid()
      invariant s.buffer[0] == KeystreamBytes(s.ks, input + salt, 0, s.blockSize)
      invariant Chained(s.p, s.opts.compOpts, s.buffer[..], s.blockSize, i)
      invariant forall k :: i <= k < s.buffer.Length ==> s.buffer[k] == old(s.buffer[k])
    {
      var blocks := [s.buffer[i - 1], zeros];
      var r := Compress.Compress(s.p, s.opts.compOpts, blocks);
      if r.Err? {
        return r.error, done;
      }
      CompressOutputSize(s.p, s.opts.compOpts, blocks);
      ghost var mid := s.buffer[..];
      s.buffer[i] := r.value;
      ChainedExtend(s.p, s.opts.compOpts, mid, s.buffer[..], s.blockSize, i, r.value);
      i := i + 1;
      done := i;
    }
    err := ErrorNone;
  }

  /** hash_state_scrypt_mix: scrypt has no mixing pass; nothing changes. */
  method ScryptMix(s: HashState) returns (err: ErrorCode)
    ensures err == ErrorNone
  {
    err := ErrorNone;
  }

  /**
   * steps steps of extract's walk from acc: each compresses acc with the
   * block integrify(acc) mod n selects.
   */
  ghost function ScryptRun(p: Primitives, co: CompOptions, blocks: seq<Block>, n: nat, acc: Block, steps: nat): (r: Result<Block>)
    requires co.comp != CompEnd && 1 <= n <= |blocks|
    requires forall k :: 0 <= k < n ==> |blocks[k]| == BlockSize(co.comp)
    requires |acc| == BlockSize(co.comp)
    ensures r.Ok? ==> |r.value| == BlockSize(co.comp)
    decreases steps
  {
    if steps == 0 then Ok(acc)
    else
      var inputs := [acc, blocks[Integrify(acc) % n]];
      var next := CompressSpec(p, co, inputs);
      if next.Err? then Err(next.error)
      else
        CompressOutputSize(p, co, inputs);
        ScryptRun(p, co, blocks, n, next.value, steps - 1)
  }

  /** A failing step ends the walk with that step's error; a successful one continues from its output. */
  lemma ScryptRunStep(p: Primitives, co: CompOptions, blocks: seq<Block>, n: nat, acc: Block, steps: nat, b: Block)
    requires co.comp != CompEnd && 1 <= n <= |blocks|
    requires forall k :: 0 <= k < n ==> |blocks[k]| == BlockSize(co.comp)
    requires |acc| == BlockSize(co.comp) && steps >= 1
    requires Integrify(acc) % n < n && b == blocks[Integrify(acc) % n]
    ensures var step := CompressSpec(p, co, [acc, b]);
      && (step.Err? ==> ScryptRun(p, co, blocks, n, acc, steps) == Err(step.error))
      && (step.Ok? ==> (|step.value| == BlockSize(co.comp)
                        && ScryptRun(p, co, blocks, n, acc, steps) == ScryptRun(p, co, blocks, n, step.value, steps - 1)))
  {
    var inputs := [acc, blocks[Integrify(acc) % n]];
    assert inputs == [acc, b];
    if CompressSpec(p, co, inputs).Ok? {
      CompressOutputSize(p, co, inputs);
    }
  }

  /** Extract's whole walk: n steps from the last of the n blocks. */
  ghost function ScryptWalkOf(p: Primitives, co: CompOptions, blocks: seq<Block>, n: nat): (r: Result<Block>)
    requires co.comp != CompEnd && 1 <= n <= |blocks|
    requires forall k :: 0 <= k < n ==> |blocks[k]| == BlockSize(co.comp)
  {
    ScryptRun(p, co, blocks, n, blocks[n - 1], n)
  }

  /**
   * hash_state_scrypt_extract: n_blocks steps from the last block, then the
   * output bytes from a stream seeded with the final accumulator alone.  The
   * buffer is only read.
   */
  method ScryptExtract(s: HashState, outlen: nat) returns (err: ErrorCode, out: seq<byte>)
    requires s.Valid()
    ensures var run := ScryptWalkOf(s.p, s.opts.compOpts, s.buffer[..], s.nBlocks);
      && (run.Err? ==> err == run.error)
      && (run.Ok? ==> err == ErrorNone && out == KeystreamBytes(s.ks, run.value, 0, outlen))
  {
    ghost var cur := s.buffer[..];
    var r := ScryptWalk(s);
    if r.Err? {
      return r.error, [];
    }
    err, out := FillBytesFromStrings(s.ks, r.value, [], outlen);
    assert r.value + [] == r.value;
    // the stream fill allocates, so the buffer is shown unchanged block by block
    forall k | 0 <= k < s.buffer.Length ensures s.buffer[k] == cur[k] {}
    assert s.buffer[..] == cur;
  }

  /** The n compression steps of the extract, from the last block, reading the buffer only. */
  method ScryptWalk(s: HashState) returns (r: Result<Block>)
    requires s.Valid()
    ensures r == ScryptWalkOf(s.p, s.opts.compOpts, s.buffer[..], s.nBlocks)
  {
    var n := s.nBlocks;
    ghost var blocks := s.buffer[..];
    ghost var run := ScryptWalkOf(s.p, s.opts.compOpts, blocks, n);
    var acc := s.buffer[n - 1];
    var i := 0;
    while i < n
      invariant i <= n && |acc| == s.blockSize
      invariant run == ScryptRun(s.p, s.opts.compOpts, blocks, n, acc, n - i)
    {
      var next := Integrify(acc) % n;
      var step := Compress.Compress(s.p, s.opts.compOpts, [acc, s.buffer[next]]);
      ScryptRunStep(s.p, s.opts.compOpts, blocks, n, acc, n - i, s.buffer[next]);
      if step.Err? {
        return Err(step.error);
      }
      acc := step.value;
      i := i + 1;
    }
    r := Ok(acc);
  }
}
