/*
 * The multi-threaded double-buffer strategy of libbaghash/hash_state_double_par.c.
 *
 * The half-buffer of blocks_per_buf blocks is cut into one contiguous range
 * per worker.  fill has each worker write its range of src from a stream
 * seeded with in, salt and its two-byte index; mix has each worker compute
 * its range of dst, every block the compression of src blocks drawn from the
 * worker's own stream (there is no previous-block input), and then the
 * halves swap.  The workers touch disjoint blocks and separate streams, so
 * running them one after the other in index order gives what the threads
 * give; the error reported is the first one in join (index) order.
 */
module HashStateDoublePar {
  import opened Bytes
  import opened Errors
  import opened Primitives
  import opened Compress
  import opened BalloonOptions
  import opened HashStates
  import opened Encode
  import BagBitstream

  /** seedlen of hash_state_double_par_init: bytes of main stream per worker seed. */
  const SEED_LEN: nat := 32

  // ---------------------------------------------------------------------------
  // Worker ranges
  // ---------------------------------------------------------------------------

  /** The ranges of all workers fit in the half: n_threads * (blocks_per_buf / n_threads) <= blocks_per_buf. */
  lemma SpanFits(bpb: nat, threads: nat)
    requires 1 <= threads
    ensures Span(threads, bpb / threads) <= bpb
  {
    SpanIsProduct(threads, bpb / threads);
  }

  /** start of mix_partial: thread_idx * (blocks_per_buf / n_threads). */
  function WorkerStart(bpb: nat, threads: nat, w: nat): (start: nat)
    requires 1 <= threads && w < threads
    ensures start <= bpb
  {
    SpanMonotone(w, threads, bpb / threads);
    SpanFits(bpb, threads);
    Span(w, bpb / threads)
  }

  /** end of mix_partial as written: the last worker stops at blocks_per_buf - 1. */
  function WorkerEndAsWritten(bpb: nat, threads: nat, w: nat): (end: nat)
    requires 1 <= bpb && 1 <= threads && w < threads
    ensures WorkerStart(bpb, threads, w) <= end <= bpb
  {
    var q := bpb / threads;
    SpanMonotone(w + 1, threads, q);
    SpanFits(bpb, threads);
    if w == threads - 1 then
      (if q == 0 then SpanIsProduct(w, q); bpb - 1 else bpb - 1)
    else
      WorkerStart(bpb, threads, w) + q
  }

  /** end with the last worker running to blocks_per_buf, so that the ranges cover the half. */
  function WorkerEnd(bpb: nat, threads: nat, w: nat): (end: nat)
    requires 1 <= threads && w < threads
    ensures WorkerStart(bpb, threads, w) <= end <= bpb
  {
    var q := bpb / threads;
    if w == threads - 1 then bpb
    else
      SpanMonotone(w + 1, threads, q);
      SpanFits(bpb, threads);
      WorkerStart(bpb, threads, w) + q
  }

  /** Consecutive workers' ranges meet, the first starts at 0 and the last ends at blocks_per_buf. */
  lemma WorkerRangesTile(bpb: nat, threads: nat, w: nat)
    requires 1 <= threads && w < threads
    ensures WorkerStart(bpb, threads, 0) == 0 && WorkerEnd(bpb, threads, threads - 1) == bpb
    ensures w + 1 < threads ==> WorkerEnd(bpb, threads, w) == WorkerStart(bpb, threads, w + 1)
  {
  }

  /** The worker whose range holds block k. */
  function Owner(bpb: nat, threads: nat, k: nat): (w: nat)
    requires 1 <= threads && k < bpb
    ensures w < threads
  {
    var q := bpb / threads;
    if q == 0 || k / q >= threads then threads - 1 else k / q
  }

  /** Worker o's range, in products: o * q <= k, and k < (o + 1) * q unless o is the last worker. */
  lemma OwnerBounds(bpb: nat, threads: nat, k: nat)
    requires 1 <= threads && k < bpb
    ensures var q, o := bpb / threads, Owner(bpb, threads, k);
      && o * q <= k && (o < threads - 1 ==> k < (o + 1) * q)
  {
    var q := bpb / threads;
    var o := Owner(bpb, threads, k);
    if q == 0 {
      assert o * q == 0;
    } else {
      var d := k / q;
      DivBounds(k, q);
      if d >= threads {
        assert o == threads - 1;
        MulMonotone(threads - 1, d, q);
      } else {
        assert o == d;
        MulStep(d, q);
      }
    }
  }

  /** The quotient k / q brackets k between two consecutive multiples of q. */
  lemma DivBounds(k: nat, q: nat)
    requires q >= 1
    ensures (k / q) * q <= k < (k / q) * q + q
  {
    var d, r := k / q, k % q;
    assert k == d * q + r && 0 <= r < q;
  }

  /** Block k lies in its owner's range and in no other worker's: the corrected ranges partition the half. */
  lemma {:induction false} WorkerRangesPartition(bpb: nat, threads: nat, k: nat, w: nat)
    requires 1 <= threads && k < bpb && w < threads
    ensures WorkerStart(bpb, threads, Owner(bpb, threads, k)) <= k < WorkerEnd(bpb, threads, Owner(bpb, threads, k))
    ensures WorkerStart(bpb, threads, w) <= k < WorkerEnd(bpb, threads, w) ==> w == Owner(bpb, threads, k)
  {
    var q := bpb / threads;
    var o := Owner(bpb, threads, k);
    OwnerBounds(bpb, threads, k);
    SpanIsProduct(o, q);
    SpanIsProduct(o + 1, q);
    if w < o {
      SpanMonotone(w + 1, o, q);
    } else if w > o {
      SpanMonotone(o + 1, w, q);
    }
  }

  /** A worker before another ends no later than the other starts. */
  lemma WorkerRangesOrdered(bpb: nat, threads: nat, w1: nat, w2: nat)
    requires 1 <= threads && w1 < w2 < threads
    ensures WorkerEnd(bpb, threads, w1) <= WorkerStart(bpb, threads, w2)
  {
    SpanMonotone(w1 + 1, w2, bpb / threads);
  }

  /** As written, the last block of the half lies in no worker's range: fill and mix never write it. */
  lemma {:induction false} WorkerRangesAsWrittenMissLast(bpb: nat, threads: nat, w: nat)
    requires 1 <= bpb && 1 <= threads && w < threads
    ensures !(WorkerStart(bpb, threads, w) <= bpb - 1 < WorkerEndAsWritten(bpb, threads, w))
  {
    var q := bpb / threads;
    if w < threads - 1 {
      SpanMonotone(w + 1, threads - 1, q);
      SpanFits(bpb, threads);
      if q == 0 {
        SpanIsProduct(w, q);
      }
    }
  }

  /** Eight blocks with two workers: worker 1 covers blocks 4 .. 6 and block 7 is left alone. */
  lemma WorkerRangesAsWrittenExample()
    ensures WorkerStart(8, 2, 1) == 4 && WorkerEndAsWritten(8, 2, 1) == 7 && WorkerEnd(8, 2, 1) == 8
  {
  }

  // ---------------------------------------------------------------------------
  // State
  // ---------------------------------------------------------------------------

  /** The worker streams held in the extra data, if any. */
  function Streams(s: HashState): (r: set<BagBitstream.BagBitstream>)
    reads s
  {
    if s.extra.ParData? then set w | w in s.extra.streams else {}
  }

  /** src and dst are the two halves of the buffer. */
  ghost predicate ParHalves(s: HashState)
    reads s
  {
    && s.extra.ParData?
    && ((s.extra.src == 0 && s.extra.dst == s.nBlocks / 2) || (s.extra.src == s.nBlocks / 2 && s.extra.dst == 0))
  }

  /**
   * struct double_par_data after init: src and dst are the two halves, and
   * there is one seeded stream per worker, no two the same.
   */
  ghost predicate ParReady(s: HashState)
    reads s, Streams(s)
  {
    && ParHalves(s)
    && |s.extra.streams| == s.opts.nThreads
    && (forall w :: 0 <= w < |s.extra.streams| ==> s.extra.streams[w].initialized && s.extra.streams[w].ks == s.ks)
    && (forall w, v :: 0 <= w < v < |s.extra.streams| ==> s.extra.streams[w] != s.extra.streams[v])
  }

  /**
   * hash_state_double_par_init: for each worker, 32 bytes of the main
   * stream become the seed of its own stream.  The main stream advances by
   * 32 bytes per worker.
   */
  method ParInit(s: HashState) returns (err: ErrorCode)
    requires s.Valid()
    modifies s`extra, s.bstream`pos
    ensures s.Valid() && ParReady(s) && err == ErrorNone
    ensures s.extra.src == 0 && s.extra.dst == s.nBlocks / 2
    ensures s.bstream.pos == old(s.bstream.pos) + SEED_LEN * s.opts.nThreads
    ensures forall w :: 0 <= w < s.opts.nThreads ==>
      && fresh(s.extra.streams[w])
      && s.extra.streams[w].key == KeystreamBytes(s.ks, s.bstream.key, old(s.bstream.pos) + SEED_LEN * w, SEED_LEN)
      && s.extra.streams[w].pos == 0
  {
    var streams: seq<BagBitstream.BagBitstream> := [];
    var i := 0;
    while i < s.opts.nThreads
      invariant i <= s.opts.nThreads && |streams| == i && s.Valid()
      invariant s.bstream.pos == old(s.bstream.pos) + SEED_LEN * i
      invariant forall w :: 0 <= w < i ==>
        && fresh(streams[w]) && streams[w].initialized && streams[w].ks == s.ks && streams[w].pos == 0
        && streams[w].key == KeystreamBytes(s.ks, s.bstream.key, old(s.bstream.pos) + SEED_LEN * w, SEED_LEN)
      invariant forall w, v :: 0 <= w < v < i ==> streams[w] != streams[v]
    {
      var st := NewWorkerStream(s);
      streams := streams + [st];
      i := i + 1;
    }
    s.extra := ParData(0, s.nBlocks / 2, streams);
    err := ErrorNone;
  }

  /** One worker's stream, seeded with the next 32 bytes of the main stream. */
  method NewWorkerStream(s: HashState) returns (st: BagBitstream.BagBitstream)
    requires s.Valid()
    modifies s.bstream`pos
    ensures fresh(st) && st.initialized && st.ks == s.ks && st.pos == 0
    ensures st.key == KeystreamBytes(s.ks, s.bstream.key, old(s.bstream.pos), SEED_LEN)
    ensures s.bstream.pos == old(s.bstream.pos) + SEED_LEN
  {
    var seed := new byte[SEED_LEN];
    var err := s.bstream.FillBuffer(seed, SEED_LEN);
    assert seed[..] == seed[..SEED_LEN];
    st := new BagBitstream.BagBitstream.InitWithSeed(s.ks, seed[..]);
  }

  // ---------------------------------------------------------------------------
  // Fill
  // ---------------------------------------------------------------------------

  /** The seed of worker w's fill stream: in, salt, then i & 0xff and (i >> 8) & 0xff. */
  function WorkerSeed(input: seq<byte>, salt: seq<byte>, w: nat): (seed: seq<byte>)
    ensures |seed| == |input| + |salt| + 2 && seed[..|input| + |salt|] == input + salt
  {
    input + salt + LittleEndianBytes(w, 2)
  }

  /** The two index bytes tell every uint16_t index apart. */
  lemma IndexBytesInjective(w: nat, v: nat)
    requires w < 65536 && v < 65536 && w != v
    ensures LittleEndianBytes(w, 2) != LittleEndianBytes(v, 2)
  {
    assert Pow256(2) == 65536 by {
      assert Pow256(1) == 256 * Pow256(0);
    }
    DecodeEncode(w, 2);
    DecodeEncode(v, 2);
    DivModUnique(w, 65536, 0, w);
    DivModUnique(v, 65536, 0, v);
    assert LittleEndian(LittleEndianBytes(w, 2)) == w;
    assert LittleEndian(LittleEndianBytes(v, 2)) == v;
  }

  /** Two workers' seeds differ, as long as their indices fit the uint16_t thread_idx. */
  lemma WorkerSeedsDistinct(input: seq<byte>, salt: seq<byte>, w: nat, v: nat)
    requires w < 65536 && v < 65536 && w != v
    ensures WorkerSeed(input, salt, w) != WorkerSeed(input, salt, v)
  {
    var n := |input| + |salt|;
    IndexBytesInjective(w, v);
    assert WorkerSeed(input, salt, w)[n..] == LittleEndianBytes(w, 2);
    assert WorkerSeed(input, salt, v)[n..] == LittleEndianBytes(v, 2);
  }

  /** What src block k holds after fill: its owner's stream, read from the start of the owner's range. */
  function ParFillBlock(ks: Keystream, input: seq<byte>, salt: seq<byte>, bs: nat, bpb: nat, threads: nat, k: nat): Block
    requires 1 <= threads && k < bpb
  {
    var w := Owner(bpb, threads, k);
    WorkerRangesPartition(bpb, threads, k, w);
    KeystreamBytes(ks, WorkerSeed(input, salt, w), Span(k - WorkerStart(bpb, threads, w), bs), bs)
  }

  /** A block in worker w's range is worker w's stream output, read from the start of its range. */
  lemma FillBlockOfWorker(ks: Keystream, input: seq<byte>, salt: seq<byte>, bs: nat, bpb: nat, threads: nat, w: nat, j: nat)
    requires 1 <= threads && w < threads && WorkerStart(bpb, threads, w) <= j < WorkerEnd(bpb, threads, w)
    ensures ParFillBlock(ks, input, salt, bs, bpb, threads, j)
         == KeystreamBytes(ks, WorkerSeed(input, salt, w), Span(j - WorkerStart(bpb, threads, w), bs), bs)
  {
    WorkerRangesPartition(bpb, threads, j, w);
  }

  /** Worker w's stream output written from the start of its range is what the owners' fill puts there. */
  lemma StreamIsParFill(s: HashState, input: seq<byte>, salt: seq<byte>, w: nat, from: nat, count: nat)
    requires ParHalves(s) && s.nBlocks <= s.buffer.Length && w < s.opts.nThreads
    requires from == s.extra.src + WorkerStart(s.nBlocks / 2, s.opts.nThreads, w)
    requires from + count == s.extra.src + WorkerEnd(s.nBlocks / 2, s.opts.nThreads, w)
    requires forall k :: from <= k < from + count ==>
      s.buffer[k] == KeystreamBytes(s.ks, WorkerSeed(input, salt, w), Span(k - from, s.blockSize), s.blockSize)
    ensures forall j :: WorkerStart(s.nBlocks / 2, s.opts.nThreads, w) <= j < WorkerEnd(s.nBlocks / 2, s.opts.nThreads, w) ==>
      s.buffer[s.extra.src + j] == ParFillBlock(s.ks, input, salt, s.blockSize, s.nBlocks / 2, s.opts.nThreads, j)
  {
    forall j | WorkerStart(s.nBlocks / 2, s.opts.nThreads, w) <= j < WorkerEnd(s.nBlocks / 2, s.opts.nThreads, w)
      ensures s.buffer[s.extra.src + j] == ParFillBlock(s.ks, input, salt, s.blockSize, s.nBlocks / 2, s.opts.nThreads, j)
    {
      FillBlockOfWorker(s.ks, input, salt, s.blockSize, s.nBlocks / 2, s.opts.nThreads, w, j);
      assert s.buffer[from + (j - WorkerStart(s.nBlocks / 2, s.opts.nThreads, w))] == s.buffer[s.extra.src + j];
    }
  }

  /**
   * One worker of run_threads with mix = false: a fresh stream seeded with
   * in, salt and the index writes (end - start) blocks into src from start.
   */
  method FillWorker(s: HashState, input: seq<byte>, salt: seq<byte>, w: nat) returns (err: ErrorCode)
    requires s.Valid() && ParHalves(s) && w < s.opts.nThreads
    modifies s.buffer
    ensures s.Valid() && err == ErrorNone
    ensures var start, end := WorkerStart(s.nBlocks / 2, s.opts.nThreads, w), WorkerEnd(s.nBlocks / 2, s.opts.nThreads, w);
      && (forall j :: start <= j < end ==>
            s.buffer[s.extra.src + j] == ParFillBlock(s.ks, input, salt, s.blockSize, s.nBlocks / 2, s.opts.nThreads, j))
      && (forall k :: 0 <= k < s.buffer.Length && !(s.extra.src + start <= k < s.extra.src + end) ==>
            s.buffer[k] == old(s.buffer[k]))
  {
    var bpb, bs, src := s.nBlocks / 2, s.blockSize, s.extra.src;
    var start, end := WorkerStart(bpb, s.opts.nThreads, w), WorkerEnd(bpb, s.opts.nThreads, w);
    var count := end - start;
    var bytes := WorkerBytes(s.ks, input, salt, w, Span(count, bs));
    s.WriteStream(src + start, count, WorkerSeed(input, salt, w), bytes);
    StreamIsParFill(s, input, salt, w, src + start, count);
    err := ErrorNone;
  }

  /** The len bytes a fresh stream seeded with in, salt and worker w's index bytes yields. */
  method WorkerBytes(ks: Keystream, input: seq<byte>, salt: seq<byte>, w: nat, len: nat) returns (bytes: seq<byte>)
    ensures bytes == KeystreamBytes(ks, WorkerSeed(input, salt, w), 0, len)
  {
    var pstream := new BagBitstream.BagBitstream(ks);
    var err := pstream.SeedAdd(input);
    err := pstream.SeedAdd(salt);
    err := pstream.SeedAdd(LittleEndianBytes(w, 2));
    err := pstream.SeedFinalize(BagBitstream.AesSetEncryptKey(BagBitstream.AES_CTR_KEY_LEN));
    assert pstream.key == WorkerSeed(input, salt, w);
    var buf := new byte[len];
    err := pstream.FillBuffer(buf, len);
    assert buf[..] == buf[..len];
    bytes := buf[..];
  }

  /**
   * hash_state_double_par_fill: every worker fills its range of src, so
   * every src block is its owner's stream output; dst is untouched.  With
   * no workers, run_threads declares zero-length arrays, which C leaves
   * undefined.  The model reads that case as changing nothing.
   */
  method ParFill(s: HashState, input: seq<byte>, salt: seq<byte>) returns (err: ErrorCode)
    requires s.Valid() && ParReady(s)
    modifies s.buffer
    ensures s.Valid() && err == ErrorNone
    ensures s.opts.nThreads >= 1 ==> Filled(s, input, salt, s.nBlocks / 2)
    ensures s.opts.nThreads >= 1 ==> KeptOutside(s, old(s.buffer[..]), s.extra.src, s.extra.src + s.nBlocks / 2)
    ensures s.opts.nThreads == 0 ==> s.buffer[..] == old(s.buffer[..])
  {
    var threads := s.opts.nThreads;
    if threads == 0 {
      return ErrorNone;
    }
    ghost var before := s.buffer[..];
    var w := 0;
    while w < threads
      invariant w <= threads && s.Valid() && FilledUpTo(s, input, salt, before, w)
    {
      FillThread(s, input, salt, w, before);
      w := w + 1;
    }
    err := ErrorNone;
  }

  /**
   * The fill half of run_threads as written (mix = false).  Each worker's
   * stream is seeded and finalized before its thread is created, and the
   * finalize as written fails whenever OpenSSL accepts the 256-bit key.  So
   * with at least one worker, worker 0's finalize ends the fill with
   * ERROR_OPENSSL_AES before any thread starts.  The method modifies
   * nothing, so no block is written.  With no workers it returns ERROR_NONE.
   */
  method ParFillAsWritten(s: HashState, input: seq<byte>, salt: seq<byte>) returns (err: ErrorCode)
    ensures err == (if s.opts.nThreads == 0 then ErrorNone else ErrorOpensslAes)
  {
    err := ErrorNone;
    var i := 0;
    while i < s.opts.nThreads && err == ErrorNone
      invariant i <= 1 && i <= s.opts.nThreads
      invariant err == (if i == 0 then ErrorNone else ErrorOpensslAes)
    {
      var pstream := new BagBitstream.BagBitstream(s.ks);
      var e := pstream.SeedAdd(input);
      e := pstream.SeedAdd(salt);
      e := pstream.SeedAdd(LittleEndianBytes(i, 2));
      err := pstream.SeedFinalizeAsWritten(BagBitstream.AesSetEncryptKey(BagBitstream.AES_CTR_KEY_LEN));
      i := i + 1;
    }
  }

  /** The ranges of the first w workers are filled, and nothing else has changed since before. */
  ghost predicate FilledUpTo(s: HashState, input: seq<byte>, salt: seq<byte>, before: seq<Block>, w: nat)
    reads s, s.buffer
  {
    && ParHalves(s) && s.nBlocks <= s.buffer.Length && 1 <= s.opts.nThreads && w <= s.opts.nThreads
    && Filled(s, input, salt, Done(s.nBlocks / 2, s.opts.nThreads, w))
    && KeptOutside(s, before, s.extra.src, s.extra.src + Done(s.nBlocks / 2, s.opts.nThreads, w))
  }

  /** The first upto blocks of src hold their owners' stream output. */
  ghost predicate Filled(s: HashState, input: seq<byte>, salt: seq<byte>, upto: nat)
    requires ParHalves(s) && s.nBlocks <= s.buffer.Length && 1 <= s.opts.nThreads && upto <= s.nBlocks / 2
    reads s, s.buffer
  {
    forall j :: 0 <= j < upto ==>
      s.buffer[s.extra.src + j] == ParFillBlock(s.ks, input, salt, s.blockSize, s.nBlocks / 2, s.opts.nThreads, j)
  }

  /** Every block outside [lo, hi) still holds what it held in before. */
  ghost predicate KeptOutside(s: HashState, before: seq<Block>, lo: nat, hi: nat)
    reads s, s.buffer
  {
    KeptOutsideIn(s.buffer[..], before, lo, hi)
  }

  /** Every block of buf outside [lo, hi) is the one before holds. */
  ghost predicate KeptOutsideIn(buf: seq<Block>, before: seq<Block>, lo: nat, hi: nat) {
    && |before| == |buf|
    && forall k :: 0 <= k < |buf| && !(lo <= k < hi) ==> buf[k] == before[k]
  }

  /** Two writes, the second right after the first's range, keep everything outside both. */
  lemma KeptChain(buf: seq<Block>, mid: seq<Block>, before: seq<Block>, lo: nat, m: nat, hi: nat, end: nat)
    requires KeptOutsideIn(mid, before, lo, m) && KeptOutsideIn(buf, mid, m, hi) && lo <= m <= hi <= end
    ensures KeptOutsideIn(buf, before, lo, end)
  {
    forall k | 0 <= k < |buf| && !(lo <= k < end)
      ensures buf[k] == before[k]
    {
      assert buf[k] == mid[k] && mid[k] == before[k];
    }
  }

  /** One worker of fill's run_threads, extending what is filled by worker w's range. */
  method FillThread(s: HashState, input: seq<byte>, salt: seq<byte>, w: nat, ghost before: seq<Block>)
    requires s.Valid() && w < s.opts.nThreads && FilledUpTo(s, input, salt, before, w)
    modifies s.buffer
    ensures s.Valid() && FilledUpTo(s, input, salt, before, w + 1)
  {
    var bpb, threads := s.nBlocks / 2, s.opts.nThreads;
    DoneBounds(bpb, threads, w);
    var src, start, end := s.extra.src, WorkerStart(bpb, threads, w), WorkerEnd(bpb, threads, w);
    var err := FillWorker(s, input, salt, w);
    forall j | 0 <= j < start
      ensures s.buffer[s.extra.src + j] == ParFillBlock(s.ks, input, salt, s.blockSize, s.nBlocks / 2, s.opts.nThreads, j)
    {
      assert s.buffer[src + j] == old(s.buffer[src + j]);
    }
  }

  // ---------------------------------------------------------------------------
  // Mix
  // ---------------------------------------------------------------------------

  /**
   * row_neighbors for a block: n_neighbors, unless the options ask for XOR
   * with no neighbour count, when the matrix generator's row weight for
   * that block is used.
   */
  function RowNeighbors(opts: Options, weights: seq<nat>, i: nat): (n: nat)
    requires i < |weights|
    ensures opts.compOpts.comb == CombXor && opts.nNeighbors == 0 ==> n == weights[i]
    ensures !(opts.compOpts.comb == CombXor && opts.nNeighbors == 0) ==> n == opts.nNeighbors
  {
    if opts.compOpts.comb == CombXor && opts.nNeighbors == 0 then weights[i] else opts.nNeighbors
  }

  /** compress needs a first block whenever it XORs or runs Argon's chain. */
  ghost predicate RowSizesOk(opts: Options, weights: seq<nat>, bpb: nat) {
    && |weights| == bpb
    && forall i :: 0 <= i < bpb && (opts.compOpts.comb == CombXor || ReadsFirstBlock(opts.compOpts.comp)) ==>
         RowNeighbors(opts, weights, i) >= 1
  }

  /** buf holds half from index src on. */
  ghost predicate HalfAt(buf: seq<Block>, src: nat, half: seq<Block>) {
    src + |half| <= |buf| && forall j :: 0 <= j < |half| ==> buf[src + j] == half[j]
  }

  /** Writing only outside the src half leaves it holding what it held. */
  lemma HalfKept(buf: seq<Block>, before: seq<Block>, src: nat, half: seq<Block>, lo: nat, hi: nat)
    requires KeptOutsideIn(buf, before, lo, hi) && HalfAt(before, src, half)
    requires hi <= src || src + |half| <= lo
    ensures HalfAt(buf, src, half)
  {
    forall j | 0 <= j < |half|
      ensures buf[src + j] == half[j]
    {
      assert buf[src + j] == before[src + j];
    }
  }

  /** dst block value v is the compression of the src-half blocks row picks, row being a valid draw. */
  ghost predicate ParMixed(p: Primitives, opts: Options, weights: seq<nat>, half: seq<Block>, i: nat, row: seq<nat>, v: Block)
    requires i < |weights|
  {
    && |row| == RowNeighbors(opts, weights, i)
    && RowBelow(row, |half|)
    && (opts.compOpts.comb == CombXor ==> BagBitstream.NoDuplicates(row))
    && WellFormedInput(opts.compOpts, Gather(half, row))
    && CompressSpec(p, opts.compOpts, Gather(half, row)) == Ok(v)
  }

  /** Block dst + i of buf holds the compression of the src-half blocks row picks. */
  ghost predicate MixedRow(p: Primitives, opts: Options, weights: seq<nat>, half: seq<Block>, buf: seq<Block>,
                           dst: nat, i: nat, row: seq<nat>)
    requires i < |weights| && dst + i < |buf|
  {
    ParMixed(p, opts, weights, half, i, row, buf[dst + i])
  }

  /**
   * One dst block of mix_partial: draw its row from the worker's stream and
   * compress the src blocks it picks; the caller writes out into dst.
   */
  method MixBlock(s: HashState, st: BagBitstream.BagBitstream, weights: seq<nat>, i: nat, ghost half: seq<Block>)
    returns (err: ErrorCode, ghost row: seq<nat>, out: Block)
    requires s.Valid() && ParHalves(s) && st.initialized && st.ks == s.ks
    requires i < s.nBlocks / 2 && RowSizesOk(s.opts, weights, s.nBlocks / 2) && s.nBlocks <= BagBitstream.SIZE_MAX
    requires HalfAt(s.buffer[..], s.extra.src, half) && |half| == s.nBlocks / 2
    modifies st`pos
    ensures err == ErrorNone ==> ParMixed(s.p, s.opts, weights, half, i, row, out) && |out| == s.blockSize
  {
    var bpb, src := s.nBlocks / 2, s.extra.src;
    var n := RowNeighbors(s.opts, weights, i);
    var picks;
    err, picks := st.RandInts(n, bpb, s.opts.compOpts.comb == CombXor);
    row := picks;
    if err != ErrorNone {
      return err, row, [];
    }
    var blocks: seq<Block> := [];
    var j := 0;
    while j < n
      invariant j <= n && |blocks| == j
      invariant forall x :: 0 <= x < j ==> blocks[x] == half[picks[x]]
    {
      blocks := blocks + [s.buffer[src + picks[j]]];
      j := j + 1;
    }
    assert blocks == Gather(half, picks);
    var r := Compress.Compress(s.p, s.opts.compOpts, blocks);
    if r.Err? {
      return r.error, row, [];
    }
    CompressOutputSize(s.p, s.opts.compOpts, blocks);
    out := r.value;
  }

  /** rows[j] is the draw of dst block from + j, and buf holds its compression, for every j. */
  ghost predicate RangeMixed(p: Primitives, opts: Options, weights: seq<nat>, half: seq<Block>,
                             buf: seq<Block>, dst: nat, from: nat, rows: seq<seq<nat>>)
    requires dst + from + |rows| <= |buf| && from + |rows| <= |weights|
  {
    forall j :: 0 <= j < |rows| ==> MixedRow(p, opts, weights, half, buf, dst, from + j, rows[j])
  }

  /** The blocks of a range mixed so far: rows picks from start on, nothing else written since before. */
  ghost predicate RangeDoneIn(p: Primitives, opts: Options, weights: seq<nat>, half: seq<Block>, before: seq<Block>,
                              buf: seq<Block>, dst: nat, start: nat, picks: seq<seq<nat>>)
    requires dst + start + |picks| <= |buf| && start + |picks| <= |weights|
  {
    && RangeMixed(p, opts, weights, half, buf, dst, start, picks)
    && KeptOutsideIn(buf, before, dst + start, dst + start + |picks|)
  }

  /** The same, for the buffer of a hash state. */
  ghost predicate RangeDone(s: HashState, weights: seq<nat>, half: seq<Block>, before: seq<Block>, start: nat,
                            picks: seq<seq<nat>>)
    requires ParHalves(s) && s.nBlocks <= s.buffer.Length && start + |picks| <= s.nBlocks / 2 && |weights| == s.nBlocks / 2
    reads s, s.buffer
  {
    RangeDoneIn(s.p, s.opts, weights, half, before, s.buffer[..], s.extra.dst, start, picks)
  }

  /** Writing the compression of the next row just after the range extends what is mixed by that row. */
  lemma RangeDoneExtend(p: Primitives, opts: Options, weights: seq<nat>, half: seq<Block>, before: seq<Block>,
                        buf: seq<Block>, buf': seq<Block>, dst: nat, start: nat, picks: seq<seq<nat>>,
                        row: seq<nat>, out: Block)
    requires dst + start + |picks| < |buf| && start + |picks| < |weights|
    requires buf' == buf[dst + start + |picks| := out]
    requires RangeDoneIn(p, opts, weights, half, before, buf, dst, start, picks)
    requires ParMixed(p, opts, weights, half, start + |picks|, row, out)
    ensures RangeDoneIn(p, opts, weights, half, before, buf', dst, start, picks + [row])
  {
    var picks' := picks + [row];
    forall j | 0 <= j < |picks'|
      ensures MixedRow(p, opts, weights, half, buf', dst, start + j, picks'[j])
    {
      if j < |picks| {
        assert picks'[j] == picks[j];
        assert MixedRow(p, opts, weights, half, buf, dst, start + j, picks[j]);
      }
    }
    forall k | 0 <= k < |buf'| && !(dst + start <= k < dst + start + |picks'|)
      ensures buf'[k] == before[k]
    {
      assert buf'[k] == buf[k];
    }
  }

  /**
   * One iteration of mix_partial's loop: the next block of the range is
   * drawn, compressed and written.  On an error nothing is written.
   */
  method MixStep(s: HashState, st: BagBitstream.BagBitstream, weights: seq<nat>, start: nat, i: nat, ghost half: seq<Block>,
                 ghost before: seq<Block>, ghost picks: seq<seq<nat>>)
    returns (err: ErrorCode, ghost picks': seq<seq<nat>>)
    requires s.Valid() && ParHalves(s) && st.initialized && st.ks == s.ks
    requires RowSizesOk(s.opts, weights, s.nBlocks / 2) && s.nBlocks <= BagBitstream.SIZE_MAX
    requires i == start + |picks| < s.nBlocks / 2 && |half| == s.nBlocks / 2
    requires HalfAt(before, s.extra.src, half) && RangeDone(s, weights, half, before, start, picks)
    modifies s.buffer, st`pos
    ensures s.Valid() && start + |picks'| <= s.nBlocks / 2
    ensures RangeDone(s, weights, half, before, start, picks') == true
    ensures err == ErrorNone ==> |picks'| == |picks| + 1
    ensures err != ErrorNone ==> picks' == picks
  {
    assert s.extra.dst + s.nBlocks / 2 <= s.buffer.Length && s.extra.src + s.nBlocks / 2 <= s.buffer.Length;
    ghost var prev := s.buffer[..];
    HalfKept(prev, before, s.extra.src, half, s.extra.dst + start, s.extra.dst + i);
    ghost var row;
    var out;
    err, row, out := MixBlock(s, st, weights, i, half);
    if err != ErrorNone {
      picks' := picks;
      return;
    }
    s.WriteBlock(s.extra.dst + i, out);
    RangeDoneExtend(s.p, s.opts, weights, half, before, prev, s.buffer[..], s.extra.dst, start, picks, row, out);
    picks' := picks + [row];
  }

  /**
   * One worker of run_threads with mix = true: the blocks of its range in
   * order, stopping at the first error.  The picks rows' blocks were
   * written; the rest of the buffer is untouched.
   */
  method MixWorker(s: HashState, st: BagBitstream.BagBitstream, weights: seq<nat>, start: nat, end: nat,
                   ghost half: seq<Block>)
    returns (err: ErrorCode, ghost picks: seq<seq<nat>>)
    requires s.Valid() && ParHalves(s) && st.initialized && st.ks == s.ks
    requires RowSizesOk(s.opts, weights, s.nBlocks / 2) && s.nBlocks <= BagBitstream.SIZE_MAX
    requires start <= end <= s.nBlocks / 2
    requires HalfAt(s.buffer[..], s.extra.src, half) && |half| == s.nBlocks / 2
    modifies s.buffer, st`pos
    ensures s.Valid()
    ensures |picks| <= end - start && (err == ErrorNone ==> |picks| == end - start)
    ensures RangeDone(s, weights, half, old(s.buffer[..]), start, picks)
  {
    ghost var before := s.buffer[..];
    picks := [];
    var i := start;
    while i < end
      invariant start <= i <= end && |picks| == i - start
      invariant s.Valid() && st.initialized && st.ks == s.ks
      invariant RangeDone(s, weights, half, before, start, picks)
    {
      err, picks := MixStep(s, st, weights, start, i, half, before, picks);
      if err != ErrorNone {
        return;
      }
      i := i + 1;
    }
    err := ErrorNone;
  }

  /** Every block below upto whose owner reported no error holds the compression of its draw. */
  ghost predicate WorkersMixed(p: Primitives, opts: Options, weights: seq<nat>, half: seq<Block>, buf: seq<Block>,
                               dst: nat, bpb: nat, threads: nat, results: seq<ErrorCode>, picks: seq<seq<nat>>, upto: nat)
    requires 1 <= threads && upto <= bpb && dst + bpb <= |buf| && |picks| == bpb && |weights| == bpb
  {
    forall k :: 0 <= k < upto && Owner(bpb, threads, k) < |results| && results[Owner(bpb, threads, k)] == ErrorNone ==>
      MixedRow(p, opts, weights, half, buf, dst, k, picks[k])
  }

  /** Adding worker w's range: blocks before it keep their state, blocks in it are what the worker wrote. */
  lemma WorkersMixedExtend(p: Primitives, opts: Options, weights: seq<nat>, half: seq<Block>, buf: seq<Block>,
                           buf': seq<Block>, dst: nat, bpb: nat, threads: nat, results: seq<ErrorCode>,
                           picks: seq<seq<nat>>, ws: seq<seq<nat>>, e: ErrorCode, w: nat)
    requires 1 <= threads && w < threads && |results| == w && dst + bpb <= |buf| == |buf'|
    requires |picks| == bpb && |weights| == bpb
    requires var start, end := WorkerStart(bpb, threads, w), WorkerEnd(bpb, threads, w);
      && |ws| <= end - start && (e == ErrorNone ==> |ws| == end - start)
      && WorkersMixed(p, opts, weights, half, buf, dst, bpb, threads, results, picks, start)
      && RangeMixed(p, opts, weights, half, buf', dst, start, ws)
      && KeptOutsideIn(buf', buf, dst + start, dst + start + |ws|)
    ensures var start, end := WorkerStart(bpb, threads, w), WorkerEnd(bpb, threads, w);
      && start + |ws| <= bpb
      && WorkersMixed(p, opts, weights, half, buf', dst, bpb, threads, results + [e],
                      picks[..start] + ws + picks[start + |ws|..], end)
  {
    var start, end := WorkerStart(bpb, threads, w), WorkerEnd(bpb, threads, w);
    var picks' := picks[..start] + ws + picks[start + |ws|..];
    var results' := results + [e];
    forall k | 0 <= k < end && Owner(bpb, threads, k) < |results'| && results'[Owner(bpb, threads, k)] == ErrorNone
      ensures MixedRow(p, opts, weights, half, buf', dst, k, picks'[k])
    {
      var o := Owner(bpb, threads, k);
      WorkerRangesPartition(bpb, threads, k, o);
      WorkerRangesPartition(bpb, threads, k, w);
      if k < start {
        if o >= w {
          assert false;
        }
        assert picks'[k] == picks[k];
        assert results'[o] == results[o];
      } else {
        assert o == w;
        assert picks'[k] == ws[k - start];
        assert MixedRow(p, opts, weights, half, buf', dst, start + (k - start), ws[k - start]);
      }
    }
  }

  /** How far into dst the first w workers reach. */
  function Done(bpb: nat, threads: nat, w: nat): (upto: nat)
    requires 1 <= threads && w <= threads
    ensures upto <= bpb && (w == threads ==> upto == bpb)
  {
    if w == 0 then 0
    else
      WorkerRangesTile(bpb, threads, w - 1);
      WorkerEnd(bpb, threads, w - 1)
  }

  /** Worker w's range starts where the first w workers stopped and ends where the first w + 1 stop. */
  lemma DoneBounds(bpb: nat, threads: nat, w: nat)
    requires 1 <= threads && w < threads
    ensures Done(bpb, threads, w) == WorkerStart(bpb, threads, w)
    ensures Done(bpb, threads, w + 1) == WorkerEnd(bpb, threads, w)
  {
    WorkerRangesTile(bpb, threads, w);
    if w > 0 {
      WorkerRangesTile(bpb, threads, w - 1);
    }
  }

  /** One worker of run_threads: mix_partial over worker w's range, on worker w's stream st. */
  method RunWorker(s: HashState, weights: seq<nat>, w: nat, st: BagBitstream.BagBitstream, ghost half: seq<Block>,
                   ghost before: seq<Block>, ghost results: seq<ErrorCode>, ghost picks: seq<seq<nat>>)
    returns (e: ErrorCode, ghost picks': seq<seq<nat>>)
    requires s.Valid() && ParReady(s) && w < s.opts.nThreads && st.initialized && st.ks == s.ks
    requires RowSizesOk(s.opts, weights, s.nBlocks / 2) && s.nBlocks <= BagBitstream.SIZE_MAX
    requires MixedUpTo(s, weights, half, before, results, picks, w)
    modifies s.buffer, st`pos
    ensures s.Valid() && ParReady(s) && MixedUpTo(s, weights, half, before, results + [e], picks', w + 1)
  {
    var bpb, threads, dst := s.nBlocks / 2, s.opts.nThreads, s.extra.dst;
    DoneBounds(bpb, threads, w);
    var start, end := WorkerStart(bpb, threads, w), WorkerEnd(bpb, threads, w);
    ghost var prev := s.buffer[..];
    HalfKept(prev, before, s.extra.src, half, dst, dst + start);
    ghost var ws;
    e, ws := MixWorker(s, st, weights, start, end, half);
    MixedUpToExtend(s.p, s.opts, weights, half, before, prev, s.buffer[..], s.extra.src, dst, bpb, threads,
                    results, picks, ws, e, w);
    picks' := picks[..start] + ws + picks[start + |ws|..];
  }

  /** Worker w's mixed range, written right after the first w workers' ranges, extends them by one worker. */
  lemma MixedUpToExtend(p: Primitives, opts: Options, weights: seq<nat>, half: seq<Block>, before: seq<Block>,
                        buf: seq<Block>, buf': seq<Block>, src: nat, dst: nat, bpb: nat, threads: nat,
                        results: seq<ErrorCode>, picks: seq<seq<nat>>, ws: seq<seq<nat>>, e: ErrorCode, w: nat)
    requires w < threads && MixedUpToIn(p, opts, weights, half, before, buf, src, dst, bpb, threads, results, picks, w)
    requires var start, end := WorkerStart(bpb, threads, w), WorkerEnd(bpb, threads, w);
      && |ws| <= end - start && (e == ErrorNone ==> |ws| == end - start)
      && dst + start + |ws| <= |buf'|
      && RangeDoneIn(p, opts, weights, half, buf, buf', dst, start, ws)
    ensures var start := WorkerStart(bpb, threads, w);
      && start + |ws| <= bpb
      && MixedUpToIn(p, opts, weights, half, before, buf', src, dst, bpb, threads, results + [e],
                     picks[..start] + ws + picks[start + |ws|..], w + 1)
  {
    var start, end := WorkerStart(bpb, threads, w), WorkerEnd(bpb, threads, w);
    DoneBounds(bpb, threads, w);
    WorkersMixedExtend(p, opts, weights, half, buf, buf', dst, bpb, threads, results, picks, ws, e, w);
    KeptChain(buf', buf, before, dst, dst + start, dst + start + |ws|, dst + end);
  }

  /**
   * The ranges of the first w workers are mixed from the src half half, as
   * far as their results allow, and nothing else has changed since before.
   */
  ghost predicate MixedUpTo(s: HashState, weights: seq<nat>, half: seq<Block>, before: seq<Block>,
                            results: seq<ErrorCode>, picks: seq<seq<nat>>, w: nat)
    reads s, s.buffer
  {
    && ParHalves(s) && s.nBlocks <= s.buffer.Length
    && MixedUpToIn(s.p, s.opts, weights, half, before, s.buffer[..], s.extra.src, s.extra.dst, s.nBlocks / 2,
                   s.opts.nThreads, results, picks, w)
  }

  /** The same, for a buffer buf with src and dst halves of bpb blocks and threads workers. */
  ghost predicate MixedUpToIn(p: Primitives, opts: Options, weights: seq<nat>, half: seq<Block>, before: seq<Block>,
                              buf: seq<Block>, src: nat, dst: nat, bpb: nat, threads: nat,
                              results: seq<ErrorCode>, picks: seq<seq<nat>>, w: nat)
  {
    && 1 <= threads && w <= threads && dst + bpb <= |buf| && (src + bpb <= dst || dst + bpb <= src)
    && |results| == w && |picks| == bpb && |weights| == bpb && |half| == bpb
    && HalfAt(before, src, half)
    && WorkersMixed(p, opts, weights, half, buf, dst, bpb, threads, results, picks, Done(bpb, threads, w))
    && KeptOutsideIn(buf, before, dst, dst + Done(bpb, threads, w))
  }

  /**
   * run_threads: the workers run one after the other in index order, each
   * on its own stream and its own range of dst.  results[w] is worker w's
   * result; a worker without error has computed its whole range, and the
   * src half, the other half and the state's bookkeeping are untouched.
   */
  method ParRunThreads(s: HashState, weights: seq<nat>)
    returns (results: seq<ErrorCode>, ghost picks: seq<seq<nat>>)
    requires s.Valid() && ParReady(s) && s.opts.nThreads >= 1 && RowSizesOk(s.opts, weights, s.nBlocks / 2)
    requires s.nBlocks <= BagBitstream.SIZE_MAX
    modifies s.buffer, Streams(s)
    ensures s.Valid() && ParReady(s)
    ensures |results| == s.opts.nThreads && |picks| == s.nBlocks / 2
    ensures WorkersMixed(s.p, s.opts, weights, old(s.buffer[s.extra.src..s.extra.src + s.nBlocks / 2]), s.buffer[..],
                         s.extra.dst, s.nBlocks / 2, s.opts.nThreads, results, picks, s.nBlocks / 2)
    ensures KeptOutside(s, old(s.buffer[..]), s.extra.dst, s.extra.dst + s.nBlocks / 2)
  {
    var bpb, src := s.nBlocks / 2, s.extra.src;
    ghost var half := s.buffer[src..src + bpb];
    ghost var before := s.buffer[..];
    picks := seq(bpb, _ => []);
    RunStart(s, weights, half, before, picks);
    results, picks := RunWorkers(s, weights, half, before, picks);
    RunComplete(s, weights, half, before, results, picks);
    assert half == old(s.buffer[s.extra.src..s.extra.src + s.nBlocks / 2]);
  }

  /** The thread loop of the mix: worker w runs after workers 0 .. w - 1. */
  method RunWorkers(s: HashState, weights: seq<nat>, ghost half: seq<Block>, ghost before: seq<Block>,
                    ghost picks0: seq<seq<nat>>)
    returns (results: seq<ErrorCode>, ghost picks: seq<seq<nat>>)
    requires s.Valid() && ParReady(s) && RowSizesOk(s.opts, weights, s.nBlocks / 2)
    requires s.nBlocks <= BagBitstream.SIZE_MAX
    requires MixedUpTo(s, weights, half, before, [], picks0, 0)
    modifies s.buffer, Streams(s)
    ensures s.Valid() && ParReady(s) && MixedUpTo(s, weights, half, before, results, picks, s.opts.nThreads)
  {
    results, picks := [], picks0;
    var w := 0;
    while w < s.opts.nThreads
      invariant w <= s.opts.nThreads && s.Valid() && ParReady(s)
      invariant MixedUpTo(s, weights, half, before, results, picks, w) == true
    {
      var e;
      e, picks := RunWorker(s, weights, w, s.extra.streams[w], half, before, results, picks);
      results := results + [e];
      w := w + 1;
    }
  }

  /** Before any worker runs, nothing of dst is mixed and the whole buffer is as it was. */
  lemma RunStart(s: HashState, weights: seq<nat>, half: seq<Block>, before: seq<Block>, picks: seq<seq<nat>>)
    requires s.Valid() && ParReady(s) && s.opts.nThreads >= 1 && RowSizesOk(s.opts, weights, s.nBlocks / 2)
    requires before == s.buffer[..] && half == before[s.extra.src..s.extra.src + s.nBlocks / 2]
    requires |picks| == s.nBlocks / 2
    ensures MixedUpTo(s, weights, half, before, [], picks, 0)
  {
  }

  /** Once every worker has run, the whole dst half is accounted for. */
  lemma RunComplete(s: HashState, weights: seq<nat>, half: seq<Block>, before: seq<Block>,
                    results: seq<ErrorCode>, picks: seq<seq<nat>>)
    requires MixedUpTo(s, weights, half, before, results, picks, s.opts.nThreads)
    ensures s.extra.dst + s.nBlocks / 2 <= s.buffer.Length && |picks| == |weights| == s.nBlocks / 2
    ensures WorkersMixed(s.p, s.opts, weights, half, s.buffer[..], s.extra.dst, s.nBlocks / 2, s.opts.nThreads,
                         results, picks, s.nBlocks / 2)
    ensures KeptOutside(s, before, s.extra.dst, s.extra.dst + s.nBlocks / 2)
  {
    assert Done(s.nBlocks / 2, s.opts.nThreads, s.opts.nThreads) == s.nBlocks / 2;
  }

  /**
   * hash_state_double_par_mix: the result is the first worker error in
   * index order, and only a pass with no error swaps src and dst.
   */
  method ParMix(s: HashState, weights: seq<nat>)
    returns (err: ErrorCode, ghost errs: seq<ErrorCode>, ghost picks: seq<seq<nat>>)
    requires s.Valid() && ParReady(s) && RowSizesOk(s.opts, weights, s.nBlocks / 2)
    requires s.nBlocks <= BagBitstream.SIZE_MAX
    modifies s.buffer, s`extra, Streams(s)
    ensures s.Valid() && ParReady(s)
    ensures |errs| == s.opts.nThreads && err == FirstError(errs) && |picks| == s.nBlocks / 2
    ensures s.opts.nThreads >= 1 ==>
      WorkersMixed(s.p, s.opts, weights, old(s.buffer[s.extra.src..s.extra.src + s.nBlocks / 2]), s.buffer[..],
                   old(s.extra.dst), s.nBlocks / 2, s.opts.nThreads, errs, picks, s.nBlocks / 2)
    ensures s.opts.nThreads >= 1 ==> KeptOutside(s, old(s.buffer[..]), old(s.extra.dst), old(s.extra.dst) + s.nBlocks / 2)
    ensures s.opts.nThreads == 0 ==> s.buffer[..] == old(s.buffer[..])
    ensures err == ErrorNone ==> s.extra == ParData(old(s.extra.dst), old(s.extra.src), old(s.extra.streams))
    ensures err != ErrorNone ==> s.extra == old(s.extra)
  {
    if s.opts.nThreads == 0 {
      errs, picks := [], seq(s.nBlocks / 2, _ => []);
      s.extra := ParData(s.extra.dst, s.extra.src, s.extra.streams);
      return ErrorNone, errs, picks;
    }
    var results;
    results, picks := ParRunThreads(s, weights);
    errs := results;
    err := FirstError(results);
    if err == ErrorNone {
      s.extra := ParData(s.extra.dst, s.extra.src, s.extra.streams);
    }
  }
}
