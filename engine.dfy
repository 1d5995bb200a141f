/*
 * The dispatch and lifecycle of libballoon/hash_state.c.
 *
 * init_func_pointers installs one of four strategies (single, double,
 * double-par, argon2) for the options' mix method; hash_state_init then
 * seeds the main stream with the salt and runs the strategy's init.  fill
 * and mix forward to the strategy, mix setting has_mixed first, and extract
 * refuses to run before any mix.
 *
 * The double-par strategy takes the matrix generator's row weights as a
 * parameter of mix (see HashStateDoublePar.RowNeighbors).
 */
module HashStateEngine {
  import opened Bytes
  import opened Errors
  import opened Primitives
  import opened Compress
  import opened BalloonOptions
  import opened HashStates
  import opened HashStateSingle
  import opened HashStateDouble
  import opened HashStateDoublePar
  import opened HashStateArgon2
  import BagBitstream

  /** The four function-pointer sets init_func_pointers can install. */
  datatype Strategy = Single | Double | DoublePar | Argon2

  /** init_func_pointers: the strategy of a mix method; the other methods have none. */
  function Dispatch(mix: MixMethod): (r: Option<Strategy>)
    ensures r.Some? <==> mix in {SingleBuffer, DoubleBuffer, DoubleBufferPar, Argon2Uniform}
    ensures r == Some(Single) <==> mix == SingleBuffer
    ensures r == Some(Double) <==> mix == DoubleBuffer
    ensures r == Some(DoublePar) <==> mix == DoubleBufferPar
    ensures r == Some(Argon2) <==> mix == Argon2Uniform
  {
    match mix
    case SingleBuffer => Some(Single)
    case DoubleBuffer => Some(Double)
    case DoubleBufferPar => Some(DoublePar)
    case Argon2Uniform => Some(Argon2)
    case _ => None
  }

  /** A state hash_state_init has set up: valid, and carrying its strategy's extra data. */
  ghost predicate Ready(s: HashState)
    reads s, s.buffer, s.bstream, Streams(s)
  {
    && s.Valid()
    && s.nBlocks <= BagBitstream.SIZE_MAX
    && match Dispatch(s.opts.mix)
       case Some(Single) => true
       case Some(Double) => DoubleReady(s)
       case Some(DoublePar) => ParReady(s)
       case Some(Argon2) => s.extra.Argon2Data?
       case None => false
  }

  /** m_cost is a uint64_t, so n_blocks, even after rounding up, fits in a size_t. */
  lemma EvenBlocksFit(opts: Options)
    requires opts.compOpts.comp != CompEnd && opts.mCost <= UINT64_MAX
    ensures EvenBlocks(opts) <= BagBitstream.SIZE_MAX
  {
    var n, bs := NBlocks(opts), BlockSize(opts.compOpts.comp);
    if n > BLOCKS_MIN {
      MulMonotone(64, bs, n);
    }
  }

  /**
   * hash_state_init.  The fields are set first, whatever happens next; a mix
   * method without a strategy fails with ERROR_INVALID_MIX_METHOD before the
   * main stream is seeded.  Otherwise the main stream is seeded with the
   * salt alone and the strategy's init sets up its extra data.
   */
  method Init(p: Primitives, ks: Keystream, opts: Options, salt: seq<byte>) returns (err: ErrorCode, s: HashState)
    requires opts.compOpts.comp != CompEnd && opts.mCost <= UINT64_MAX
    ensures fresh(s) && s.p == p && s.ks == ks && s.opts == opts
    ensures s.nBlocks == EvenBlocks(opts) && !s.hasMixed && s.blockSize == BlockSize(opts.compOpts.comp)
    ensures err == ErrorNone || err == ErrorInvalidMixMethod
    ensures err == ErrorInvalidMixMethod <==> Dispatch(opts.mix).None?
    ensures err == ErrorNone ==> Ready(s) && s.bstream.key == salt
    ensures err == ErrorNone && opts.mix != DoubleBufferPar ==> s.bstream.pos == 0
    ensures err == ErrorNone && opts.mix == SingleBuffer ==> s.extra == NoExtra
    ensures err == ErrorNone && opts.mix == DoubleBuffer ==> s.extra == Halves(0, s.nBlocks / 2)
    ensures err == ErrorNone && opts.mix == Argon2Uniform ==> s.extra == Argon2Data(0)
    ensures err == ErrorNone && opts.mix == DoubleBufferPar ==>
      && s.extra.src == 0 && s.extra.dst == s.nBlocks / 2
      && s.bstream.pos == SEED_LEN * opts.nThreads
  {
    s := new HashState(p, ks, opts);
    EvenBlocksFit(opts);
    var strategy := Dispatch(opts.mix);
    if strategy.None? {
      return ErrorInvalidMixMethod, s;
    }
    s.SeedMainStream(salt);
    match strategy.value
    case Single =>
      err := ErrorNone;
    case Double =>
      err := DoubleInit(s);
    case DoublePar =>
      err := ParInit(s);
    case Argon2 =>
      err := Argon2Init(s);
  }

  /**
   * hash_state_fill: the strategy's fill.  It writes the blocks the strategy
   * starts from (all of them, the src half or block 0) from streams seeded
   * with in and salt, and never fails.
   */
  method Fill(s: HashState, input: seq<byte>, salt: seq<byte>) returns (err: ErrorCode)
    requires Ready(s)
    modifies s.buffer
    ensures Ready(s) && err == ErrorNone
    ensures s.opts.mix == SingleBuffer ==>
      forall k :: 0 <= k < s.nBlocks ==> s.buffer[k] == StreamBlocks(s.ks, input + salt, s.blockSize, s.nBlocks)[k]
    ensures s.opts.mix == DoubleBuffer ==>
      forall k :: 0 <= k < s.nBlocks / 2 ==> s.buffer[k] == StreamBlocks(s.ks, input + salt, s.blockSize, s.nBlocks / 2)[k]
    ensures s.opts.mix == DoubleBufferPar && s.opts.nThreads >= 1 ==> Filled(s, input, salt, s.nBlocks / 2)
    ensures s.opts.mix == Argon2Uniform ==> s.buffer[0] == KeystreamBytes(s.ks, input + salt, 0, s.blockSize)
  {
    match Dispatch(s.opts.mix).value
    case Single =>
      err := SingleFill(s, input, salt);
    case Double =>
      err := DoubleFill(s, input, salt);
    case DoublePar =>
      err := ParFill(s, input, salt);
    case Argon2 =>
      err := Argon2Fill(s, input, salt);
  }

  /**
   * hash_state_mix: has_mixed is set whether or not the strategy then
   * fails, and the buffer changes as the strategy's mix says.  picks are
   * the neighbour rows of the single, double and double-par passes, nbs the
   * argon2 neighbours and errs the double-par workers' results; the single,
   * double and argon2 neighbours are what the main stream gives from where
   * it stood, and a single, double or argon2 pass that fails stops at the
   * step whose draw gave up or whose compression returned the error.  The
   * strategies that swap src and dst or count rounds do so exactly when
   * their pass succeeds.
   */
  method Mix(s: HashState, weights: seq<nat>)
    returns (err: ErrorCode, ghost picks: seq<seq<nat>>, ghost nbs: seq<nat>, ghost errs: seq<ErrorCode>)
    requires Ready(s)
    requires s.opts.mix == DoubleBufferPar ==> RowSizesOk(s.opts, weights, s.nBlocks / 2)
    modifies s`hasMixed, s.buffer, s.bstream`pos, s`extra, Streams(s)
    ensures Ready(s) && s.hasMixed
    ensures s.opts.mix == SingleBuffer ==>
      && |picks| <= s.nBlocks && (err == ErrorNone ==> |picks| == s.nBlocks)
      && Mixed(s.p, s.opts.compOpts, old(s.buffer[..]), s.buffer[..], s.nBlocks, picks, s.opts.nNeighbors)
      && (forall k :: |picks| <= k < s.buffer.Length ==> s.buffer[k] == old(s.buffer[k]))
      && (err == ErrorNone ==>
            DrewPicks(s.ks, s.bstream.key, old(s.bstream.pos), s.nBlocks, s.opts.nNeighbors, picks, s.bstream.pos))
      && (err != ErrorNone ==>
            SingleStopped(s.p, s.opts.compOpts, s.ks, s.bstream.key, old(s.bstream.pos), old(s.buffer[..]), s.buffer[..],
                          s.nBlocks, s.opts.nNeighbors, picks, err, s.bstream.pos))
    ensures s.opts.mix == SingleBuffer ==> s.extra == old(s.extra)
    ensures s.opts.mix == DoubleBuffer ==>
      && |picks| <= s.nBlocks / 2 && (err == ErrorNone ==> |picks| == s.nBlocks / 2)
      && DoubleMixed(s.p, s.opts.compOpts, old(s.buffer[..]), s.buffer[..], old(s.extra.src), old(s.extra.dst),
                     s.nBlocks / 2, picks, s.opts.nNeighbors)
      && (forall k :: 0 <= k < s.buffer.Length && !(old(s.extra.dst) <= k < old(s.extra.dst) + |picks|) ==>
            s.buffer[k] == old(s.buffer[k]))
      && (err == ErrorNone ==>
            DrewPicks(s.ks, s.bstream.key, old(s.bstream.pos), s.nBlocks / 2, s.opts.nNeighbors, picks, s.bstream.pos))
      && (err != ErrorNone ==>
            DoubleStopped(s.p, s.opts.compOpts, s.ks, s.bstream.key, old(s.bstream.pos), old(s.buffer[..]), s.buffer[..],
                          old(s.extra.src), old(s.extra.dst), s.nBlocks / 2, s.opts.nNeighbors, picks, err, s.bstream.pos))
    ensures s.opts.mix == DoubleBuffer ==>
      s.extra == (if err == ErrorNone then Halves(old(s.extra.dst), old(s.extra.src)) else old(s.extra))
    ensures s.opts.mix == DoubleBufferPar ==>
      && |errs| == s.opts.nThreads && err == FirstError(errs) && |picks| == s.nBlocks / 2
      && (s.opts.nThreads >= 1 ==>
            && WorkersMixed(s.p, s.opts, weights, old(s.buffer[s.extra.src..s.extra.src + s.nBlocks / 2]), s.buffer[..],
                            old(s.extra.dst), s.nBlocks / 2, s.opts.nThreads, errs, picks, s.nBlocks / 2)
            && KeptOutside(s, old(s.buffer[..]), old(s.extra.dst), old(s.extra.dst) + s.nBlocks / 2))
      && (s.opts.nThreads == 0 ==> s.buffer[..] == old(s.buffer[..]))
    ensures s.opts.mix == DoubleBufferPar ==>
      s.extra == (if err == ErrorNone then ParData(old(s.extra.dst), old(s.extra.src), old(s.extra.streams)) else old(s.extra))
    ensures s.opts.mix == Argon2Uniform ==>
      && |nbs| <= s.nBlocks && (err == ErrorNone ==> |nbs| == s.nBlocks)
      && Argon2Mixed(s.p, s.opts.compOpts, old(s.buffer[..]), s.buffer[..], s.nBlocks, old(s.extra.roundCount), nbs)
      && (forall k :: |nbs| <= k < s.buffer.Length ==> s.buffer[k] == old(s.buffer[k]))
      && (err == ErrorNone ==>
            Argon2DrewPicks(s.ks, s.bstream.key, old(s.bstream.pos), old(s.extra.roundCount), s.nBlocks, nbs, s.bstream.pos))
      && (err != ErrorNone ==>
            Argon2Stopped(s.p, s.opts.compOpts, s.ks, s.bstream.key, old(s.bstream.pos), old(s.buffer[..]), s.buffer[..],
                          s.nBlocks, old(s.extra.roundCount), nbs, err, s.bstream.pos))
    ensures s.opts.mix == Argon2Uniform ==>
      s.extra == (if err == ErrorNone then Argon2Data(old(s.extra.roundCount) + 1) else old(s.extra))
  {
    // The source sets has_mixed before calling the strategy; no strategy
    // reads it, so setting it on return, whatever the result, ends in the
    // same state.
    err, picks, nbs, errs := MixStrategy(s, weights);
    ghost var after := s.buffer[..];
    s.hasMixed := true;
    assert s.buffer[..] == after;
  }

  /** The strategy's mix, as hash_state_mix calls it through the function pointer. */
  method MixStrategy(s: HashState, weights: seq<nat>)
    returns (err: ErrorCode, ghost picks: seq<seq<nat>>, ghost nbs: seq<nat>, ghost errs: seq<ErrorCode>)
    requires Ready(s)
    requires s.opts.mix == DoubleBufferPar ==> RowSizesOk(s.opts, weights, s.nBlocks / 2)
    modifies s.buffer, s.bstream`pos, s`extra, Streams(s)
    ensures Ready(s)
    ensures s.opts.mix == SingleBuffer ==>
      && |picks| <= s.nBlocks && (err == ErrorNone ==> |picks| == s.nBlocks)
      && Mixed(s.p, s.opts.compOpts, old(s.buffer[..]), s.buffer[..], s.nBlocks, picks, s.opts.nNeighbors)
      && (forall k :: |picks| <= k < s.buffer.Length ==> s.buffer[k] == old(s.buffer[k]))
      && (err == ErrorNone ==>
            DrewPicks(s.ks, s.bstream.key, old(s.bstream.pos), s.nBlocks, s.opts.nNeighbors, picks, s.bstream.pos))
      && (err != ErrorNone ==>
            SingleStopped(s.p, s.opts.compOpts, s.ks, s.bstream.key, old(s.bstream.pos), old(s.buffer[..]), s.buffer[..],
                          s.nBlocks, s.opts.nNeighbors, picks, err, s.bstream.pos))
    ensures s.opts.mix == SingleBuffer ==> s.extra == old(s.extra)
    ensures s.opts.mix == DoubleBuffer ==>
      && |picks| <= s.nBlocks / 2 && (err == ErrorNone ==> |picks| == s.nBlocks / 2)
      && DoubleMixed(s.p, s.opts.compOpts, old(s.buffer[..]), s.buffer[..], old(s.extra.src), old(s.extra.dst),
                     s.nBlocks / 2, picks, s.opts.nNeighbors)
      && (forall k :: 0 <= k < s.buffer.Length && !(old(s.extra.dst) <= k < old(s.extra.dst) + |picks|) ==>
            s.buffer[k] == old(s.buffer[k]))
      && (err == ErrorNone ==>
            DrewPicks(s.ks, s.bstream.key, old(s.bstream.pos), s.nBlocks / 2, s.opts.nNeighbors, picks, s.bstream.pos))
      && (err != ErrorNone ==>
            DoubleStopped(s.p, s.opts.compOpts, s.ks, s.bstream.key, old(s.bstream.pos), old(s.buffer[..]), s.buffer[..],
                          old(s.extra.src), old(s.extra.dst), s.nBlocks / 2, s.opts.nNeighbors, picks, err, s.bstream.pos))
    ensures s.opts.mix == DoubleBuffer ==>
      s.extra == (if err == ErrorNone then Halves(old(s.extra.dst), old(s.extra.src)) else old(s.extra))
    ensures s.opts.mix == DoubleBufferPar ==>
      && |errs| == s.opts.nThreads && err == FirstError(errs) && |picks| == s.nBlocks / 2
      && (s.opts.nThreads >= 1 ==>
            && WorkersMixed(s.p, s.opts, weights, old(s.buffer[s.extra.src..s.extra.src + s.nBlocks / 2]), s.buffer[..],
                            old(s.extra.dst), s.nBlocks / 2, s.opts.nThreads, errs, picks, s.nBlocks / 2)
            && KeptOutside(s, old(s.buffer[..]), old(s.extra.dst), old(s.extra.dst) + s.nBlocks / 2))
      && (s.opts.nThreads == 0 ==> s.buffer[..] == old(s.buffer[..]))
    ensures s.opts.mix == DoubleBufferPar ==>
      s.extra == (if err == ErrorNone then ParData(old(s.extra.dst), old(s.extra.src), old(s.extra.streams)) else old(s.extra))
    ensures s.opts.mix == Argon2Uniform ==>
      && |nbs| <= s.nBlocks && (err == ErrorNone ==> |nbs| == s.nBlocks)
      && Argon2Mixed(s.p, s.opts.compOpts, old(s.buffer[..]), s.buffer[..], s.nBlocks, old(s.extra.roundCount), nbs)
      && (forall k :: |nbs| <= k < s.buffer.Length ==> s.buffer[k] == old(s.buffer[k]))
      && (err == ErrorNone ==>
            Argon2DrewPicks(s.ks, s.bstream.key, old(s.bstream.pos), old(s.extra.roundCount), s.nBlocks, nbs, s.bstream.pos))
      && (err != ErrorNone ==>
            Argon2Stopped(s.p, s.opts.compOpts, s.ks, s.bstream.key, old(s.bstream.pos), old(s.buffer[..]), s.buffer[..],
                          s.nBlocks, old(s.extra.roundCount), nbs, err, s.bstream.pos))
    ensures s.opts.mix == Argon2Uniform ==>
      s.extra == (if err == ErrorNone then Argon2Data(old(s.extra.roundCount) + 1) else old(s.extra))
  {
    picks, nbs, errs := [], [], [];
    match Dispatch(s.opts.mix).value
    case Single =>
      err, picks := SingleMix(s);
    case Double =>
      err, picks := DoubleMix(s);
    case DoublePar =>
      err, errs, picks := ParMix(s, weights);
    case Argon2 =>
      err, nbs := Argon2Mix(s);
  }

  /**
   * What extract's stream is seeded with: the last block for single and
   * argon2, the bytes of the physical first half for double.
   */
  ghost function ExtractSeed(strategy: Strategy, blocks: seq<Block>, n: nat): (seed: seq<byte>)
    requires 2 <= n <= |blocks|
  {
    if strategy == Double then Concat(blocks[..n / 2]) else blocks[n - 1]
  }

  /**
   * hash_state_extract: ERROR_CANNOT_EXTRACT_BEFORE_MIX, without calling the
   * strategy, until mix has run; afterwards the strategy's output bytes.
   * The buffer is only read.  Double-par has no extract of its own.
   */
  method Extract(s: HashState, outlen: nat) returns (err: ErrorCode, out: seq<byte>)
    requires Ready(s) && s.opts.mix != DoubleBufferPar
    ensures err == ErrorNone <==> s.hasMixed
    ensures !s.hasMixed ==> err == ErrorCannotExtractBeforeMix && out == []
    ensures s.hasMixed ==>
      out == KeystreamBytes(s.ks, ExtractSeed(Dispatch(s.opts.mix).value, s.buffer[..], s.nBlocks), 0, outlen)
  {
    if !s.hasMixed {
      return ErrorCannotExtractBeforeMix, [];
    }
    match Dispatch(s.opts.mix).value
    case Single =>
      err, out := SingleExtract(s, outlen);
    case Double =>
      err, out := DoubleExtract(s, outlen);
      assert s.buffer[..s.nBlocks / 2] == s.buffer[..][..s.nBlocks / 2];
    case Argon2 =>
      err, out := SingleExtract(s, outlen);
  }

  /** The single-buffer and argon2 outputs depend on the last block alone. */
  lemma ExtractReadsLastBlock(strategy: Strategy, a: seq<Block>, b: seq<Block>, n: nat)
    requires strategy != Double && 2 <= n <= |a| && n <= |b| && a[n - 1] == b[n - 1]
    ensures ExtractSeed(strategy, a, n) == ExtractSeed(strategy, b, n)
  {
  }

  /** The double output depends on the first half alone: what the second half holds does not matter. */
  lemma ExtractReadsFirstHalf(a: seq<Block>, b: seq<Block>, n: nat)
    requires 2 <= n <= |a| && n <= |b| && forall k :: 0 <= k < n / 2 ==> a[k] == b[k]
    ensures ExtractSeed(Double, a, n) == ExtractSeed(Double, b, n)
  {
    assert a[..n / 2] == b[..n / 2];
  }
}
