/*
 * Option validation and derived sizes of libballoon/options.c.
 *
 * options_validate raises t_cost and m_cost to their minimums in place and
 * then checks the options in a fixed order; here it returns the first
 * failing check together with the raised options.
 */
module BalloonOptions {
  import opened Bytes
  import opened Errors
  import opened Compress

  /** libballoon/constants.h */
  const TCOST_MIN: nat := 1
  const MCOST_MIN: nat := 1024
  const BLOCKS_MIN: nat := 32
  const THREADS_MAX: nat := 255
  const MCOST_MAX: nat := 0x1_0000_0000_0000

  /** enum mix_method of include/balloon.h */
  datatype MixMethod =
    | SingleBuffer
    | DoubleBuffer
    | DoubleBufferPar
    | DoubleBufferPipe
    | Argon2Uniform
    | CatenaBrg
    | Scrypt
    | MixEnd

  /** struct balloon_options */
  datatype Options = Options(
    mCost: nat,
    tCost: nat,
    nThreads: nat,
    nNeighbors: nat,
    compOpts: CompOptions,
    mix: MixMethod)

  /** The options after the in-place raising of the two costs. */
  function Raise(opts: Options): (r: Options)
    ensures r.tCost >= TCOST_MIN && r.mCost >= MCOST_MIN
    ensures r.tCost == (if opts.tCost < TCOST_MIN then TCOST_MIN else opts.tCost)
    ensures r.mCost == (if opts.mCost < MCOST_MIN then MCOST_MIN else opts.mCost)
    ensures r.(tCost := opts.tCost, mCost := opts.mCost) == opts
  {
    opts.(tCost := if opts.tCost < TCOST_MIN then TCOST_MIN else opts.tCost,
          mCost := if opts.mCost < MCOST_MIN then MCOST_MIN else opts.mCost)
  }

  /** options_n_blocks: whole blocks in m_cost, at least BLOCKS_MIN. */
  function NBlocks(opts: Options): (n: nat)
    requires opts.compOpts.comp != CompEnd
    ensures n >= BLOCKS_MIN
    ensures n > BLOCKS_MIN ==>
      n * BlockSize(opts.compOpts.comp) <= opts.mCost < (n + 1) * BlockSize(opts.compOpts.comp)
    ensures n == BLOCKS_MIN ==> opts.mCost < (BLOCKS_MIN + 1) * BlockSize(opts.compOpts.comp)
  {
    var q := opts.mCost / BlockSize(opts.compOpts.comp);
    if q < BLOCKS_MIN then BLOCKS_MIN else q
  }

  /** options_n_neighbors: the fixed neighbour counts. */
  function NNeighbors(opts: Options): (n: nat)
    ensures n <= 20
    ensures n == 0 <==> opts.compOpts.comb != CombXor
                        && opts.mix !in {SingleBuffer, DoubleBuffer, DoubleBufferPar, Argon2Uniform, Scrypt}
  {
    if opts.compOpts.comb == CombXor then 10
    else match opts.mix
      case SingleBuffer => 20
      case DoubleBufferPar => 20
      case DoubleBuffer => 20
      case Argon2Uniform => 1
      case Scrypt => 1
      case _ => 0
  }

  /** The checks of options_validate after the raising, in source order. */
  function Check(o: Options): (e: ErrorCode)
    requires o.compOpts.comp != CompEnd
  {
    if o.mCost >= MCOST_MAX then ErrorMcostTooBig
    else if o.nNeighbors == 0 && o.compOpts.comb != CombXor then ErrorNoNeighbors
    else if o.nThreads > THREADS_MAX then ErrorNthreadsTooBig
    else if o.mix != DoubleBufferPar && o.nThreads > 1 then ErrorIncompatibleOptions
    else if o.mix == DoubleBufferPipe && (o.compOpts.comp != Sempira2048 || o.compOpts.comb != CombXor)
    then ErrorIncompatibleOptions
    else if o.mix != DoubleBufferPipe && o.compOpts.comp == Sempira2048 then ErrorIncompatibleOptions
    else if o.mix == Scrypt && o.tCost > 1 then ErrorTcostTooBig
    else if o.mix == Scrypt && o.nThreads > 1 then ErrorTcostTooBig
    else if NBlocks(o) > UINT64_MAX / BlockSize(o.compOpts.comp) then ErrorMcostTooBig
    else if o.compOpts.comb == CombXor && o.mix != DoubleBuffer && o.mix != DoubleBufferPar
            && o.mix != DoubleBufferPipe
    then ErrorIncompatibleOptions
    else ErrorNone
  }

  datatype Validated = Validated(err: ErrorCode, opts: Options)

  /**
   * The rules a validated option set satisfies, stated independently of the
   * order of the checks.
   */
  ghost predicate Acceptable(o: Options) {
    && TCOST_MIN <= o.tCost && MCOST_MIN <= o.mCost < MCOST_MAX
    && (o.nNeighbors == 0 ==> o.compOpts.comb == CombXor)
    && o.nThreads <= THREADS_MAX
    && (o.nThreads > 1 ==> o.mix == DoubleBufferPar)
    && (o.mix == DoubleBufferPipe <==> o.compOpts.comp == Sempira2048)
    && (o.mix == DoubleBufferPipe ==> o.compOpts.comb == CombXor)
    && (o.mix == Scrypt ==> o.tCost <= 1)
    && (o.compOpts.comb == CombXor ==> o.mix in {DoubleBuffer, DoubleBufferPar, DoubleBufferPipe})
  }

  /**
   * options_validate: the raised options, and the first failing check.  The
   * primitive must be a real one: options_n_blocks divides by its block size.
   */
  function Validate(opts: Options): (r: Validated)
    requires opts.compOpts.comp != CompEnd
    ensures r.opts == Raise(opts)
    ensures r.err == ErrorNone <==> Acceptable(r.opts)
    ensures r.opts.mCost >= MCOST_MAX ==> r.err == ErrorMcostTooBig
    ensures r.err in {ErrorNone, ErrorMcostTooBig, ErrorNoNeighbors, ErrorNthreadsTooBig,
                      ErrorIncompatibleOptions, ErrorTcostTooBig}
  {
    var o := Raise(opts);
    assert o.mCost < MCOST_MAX ==> NBlocks(o) <= UINT64_MAX / BlockSize(o.compOpts.comp) by {
      if o.mCost < MCOST_MAX {
        OverflowGuardNeverFires(o);
      }
    }
    Validated(Check(o), o)
  }

  /**
   * The overflow guard n_blocks > UINT64_MAX / block_size cannot fire once
   * m_cost < MCOST_MAX = 2^48: n_blocks * block_size stays below 2^64.
   */
  lemma OverflowGuardNeverFires(o: Options)
    requires o.compOpts.comp != CompEnd && o.mCost < MCOST_MAX
    ensures NBlocks(o) <= UINT64_MAX / BlockSize(o.compOpts.comp)
    ensures NBlocks(o) * BlockSize(o.compOpts.comp) <= UINT64_MAX
  {
    var bs := BlockSize(o.compOpts.comp);
    var n := NBlocks(o);
    assert n <= MCOST_MAX by {
      if n > BLOCKS_MIN {
        MulMonotone(1, bs, n);
      }
    }
    MulMonotone(n, MCOST_MAX, bs);
    assert MCOST_MAX * bs <= MCOST_MAX * 2048 by {
      MulMonotone(bs, 2048, MCOST_MAX);
    }
    assert n * bs <= UINT64_MAX;
    DivBound(n, bs, UINT64_MAX);
  }

  lemma DivBound(n: nat, d: nat, u: nat)
    requires d >= 1 && n * d <= u
    ensures n <= u / d
  {
    var q := u / d;
    MulStep(q, d);
    if n > q {
      MulMonotone(q + 1, n, d);
      assert false;
    }
  }

  /** Validating options that already passed changes nothing and passes again. */
  lemma ValidateIdempotent(opts: Options)
    requires opts.compOpts.comp != CompEnd
    ensures Validate(Validate(opts).opts).opts == Validate(opts).opts
    ensures Validate(Validate(opts).opts).err == Validate(opts).err
  {
  }

  /** t_cost = 0 is raised, not refused. */
  lemma ZeroTcostIsRaised(opts: Options)
    requires opts.compOpts.comp != CompEnd && opts.tCost == 0
    ensures Validate(opts).opts.tCost == TCOST_MIN
    ensures Validate(opts).err != ErrorTcostTooSmall
  {
  }

  /**
   * The default neighbour count of a mix that hash_state.c dispatches (or
   * scrypt) never trips the no-neighbours check.
   */
  lemma DefaultNeighborsPassNeighborCheck(opts: Options)
    requires opts.compOpts.comp != CompEnd
    requires opts.mix in {SingleBuffer, DoubleBuffer, DoubleBufferPar, Argon2Uniform, Scrypt}
    ensures Validate(opts.(nNeighbors := NNeighbors(opts))).err != ErrorNoNeighbors
  {
  }
}
