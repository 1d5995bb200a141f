/*
 * Option validation, neighbour tables and derived sizes of
 * libbaghash/options.c, and the length checks of libbaghash/util.c.
 *
 * The cost limits TCOST_MIN, MCOST_MIN, MCOST_MAX and BLOCKS_MIN that this
 * snapshot uses are declared in no header of the model, so they are left
 * unspecified constants here; nothing below depends on their values.  The
 * primitive is the libbaghash compressor's enumeration, the one
 * compress_block_size takes.
 */
module BagOptions {
  import opened Bytes
  import opened Errors
  import opened BagCompress
  import Compress

  const TCOST_MIN: nat
  const MCOST_MIN: nat
  const MCOST_MAX: nat
  const BLOCKS_MIN: nat

  /** libbaghash/constants.h */
  const OUTLEN_MIN: nat := 16
  const OUTLEN_MAX: nat := 128
  const INLEN_MIN: nat := 4
  const INLEN_MAX: nat := 0x10_0000
  const SALTLEN_MIN: nat := 4
  const SALTLEN_MAX: nat := 0x10_0000

  /** enum mix_method of include/baghash.h */
  datatype BagMixMethod =
    | BagSingleBuffer
    | BagDoubleBuffer
    | BagDoubleBufferPar
    | BagArgon2Uniform
    | BagMixEnd

  /** struct baghash_options */
  datatype BagOptions = BagOptions(
    mCost: nat,
    tCost: nat,
    nThreads: nat,
    nNeighbors: nat,
    comp: BagCompMethod,
    comb: Compress.CombMethod,
    mix: BagMixMethod)

  /** options_n_blocks: whole blocks in m_cost, at least BLOCKS_MIN. */
  function NBlocks(opts: BagOptions): (n: nat)
    requires opts.comp != BagCompEnd
    ensures n >= BLOCKS_MIN
    ensures n > BLOCKS_MIN ==> n * BagBlockSize(opts.comp) <= opts.mCost < (n + 1) * BagBlockSize(opts.comp)
  {
    var q := opts.mCost / BagBlockSize(opts.comp);
    if q < BLOCKS_MIN then BLOCKS_MIN else q
  }

  /** number_of_neighbors_single: the single-buffer degree for n blocks. */
  function NeighborsSingle(n: nat): (d: nat)
    ensures 13 <= d <= 80
  {
    if n > 2048 then 13
    else if n > 1024 then 15
    else if n > 512 then 14
    else if n > 256 then 15
    else if n > 128 then 17
    else if n > 64 then 22
    else if n > 32 then 32
    else if n > 16 then 51
    else 80
  }

  /** number_of_neighbors_double: the double-buffer degree for n blocks. */
  function NeighborsDouble(n: nat): (d: nat)
    ensures 13 <= d <= 40
  {
    if n > 2048 then 13
    else if n > 1024 then 15
    else if n > 512 then 15
    else if n > 256 then 18
    else if n > 128 then 23
    else if n > 64 then 33
    else 40
  }

  /** The double-buffer table never grows with the number of blocks. */
  lemma NeighborsDoubleNonIncreasing(a: nat, b: nat)
    requires a <= b
    ensures NeighborsDouble(b) <= NeighborsDouble(a)
    ensures a <= 64 ==> NeighborsDouble(a) == 40
    ensures b > 2048 ==> NeighborsDouble(b) == 13
  {
  }

  /**
   * The single-buffer table does: 14 neighbours for 513..1024 blocks but
   * 15 for 1025..2048.  Its ends are 80 (at most 16 blocks) and 13.
   */
  lemma NeighborsSingleNotMonotone()
    ensures NeighborsSingle(513) == 14 && NeighborsSingle(1025) == 15
    ensures exists a: nat, b: nat :: a <= b && NeighborsSingle(a) < NeighborsSingle(b)
    ensures forall n: nat :: n <= 16 ==> NeighborsSingle(n) == 80
    ensures forall n: nat :: n > 2048 ==> NeighborsSingle(n) == 13
  {
    assert NeighborsSingle(513) < NeighborsSingle(1025);
  }

  /** options_n_neighbors: the table of the mix, 1 for Argon2, 0 otherwise. */
  function NNeighbors(opts: BagOptions): (d: nat)
    requires opts.comp != BagCompEnd
    ensures opts.mix == BagSingleBuffer ==> d == NeighborsSingle(NBlocks(opts))
    ensures opts.mix == BagDoubleBuffer ==> d == NeighborsDouble(NBlocks(opts))
    ensures d == 0 <==> opts.mix in {BagDoubleBufferPar, BagMixEnd}
  {
    match opts.mix
    case BagSingleBuffer => NeighborsSingle(NBlocks(opts))
    case BagDoubleBuffer => NeighborsDouble(NBlocks(opts))
    case BagArgon2Uniform => 1
    case _ => 0
  }

  /** The options after the in-place raising of the two costs. */
  function Raise(opts: BagOptions): (r: BagOptions)
    ensures r.tCost >= TCOST_MIN && r.mCost >= MCOST_MIN
    ensures r.tCost == (if opts.tCost < TCOST_MIN then TCOST_MIN else opts.tCost)
    ensures r.mCost == (if opts.mCost < MCOST_MIN then MCOST_MIN else opts.mCost)
    ensures r.(tCost := opts.tCost, mCost := opts.mCost) == opts
  {
    opts.(tCost := if opts.tCost < TCOST_MIN then TCOST_MIN else opts.tCost,
          mCost := if opts.mCost < MCOST_MIN then MCOST_MIN else opts.mCost)
  }

  /** The checks of options_validate after the raising, in source order. */
  function Check(o: BagOptions): ErrorCode
    requires o.comp != BagCompEnd
  {
    if o.mCost >= MCOST_MAX then ErrorMcostTooBig
    else if o.nNeighbors == 0 then ErrorNoNeighbors
    else if NBlocks(o) > UINT64_MAX / BagBlockSize(o.comp) then ErrorMcostTooBig
    else if o.mix != BagDoubleBuffer && o.comb == Compress.CombXor then ErrorIncompatibleOptions
    else ErrorNone
  }

  /** The rules a validated option set satisfies, independently of the check order. */
  ghost predicate Acceptable(o: BagOptions)
    requires o.comp != BagCompEnd
  {
    && TCOST_MIN <= o.tCost && MCOST_MIN <= o.mCost < MCOST_MAX
    && o.nNeighbors >= 1
    && NBlocks(o) * BagBlockSize(o.comp) <= UINT64_MAX
    && (o.comb == Compress.CombXor ==> o.mix == BagDoubleBuffer)
  }

  datatype BagValidated = BagValidated(err: ErrorCode, opts: BagOptions)

  /** options_validate: the raised options and the first failing check. */
  function Validate(opts: BagOptions): (r: BagValidated)
    requires opts.comp != BagCompEnd
    ensures r.opts == Raise(opts)
    ensures r.err == ErrorNone <==> Acceptable(r.opts)
    ensures r.opts.mCost >= MCOST_MAX ==> r.err == ErrorMcostTooBig
    ensures r.opts.mCost < MCOST_MAX && opts.nNeighbors == 0 ==> r.err == ErrorNoNeighbors
    ensures r.err in {ErrorNone, ErrorMcostTooBig, ErrorNoNeighbors, ErrorIncompatibleOptions}
  {
    var o := Raise(opts);
    var bs := BagBlockSize(o.comp);
    var n := NBlocks(o);
    assert n > UINT64_MAX / bs <==> n * bs > UINT64_MAX by {
      DivGuard(n, bs, UINT64_MAX);
    }
    BagValidated(Check(o), o)
  }

  /** n > u / d exactly when n * d > u: the division form of the overflow test is exact. */
  lemma DivGuard(n: nat, d: nat, u: nat)
    requires d >= 1
    ensures n > u / d <==> n * d > u
  {
    var q := u / d;
    assert u == q * d + u % d;
    MulStep(q, d);
    if n > q {
      MulMonotone(q + 1, n, d);
    } else {
      MulMonotone(n, q, d);
    }
  }

  /** t_cost = 0 is raised to TCOST_MIN and that alone causes no failure. */
  lemma ZeroTcostAccepted(opts: BagOptions)
    requires opts.comp != BagCompEnd && opts.tCost == 0
    ensures Validate(opts).opts.tCost == TCOST_MIN
    ensures Validate(opts).err == Validate(opts.(tCost := TCOST_MIN)).err
  {
  }

  /** validate_parameters: lengths are checked lower-inclusive, upper-exclusive; outlen, then inlen, then saltlen. */
  function ValidateParameters(outlen: nat, inlen: nat, saltlen: nat): (e: ErrorCode)
    ensures e == ErrorNone <==>
      OUTLEN_MIN <= outlen < OUTLEN_MAX && INLEN_MIN <= inlen < INLEN_MAX && SALTLEN_MIN <= saltlen < SALTLEN_MAX
    ensures !(OUTLEN_MIN <= outlen < OUTLEN_MAX) ==> e in {ErrorOutlenTooSmall, ErrorOutlenTooBig}
    ensures OUTLEN_MIN <= outlen < OUTLEN_MAX && !(INLEN_MIN <= inlen < INLEN_MAX) ==>
      e in {ErrorInlenTooSmall, ErrorInlenTooBig}
    ensures (OUTLEN_MIN <= outlen < OUTLEN_MAX && INLEN_MIN <= inlen < INLEN_MAX
             && !(SALTLEN_MIN <= saltlen < SALTLEN_MAX)) ==> e in {ErrorSaltlenTooSmall, ErrorSaltlenTooBig}
    ensures e in {ErrorOutlenTooSmall, ErrorInlenTooSmall, ErrorSaltlenTooSmall} <==>
      outlen < OUTLEN_MIN || (outlen < OUTLEN_MAX && (inlen < INLEN_MIN
        || (inlen < INLEN_MAX && saltlen < SALTLEN_MIN)))
  {
    if outlen < OUTLEN_MIN then ErrorOutlenTooSmall
    else if outlen >= OUTLEN_MAX then ErrorOutlenTooBig
    else if inlen < INLEN_MIN then ErrorInlenTooSmall
    else if inlen >= INLEN_MAX then ErrorInlenTooBig
    else if saltlen < SALTLEN_MIN then ErrorSaltlenTooSmall
    else if saltlen >= SALTLEN_MAX then ErrorSaltlenTooBig
    else ErrorNone
  }

  /** The boundary cases: each minimum is accepted and each maximum refused; a zero length is too small. */
  lemma ValidateParametersBounds(inlen: nat, saltlen: nat)
    requires INLEN_MIN <= inlen < INLEN_MAX && SALTLEN_MIN <= saltlen < SALTLEN_MAX
    ensures ValidateParameters(OUTLEN_MIN - 1, inlen, saltlen) == ErrorOutlenTooSmall
    ensures ValidateParameters(OUTLEN_MIN, inlen, saltlen) == ErrorNone
    ensures ValidateParameters(OUTLEN_MAX, inlen, saltlen) == ErrorOutlenTooBig
    ensures ValidateParameters(0, inlen, saltlen) == ErrorOutlenTooSmall
    ensures ValidateParameters(OUTLEN_MIN, 0, saltlen) == ErrorInlenTooSmall
    ensures ValidateParameters(OUTLEN_MIN, inlen, 0) == ErrorSaltlenTooSmall
  {
  }
}
