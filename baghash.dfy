/*
 * BagHash, the entry point of libbaghash/baghash.c.
 *
 * It checks its pointers, then the three lengths, raises t_cost and m_cost
 * to their minimums, refuses an m_cost of MCOST_MAX or more, and then runs
 * the hash state: init, fill, t_cost mixes and extract.  Only init and fill
 * can fail the call; the return codes of mix and extract are discarded, so
 * their models return no code at all.
 *
 * The hash-state calls are those of the signatures baghash.c uses (init
 * with m_cost, block size and salt; fill with input and salt; extract into
 * outlen bytes).  They are a parameter, BagOps, over an abstract state
 * type, with the block size bound inside init.
 */
module BagHashApi {
  import opened Bytes
  import opened Errors
  import opened BagOptions

  /** The four hash-state calls of BagHash. */
  datatype BagOps<!S> = BagOps(
    init: (nat, seq<byte>) -> Result<S>,
    fill: (S, seq<byte>, seq<byte>) -> Result<S>,
    mix: S -> S,
    extract: (S, nat) -> seq<byte>)

  /** A failure is never ERROR_NONE, and extract writes exactly outlen bytes. */
  ghost predicate BagOpsWellFormed<S(!new)>(ops: BagOps<S>) {
    && (forall m, salt :: ops.init(m, salt).Err? ==> ops.init(m, salt).error != ErrorNone)
    && (forall st, input, salt :: ops.fill(st, input, salt).Err? ==> ops.fill(st, input, salt).error != ErrorNone)
    && (forall st, n :: |ops.extract(st, n)| == n)
  }

  /** t mix passes from st, their return codes ignored. */
  function MixIgnoring<S>(ops: BagOps<S>, st: S, t: nat): (r: S)
    decreases t
  {
    if t == 0 then st else MixIgnoring(ops, ops.mix(st), t - 1)
  }

  /** a + b passes are a passes and then b more. */
  lemma {:induction false} MixIgnoringSplit<S>(ops: BagOps<S>, st: S, a: nat, b: nat)
    ensures MixIgnoring(ops, st, a + b) == MixIgnoring(ops, MixIgnoring(ops, st, a), b)
  {
    if a > 0 {
      MixIgnoringSplit(ops, ops.mix(st), a - 1, b);
      assert a + b - 1 == (a - 1) + b;
    }
  }

  /** t_cost after raising. */
  function RaisedT(tCost: nat): (t: nat)
    ensures t >= TCOST_MIN && (tCost >= TCOST_MIN ==> t == tCost)
  {
    if tCost < TCOST_MIN then TCOST_MIN else tCost
  }

  /** m_cost after raising. */
  function RaisedM(mCost: nat): (m: nat)
    ensures m >= MCOST_MIN && (mCost >= MCOST_MIN ==> m == mCost)
  {
    if mCost < MCOST_MIN then MCOST_MIN else mCost
  }

  /**
   * BagHash on non-null pointers: the output bytes, or the code of the
   * first check or call that failed.
   */
  ghost function BagHashSpec<S>(ops: BagOps<S>, outlen: nat, input: seq<byte>, salt: seq<byte>, tCost: nat, mCost: nat)
    : (r: Result<seq<byte>>)
  {
    var e := ValidateParameters(outlen, |input|, |salt|);
    if e != ErrorNone then Err(e)
    else if RaisedM(mCost) >= MCOST_MAX then Err(ErrorMcostTooBig)
    else
      match ops.init(RaisedM(mCost), salt)
      case Err(e) => Err(e)
      case Ok(s0) =>
        match ops.fill(s0, input, salt)
        case Err(e) => Err(e)
        case Ok(s1) => Ok(ops.extract(MixIgnoring(ops, s1, RaisedT(tCost)), outlen))
  }

  /**
   * The length errors come first, whatever the costs; a call that passes
   * them fails only on a too-large m_cost, in init or in fill.  A successful
   * call writes outlen bytes: extract's after RaisedT(tCost) mixes.
   */
  lemma BagHashOutcome<S(!new)>(ops: BagOps<S>, outlen: nat, input: seq<byte>, salt: seq<byte>, tCost: nat, mCost: nat)
    requires BagOpsWellFormed(ops)
    ensures var r := BagHashSpec(ops, outlen, input, salt, tCost, mCost);
      && (ValidateParameters(outlen, |input|, |salt|) != ErrorNone ==> r == Err(ValidateParameters(outlen, |input|, |salt|)))
      && (r.Err? ==> r.error != ErrorNone)
      && (r.Ok? <==> && ValidateParameters(outlen, |input|, |salt|) == ErrorNone
                     && RaisedM(mCost) < MCOST_MAX
                     && ops.init(RaisedM(mCost), salt).Ok?
                     && ops.fill(ops.init(RaisedM(mCost), salt).value, input, salt).Ok?)
      && (r.Ok? ==> |r.value| == outlen && OUTLEN_MIN <= outlen < OUTLEN_MAX)
  {
  }

  /** Costs below their minimums behave exactly as the minimums: they are raised, never refused. */
  lemma BagHashRaisesCosts<S>(ops: BagOps<S>, outlen: nat, input: seq<byte>, salt: seq<byte>, tCost: nat, mCost: nat)
    ensures BagHashSpec(ops, outlen, input, salt, tCost, mCost)
         == BagHashSpec(ops, outlen, input, salt, RaisedT(tCost), RaisedM(mCost))
  {
  }

  /**
   * One more mix pass is the same hash with the pass applied to the state
   * before extract: the passes run after fill and before extract, t_cost of
   * them.
   */
  lemma BagHashMixesThenExtracts<S>(ops: BagOps<S>, outlen: nat, input: seq<byte>, salt: seq<byte>, tCost: nat, mCost: nat, s1: S)
    requires ValidateParameters(outlen, |input|, |salt|) == ErrorNone && RaisedM(mCost) < MCOST_MAX
    requires ops.init(RaisedM(mCost), salt).Ok? && ops.fill(ops.init(RaisedM(mCost), salt).value, input, salt) == Ok(s1)
    requires tCost >= TCOST_MIN
    ensures BagHashSpec(ops, outlen, input, salt, tCost + 1, mCost)
         == Ok(ops.extract(ops.mix(MixIgnoring(ops, s1, tCost)), outlen))
  {
    MixIgnoringSplit(ops, s1, tCost, 1);
  }

  /**
   * BagHash.  A null out, in or salt gives ERROR_NULL_POINTER before any
   * other check; otherwise the code is BagHashSpec's and, on success, out
   * holds its bytes.  Nothing is written before fill has succeeded.
   */
  method BagHash<S(!new)>(ops: BagOps<S>, out: array?<byte>, outlen: nat, input: array?<byte>, salt: array?<byte>,
                          tCost: nat, mCost: nat) returns (err: ErrorCode)
    requires BagOpsWellFormed(ops)
    requires out != null ==> out.Length == outlen
    modifies out
    ensures out == null || input == null || salt == null ==> err == ErrorNullPointer
    ensures out != null && input != null && salt != null ==>
      var r := BagHashSpec(ops, outlen, old(input[..]), old(salt[..]), tCost, mCost);
      && (r.Err? ==> err == r.error)
      && (r.Ok? ==> err == ErrorNone && out[..] == r.value)
    ensures out != null && err != ErrorNone ==> out[..] == old(out[..])
  {
    if out == null || input == null || salt == null {
      return ErrorNullPointer;
    }
    err := ValidateParameters(outlen, input.Length, salt.Length);
    if err != ErrorNone {
      return err;
    }
    var t, m := tCost, mCost;
    if t < TCOST_MIN {
      t := TCOST_MIN;
    }
    if m < MCOST_MIN {
      m := MCOST_MIN;
    }
    if m >= MCOST_MAX {
      return ErrorMcostTooBig;
    }
    var inBytes, saltBytes := input[..], salt[..];
    var init := ops.init(m, saltBytes);
    if init.Err? {
      return init.error;
    }
    var filled := ops.fill(init.value, inBytes, saltBytes);
    if filled.Err? {
      return filled.error;
    }
    ghost var s1 := filled.value;
    var st := filled.value;
    var i := 0;
    while i < t
      invariant i <= t && MixIgnoring(ops, s1, t) == MixIgnoring(ops, st, t - i)
    {
      st := ops.mix(st);
      i := i + 1;
    }
    var bytes := ops.extract(st, outlen);
    var k := 0;
    while k < outlen
      invariant k <= outlen && out[..k] == bytes[..k]
    {
      out[k] := bytes[k];
      k := k + 1;
    }
    assert out[..] == out[..outlen];
    err := ErrorNone;
  }
}
