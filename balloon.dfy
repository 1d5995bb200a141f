/*
 * The top level of libballoon/balloon.c.
 *
 * balloon_internal checks its pointers and the input length, validates the
 * run options, then starts n_threads workers.  Worker t hashes the input
 * under its own salt (the salt with t added to its first four bytes, read
 * as a little-endian uint32) through init, fill, t_cost mixes and extract.
 * The output starts at zero and is XORed with every worker's block in
 * index order; the first failing worker in that order decides the error.
 *
 * The workers run one after the other here, in index order.  The file
 * calls hash_state_init/fill/mix/extract with the signatures of
 * libballoon/hash_state.h (options and salt at init, salt and input at
 * fill, a BLOCK_SIZE output at extract), which are not those of the
 * dispatcher in HashStateEngine: the four calls are a parameter, WorkerOps,
 * over an abstract state type.
 *
 * SCOST_MIN, SCOST_MAX, SALT_LEN and BLOCK_SIZE are defined in no header
 * of this model; they are unspecified constants (SALT_LEN at least 4, since
 * the worker index goes into the first four salt bytes).
 */
module Balloon {
  import opened Bytes
  import opened Errors
  import opened Encode

  /** libballoon/constants.h */
  const INLEN_MAX: nat := 0x10_0000
  const TCOST_MIN: nat := 1
  const THREADS_MAX: nat := 255

  const SCOST_MIN: nat
  const SCOST_MAX: nat
  const BLOCK_SIZE: nat

  type SaltLength = n: nat | 4 <= n witness 4
  const SALT_LEN: SaltLength

  /** 2^32: the uint32_t the worker index is added in wraps around here. */
  const WORD: nat := UINT32_MAX + 1

  /** The fields of balloon_options this file reads. */
  datatype RunOptions = RunOptions(sCost: nat, tCost: nat, nThreads: nat)

  /**
   * The static options_validate of balloon.c.  It rejects a small t_cost
   * instead of raising it, and checks t_cost, then s_cost, then n_threads.
   */
  function ValidateRun(o: RunOptions): (e: ErrorCode)
    ensures e == ErrorNone <==> TCOST_MIN <= o.tCost && SCOST_MIN <= o.sCost < SCOST_MAX && o.nThreads <= THREADS_MAX
    ensures o.tCost < TCOST_MIN ==> e == ErrorTcostTooSmall
    ensures TCOST_MIN <= o.tCost && o.sCost < SCOST_MIN ==> e == ErrorScostTooSmall
    ensures TCOST_MIN <= o.tCost && SCOST_MIN <= o.sCost && SCOST_MAX <= o.sCost ==> e == ErrorScostTooBig
    ensures e == ErrorNthreadsTooBig ==> THREADS_MAX < o.nThreads
  {
    if o.tCost < TCOST_MIN then ErrorTcostTooSmall
    else if o.sCost < SCOST_MIN then ErrorScostTooSmall
    else if o.sCost >= SCOST_MAX then ErrorScostTooBig
    else if o.nThreads > THREADS_MAX then ErrorNthreadsTooBig
    else ErrorNone
  }

  /** A zero t_cost is an error here, whatever the other options. */
  lemma ValidateRunRejectsZeroTcost(o: RunOptions)
    requires o.tCost == 0
    ensures ValidateRun(o) == ErrorTcostTooSmall && ValidateRun(o) != ErrorNone
  {
  }

  /** No zero byte among the first i bytes of s. */
  predicate NoZeroBefore(s: seq<byte>, i: nat)
    requires i <= |s|
  {
    forall j :: 0 <= j < i ==> s[j] != 0
  }

  /**
   * strncpy over |s| bytes: the bytes up to and including the first zero
   * byte are copied, every later byte is zero.
   */
  function Strncpy(s: seq<byte>): (r: seq<byte>)
    ensures |r| == |s|
    ensures forall i :: 0 <= i < |s| && NoZeroBefore(s, i) ==> r[i] == s[i]
    ensures forall i :: 0 <= i < |s| && !NoZeroBefore(s, i) ==> r[i] == 0
  {
    if |s| == 0 then []
    else if s[0] == 0 then Zero(|s|)
    else
      var rest := Strncpy(s[1..]);
      assert forall i :: 1 <= i <= |s| ==> (NoZeroBefore(s, i) <==> NoZeroBefore(s[1..], i - 1)) by {
        forall i | 1 <= i <= |s| ensures NoZeroBefore(s, i) <==> NoZeroBefore(s[1..], i - 1) {
          if NoZeroBefore(s[1..], i - 1) {
            forall j | 0 <= j < i ensures s[j] != 0 {
              if j > 0 {
                assert s[j] == s[1..][j - 1];
              }
            }
          }
        }
      }
      [s[0]] + rest
  }

  /** A salt without zero bytes passes strncpy unchanged. */
  lemma StrncpyNoZero(s: seq<byte>)
    requires NoZeroBefore(s, |s|)
    ensures Strncpy(s) == s
  {
    var r := Strncpy(s);
    forall i | 0 <= i < |s| ensures r[i] == s[i] {
      assert NoZeroBefore(s, i);
    }
  }

  lemma ModBelow(v: nat, m: nat)
    requires v < m
    ensures v % m == v
  {
  }

  /** The first four bytes of a salt, read as a little-endian uint32, plus w, modulo 2^32. */
  function SaltWord(s: seq<byte>, w: nat): (v: nat)
    requires |s| >= 4
    ensures v < WORD
  {
    (LittleEndian(s[..4]) + w) % WORD
  }

  /**
   * worker_salt as written: tsalt is a strncpy of the salt, and its first
   * four bytes are then overwritten with the little-endian encoding of
   * (LE32(tsalt[0..4)) + worker_idx) mod 2^32.
   */
  function WorkerSaltAsWritten(salt: seq<byte>, w: nat): (r: seq<byte>)
    requires |salt| >= 4 && w <= UINT32_MAX
    ensures |r| == |salt|
  {
    var t := Strncpy(salt);
    LittleEndianBytes(SaltWord(t, w), 4) + t[4..]
  }

  /**
   * worker_salt as intended: the salt copied whole, with the worker index
   * added into its first four bytes.
   */
  function WorkerSalt(salt: seq<byte>, w: nat): (r: seq<byte>)
    requires |salt| >= 4 && w <= UINT32_MAX
    ensures |r| == |salt| && r[4..] == salt[4..]
    ensures LittleEndian(r[..4]) == SaltWord(salt, w)
  {
    var v := SaltWord(salt, w);
    var r := LittleEndianBytes(v, 4) + salt[4..];
    assert r[..4] == LittleEndianBytes(v, 4);
    DecodeEncode(v, 4);
    Pow256Four();
    ModBelow(v, WORD);
    r
  }

  /** Worker 0 hashes under exactly the caller's salt. */
  lemma WorkerSaltFirstWorker(salt: seq<byte>)
    requires |salt| >= 4
    ensures WorkerSalt(salt, 0) == salt
  {
    var head := salt[..4];
    Pow256Four();
    assert LittleEndian(head) < WORD;
    EncodeDecode(head);
    assert head + salt[4..] == salt;
  }

  /** Two workers never share a salt: the index is recoverable from the first four bytes. */
  lemma WorkerSaltsDistinct(salt: seq<byte>, w: nat, v: nat)
    requires |salt| >= 4 && w <= UINT32_MAX && v <= UINT32_MAX && w != v
    ensures WorkerSalt(salt, w) != WorkerSalt(salt, v)
  {
    var a, b := WorkerSalt(salt, w), WorkerSalt(salt, v);
    var base := LittleEndian(salt[..4]);
    Pow256Four();
    assert base < WORD;
    if a == b {
      assert a[..4] == b[..4];
      assert (w + base) % WORD == (v + base) % WORD;
      AddModCancel(w, v, base, WORD);
    }
  }

  /** A sum of two values below m is reduced modulo m by at most one subtraction of m. */
  lemma WrapOnce(x: nat, m: nat)
    requires 1 <= m && x < 2 * m
    ensures x % m == if x < m then x else x - m
  {
    if x < m {
      DivModUnique(x, m, 0, x);
    } else {
      DivModUnique(x, m, 1, x - m);
    }
  }

  /** Adding the same w below m to two values below m keeps them apart modulo m. */
  lemma AddModCancel(a: nat, b: nat, w: nat, m: nat)
    requires 1 <= m && a < m && b < m && w < m && (a + w) % m == (b + w) % m
    ensures a == b
  {
    WrapOnce(a + w, m);
    WrapOnce(b + w, m);
  }

  /** Different salts give different worker salts: no salt byte is lost. */
  lemma WorkerSaltInjective(salt: seq<byte>, other: seq<byte>, w: nat)
    requires |salt| >= 4 && |other| >= 4 && w <= UINT32_MAX
    requires WorkerSalt(salt, w) == WorkerSalt(other, w)
    ensures salt == other
  {
    var x, y := salt[..4], other[..4];
    Pow256Four();
    assert LittleEndian(x) < WORD && LittleEndian(y) < WORD;
    assert WorkerSalt(salt, w)[..4] == WorkerSalt(other, w)[..4];
    AddModCancel(LittleEndian(x), LittleEndian(y), w, WORD);
    EncodeDecode(x);
    EncodeDecode(y);
    assert salt == x + salt[4..];
    assert other == y + other[4..];
  }

  /** As written and as intended agree on salts without zero bytes. */
  lemma WorkerSaltAsWrittenNoZero(salt: seq<byte>, w: nat)
    requires |salt| >= 4 && w <= UINT32_MAX && NoZeroBefore(salt, |salt|)
    ensures WorkerSaltAsWritten(salt, w) == WorkerSalt(salt, w)
    ensures WorkerSaltAsWritten(salt, 0) == salt
  {
    StrncpyNoZero(salt);
    WorkerSaltFirstWorker(salt);
  }

  /** As written, every byte after the first zero byte of the salt, past the first four, is zero. */
  lemma WorkerSaltAsWrittenZeroesTail(salt: seq<byte>, w: nat)
    requires |salt| >= 4 && w <= UINT32_MAX
    ensures forall i :: 4 <= i < |salt| && !NoZeroBefore(salt, i) ==> WorkerSaltAsWritten(salt, w)[i] == 0
  {
    var t := Strncpy(salt);
    var r := WorkerSaltAsWritten(salt, w);
    forall i | 4 <= i < |salt| && !NoZeroBefore(salt, i) ensures r[i] == 0 {
      assert r[i] == t[4..][i - 4] == t[i];
    }
  }

  /** As written, a salt 1, 0, 0, 0, last hands worker 0 the salt 1, 0, 0, 0, 0 whatever its last byte. */
  lemma WorkerSaltAsWrittenDropsLast(last: byte)
    ensures WorkerSaltAsWritten([1, 0, 0, 0, last], 0) == [1, 0, 0, 0, 0]
  {
    var a: seq<byte> := [1, 0, 0, 0, last];
    var z: seq<byte> := [1, 0, 0, 0, 0];
    assert a[1] == 0;
    assert !NoZeroBefore(a, 4);
    assert NoZeroBefore(a, 1);
    assert Strncpy(a) == z by {
      assert Strncpy(a)[0] == 1;
    }
    assert z[..4] == [1, 0, 0, 0];
    var z3: seq<byte>, z2: seq<byte>, z1: seq<byte> := [0, 0, 0], [0, 0], [0];
    assert LittleEndian(z[..4]) == 1 by {
      assert z[..4][1..] == z3 && z3[1..] == z2 && z2[1..] == z1 && z1[1..] == [];
    }
    ModBelow(1, WORD);
    assert SaltWord(z, 0) == 1;
    EncodeDecode(z[..4]);
    assert LittleEndianBytes(1, 4) == [1, 0, 0, 0];
    assert z[4..] == [0];
  }

  /**
   * As written, two salts that differ only after a zero byte give worker 0
   * the same salt, and neither is the caller's salt.
   */
  lemma WorkerSaltAsWrittenCollides()
    ensures WorkerSaltAsWritten([1, 0, 0, 0, 5], 0) == [1, 0, 0, 0, 0]
    ensures WorkerSaltAsWritten([1, 0, 0, 0, 6], 0) == [1, 0, 0, 0, 0]
    ensures WorkerSalt([1, 0, 0, 0, 5], 0) == [1, 0, 0, 0, 5]
  {
    WorkerSaltAsWrittenDropsLast(5);
    WorkerSaltAsWrittenDropsLast(6);
    WorkerSaltFirstWorker([1, 0, 0, 0, 5]);
  }

  /** worker_salt, with the whole salt copied: tsalt holds WorkerSalt(salt, w). */
  method WriteWorkerSalt(tsalt: array<byte>, salt: seq<byte>, w: nat)
    requires tsalt.Length == |salt| && |salt| >= 4 && w <= UINT32_MAX
    modifies tsalt
    ensures tsalt[..] == WorkerSalt(salt, w)
  {
    var i := 0;
    while i < |salt|
      invariant i <= |salt| && tsalt[..i] == salt[..i]
    {
      tsalt[i] := salt[i];
      i := i + 1;
    }
    assert tsalt[..] == salt;
    var low := BytesToLittleendUint32(tsalt[..], 4);
    ghost var word := LittleEndian(salt[..4]);
    assert word < WORD by {
      Pow256Four();
    }
    ModBelow(word, WORD);
    assert low == word;
    var byteint := (low + w) % WORD;
    Uint32ToLittleendBytes(tsalt, 4, byteint);
    assert tsalt[..] == tsalt[..4] + tsalt[4..];
  }

  /** The static xor of balloon.c: a[i] ^= b[i] for every i. */
  method BalloonXor(a: array<byte>, b: seq<byte>)
    requires a.Length == |b|
    modifies a
    ensures a[..] == Xor(old(a[..]), b)
  {
    ghost var start := a[..];
    var i := 0;
    while i < a.Length
      invariant i <= a.Length
      invariant forall k :: 0 <= k < i ==> a[k] == start[k] ^ b[k]
      invariant forall k :: i <= k < a.Length ==> a[k] == start[k]
    {
      a[i] := a[i] ^ b[i];
      i := i + 1;
    }
  }

  /**
   * The four hash-state calls a worker makes, with the options bound:
   * init from the salt, fill from salt and input, one mix pass, and extract
   * of a BLOCK_SIZE output.  Each returns the next state or its error.
   */
  datatype WorkerOps<!S> = WorkerOps(
    init: seq<byte> -> Result<S>,
    fill: (S, seq<byte>, seq<byte>) -> Result<S>,
    mix: S -> Result<S>,
    extract: S -> Result<Block>)

  /**
   * What a C return code can say: a failure is never ERROR_NONE, and
   * extract's output is BLOCK_SIZE bytes.
   */
  ghost predicate OpsWellFormed<S(!new)>(ops: WorkerOps<S>) {
    && (forall salt :: ops.init(salt).Err? ==> ops.init(salt).error != ErrorNone)
    && (forall st, salt, input :: ops.fill(st, salt, input).Err? ==> ops.fill(st, salt, input).error != ErrorNone)
    && (forall st :: ops.mix(st).Err? ==> ops.mix(st).error != ErrorNone)
    && (forall st :: ops.extract(st).Err? ==> ops.extract(st).error != ErrorNone)
    && (forall st :: ops.extract(st).Ok? ==> |ops.extract(st).value| == BLOCK_SIZE)
  }

  /** t mix passes from st, stopping at the first that fails. */
  function MixTimes<S>(ops: WorkerOps<S>, st: S, t: nat): (r: Result<S>)
    decreases t
  {
    if t == 0 then Ok(st)
    else
      match ops.mix(st)
      case Err(e) => Err(e)
      case Ok(next) => MixTimes(ops, next, t - 1)
  }

  /** a + b passes are a passes and then b more, unless one of the first a fails. */
  lemma {:induction false} MixTimesSplit<S>(ops: WorkerOps<S>, st: S, a: nat, b: nat)
    ensures MixTimes(ops, st, a + b) == match MixTimes(ops, st, a)
                                          case Err(e) => Err(e)
                                          case Ok(mid) => MixTimes(ops, mid, b)
  {
    if a > 0 {
      match ops.mix(st)
      case Err(e) =>
      case Ok(next) =>
        MixTimesSplit(ops, next, a - 1, b);
        assert a + b - 1 == (a - 1) + b;
    }
  }

  /** A failed run of passes reports the failing pass's code, never ERROR_NONE. */
  lemma {:induction false} MixTimesFails<S(!new)>(ops: WorkerOps<S>, st: S, t: nat)
    requires OpsWellFormed(ops)
    ensures MixTimes(ops, st, t).Err? ==> MixTimes(ops, st, t).error != ErrorNone
  {
    if t > 0 {
      match ops.mix(st)
      case Err(e) =>
      case Ok(next) =>
        MixTimesFails(ops, next, t - 1);
    }
  }

  /** balloon_worker: init, fill, t_cost mixes, extract, stopping at the first failure. */
  ghost function WorkerSpec<S>(ops: WorkerOps<S>, salt: seq<byte>, input: seq<byte>, tCost: nat): (r: Result<Block>)
  {
    match ops.init(salt)
    case Err(e) => Err(e)
    case Ok(s0) =>
      match ops.fill(s0, salt, input)
      case Err(e) => Err(e)
      case Ok(s1) =>
        match MixTimes(ops, s1, tCost)
        case Err(e) => Err(e)
        case Ok(s2) => ops.extract(s2)
  }

  /** A worker's outcome is a BLOCK_SIZE block or a real error. */
  lemma WorkerSpecWellFormed<S(!new)>(ops: WorkerOps<S>, salt: seq<byte>, input: seq<byte>, tCost: nat)
    requires OpsWellFormed(ops)
    ensures var r := WorkerSpec(ops, salt, input, tCost);
      && (r.Ok? ==> |r.value| == BLOCK_SIZE)
      && (r.Err? ==> r.error != ErrorNone)
  {
    match ops.init(salt)
    case Err(e) =>
    case Ok(s0) =>
      match ops.fill(s0, salt, input)
      case Err(e) =>
      case Ok(s1) =>
        MixTimesFails(ops, s1, tCost);
  }

  /**
   * balloon_worker.  data->error and data->out become one result: the error
   * of the first call that fails, or the extracted block.
   */
  method BalloonWorker<S>(ops: WorkerOps<S>, salt: seq<byte>, input: seq<byte>, tCost: nat) returns (r: Result<Block>)
    ensures r == WorkerSpec(ops, salt, input, tCost)
  {
    var init := ops.init(salt);
    if init.Err? {
      return Err(init.error);
    }
    var filled := ops.fill(init.value, salt, input);
    if filled.Err? {
      return Err(filled.error);
    }
    ghost var mixed := MixTimes(ops, filled.value, tCost);
    var st := filled.value;
    var i := 0;
    while i < tCost
      invariant i <= tCost
      invariant mixed == MixTimes(ops, st, tCost - i)
    {
      var step := ops.mix(st);
      if step.Err? {
        return Err(step.error);
      }
      st := step.value;
      i := i + 1;
    }
    r := ops.extract(st);
  }

  /** Every Ok outcome holds a block of n bytes. */
  ghost predicate OkLength(rs: seq<Result<Block>>, n: nat) {
    forall i :: 0 <= i < |rs| && rs[i].Ok? ==> |rs[i].value| == n
  }

  /** No outcome is a failure reporting ERROR_NONE. */
  ghost predicate RealErrors(rs: seq<Result<Block>>) {
    forall i :: 0 <= i < |rs| && rs[i].Err? ==> rs[i].error != ErrorNone
  }

  /** The return codes the workers leave in thread_data[t].error. */
  function Codes(rs: seq<Result<Block>>): (cs: seq<ErrorCode>)
    ensures |cs| == |rs|
  {
    seq(|rs|, i requires 0 <= i < |rs| => if rs[i].Ok? then ErrorNone else rs[i].error)
  }

  ghost predicate AllOk(rs: seq<Result<Block>>) {
    forall i :: 0 <= i < |rs| ==> rs[i].Ok?
  }

  /** The blocks of outcomes that all succeeded. */
  function Values(rs: seq<Result<Block>>): (vs: seq<Block>)
    requires AllOk(rs)
    ensures |vs| == |rs| && forall i :: 0 <= i < |rs| ==> vs[i] == rs[i].value
  {
    seq(|rs|, i requires 0 <= i < |rs| => rs[i].value)
  }

  /** How many workers come before the first failed one: all of them when none failed. */
  function OkPrefix(rs: seq<Result<Block>>): (k: nat)
    ensures k <= |rs| && AllOk(rs[..k]) && (k < |rs| ==> rs[k].Err?)
    decreases |rs|
  {
    if |rs| == 0 || rs[0].Err? then 0
    else
      var k := 1 + OkPrefix(rs[1..]);
      assert forall i :: 1 <= i < k ==> rs[..k][i] == rs[1..][..k - 1][i - 1];
      k
  }

  /** The blocks of the workers before the first failed one, all of length n. */
  lemma OkValuesOfLength(rs: seq<Result<Block>>, n: nat, t: nat)
    requires OkLength(rs, n) && t <= |rs| && AllOk(rs[..t])
    ensures AllOfLength(Values(rs[..t]), n)
  {
  }

  /** One more successful worker adds its block at the end of the values. */
  lemma ValuesSnoc(rs: seq<Result<Block>>, t: nat)
    requires t < |rs| && AllOk(rs[..t + 1])
    ensures AllOk(rs[..t]) && Values(rs[..t + 1]) == Values(rs[..t]) + [rs[t].value]
  {
    assert rs[..t] == rs[..t + 1][..t];
  }

  /** Folding in one more block extends the fold. */
  lemma XorFoldSnoc(acc: Block, done: seq<Block>, x: Block)
    requires |x| == |acc| && AllOfLength(done, |acc|)
    ensures AllOfLength(done + [x], |acc|)
    ensures XorFold(acc, done + [x]) == Xor(XorFold(acc, done), x)
  {
    XorFoldPullOut(acc, done, x, []);
    assert done + [x] + [] == done + [x];
    assert done + [] == done;
  }

  /** Folding in one more successful worker extends the fold of the ones before it. */
  lemma JoinSnoc(acc: Block, rs: seq<Result<Block>>, t: nat)
    requires OkLength(rs, |acc|) && t < |rs| && AllOk(rs[..t + 1])
    ensures AllOk(rs[..t]) && AllOfLength(Values(rs[..t]), |acc|) && AllOfLength(Values(rs[..t + 1]), |acc|)
    ensures XorFold(acc, Values(rs[..t + 1])) == Xor(XorFold(acc, Values(rs[..t])), rs[t].value)
  {
    ValuesSnoc(rs, t);
    OkValuesOfLength(rs, |acc|, t);
    assert rs[..t + 1][t] == rs[t];
    var x := rs[t].value;
    assert |x| == |acc|;
    XorFoldSnoc(acc, Values(rs[..t]), rs[t].value);
  }

  /**
   * The join loop from an output holding acc: stop at the first failed
   * worker with its error, else XOR its block in and go on.
   */
  ghost function JoinFrom(acc: Block, rs: seq<Result<Block>>): (r: Result<Block>)
    requires OkLength(rs, |acc|)
    decreases |rs|
  {
    if |rs| == 0 then Ok(acc)
    else if rs[0].Err? then Err(rs[0].error)
    else JoinFrom(Xor(acc, rs[0].value), rs[1..])
  }

  /**
   * The join succeeds exactly when every worker did, and then yields acc
   * XOR every block in index order; otherwise it reports the first error in
   * index order.
   */
  lemma {:induction false} JoinFromCorrect(acc: Block, rs: seq<Result<Block>>)
    requires OkLength(rs, |acc|) && RealErrors(rs)
    ensures JoinFrom(acc, rs).Ok? <==> AllOk(rs)
    ensures JoinFrom(acc, rs).Err? ==> JoinFrom(acc, rs).error == FirstError(Codes(rs)) != ErrorNone
    ensures AllOk(rs) ==> AllOfLength(Values(rs), |acc|) && JoinFrom(acc, rs) == Ok(XorFold(acc, Values(rs)))
    decreases |rs|
  {
    if |rs| > 0 {
      var cs := Codes(rs);
      assert cs[0] == (if rs[0].Ok? then ErrorNone else rs[0].error);
      if rs[0].Ok? {
        assert Codes(rs[1..]) == cs[1..];
        JoinFromCorrect(Xor(acc, rs[0].value), rs[1..]);
        assert AllOk(rs) <==> AllOk(rs[1..]) by {
          if AllOk(rs[1..]) {
            forall i | 0 <= i < |rs| ensures rs[i].Ok? {
              if i > 0 {
                assert rs[i] == rs[1..][i - 1];
              }
            }
          }
        }
        if AllOk(rs) {
          assert Values(rs)[1..] == Values(rs[1..]);
        }
      }
    }
  }

  /** What the n workers of a validated run produce, worker t hashing under WorkerSalt(salt, t). */
  ghost function Outcomes<S>(ops: WorkerOps<S>, salt: seq<byte>, input: seq<byte>, o: RunOptions): (rs: seq<Result<Block>>)
    requires |salt| >= 4 && o.nThreads <= THREADS_MAX
    ensures |rs| == o.nThreads
  {
    seq(o.nThreads, t requires 0 <= t < o.nThreads => WorkerSpec(ops, WorkerSalt(salt, t), input, o.tCost))
  }

  lemma OutcomesWellFormed<S(!new)>(ops: WorkerOps<S>, salt: seq<byte>, input: seq<byte>, o: RunOptions)
    requires OpsWellFormed(ops) && |salt| >= 4 && o.nThreads <= THREADS_MAX
    ensures OkLength(Outcomes(ops, salt, input, o), BLOCK_SIZE) && RealErrors(Outcomes(ops, salt, input, o))
  {
    var rs := Outcomes(ops, salt, input, o);
    forall t | 0 <= t < o.nThreads
      ensures (rs[t].Ok? ==> |rs[t].value| == BLOCK_SIZE) && (rs[t].Err? ==> rs[t].error != ErrorNone)
    {
      WorkerSpecWellFormed(ops, WorkerSalt(salt, t), input, o.tCost);
    }
  }

  /**
   * balloon_internal on non-null pointers: the input length, then the
   * options, then the workers' join starting from a zeroed output.
   */
  ghost function BalloonSpec<S(!new)>(ops: WorkerOps<S>, salt: seq<byte>, input: seq<byte>, o: RunOptions): (r: Result<Block>)
    requires OpsWellFormed(ops) && |salt| >= 4
  {
    if |input| >= INLEN_MAX then Err(ErrorInlenTooBig)
    else if ValidateRun(o) != ErrorNone then Err(ValidateRun(o))
    else
      OutcomesWellFormed(ops, salt, input, o);
      JoinFrom(Zero(BLOCK_SIZE), Outcomes(ops, salt, input, o))
  }

  /**
   * A run succeeds exactly when the input is short enough, the options
   * validate and every worker succeeds; its output is then the XOR of the
   * workers' blocks.  A failed run reports the first failing check, and past
   * the checks the first failing worker.
   */
  lemma BalloonSpecOutcome<S(!new)>(ops: WorkerOps<S>, salt: seq<byte>, input: seq<byte>, o: RunOptions)
    requires OpsWellFormed(ops) && |salt| >= 4
    ensures var r := BalloonSpec(ops, salt, input, o);
      && (|input| >= INLEN_MAX ==> r == Err(ErrorInlenTooBig))
      && (|input| < INLEN_MAX && ValidateRun(o) != ErrorNone ==> r == Err(ValidateRun(o)))
      && (|input| < INLEN_MAX && ValidateRun(o) == ErrorNone ==>
            var rs := Outcomes(ops, salt, input, o);
            && (r.Ok? <==> AllOk(rs))
            && (r.Err? ==> r.error == FirstError(Codes(rs)) && r.error != ErrorNone)
            && (AllOk(rs) ==> r == Ok(XorFold(Zero(BLOCK_SIZE), Values(rs)))))
  {
    if |input| < INLEN_MAX && ValidateRun(o) == ErrorNone {
      var rs := Outcomes(ops, salt, input, o);
      OutcomesWellFormed(ops, salt, input, o);
      JoinFromCorrect(Zero(BLOCK_SIZE), rs);
    }
  }

  /**
   * With no workers the output is BLOCK_SIZE zero bytes.  In the source that
   * run declares zero-length arrays for the workers' data and thread ids,
   * which C leaves undefined.  The model reads the loops as running zero
   * times.
   */
  lemma BalloonNoThreads<S(!new)>(ops: WorkerOps<S>, salt: seq<byte>, input: seq<byte>, o: RunOptions)
    requires OpsWellFormed(ops) && |salt| >= 4
    requires |input| < INLEN_MAX && ValidateRun(o) == ErrorNone && o.nThreads == 0
    ensures BalloonSpec(ops, salt, input, o) == Ok(Zero(BLOCK_SIZE))
  {
  }

  /**
   * balloon_internal.  A null pointer gives ERROR_NULL_POINTER and an input
   * of INLEN_MAX bytes or more ERROR_INLEN_TOO_BIG, both before the options
   * are validated; none of these checks writes the output.  Otherwise the
   * result is BalloonSpec's; the workers only read salt and input, all
   * before out is zeroed.
   */
  method BalloonInternal<S(!new)>(ops: WorkerOps<S>, out: array?<byte>, salt: array?<byte>, input: array?<byte>, o: RunOptions)
    returns (err: ErrorCode)
    requires OpsWellFormed(ops)
    requires out != null ==> out.Length == BLOCK_SIZE
    requires salt != null ==> salt.Length == SALT_LEN
    modifies out
    ensures out == null || salt == null || input == null ==> err == ErrorNullPointer
    ensures out != null && salt != null && input != null ==>
      var r := BalloonSpec(ops, old(salt[..]), old(input[..]), o);
      && (r.Err? ==> err == r.error)
      && (r.Ok? ==> err == ErrorNone && out[..] == r.value)
    ensures out != null && (salt == null || input == null || input.Length >= INLEN_MAX || ValidateRun(o) != ErrorNone) ==>
      out[..] == old(out[..])
    ensures out != null && salt != null && input != null && input.Length < INLEN_MAX && ValidateRun(o) == ErrorNone ==>
      var rs := Outcomes(ops, old(salt[..]), old(input[..]), o);
      && AllOfLength(Values(rs[..OkPrefix(rs)]), BLOCK_SIZE)
      && out[..] == XorFold(Zero(BLOCK_SIZE), Values(rs[..OkPrefix(rs)]))
  {
    if out == null || input == null || salt == null {
      return ErrorNullPointer;
    }
    if input.Length >= INLEN_MAX {
      return ErrorInlenTooBig;
    }
    err := ValidateRun(o);
    if err != ErrorNone {
      return err;
    }
    var saltBytes, inBytes := salt[..], input[..];
    OutcomesWellFormed(ops, saltBytes, inBytes, o);
    var results := SpawnWorkers(ops, saltBytes, inBytes, o);
    err := JoinWorkers(out, results);
  }

  /** The spawn loop: worker t gets its own salt, written into a fresh tsalt, and runs to its outcome. */
  method SpawnWorkers<S(!new)>(ops: WorkerOps<S>, salt: seq<byte>, input: seq<byte>, o: RunOptions)
    returns (results: seq<Result<Block>>)
    requires OpsWellFormed(ops) && |salt| == SALT_LEN && o.nThreads <= THREADS_MAX
    ensures results == Outcomes(ops, salt, input, o)
  {
    ghost var outcomes := Outcomes(ops, salt, input, o);
    results := [];
    var t := 0;
    while t < o.nThreads
      invariant t <= o.nThreads && results == outcomes[..t]
    {
      var tsalt := new byte[SALT_LEN];
      WriteWorkerSalt(tsalt, salt, t);
      var r := BalloonWorker(ops, tsalt[..], input, o.tCost);
      results := results + [r];
      t := t + 1;
    }
    assert results == outcomes;
  }

  /**
   * bzero, then the join loop in index order: the first failed worker's
   * code, or every block XORed into out.
   */
  method JoinWorkers(out: array<byte>, results: seq<Result<Block>>) returns (err: ErrorCode)
    requires out.Length == BLOCK_SIZE && OkLength(results, BLOCK_SIZE)
    modifies out
    ensures var r := JoinFrom(Zero(BLOCK_SIZE), results);
      && (r.Err? ==> err == r.error)
      && (r.Ok? ==> err == ErrorNone && out[..] == r.value)
    ensures AllOfLength(Values(results[..OkPrefix(results)]), BLOCK_SIZE)
    ensures out[..] == XorFold(Zero(BLOCK_SIZE), Values(results[..OkPrefix(results)]))
  {
    forall i | 0 <= i < out.Length {
      out[i] := 0;
    }
    assert out[..] == Zero(BLOCK_SIZE);
    var t := 0;
    while t < |results|
      invariant t <= OkPrefix(results) && |out[..]| == BLOCK_SIZE
      invariant JoinFrom(Zero(BLOCK_SIZE), results) == JoinFrom(out[..], results[t..])
      invariant AllOk(results[..t]) && AllOfLength(Values(results[..t]), BLOCK_SIZE)
      invariant out[..] == XorFold(Zero(BLOCK_SIZE), Values(results[..t]))
    {
      assert results[t..][1..] == results[t + 1..];
      if results[t].Err? {
        return results[t].error;
      }
      assert results[..OkPrefix(results)][t] == results[t];
      assert AllOk(results[..t + 1]);
      JoinSnoc(Zero(BLOCK_SIZE), results, t);
      BalloonXor(out, results[t].value);
      t := t + 1;
    }
    OkValuesOfLength(results, BLOCK_SIZE, OkPrefix(results));
    err := ErrorNone;
  }
}
