/*
 * The Argon2-uniform strategy of libbaghash/hash_state_argon2.c.
 *
 * One buffer rewritten in place, in index order; block i becomes the
 * compression of exactly two blocks, its predecessor and one neighbour.
 * In the first pass the neighbour lies below i (block 0 takes block 0);
 * later passes draw it from the whole buffer.  round_count counts passes.
 */
module HashStateArgon2 {
  import opened Bytes
  import opened Errors
  import opened Primitives
  import opened Compress
  import opened HashStates
  import BagBitstream

  /**
   * prev_idx as written: i is an int, so i - 1 is -1 for block 0 and is
   * converted to size_t, 2^64 - 1, before the reduction mod n_blocks.
   */
  function PrevIndexAsWritten(i: nat, round: nat, n: nat): (r: nat)
    requires i < n
    ensures r < n
    ensures i > 0 ==> r == i - 1
    ensures i == 0 && round > 0 ==> r == UINT64_MAX % n
  {
    if i > 0 || round > 0 then (if i == 0 then UINT64_MAX else i - 1) % n else 0
  }

  /**
   * The predecessor the code means: block i - 1, cyclically (the last block
   * for block 0), except block 0 of the first pass, which uses itself.
   */
  function PrevIndex(i: nat, round: nat, n: nat): (r: nat)
    requires i < n
    ensures r < n
    ensures (i > 0 || round > 0) ==> (r + 1) % n == i
    ensures i == 0 && round == 0 ==> r == 0
  {
    if i > 0 then i - 1 else if round > 0 then n - 1 else 0
  }

  /** With 34 blocks the second pass hashes block 17, not block 33, into block 0. */
  lemma PrevIndexAsWrittenDiffers()
    ensures PrevIndexAsWritten(0, 1, 34) == 17
    ensures PrevIndex(0, 1, 34) == 33
  {
  }

  /** The two agree whenever n_blocks is a power of two (up to 2^64). */
  lemma PrevIndexAgreesOnPowersOfTwo(i: nat, round: nat, k: nat)
    requires k <= 64 && i < Pow2(k)
    ensures PrevIndexAsWritten(i, round, Pow2(k)) == PrevIndex(i, round, Pow2(k))
  {
    if i == 0 && round > 0 {
      Pow2Add(k, 64 - k);
      Pow2Of64();
      PredecessorOfMultipleMod(UINT64_MAX, Pow2(k), Pow2(64 - k));
    }
  }

  /** One less than a multiple of d leaves d - 1 mod d. */
  lemma PredecessorOfMultipleMod(v: nat, d: nat, b: nat)
    requires d >= 1 && b >= 1 && v + 1 == d * b
    ensures v % d == d - 1
  {
    assert v == d * (b - 1) + (d - 1);
    DivModUnique(v, d, b - 1, d - 1);
  }

  /** block_max: the neighbour bound, n_blocks after the first pass and i during it. */
  function NeighborBound(i: nat, round: nat, n: nat): (m: nat)
    requires i < n
    ensures m <= n
    ensures m == 0 <==> i == 0 && round == 0
  {
    if round > 0 then n else i
  }

  /** A neighbour step i may use: drawn below the bound, or block 0 when the bound is 0. */
  ghost predicate NeighborOk(nb: nat, i: nat, round: nat, n: nat)
    requires i < n
  {
    if NeighborBound(i, round, n) > 0 then nb < NeighborBound(i, round, n) else nb == 0
  }

  /**
   * The neighbour draw of step i from keystream position pos: rand_int with
   * the step's bound when that is positive; block 0, without touching the
   * stream, when it is 0.
   */
  function Argon2Pick(ks: Keystream, key: seq<byte>, pos: nat, i: nat, round: nat, n: nat): BagBitstream.Draw
    requires i < n
  {
    var m := NeighborBound(i, round, n);
    if m > 0 then BagBitstream.DrawBelow(ks, key, pos, m, BagBitstream.ATTEMPT_LIMIT) else BagBitstream.Drawn(0, pos)
  }

  /** Where a step that stopped with an error leaves the stream, d being its draw. */
  ghost predicate PickStoppedAt(d: BagBitstream.Draw, err: ErrorCode, pos: nat) {
    err != ErrorNone && pos == d.next && (d.GaveUp? ==> err == ErrorDrawLimit)
  }

  /**
   * The stream position after steps 0 .. |picks| - 1 of pass round drew
   * picks one after the other from pos; None if some pick is not what the
   * stream gives there.
   */
  function Argon2PicksEnd(ks: Keystream, key: seq<byte>, pos: nat, round: nat, n: nat, picks: seq<nat>): Option<nat>
    requires |picks| <= n
    decreases |picks|
  {
    if |picks| == 0 then Some(pos)
    else
      match Argon2PicksEnd(ks, key, pos, round, n, picks[..|picks| - 1])
      case None => None
      case Some(p) =>
        match Argon2Pick(ks, key, p, |picks| - 1, round, n)
        case Drawn(v, next) => if v == picks[|picks| - 1] then Some(next) else None
        case GaveUp(_) => None
  }

  /** Steps 0 .. |picks| - 1 of pass round drew picks from pos and the stream now stands at end. */
  ghost predicate Argon2DrewPicks(ks: Keystream, key: seq<byte>, pos: nat, round: nat, n: nat, picks: seq<nat>, end: nat)
    requires |picks| <= n
  {
    Argon2PicksEnd(ks, key, pos, round, n, picks) == Some(end)
  }

  /** A pass that drew picks from pos and then stopped with err at step |picks|, leaving the stream at end. */
  ghost predicate Argon2StoppedAfter(ks: Keystream, key: seq<byte>, pos: nat, round: nat, n: nat, picks: seq<nat>,
                                     err: ErrorCode, end: nat)
  {
    && |picks| < n
    && Argon2PicksEnd(ks, key, pos, round, n, picks).Some?
    && PickStoppedAt(Argon2Pick(ks, key, Argon2PicksEnd(ks, key, pos, round, n, picks).value, |picks|, round, n), err, end)
  }

  /**
   * Step i of pass round stopped the pass with err at the draw d: when d
   * picked a neighbour, the compression of the two blocks the step read
   * returned err.
   */
  ghost predicate Argon2StepFailed(p: Primitives, co: CompOptions, before: seq<Block>, after: seq<Block>, n: nat,
                                   i: nat, round: nat, d: BagBitstream.Draw, err: ErrorCode)
    requires n <= |before| && n <= |after| && i < n
  {
    d.Drawn? ==>
      && d.value < n
      && WellFormedInput(co, Argon2Inputs(before, after, n, i, round, d.value))
      && CompressSpec(p, co, Argon2Inputs(before, after, n, i, round, d.value)) == Err(err)
  }

  /**
   * A pass round from before to after that drew picks from pos and stopped
   * with err at step |picks|, leaving the stream at end: that step's draw
   * gave up, or it picked a neighbour and the step's compression failed.
   */
  ghost predicate Argon2Stopped(p: Primitives, co: CompOptions, ks: Keystream, key: seq<byte>, pos: nat,
                                before: seq<Block>, after: seq<Block>, n: nat, round: nat, picks: seq<nat>,
                                err: ErrorCode, end: nat)
    requires n <= |before| && n <= |after|
  {
    && Argon2StoppedAfter(ks, key, pos, round, n, picks, err, end)
    && Argon2StepFailed(p, co, before, after, n, |picks|, round,
                        Argon2Pick(ks, key, Argon2PicksEnd(ks, key, pos, round, n, picks).value, |picks|, round, n), err)
  }

  /** The next step's draw where the picks end extends them. */
  lemma Argon2PicksEndExtend(ks: Keystream, key: seq<byte>, pos: nat, round: nat, n: nat, picks: seq<nat>,
                             p: nat, nb: nat, next: nat)
    requires |picks| < n && Argon2DrewPicks(ks, key, pos, round, n, picks, p)
    requires Argon2Pick(ks, key, p, |picks|, round, n) == BagBitstream.Drawn(nb, next)
    ensures Argon2DrewPicks(ks, key, pos, round, n, picks + [nb], next)
  {
    assert (picks + [nb])[..|picks|] == picks;
  }

  /** The stream decides a pass's neighbours: two runs of the same length from the same position agree. */
  lemma {:induction false} Argon2PicksDetermined(ks: Keystream, key: seq<byte>, pos: nat, round: nat, n: nat,
                                                 picks: seq<nat>, picks': seq<nat>)
    requires |picks| == |picks'| <= n
    requires Argon2PicksEnd(ks, key, pos, round, n, picks).Some? && Argon2PicksEnd(ks, key, pos, round, n, picks').Some?
    ensures picks == picks'
    ensures Argon2PicksEnd(ks, key, pos, round, n, picks) == Argon2PicksEnd(ks, key, pos, round, n, picks')
    decreases |picks|
  {
    if |picks| > 0 {
      var k := |picks| - 1;
      Argon2PicksDetermined(ks, key, pos, round, n, picks[..k], picks'[..k]);
      assert picks == picks[..k] + [picks[k]] && picks' == picks'[..k] + [picks'[k]];
    }
  }

  /** The two blocks step i compresses: its predecessor and its neighbour, as the buffer holds them then. */
  function Argon2Inputs(before: seq<Block>, after: seq<Block>, n: nat, i: nat, round: nat, nb: nat): seq<Block>
    requires n <= |before| && n <= |after| && i < n && nb < n
  {
    [Current(before, after, n, i, PrevIndex(i, round, n)), Current(before, after, n, i, nb)]
  }

  /** Step i reads no block at or above i of after. */
  lemma Argon2InputsPrefix(before: seq<Block>, a: seq<Block>, b: seq<Block>, n: nat, i: nat, round: nat, nb: nat)
    requires n <= |before| && n <= |a| && n <= |b| && i < n && nb < n
    requires forall x :: 0 <= x < i ==> a[x] == b[x]
    ensures Argon2Inputs(before, a, n, i, round, nb) == Argon2Inputs(before, b, n, i, round, nb)
  {
  }

  /** In the middle of a pass the buffer itself holds the blocks step i reads. */
  lemma Argon2InputsFromBuffer(before: seq<Block>, cur: seq<Block>, n: nat, i: nat, round: nat, nb: nat)
    requires n <= |before| == |cur| && i < n && nb < n
    requires forall k :: i <= k < |cur| ==> cur[k] == before[k]
    ensures Argon2Inputs(before, cur, n, i, round, nb) == [cur[PrevIndex(i, round, n)], cur[nb]]
  {
  }

  ghost predicate Argon2StepDone(p: Primitives, co: CompOptions, before: seq<Block>, after: seq<Block>,
                                 n: nat, i: nat, round: nat, nb: nat)
    requires n <= |before| && n <= |after| && i < n && nb < n
  {
    var inputs := Argon2Inputs(before, after, n, i, round, nb);
    WellFormedInput(co, inputs) && CompressSpec(p, co, inputs) == Ok(after[i])
  }

  /** The first |picks| steps of pass round are done; picks[k] is step k's neighbour. */
  ghost predicate Argon2Mixed(p: Primitives, co: CompOptions, before: seq<Block>, after: seq<Block>,
                              n: nat, round: nat, picks: seq<nat>)
    requires n <= |before| && n <= |after| && |picks| <= n
  {
    forall k :: 0 <= k < |picks| ==>
      NeighborOk(picks[k], k, round, n) && picks[k] < n && Argon2StepDone(p, co, before, after, n, k, round, picks[k])
  }

  lemma Argon2MixedExtend(p: Primitives, co: CompOptions, before: seq<Block>, mid: seq<Block>, after: seq<Block>,
                          n: nat, round: nat, picks: seq<nat>, nb: nat, v: Block)
    requires n <= |before| && n <= |mid| && |picks| < n && nb < n
    requires Argon2Mixed(p, co, before, mid, n, round, picks)
    requires NeighborOk(nb, |picks|, round, n)
    requires |after| == |mid| && after[|picks|] == v
    requires forall x :: 0 <= x < |mid| && x != |picks| ==> after[x] == mid[x]
    requires WellFormedInput(co, Argon2Inputs(before, mid, n, |picks|, round, nb))
    requires CompressSpec(p, co, Argon2Inputs(before, mid, n, |picks|, round, nb)) == Ok(v)
    ensures Argon2Mixed(p, co, before, after, n, round, picks + [nb])
  {
    var all := picks + [nb];
    forall k | 0 <= k < |all|
      ensures NeighborOk(all[k], k, round, n) && all[k] < n && Argon2StepDone(p, co, before, after, n, k, round, all[k])
    {
      Argon2InputsPrefix(before, after, mid, n, k, round, all[k]);
    }
  }

  /** Two buffers with the same first m steps of pass round done, from the same start and neighbours, agree on those blocks. */
  lemma {:induction false} Argon2MixedDetermined(p: Primitives, co: CompOptions, before: seq<Block>, a: seq<Block>,
                                                 b: seq<Block>, n: nat, round: nat, picks: seq<nat>, m: nat)
    requires n <= |before| && n <= |a| && n <= |b| && |picks| <= n && m <= |picks|
    requires Argon2Mixed(p, co, before, a, n, round, picks) && Argon2Mixed(p, co, before, b, n, round, picks)
    ensures forall x :: 0 <= x < m ==> a[x] == b[x]
    decreases m
  {
    if m > 0 {
      var k := m - 1;
      Argon2MixedDetermined(p, co, before, a, b, n, round, picks, k);
      Argon2InputsPrefix(before, a, b, n, k, round, picks[k]);
      assert Argon2StepDone(p, co, before, a, n, k, round, picks[k]);
      assert Argon2StepDone(p, co, before, b, n, k, round, picks[k]);
    }
  }

  /**
   * hash_state_argon2_mix is deterministic: two complete passes with the
   * same round_count from the same buffer, with the main stream at the same
   * key and position, draw the same neighbours, leave the same buffer and
   * stop the stream at the same position.
   */
  lemma Argon2MixDeterministic(p: Primitives, co: CompOptions, ks: Keystream, key: seq<byte>, pos: nat, round: nat,
                               before: seq<Block>, a: seq<Block>, b: seq<Block>, n: nat,
                               picksA: seq<nat>, picksB: seq<nat>, endA: nat, endB: nat)
    requires n <= |before| && |a| == |before| && |b| == |before| && |picksA| == n && |picksB| == n
    requires Argon2Mixed(p, co, before, a, n, round, picksA) && Argon2Mixed(p, co, before, b, n, round, picksB)
    requires forall k :: n <= k < |before| ==> a[k] == before[k] && b[k] == before[k]
    requires Argon2DrewPicks(ks, key, pos, round, n, picksA, endA) && Argon2DrewPicks(ks, key, pos, round, n, picksB, endB)
    ensures picksA == picksB && a == b && endA == endB
  {
    Argon2PicksDetermined(ks, key, pos, round, n, picksA, picksB);
    Argon2MixedDetermined(p, co, before, a, b, n, round, picksA, n);
  }

  /** hash_state_argon2_init: no pass done yet. */
  method Argon2Init(s: HashState) returns (err: ErrorCode)
    modifies s`extra
    ensures err == ErrorNone && s.extra == Argon2Data(0)
  {
    s.extra := Argon2Data(0);
    err := ErrorNone;
  }

  /** hash_state_argon2_fill: block_size stream bytes, i.e. block 0 only. */
  method Argon2Fill(s: HashState, input: seq<byte>, salt: seq<byte>) returns (err: ErrorCode)
    requires s.Valid()
    modifies s.buffer
    ensures s.Valid() && err == ErrorNone
    ensures s.buffer[0] == KeystreamBytes(s.ks, input + salt, 0, s.blockSize)
    ensures forall k :: 1 <= k < s.buffer.Length ==> s.buffer[k] == old(s.buffer[k])
  {
    err := s.FillFromStrings(0, 1, input, salt);
  }

  /** One step: pick the neighbour (rand_int only for a positive bound) and compress; nothing is written. */
  method Argon2Step(s: HashState, ghost before: seq<Block>, i: nat, round: nat) returns (err: ErrorCode, nb: nat, out: Block)
    requires s.Valid() && s.nBlocks <= BagBitstream.SIZE_MAX && i < s.nBlocks && |before| == s.buffer.Length
    requires forall k :: i <= k < s.buffer.Length ==> s.buffer[k] == before[k]
    modifies s.bstream`pos
    ensures err == ErrorNone ==> nb < s.nBlocks && NeighborOk(nb, i, round, s.nBlocks) && |out| == s.blockSize
    ensures err == ErrorNone ==> WellFormedInput(s.opts.compOpts, Argon2Inputs(before, s.buffer[..], s.nBlocks, i, round, nb))
    ensures err == ErrorNone ==>
      CompressSpec(s.p, s.opts.compOpts, Argon2Inputs(before, s.buffer[..], s.nBlocks, i, round, nb)) == Ok(out)
    ensures err == ErrorNone ==>
      Argon2Pick(s.ks, s.bstream.key, old(s.bstream.pos), i, round, s.nBlocks) == BagBitstream.Drawn(nb, s.bstream.pos)
    ensures err != ErrorNone ==>
      PickStoppedAt(Argon2Pick(s.ks, s.bstream.key, old(s.bstream.pos), i, round, s.nBlocks), err, s.bstream.pos)
    ensures err != ErrorNone ==>
      Argon2StepFailed(s.p, s.opts.compOpts, before, s.buffer[..], s.nBlocks, i, round,
                       Argon2Pick(s.ks, s.bstream.key, old(s.bstream.pos), i, round, s.nBlocks), err)
  {
    var n := s.nBlocks;
    var prev := PrevIndex(i, round, n);
    var bmax := if round > 0 then n else i;
    if bmax > 0 {
      err, nb := s.bstream.RandInt(bmax);
      if err != ErrorNone {
        return err, 0, [];
      }
    } else {
      err, nb := ErrorNone, 0;
    }
    var blocks := [s.buffer[prev], s.buffer[nb]];
    Argon2InputsFromBuffer(before, s.buffer[..], n, i, round, nb);
    var r := Compress.Compress(s.p, s.opts.compOpts, blocks);
    if r.Err? {
      return r.error, nb, [];
    }
    CompressOutputSize(s.p, s.opts.compOpts, blocks);
    out := r.value;
  }

  /**
   * hash_state_argon2_mix: |picks| steps of pass round_count done (all of
   * them unless an error stopped the pass), the blocks not reached
   * unchanged, and round_count advanced only by a complete pass.
   */
  method Argon2Mix(s: HashState) returns (err: ErrorCode, ghost picks: seq<nat>)
    requires s.Valid() && s.extra.Argon2Data? && s.nBlocks <= BagBitstream.SIZE_MAX
    modifies s.buffer, s.bstream`pos, s`extra
    ensures s.Valid()
    ensures |picks| <= s.nBlocks && (err == ErrorNone ==> |picks| == s.nBlocks)
    ensures Argon2Mixed(s.p, s.opts.compOpts, old(s.buffer[..]), s.buffer[..], s.nBlocks, old(s.extra.roundCount), picks)
    ensures forall k :: |picks| <= k < s.buffer.Length ==> s.buffer[k] == old(s.buffer[k])
    ensures err == ErrorNone ==> s.extra == Argon2Data(old(s.extra.roundCount) + 1)
    ensures err != ErrorNone ==> s.extra == old(s.extra)
    ensures err == ErrorNone ==> Argon2DrewPicks(s.ks, s.bstream.key, old(s.bstream.pos), old(s.extra.roundCount), s.nBlocks, picks, s.bstream.pos)
    ensures err != ErrorNone ==>
      Argon2Stopped(s.p, s.opts.compOpts, s.ks, s.bstream.key, old(s.bstream.pos), old(s.buffer[..]), s.buffer[..],
                    s.nBlocks, old(s.extra.roundCount), picks, err, s.bstream.pos)
  {
    var round := s.extra.roundCount;
    err, picks := Argon2Pass(s, round);
    if err == ErrorNone {
      s.extra := Argon2Data(round + 1);
    }
  }

  /** The step loop of hash_state_argon2_mix, for pass round. */
  method Argon2Pass(s: HashState, round: nat) returns (err: ErrorCode, ghost picks: seq<nat>)
    requires s.Valid() && s.nBlocks <= BagBitstream.SIZE_MAX
    modifies s.buffer, s.bstream`pos
    ensures s.Valid()
    ensures |picks| <= s.nBlocks && (err == ErrorNone ==> |picks| == s.nBlocks)
    ensures Argon2Mixed(s.p, s.opts.compOpts, old(s.buffer[..]), s.buffer[..], s.nBlocks, round, picks)
    ensures forall k :: |picks| <= k < s.buffer.Length ==> s.buffer[k] == old(s.buffer[k])
    ensures err == ErrorNone ==> Argon2DrewPicks(s.ks, s.bstream.key, old(s.bstream.pos), round, s.nBlocks, picks, s.bstream.pos)
    ensures err != ErrorNone ==>
      Argon2Stopped(s.p, s.opts.compOpts, s.ks, s.bstream.key, old(s.bstream.pos), old(s.buffer[..]), s.buffer[..],
                    s.nBlocks, round, picks, err, s.bstream.pos)
  {
    var n := s.nBlocks;
    ghost var before := s.buffer[..];
    picks := [];
    var i := 0;
    while i < n
      invariant i <= n && |picks| == i
      invariant s.Valid()
      invariant Argon2Mixed(s.p, s.opts.compOpts, before, s.buffer[..], n, round, picks)
      invariant forall k :: i <= k < s.buffer.Length ==> s.buffer[k] == before[k]
      invariant Argon2DrewPicks(s.ks, s.bstream.key, old(s.bstream.pos), round, n, picks, s.bstream.pos) == true
    {
      ghost var mid := s.buffer[..];
      ghost var p := s.bstream.pos;
      var nb, out;
      err, nb, out := Argon2Step(s, before, i, round);
      if err != ErrorNone {
        return;
      }
      s.buffer[i] := out;
      Argon2MixedExtend(s.p, s.opts.compOpts, before, mid, s.buffer[..], n, round, picks, nb, out);
      Argon2PicksEndExtend(s.ks, s.bstream.key, old(s.bstream.pos), round, n, picks, p, nb, s.bstream.pos);
      picks := picks + [nb];
      i := i + 1;
    }
    err := ErrorNone;
  }

  /** In the first pass block 0 hashes its own old contents twice. */
  lemma Argon2FirstBlockFirstPass(before: seq<Block>, after: seq<Block>, n: nat, nb: nat)
    requires 1 <= n <= |before| && n <= |after| && nb < n
    requires NeighborOk(nb, 0, 0, n)
    ensures nb == 0
    ensures Argon2Inputs(before, after, n, 0, 0, nb) == [before[0], before[0]]
  {
  }

  /** Block i > 0 of the first pass hashes rewritten blocks only: i - 1 and a neighbour below i. */
  lemma Argon2FirstPassReadsRewritten(before: seq<Block>, after: seq<Block>, n: nat, i: nat, nb: nat)
    requires n <= |before| && n <= |after| && 0 < i < n && nb < n
    requires NeighborOk(nb, i, 0, n)
    ensures nb < i
    ensures Argon2Inputs(before, after, n, i, 0, nb) == [after[i - 1], after[nb]]
  {
  }
}
