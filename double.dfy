/*
 * The double-buffer strategy of libbaghash/hash_state_double.c.
 *
 * The buffer is split into two halves of n_blocks / 2 blocks, src and dst.
 * A pass rewrites dst in index order from the previous dst block (src's
 * last block for dst[0]) and n_neighbors blocks of src drawn with
 * rand_int, and then the two halves swap roles.
 */
module HashStateDouble {
  import opened Bytes
  import opened Errors
  import opened Primitives
  import opened Compress
  import opened HashStates
  import BagBitstream

  /** The halves are the two halves of the first n_blocks blocks, in either order. */
  ghost predicate DoubleReady(s: HashState)
    reads s
  {
    && s.extra.Halves?
    && ((s.extra.src == 0 && s.extra.dst == s.nBlocks / 2) || (s.extra.src == s.nBlocks / 2 && s.extra.dst == 0))
  }

  /**
   * The blocks dst[i] is computed from: the previous dst block (src's last
   * block when i = 0), then the picked src blocks.  Indices are buffer
   * indices; src is never written by a pass, so before holds it.
   */
  function DoubleInputs(before: seq<Block>, after: seq<Block>, src: nat, dst: nat, bpb: nat, i: nat, row: seq<nat>): (r: seq<Block>)
    requires src + bpb <= |before| && dst + bpb <= |after| && i < bpb
    requires RowBelow(row, bpb)
    ensures |r| == |row| + 1
    ensures r[0] == (if i == 0 then before[src + bpb - 1] else after[dst + i - 1])
  {
    [if i == 0 then before[src + bpb - 1] else after[dst + i - 1]]
      + seq(|row|, j requires 0 <= j < |row| => before[src + row[j]])
  }

  /** After prev, dst[i]'s inputs are the picked src blocks, in the row's order. */
  lemma DoubleInputsPicks(before: seq<Block>, after: seq<Block>, src: nat, dst: nat, bpb: nat, i: nat, row: seq<nat>)
    requires src + bpb <= |before| && dst + bpb <= |after| && i < bpb
    requires RowBelow(row, bpb)
    ensures forall j :: 0 <= j < |row| ==> DoubleInputs(before, after, src, dst, bpb, i, row)[j + 1] == before[src + row[j]]
  {
  }

  /** dst[i] of after is the compression of its inputs. */
  ghost predicate DoubleStepDone(p: Primitives, co: CompOptions, before: seq<Block>, after: seq<Block>,
                                 src: nat, dst: nat, bpb: nat, i: nat, row: seq<nat>)
    requires src + bpb <= |before| && dst + bpb <= |after| && i < bpb && RowBelow(row, bpb)
  {
    var inputs := DoubleInputs(before, after, src, dst, bpb, i, row);
    WellFormedInput(co, inputs) && CompressSpec(p, co, inputs) == Ok(after[dst + i])
  }

  /** The first |picks| blocks of dst are rewritten; picks[k] are dst[k]'s nN src neighbours. */
  ghost predicate DoubleMixed(p: Primitives, co: CompOptions, before: seq<Block>, after: seq<Block>,
                              src: nat, dst: nat, bpb: nat, picks: seq<seq<nat>>, nN: nat)
    requires src + bpb <= |before| && dst + bpb <= |after| && |picks| <= bpb
  {
    forall k :: 0 <= k < |picks| ==>
      |picks[k]| == nN && RowBelow(picks[k], bpb) && DoubleStepDone(p, co, before, after, src, dst, bpb, k, picks[k])
  }

  /**
   * The step for dst[i] stopped the pass with err at the row draw d: when d
   * drew the whole row, the compression of dst[i]'s inputs returned err.
   */
  ghost predicate DoubleStepFailed(p: Primitives, co: CompOptions, before: seq<Block>, after: seq<Block>,
                                   src: nat, dst: nat, bpb: nat, i: nat, d: RowDraw, err: ErrorCode)
    requires src + bpb <= |before| && dst + bpb <= |after| && i < bpb
  {
    d.RowDrawn? ==>
      && RowBelow(d.row, bpb)
      && WellFormedInput(co, DoubleInputs(before, after, src, dst, bpb, i, d.row))
      && CompressSpec(p, co, DoubleInputs(before, after, src, dst, bpb, i, d.row)) == Err(err)
  }

  /**
   * A pass that rewrote the dst blocks of picks and stopped with err at the
   * next one, the main stream drawn from pos and left at end: the next row's
   * draw failed, or it was drawn and that block's compression failed.
   */
  ghost predicate DoubleStopped(p: Primitives, co: CompOptions, ks: Keystream, key: seq<byte>, pos: nat,
                                before: seq<Block>, after: seq<Block>, src: nat, dst: nat, bpb: nat, nN: nat,
                                picks: seq<seq<nat>>, err: ErrorCode, end: nat)
    requires src + bpb <= |before| && dst + bpb <= |after|
  {
    && StoppedAfter(ks, key, pos, bpb, nN, picks, err, end)
    && |picks| < bpb
    && DoubleStepFailed(p, co, before, after, src, dst, bpb, |picks|, NextRow(ks, key, pos, bpb, nN, picks), err)
  }

  /** The blocks the mix gathers from the buffer in the middle of a pass are DoubleInputs. */
  lemma DoubleInputsFromBuffer(before: seq<Block>, cur: seq<Block>, src: nat, dst: nat, bpb: nat, i: nat,
                               row: seq<nat>, shifted: seq<nat>, blocks: seq<Block>)
    requires src + bpb <= |before| == |cur| && dst + bpb <= |cur| && i < bpb && RowBelow(row, bpb)
    requires (src + bpb <= dst || dst + bpb <= src)
    requires forall k :: 0 <= k < |cur| && !(dst <= k < dst + i) ==> cur[k] == before[k]
    requires |shifted| == |row| && forall j :: 0 <= j < |row| ==> shifted[j] == src + row[j]
    requires blocks == [cur[if i == 0 then src + bpb - 1 else dst + i - 1]] + Gather(cur, shifted)
    ensures blocks == DoubleInputs(before, cur, src, dst, bpb, i, row)
  {
    var r := DoubleInputs(before, cur, src, dst, bpb, i, row);
    var g := Gather(cur, shifted);
    assert |blocks| == |r|;
    forall j | 0 <= j < |blocks| ensures blocks[j] == r[j] {
      if j > 0 {
        var n := j - 1;
        assert blocks[j] == g[n] == cur[shifted[n]];
        assert shifted[n] == src + row[n] && row[n] < bpb;
        assert r[n + 1] == before[src + row[n]];
      }
    }
  }

  /** Writing dst[|picks|] keeps the earlier dst blocks done and completes this one. */
  lemma DoubleMixedExtend(p: Primitives, co: CompOptions, before: seq<Block>, mid: seq<Block>, after: seq<Block>,
                          src: nat, dst: nat, bpb: nat, picks: seq<seq<nat>>, nN: nat, row: seq<nat>, v: Block)
    requires src + bpb <= |before| && dst + bpb <= |mid| && |picks| < bpb
    requires DoubleMixed(p, co, before, mid, src, dst, bpb, picks, nN)
    requires |row| == nN && RowBelow(row, bpb)
    requires |after| == |mid| && after[dst + |picks|] == v
    requires forall x :: 0 <= x < |mid| && x != dst + |picks| ==> after[x] == mid[x]
    requires WellFormedInput(co, DoubleInputs(before, mid, src, dst, bpb, |picks|, row))
    requires CompressSpec(p, co, DoubleInputs(before, mid, src, dst, bpb, |picks|, row)) == Ok(v)
    ensures DoubleMixed(p, co, before, after, src, dst, bpb, picks + [row], nN)
  {
    var all := picks + [row];
    forall k | 0 <= k < |all|
      ensures |all[k]| == nN && RowBelow(all[k], bpb) && DoubleStepDone(p, co, before, after, src, dst, bpb, k, all[k])
    {
      if k < |picks| {
        assert all[k] == picks[k];
        DoubleStepDoneFrame(p, co, before, mid, after, src, dst, bpb, k, picks[k]);
      } else {
        assert all[k] == row;
        DoubleInputsFrame(before, mid, after, src, dst, bpb, k, row);
      }
    }
  }

  /** A finished dst block stays finished while it and the block before it keep their values. */
  lemma DoubleStepDoneFrame(p: Primitives, co: CompOptions, before: seq<Block>, mid: seq<Block>, after: seq<Block>,
                            src: nat, dst: nat, bpb: nat, k: nat, row: seq<nat>)
    requires src + bpb <= |before| && dst + bpb <= |mid| == |after| && k < bpb && RowBelow(row, bpb)
    requires after[dst + k] == mid[dst + k] && (k > 0 ==> after[dst + k - 1] == mid[dst + k - 1])
    requires DoubleStepDone(p, co, before, mid, src, dst, bpb, k, row)
    ensures DoubleStepDone(p, co, before, after, src, dst, bpb, k, row)
  {
    DoubleInputsFrame(before, mid, after, src, dst, bpb, k, row);
  }

  /** dst[k]'s inputs depend on the buffer being rewritten only through the dst block before it. */
  lemma DoubleInputsFrame(before: seq<Block>, mid: seq<Block>, after: seq<Block>, src: nat, dst: nat, bpb: nat,
                          k: nat, row: seq<nat>)
    requires src + bpb <= |before| && dst + bpb <= |mid| == |after| && k < bpb && RowBelow(row, bpb)
    requires k > 0 ==> after[dst + k - 1] == mid[dst + k - 1]
    ensures DoubleInputs(before, after, src, dst, bpb, k, row) == DoubleInputs(before, mid, src, dst, bpb, k, row)
  {
  }

  /** Two buffers with the same first m dst blocks done, from the same start and rows, agree on those blocks. */
  lemma {:induction false} DoubleMixedDetermined(p: Primitives, co: CompOptions, before: seq<Block>, a: seq<Block>,
                                                 b: seq<Block>, src: nat, dst: nat, bpb: nat, picks: seq<seq<nat>>,
                                                 nN: nat, m: nat)
    requires src + bpb <= |before| && dst + bpb <= |a| && dst + bpb <= |b| && |picks| <= bpb && m <= |picks|
    requires DoubleMixed(p, co, before, a, src, dst, bpb, picks, nN) && DoubleMixed(p, co, before, b, src, dst, bpb, picks, nN)
    ensures forall x :: dst <= x < dst + m ==> a[x] == b[x]
    decreases m
  {
    if m > 0 {
      var k := m - 1;
      DoubleMixedDetermined(p, co, before, a, b, src, dst, bpb, picks, nN, k);
      if k > 0 {
        assert a[dst + k - 1] == b[dst + k - 1];
      }
      assert DoubleInputs(before, a, src, dst, bpb, k, picks[k]) == DoubleInputs(before, b, src, dst, bpb, k, picks[k]);
      assert DoubleStepDone(p, co, before, a, src, dst, bpb, k, picks[k]);
      assert DoubleStepDone(p, co, before, b, src, dst, bpb, k, picks[k]);
    }
  }

  /**
   * hash_state_double_mix is deterministic: two complete passes from the
   * same buffer and halves, with the main stream at the same key and
   * position, draw the same neighbours, leave the same buffer and stop the
   * stream at the same position.
   */
  lemma DoubleMixDeterministic(p: Primitives, co: CompOptions, ks: Keystream, key: seq<byte>, pos: nat, nN: nat,
                               before: seq<Block>, a: seq<Block>, b: seq<Block>, src: nat, dst: nat, bpb: nat,
                               picksA: seq<seq<nat>>, picksB: seq<seq<nat>>, endA: nat, endB: nat)
    requires src + bpb <= |before| && dst + bpb <= |before| && |a| == |before| && |b| == |before|
    requires |picksA| == bpb && |picksB| == bpb
    requires DoubleMixed(p, co, before, a, src, dst, bpb, picksA, nN)
    requires DoubleMixed(p, co, before, b, src, dst, bpb, picksB, nN)
    requires forall k :: 0 <= k < |before| && !(dst <= k < dst + bpb) ==> a[k] == before[k] && b[k] == before[k]
    requires DrewPicks(ks, key, pos, bpb, nN, picksA, endA) && DrewPicks(ks, key, pos, bpb, nN, picksB, endB)
    ensures picksA == picksB && a == b && endA == endB
  {
    PicksDetermined(ks, key, pos, bpb, nN, picksA, picksB);
    DoubleMixedDetermined(p, co, before, a, b, src, dst, bpb, picksA, nN, bpb);
    assert forall k :: 0 <= k < |a| ==> a[k] == b[k];
  }

  /** hash_state_double_init: src is the first half, dst the second. */
  method DoubleInit(s: HashState) returns (err: ErrorCode)
    modifies s`extra
    ensures err == ErrorNone && s.extra == Halves(0, s.nBlocks / 2) && DoubleReady(s)
  {
    s.extra := Halves(0, s.nBlocks / 2);
    err := ErrorNone;
  }

  /** hash_state_double_fill: n_blocks * block_size / 2 stream bytes, i.e. the first half only. */
  method DoubleFill(s: HashState, input: seq<byte>, salt: seq<byte>) returns (err: ErrorCode)
    requires s.Valid()
    modifies s.buffer
    ensures s.Valid() && err == ErrorNone
    ensures forall k :: 0 <= k < s.nBlocks / 2 ==>
      s.buffer[k] == StreamBlocks(s.ks, input + salt, s.blockSize, s.nBlocks / 2)[k]
    ensures forall k :: s.nBlocks / 2 <= k < s.buffer.Length ==> s.buffer[k] == old(s.buffer[k])
  {
    err := s.FillFromStrings(0, s.nBlocks / 2, input, salt);
    forall k | 0 <= k < s.nBlocks / 2
      ensures s.buffer[k] == StreamBlocks(s.ks, input + salt, s.blockSize, s.nBlocks / 2)[k]
    {
      assert s.buffer[k] == KeystreamBytes(s.ks, input + salt, Span(k - 0, s.blockSize), s.blockSize);
    }
  }

  /** One step of the pass: draw dst[i]'s neighbours and compress; the buffer is not written. */
  method DoubleStep(s: HashState, ghost before: seq<Block>, i: nat) returns (err: ErrorCode, ghost row: seq<nat>, out: Block)
    requires s.Valid() && DoubleReady(s) && s.nBlocks <= BagBitstream.SIZE_MAX && i < s.nBlocks / 2
    requires |before| == s.buffer.Length
    requires forall k :: 0 <= k < s.buffer.Length && !(s.extra.dst <= k < s.extra.dst + i) ==> s.buffer[k] == before[k]
    modifies s.bstream`pos
    ensures err == ErrorNone ==> |row| == s.opts.nNeighbors && RowBelow(row, s.nBlocks / 2) && |out| == s.blockSize
    ensures err == ErrorNone ==>
      WellFormedInput(s.opts.compOpts, DoubleInputs(before, s.buffer[..], s.extra.src, s.extra.dst, s.nBlocks / 2, i, row))
    ensures err == ErrorNone ==>
      CompressSpec(s.p, s.opts.compOpts, DoubleInputs(before, s.buffer[..], s.extra.src, s.extra.dst, s.nBlocks / 2, i, row))
        == Ok(out)
    ensures err == ErrorNone ==>
      DrawRow(s.ks, s.bstream.key, old(s.bstream.pos), s.nBlocks / 2, s.opts.nNeighbors) == RowDrawn(row, s.bstream.pos)
    ensures err != ErrorNone ==>
      StoppedAt(DrawRow(s.ks, s.bstream.key, old(s.bstream.pos), s.nBlocks / 2, s.opts.nNeighbors), err, s.bstream.pos)
    ensures err != ErrorNone ==>
      DoubleStepFailed(s.p, s.opts.compOpts, before, s.buffer[..], s.extra.src, s.extra.dst, s.nBlocks / 2, i,
                       DrawRow(s.ks, s.bstream.key, old(s.bstream.pos), s.nBlocks / 2, s.opts.nNeighbors), err)
  {
    var neighbors;
    err, neighbors := DrawNeighbors(s.bstream, s.opts.nNeighbors, s.nBlocks / 2);
    row := neighbors;
    if err != ErrorNone {
      return err, row, [];
    }
    assert |row| == s.opts.nNeighbors && RowBelow(row, s.nBlocks / 2);
    var blocks := GatherInputs(s, before, i, neighbors);
    var r := Compress.Compress(s.p, s.opts.compOpts, blocks);
    if r.Err? {
      return r.error, row, [];
    }
    CompressOutputSize(s.p, s.opts.compOpts, blocks);
    out := r.value;
  }

  /** The blocks dst[i] is compressed from, read out of the buffer in the middle of a pass. */
  method GatherInputs(s: HashState, ghost before: seq<Block>, i: nat, row: seq<nat>) returns (blocks: seq<Block>)
    requires DoubleReady(s) && s.nBlocks <= s.buffer.Length && i < s.nBlocks / 2 && RowBelow(row, s.nBlocks / 2)
    requires |before| == s.buffer.Length
    requires forall k :: 0 <= k < s.buffer.Length && !(s.extra.dst <= k < s.extra.dst + i) ==> s.buffer[k] == before[k]
    ensures blocks == DoubleInputs(before, s.buffer[..], s.extra.src, s.extra.dst, s.nBlocks / 2, i, row)
  {
    var bpb, src := s.nBlocks / 2, s.extra.src;
    var prev := if i == 0 then src + bpb - 1 else s.extra.dst + i - 1;
    var shifted := seq(|row|, j requires 0 <= j < |row| => src + row[j]);
    ghost var cur := s.buffer[..];
    blocks := [s.buffer[prev]] + Gather(s.buffer[..], shifted);
    DoubleInputsFromBuffer(before, cur, src, s.extra.dst, bpb, i, row, shifted, blocks);
  }

  /**
   * hash_state_double_mix: |picks| dst blocks rewritten (all of them unless
   * an error stopped the pass), nothing else written, and on success src and
   * dst swapped.
   */
  method DoubleMix(s: HashState) returns (err: ErrorCode, ghost picks: seq<seq<nat>>)
    requires s.Valid() && DoubleReady(s) && s.nBlocks <= BagBitstream.SIZE_MAX
    modifies s.buffer, s.bstream`pos, s`extra
    ensures s.Valid() && DoubleReady(s)
    ensures |picks| <= s.nBlocks / 2 && (err == ErrorNone ==> |picks| == s.nBlocks / 2)
    ensures DoubleMixed(s.p, s.opts.compOpts, old(s.buffer[..]), s.buffer[..], old(s.extra.src), old(s.extra.dst),
                        s.nBlocks / 2, picks, s.opts.nNeighbors)
    ensures forall k :: 0 <= k < s.buffer.Length && !(old(s.extra.dst) <= k < old(s.extra.dst) + |picks|) ==>
      s.buffer[k] == old(s.buffer[k])
    ensures err == ErrorNone ==> s.extra == Halves(old(s.extra.dst), old(s.extra.src))
    ensures err != ErrorNone ==> s.extra == old(s.extra)
    ensures err == ErrorNone ==> DrewPicks(s.ks, s.bstream.key, old(s.bstream.pos), s.nBlocks / 2, s.opts.nNeighbors, picks, s.bstream.pos)
    ensures err != ErrorNone ==>
      DoubleStopped(s.p, s.opts.compOpts, s.ks, s.bstream.key, old(s.bstream.pos), old(s.buffer[..]), s.buffer[..],
                    s.extra.src, s.extra.dst, s.nBlocks / 2, s.opts.nNeighbors, picks, err, s.bstream.pos)
  {
    err, picks := DoublePass(s);
    if err == ErrorNone {
      s.extra := Halves(s.extra.dst, s.extra.src);
    }
  }

  /** The step loop of hash_state_double_mix: dst rewritten block by block, src and dst left as they are. */
  method DoublePass(s: HashState) returns (err: ErrorCode, ghost picks: seq<seq<nat>>)
    requires s.Valid() && DoubleReady(s) && s.nBlocks <= BagBitstream.SIZE_MAX
    modifies s.buffer, s.bstream`pos
    ensures s.Valid() && DoubleReady(s)
    ensures |picks| <= s.nBlocks / 2 && (err == ErrorNone ==> |picks| == s.nBlocks / 2)
    ensures DoubleMixed(s.p, s.opts.compOpts, old(s.buffer[..]), s.buffer[..], s.extra.src, s.extra.dst,
                        s.nBlocks / 2, picks, s.opts.nNeighbors)
    ensures forall k :: 0 <= k < s.buffer.Length && !(s.extra.dst <= k < s.extra.dst + |picks|) ==>
      s.buffer[k] == old(s.buffer[k])
    ensures err == ErrorNone ==> DrewPicks(s.ks, s.bstream.key, old(s.bstream.pos), s.nBlocks / 2, s.opts.nNeighbors, picks, s.bstream.pos)
    ensures err != ErrorNone ==>
      DoubleStopped(s.p, s.opts.compOpts, s.ks, s.bstream.key, old(s.bstream.pos), old(s.buffer[..]), s.buffer[..],
                    s.extra.src, s.extra.dst, s.nBlocks / 2, s.opts.nNeighbors, picks, err, s.bstream.pos)
  {
    var bpb := s.nBlocks / 2;
    ghost var before := s.buffer[..];
    picks := [];
    var i := 0;
    while i < bpb
      invariant i <= bpb && |picks| == i
      invariant s.Valid()
      invariant DoubleMixed(s.p, s.opts.compOpts, before, s.buffer[..], s.extra.src, s.extra.dst, bpb, picks, s.opts.nNeighbors)
      invariant forall k :: 0 <= k < s.buffer.Length && !(s.extra.dst <= k < s.extra.dst + i) ==> s.buffer[k] == before[k]
      invariant DrewPicks(s.ks, s.bstream.key, old(s.bstream.pos), bpb, s.opts.nNeighbors, picks, s.bstream.pos) == true
    {
      ghost var p := s.bstream.pos;
      var out;
      ghost var row;
      err, row, out := DoubleStep(s, before, i);
      if err != ErrorNone {
        return;
      }
      DoubleWrite(s, before, i, picks, row, out);
      PicksEndExtend(s.ks, s.bstream.key, old(s.bstream.pos), bpb, s.opts.nNeighbors, picks, p, row, s.bstream.pos);
      picks := picks + [row];
      i := i + 1;
    }
    err := ErrorNone;
  }

  /** The write of one loop iteration: dst[i] gets its compressed inputs, extending the pass by the row of step i. */
  method DoubleWrite(s: HashState, ghost before: seq<Block>, i: nat, ghost picks: seq<seq<nat>>, ghost row: seq<nat>,
                     out: Block)
    requires s.Valid() && DoubleReady(s) && i == |picks| < s.nBlocks / 2 && |before| == s.buffer.Length
    requires DoubleMixed(s.p, s.opts.compOpts, before, s.buffer[..], s.extra.src, s.extra.dst, s.nBlocks / 2,
                         picks, s.opts.nNeighbors)
    requires forall k :: 0 <= k < s.buffer.Length && !(s.extra.dst <= k < s.extra.dst + i) ==> s.buffer[k] == before[k]
    requires |row| == s.opts.nNeighbors && RowBelow(row, s.nBlocks / 2) && |out| == s.blockSize
    requires WellFormedInput(s.opts.compOpts, DoubleInputs(before, s.buffer[..], s.extra.src, s.extra.dst, s.nBlocks / 2, i, row))
    requires CompressSpec(s.p, s.opts.compOpts, DoubleInputs(before, s.buffer[..], s.extra.src, s.extra.dst, s.nBlocks / 2, i, row))
      == Ok(out)
    modifies s.buffer
    ensures s.Valid()
    ensures DoubleMixed(s.p, s.opts.compOpts, before, s.buffer[..], s.extra.src, s.extra.dst, s.nBlocks / 2,
                        picks + [row], s.opts.nNeighbors)
    ensures forall k :: 0 <= k < s.buffer.Length && !(s.extra.dst <= k < s.extra.dst + (i + 1)) ==> s.buffer[k] == before[k]
  {
    ghost var mid := s.buffer[..];
    s.buffer[s.extra.dst + i] := out;
    DoubleMixedExtend(s.p, s.opts.compOpts, before, mid, s.buffer[..], s.extra.src, s.extra.dst, s.nBlocks / 2,
                      picks, s.opts.nNeighbors, row, out);
  }

  /**
   * hash_state_double_extract: output bytes from a stream seeded with the
   * bytes of the physical first half, whichever half is src at the time.
   */
  method DoubleExtract(s: HashState, outlen: nat) returns (err: ErrorCode, out: seq<byte>)
    requires s.Valid()
    ensures err == ErrorNone && out == KeystreamBytes(s.ks, Concat(s.buffer[..s.nBlocks / 2]), 0, outlen)
  {
    var half := Concat(s.buffer[..s.nBlocks / 2]);
    err, out := FillBytesFromStrings(s.ks, half, [], outlen);
    assert half + [] == half;
  }

  /** The two halves of a ready state are disjoint and together cover the first n_blocks blocks. */
  lemma DoubleHalvesPartition(s: HashState, k: nat)
    requires DoubleReady(s) && s.nBlocks % 2 == 0 && k < s.nBlocks
    ensures (s.extra.src <= k < s.extra.src + s.nBlocks / 2) != (s.extra.dst <= k < s.extra.dst + s.nBlocks / 2)
  {
  }
}
