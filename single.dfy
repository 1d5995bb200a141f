/*
 * The single-buffer strategy of libbaghash/hash_state_single.c.
 *
 * One pass rewrites every block in index order, in place: block i becomes
 * the compression of the previous block, block i itself and n_neighbors
 * blocks chosen with rand_int.  A block below i has already been rewritten
 * in this pass when it is read; block i and those above still hold their
 * old contents.
 */
module HashStateSingle {
  import opened Bytes
  import opened Errors
  import opened Primitives
  import opened Compress
  import opened HashStates
  import BagBitstream

  /**
   * The blocks step i compresses: the previous block (the last block, not
   * yet rewritten, when i = 0), block i, and the chosen neighbours.
   */
  function SingleInputs(before: seq<Block>, after: seq<Block>, n: nat, i: nat, picks: seq<nat>): (r: seq<Block>)
    requires n <= |before| && n <= |after| && i < n
    requires forall j :: 0 <= j < |picks| ==> picks[j] < n
    ensures |r| == |picks| + 2
    ensures r[0] == (if i == 0 then before[n - 1] else after[i - 1])
    ensures r[1] == before[i]
    ensures forall j :: 0 <= j < |picks| ==> r[j + 2] == Current(before, after, n, i, picks[j])
  {
    var prev := if i == 0 then n - 1 else i - 1;
    [Current(before, after, n, i, prev), before[i]]
      + seq(|picks|, j requires 0 <= j < |picks| => Current(before, after, n, i, picks[j]))
  }

  /** Step i reads no rewritten block at or above i: only the first i blocks of after matter. */
  lemma SingleInputsPrefix(before: seq<Block>, a: seq<Block>, b: seq<Block>, n: nat, i: nat, picks: seq<nat>)
    requires n <= |before| && n <= |a| && n <= |b| && i < n
    requires forall j :: 0 <= j < |picks| ==> picks[j] < n
    requires forall x :: 0 <= x < i ==> a[x] == b[x]
    ensures SingleInputs(before, a, n, i, picks) == SingleInputs(before, b, n, i, picks)
  {
    var ra := SingleInputs(before, a, n, i, picks);
    var rb := SingleInputs(before, b, n, i, picks);
    forall j | 0 <= j < |ra| ensures ra[j] == rb[j] {
      if j >= 2 {
        assert ra[j] == Current(before, a, n, i, picks[j - 2]);
      }
    }
  }

  /** The blocks the mix reads out of the buffer in the middle of a pass are SingleInputs. */
  lemma SingleInputsFromBuffer(before: seq<Block>, cur: seq<Block>, n: nat, i: nat, row: seq<nat>, blocks: seq<Block>)
    requires n <= |before| == |cur| && i < n && RowBelow(row, n)
    requires forall k :: i <= k < |cur| ==> cur[k] == before[k]
    requires blocks == [cur[if i == 0 then n - 1 else i - 1], cur[i]] + Gather(cur, row)
    ensures blocks == SingleInputs(before, cur, n, i, row)
  {
    var r := SingleInputs(before, cur, n, i, row);
    var g := Gather(cur, row);
    forall j | 0 <= j < |r| ensures blocks[j] == r[j] {
      if j >= 2 {
        assert blocks[j] == g[j - 2] == cur[row[j - 2]];
      }
    }
  }

  /** Block i of after is the compression of what step i read. */
  ghost predicate StepDone(p: Primitives, co: CompOptions, before: seq<Block>, after: seq<Block>, n: nat, i: nat, row: seq<nat>)
    requires n <= |before| && n <= |after| && i < n && RowBelow(row, n)
  {
    var inputs := SingleInputs(before, after, n, i, row);
    WellFormedInput(co, inputs) && CompressSpec(p, co, inputs) == Ok(after[i])
  }

  /**
   * The first |picks| steps of a pass from before to after are done: step k
   * drew the nN neighbours picks[k], all below n, and wrote block k.
   */
  ghost predicate Mixed(p: Primitives, co: CompOptions, before: seq<Block>, after: seq<Block>, n: nat,
                        picks: seq<seq<nat>>, nN: nat)
    requires n <= |before| && n <= |after| && |picks| <= n
  {
    forall k :: 0 <= k < |picks| ==>
      |picks[k]| == nN && RowBelow(picks[k], n) && StepDone(p, co, before, after, n, k, picks[k])
  }

  /** Writing step |picks|'s block keeps the earlier steps done and completes this one. */
  lemma MixedExtend(p: Primitives, co: CompOptions, before: seq<Block>, mid: seq<Block>, after: seq<Block>, n: nat,
                    picks: seq<seq<nat>>, nN: nat, row: seq<nat>, v: Block)
    requires n <= |before| && n <= |mid| && |picks| < n
    requires Mixed(p, co, before, mid, n, picks, nN)
    requires |row| == nN && RowBelow(row, n)
    requires |after| == |mid| && after[|picks|] == v
    requires forall x :: 0 <= x < |mid| && x != |picks| ==> after[x] == mid[x]
    requires WellFormedInput(co, SingleInputs(before, mid, n, |picks|, row))
    requires CompressSpec(p, co, SingleInputs(before, mid, n, |picks|, row)) == Ok(v)
    ensures Mixed(p, co, before, after, n, picks + [row], nN)
  {
    var all := picks + [row];
    forall k | 0 <= k < |all|
      ensures |all[k]| == nN && RowBelow(all[k], n) && StepDone(p, co, before, after, n, k, all[k])
    {
      SingleInputsPrefix(before, after, mid, n, k, all[k]);
      if k < |picks| {
        assert all[k] == picks[k] && after[k] == mid[k];
        assert StepDone(p, co, before, mid, n, k, picks[k]);
      } else {
        assert all[k] == row && after[k] == v;
      }
    }
  }

  /**
   * Step i stopped the pass with err at the row draw d: when d drew the whole
   * row, the compression of what the step read returned err (a failed draw
   * is StoppedAt's part).
   */
  ghost predicate StepFailed(p: Primitives, co: CompOptions, before: seq<Block>, after: seq<Block>, n: nat, i: nat,
                             d: RowDraw, err: ErrorCode)
    requires n <= |before| && n <= |after| && i < n
  {
    d.RowDrawn? ==>
      && RowBelow(d.row, n)
      && WellFormedInput(co, SingleInputs(before, after, n, i, d.row))
      && CompressSpec(p, co, SingleInputs(before, after, n, i, d.row)) == Err(err)
  }

  /**
   * A pass from before to after, the main stream drawn from pos, that
   * completed the steps of picks and stopped with err at step |picks|,
   * leaving the stream at end: the next row's draw failed, or it was drawn
   * and that step's compression failed.
   */
  ghost predicate SingleStopped(p: Primitives, co: CompOptions, ks: Keystream, key: seq<byte>, pos: nat,
                                before: seq<Block>, after: seq<Block>, n: nat, nN: nat, picks: seq<seq<nat>>,
                                err: ErrorCode, end: nat)
    requires n <= |before| && n <= |after|
  {
    && StoppedAfter(ks, key, pos, n, nN, picks, err, end)
    && |picks| < n
    && StepFailed(p, co, before, after, n, |picks|, NextRow(ks, key, pos, n, nN, picks), err)
  }

  /** Two buffers with the same first m steps of a pass done, from the same start and rows, agree on those blocks. */
  lemma {:induction false} MixedDetermined(p: Primitives, co: CompOptions, before: seq<Block>, a: seq<Block>, b: seq<Block>,
                                           n: nat, picks: seq<seq<nat>>, nN: nat, m: nat)
    requires n <= |before| && n <= |a| && n <= |b| && |picks| <= n && m <= |picks|
    requires Mixed(p, co, before, a, n, picks, nN) && Mixed(p, co, before, b, n, picks, nN)
    ensures forall x :: 0 <= x < m ==> a[x] == b[x]
    decreases m
  {
    if m > 0 {
      var k := m - 1;
      MixedDetermined(p, co, before, a, b, n, picks, nN, k);
      SingleInputsPrefix(before, a, b, n, k, picks[k]);
      assert StepDone(p, co, before, a, n, k, picks[k]) && StepDone(p, co, before, b, n, k, picks[k]);
    }
  }

  /**
   * hash_state_single_mix is deterministic: two complete passes from the
   * same buffer, with the main stream at the same key and position, draw the
   * same neighbours, leave the same buffer and stop the stream at the same
   * position.
   */
  lemma SingleMixDeterministic(p: Primitives, co: CompOptions, ks: Keystream, key: seq<byte>, pos: nat, nN: nat,
                               before: seq<Block>, a: seq<Block>, b: seq<Block>, n: nat,
                               picksA: seq<seq<nat>>, picksB: seq<seq<nat>>, endA: nat, endB: nat)
    requires n <= |before| && |a| == |before| && |b| == |before| && |picksA| == n && |picksB| == n
    requires Mixed(p, co, before, a, n, picksA, nN) && Mixed(p, co, before, b, n, picksB, nN)
    requires forall k :: n <= k < |before| ==> a[k] == before[k] && b[k] == before[k]
    requires DrewPicks(ks, key, pos, n, nN, picksA, endA) && DrewPicks(ks, key, pos, n, nN, picksB, endB)
    ensures picksA == picksB && a == b && endA == endB
  {
    PicksDetermined(ks, key, pos, n, nN, picksA, picksB);
    MixedDetermined(p, co, before, a, b, n, picksA, nN, n);
  }

  /** hash_state_single_fill: all n_blocks blocks from the stream seeded with in and salt. */
  method SingleFill(s: HashState, input: seq<byte>, salt: seq<byte>) returns (err: ErrorCode)
    requires s.Valid()
    modifies s.buffer
    ensures s.Valid() && err == ErrorNone
    ensures forall k :: 0 <= k < s.nBlocks ==> s.buffer[k] == StreamBlocks(s.ks, input + salt, s.blockSize, s.nBlocks)[k]
    ensures forall k :: s.nBlocks <= k < s.buffer.Length ==> s.buffer[k] == old(s.buffer[k])
  {
    err := s.FillFromStrings(0, s.nBlocks, input, salt);
    forall k | 0 <= k < s.nBlocks
      ensures s.buffer[k] == StreamBlocks(s.ks, input + salt, s.blockSize, s.nBlocks)[k]
    {
      assert s.buffer[k] == KeystreamBytes(s.ks, input + salt, Span(k - 0, s.blockSize), s.blockSize);
    }
  }

  /** One step of the pass: draw the neighbours of block i and compress; the buffer is not written. */
  method SingleStep(s: HashState, ghost before: seq<Block>, i: nat) returns (err: ErrorCode, ghost row: seq<nat>, out: Block)
    requires s.Valid() && s.nBlocks <= BagBitstream.SIZE_MAX && i < s.nBlocks && |before| == s.buffer.Length
    requires forall k :: i <= k < s.buffer.Length ==> s.buffer[k] == before[k]
    modifies s.bstream`pos
    ensures err == ErrorNone ==> |row| == s.opts.nNeighbors && RowBelow(row, s.nBlocks)
    ensures err == ErrorNone ==> |out| == s.blockSize
    ensures err == ErrorNone ==> WellFormedInput(s.opts.compOpts, SingleInputs(before, s.buffer[..], s.nBlocks, i, row))
    ensures err == ErrorNone ==> CompressSpec(s.p, s.opts.compOpts, SingleInputs(before, s.buffer[..], s.nBlocks, i, row)) == Ok(out)
    ensures err == ErrorNone ==> DrawRow(s.ks, s.bstream.key, old(s.bstream.pos), s.nBlocks, s.opts.nNeighbors) == RowDrawn(row, s.bstream.pos)
    ensures err != ErrorNone ==> StoppedAt(DrawRow(s.ks, s.bstream.key, old(s.bstream.pos), s.nBlocks, s.opts.nNeighbors), err, s.bstream.pos)
    ensures err != ErrorNone ==>
      StepFailed(s.p, s.opts.compOpts, before, s.buffer[..], s.nBlocks, i,
                 DrawRow(s.ks, s.bstream.key, old(s.bstream.pos), s.nBlocks, s.opts.nNeighbors), err)
  {
    var neighbors;
    err, neighbors := DrawNeighbors(s.bstream, s.opts.nNeighbors, s.nBlocks);
    row := neighbors;
    if err != ErrorNone {
      return err, row, [];
    }
    var blocks := SingleGather(s, before, i, neighbors);
    var r := Compress.Compress(s.p, s.opts.compOpts, blocks);
    if r.Err? {
      return r.error, row, [];
    }
    CompressOutputSize(s.p, s.opts.compOpts, blocks);
    out := r.value;
  }

  /** The blocks step i compresses, read out of the buffer in the middle of a pass. */
  method SingleGather(s: HashState, ghost before: seq<Block>, i: nat, row: seq<nat>) returns (blocks: seq<Block>)
    requires s.Valid() && i < s.nBlocks && |before| == s.buffer.Length && RowBelow(row, s.nBlocks)
    requires forall k :: i <= k < s.buffer.Length ==> s.buffer[k] == before[k]
    ensures blocks == SingleInputs(before, s.buffer[..], s.nBlocks, i, row)
  {
    var prev := if i == 0 then s.BlockLast() else i - 1;
    ghost var cur := s.buffer[..];
    blocks := [s.buffer[prev], s.buffer[i]] + Gather(s.buffer[..], row);
    SingleInputsFromBuffer(before, cur, s.nBlocks, i, row, blocks);
  }

  /**
   * hash_state_single_mix.  picks[k] are the neighbours step k drew; |picks|
   * steps completed: all of them unless an error stopped the pass, and the
   * blocks of the steps not reached keep their contents.
   */
  method SingleMix(s: HashState) returns (err: ErrorCode, ghost picks: seq<seq<nat>>)
    requires s.Valid() && s.nBlocks <= BagBitstream.SIZE_MAX
    modifies s.buffer, s.bstream`pos
    ensures s.Valid()
    ensures |picks| <= s.nBlocks && (err == ErrorNone ==> |picks| == s.nBlocks)
    ensures Mixed(s.p, s.opts.compOpts, old(s.buffer[..]), s.buffer[..], s.nBlocks, picks, s.opts.nNeighbors)
    ensures forall k :: |picks| <= k < s.buffer.Length ==> s.buffer[k] == old(s.buffer[k])
    ensures err == ErrorNone ==> DrewPicks(s.ks, s.bstream.key, old(s.bstream.pos), s.nBlocks, s.opts.nNeighbors, picks, s.bstream.pos)
    ensures err != ErrorNone ==>
      SingleStopped(s.p, s.opts.compOpts, s.ks, s.bstream.key, old(s.bstream.pos), old(s.buffer[..]), s.buffer[..],
                    s.nBlocks, s.opts.nNeighbors, picks, err, s.bstream.pos)
  {
    var n := s.nBlocks;
    ghost var before := s.buffer[..];
    picks := [];
    var i := 0;
    while i < n
      invariant i <= n && |picks| == i
      invariant s.Valid()
      invariant Mixed(s.p, s.opts.compOpts, before, s.buffer[..], n, picks, s.opts.nNeighbors)
      invariant forall k :: i <= k < s.buffer.Length ==> s.buffer[k] == before[k]
      invariant DrewPicks(s.ks, s.bstream.key, old(s.bstream.pos), n, s.opts.nNeighbors, picks, s.bstream.pos) == true
    {
      ghost var mid := s.buffer[..];
      ghost var p := s.bstream.pos;
      var out;
      ghost var row;
      err, row, out := SingleStep(s, before, i);
      if err != ErrorNone {
        return;
      }
      s.buffer[i] := out;
      MixedExtend(s.p, s.opts.compOpts, before, mid, s.buffer[..], n, picks, s.opts.nNeighbors, row, out);
      PicksEndExtend(s.ks, s.bstream.key, old(s.bstream.pos), n, s.opts.nNeighbors, picks, p, row, s.bstream.pos);
      picks := picks + [row];
      i := i + 1;
    }
    err := ErrorNone;
  }

  /** hash_state_single_extract: output bytes from a stream seeded with the last block alone. */
  method SingleExtract(s: HashState, outlen: nat) returns (err: ErrorCode, out: seq<byte>)
    requires s.Valid()
    ensures err == ErrorNone && out == KeystreamBytes(s.ks, s.buffer[s.nBlocks - 1], 0, outlen)
  {
    err, out := FillBytesFromStrings(s.ks, s.buffer[s.BlockLast()], [], outlen);
    assert s.buffer[s.BlockLast()] + [] == s.buffer[s.nBlocks - 1];
  }

  /** Step 0 reads the last block's old contents; every other step reads the block it just rewrote. */
  lemma SingleChain(before: seq<Block>, after: seq<Block>, n: nat, i: nat, picks: seq<nat>)
    requires n <= |before| && n <= |after| && i < n
    requires forall j :: 0 <= j < |picks| ==> picks[j] < n
    ensures i == 0 ==> SingleInputs(before, after, n, i, picks)[0] == before[n - 1]
    ensures i > 0 ==> SingleInputs(before, after, n, i, picks)[0] == after[i - 1]
    ensures forall j :: 0 <= j < |picks| && picks[j] == i ==> SingleInputs(before, after, n, i, picks)[j + 2] == before[i]
  {
  }
}
