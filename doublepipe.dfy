/*
 * The pipelined double-buffer strategy of libballoon/hash_state_double_pipe.c.
 *
 * A pass works in two phases over the dst half: first every dst block has
 * its src neighbours XORed into it, then the dst blocks are permuted with
 * Simpira in groups of four (the four-way pipelined call), and finally src
 * and dst swap.  The mix only works in XOR mode with 2048-byte Simpira blocks.
 *
 * The neighbour rows come from bitstream_rand_ints_nodup, whose body is not
 * part of this model: they are a parameter, constrained by what that sampler
 * promises (duplicate-free, below blocks_per_buf, at most n_neighbors each).
 */
module HashStateDoublePipe {
  import opened Bytes
  import opened Errors
  import opened Primitives
  import opened Compress
  import opened HashStates
  import opened HashStateDouble
  import BagBitstream

  /** Number of blocks one pipelined Simpira call permutes. */
  const PIPE_SIZE: nat := 4

  /** What rand_ints_nodup hands back for each dst block. */
  ghost predicate RowsOk(rows: seq<seq<nat>>, bpb: nat, nN: nat) {
    && RowsBelow(rows, bpb)
    && forall i :: 0 <= i < bpb ==> |rows[i]| <= nN && BagBitstream.NoDuplicates(rows[i])
  }

  /** One row per dst block, every pick a src-half index. */
  ghost predicate RowsBelow(rows: seq<seq<nat>>, bpb: nat) {
    |rows| == bpb && forall i :: 0 <= i < bpb ==> RowBelow(rows[i], bpb)
  }

  /** to_hash: the size of the group starting at i, min(blocks_per_buf - i, 4). */
  function GroupSize(bpb: nat, i: nat): (c: nat)
    requires i < bpb
    ensures 1 <= c <= PIPE_SIZE && i + c <= bpb
    ensures c < PIPE_SIZE ==> i + c == bpb
  {
    if bpb - i < PIPE_SIZE then bpb - i else PIPE_SIZE
  }

  /** The groups start at the multiples of 4 and partition [0, blocks_per_buf): block k is in exactly one. */
  lemma PipeGroupsPartition(bpb: nat, k: nat)
    requires k < bpb
    ensures var g := k - k % PIPE_SIZE; g % PIPE_SIZE == 0 && g <= k < g + GroupSize(bpb, g)
    ensures forall g :: 0 <= g < bpb && g % PIPE_SIZE == 0 && g <= k < g + GroupSize(bpb, g) ==> g == k - k % PIPE_SIZE
  {
  }

  /** The blocks below Covered(bpb, i) have been permuted once phase 2's loop has reached i. */
  function Covered(bpb: nat, i: nat): (h: nat)
    requires i <= bpb
    ensures i <= h <= bpb
  {
    if i % PIPE_SIZE == 0 then i
    else if i - i % PIPE_SIZE + PIPE_SIZE > bpb then bpb
    else i - i % PIPE_SIZE + PIPE_SIZE
  }

  /** One step of phase 2's loop moves Covered to the end of the group started at i, if any. */
  lemma CoveredStep(bpb: nat, i: nat)
    requires i < bpb
    ensures i % PIPE_SIZE == 0 ==> Covered(bpb, i) == i && Covered(bpb, i + 1) == i + GroupSize(bpb, i)
    ensures i % PIPE_SIZE != 0 ==> Covered(bpb, i + 1) == Covered(bpb, i)
  {
  }

  /** When the loop ends every block is covered. */
  lemma CoveredAll(bpb: nat)
    ensures Covered(bpb, bpb) == bpb
  {
  }

  /** What a dst block holds after phase 1: its old contents XOR the src-half blocks its row picks. */
  function PipeXored(cur: Block, half: seq<Block>, row: seq<nat>): (r: Block)
    requires AllOfLength(half, |cur|) && RowBelow(row, |half|)
    ensures |r| == |cur|
    ensures |row| == 0 ==> r == cur
  {
    XorFold(cur, Gather(half, row))
  }

  /** Phase 1 is its own inverse: XORing a block's neighbours in twice gives the block back. */
  lemma PipeXoredUndo(cur: Block, half: seq<Block>, row: seq<nat>)
    requires AllOfLength(half, |cur|) && RowBelow(row, |half|)
    ensures PipeXored(PipeXored(cur, half, row), half, row) == cur
  {
    XorFoldUndo(cur, Gather(half, row));
  }

  /** simpira2048_pipe: count <= 4 consecutive blocks permuted in place. */
  method SimpiraPipe(s: HashState, start: nat, count: nat)
    requires count <= PIPE_SIZE && start + count <= s.buffer.Length
    modifies s.buffer
    ensures forall k :: start <= k < start + count ==> s.buffer[k] == s.p.simpira(old(s.buffer[k]))
    ensures forall k :: 0 <= k < s.buffer.Length && !(start <= k < start + count) ==> s.buffer[k] == old(s.buffer[k])
  {
    var j := 0;
    while j < count
      invariant j <= count
      invariant forall k :: start <= k < start + j ==> s.buffer[k] == s.p.simpira(old(s.buffer[k]))
      invariant forall k :: 0 <= k < s.buffer.Length && !(start <= k < start + j) ==> s.buffer[k] == old(s.buffer[k])
    {
      s.buffer[start + j] := s.p.simpira(s.buffer[start + j]);
      j := j + 1;
    }
  }

  /** Phase 1 for one dst block: xor_block_self with each chosen src block, in the row's order. */
  method XorNeighbors(s: HashState, i: nat, row: seq<nat>, ghost half: seq<Block>)
    requires s.Valid() && DoubleReady(s) && i < s.nBlocks / 2 && RowBelow(row, s.nBlocks / 2)
    requires |half| == s.nBlocks / 2 && forall j :: 0 <= j < |half| ==> s.buffer[s.extra.src + j] == half[j]
    modifies s.buffer
    ensures s.Valid()
    ensures s.buffer[s.extra.dst + i] == PipeXored(old(s.buffer[s.extra.dst + i]), half, row)
    ensures forall k :: 0 <= k < s.buffer.Length && k != s.extra.dst + i ==> s.buffer[k] == old(s.buffer[k])
  {
    var src, cur := s.extra.src, s.extra.dst + i;
    ghost var start := s.buffer[cur];
    ghost var chosen := Gather(half, row);
    assert AllOfLength(chosen, |start|);
    var n := 0;
    while n < |row|
      invariant n <= |row| && s.Valid()
      invariant s.buffer[cur] == XorFold(start, chosen[..n])
      invariant forall k :: 0 <= k < s.buffer.Length && k != cur ==> s.buffer[k] == old(s.buffer[k])
    {
      assert s.buffer[src + row[n]] == half[row[n]] == chosen[n];
      XorFoldPullOut(start, chosen[..n], chosen[n], []);
      assert chosen[..n] + [chosen[n]] + [] == chosen[..n + 1];
      assert chosen[..n] + [] == chosen[..n];
      s.buffer[cur] := Xor(s.buffer[cur], s.buffer[src + row[n]]);
      n := n + 1;
    }
    assert chosen[..|row|] == chosen;
  }

  /**
   * Phase 1 after its first i dst blocks: those hold their XORs with half,
   * every other block is as before, and half is what before holds in src.
   */
  ghost predicate XorPhaseDone(s: HashState, before: seq<Block>, half: seq<Block>, rows: seq<seq<nat>>, i: nat)
    reads s, s.buffer
  {
    && DoubleReady(s) && s.nBlocks <= s.buffer.Length && i <= s.nBlocks / 2 && RowsBelow(rows, s.nBlocks / 2)
    && |half| == s.nBlocks / 2 && AllOfLength(half, s.blockSize)
    && |before| == s.buffer.Length && AllOfLength(before, s.blockSize)
    && (forall j :: 0 <= j < |half| ==> before[s.extra.src + j] == half[j])
    && (forall k :: s.extra.dst <= k < s.extra.dst + i ==> s.buffer[k] == PipeXored(before[k], half, rows[k - s.extra.dst]))
    && (forall k :: 0 <= k < s.buffer.Length && !(s.extra.dst <= k < s.extra.dst + i) ==> s.buffer[k] == before[k])
  }

  /** One iteration of phase 1's loop: dst block i gets its XOR, the others keep theirs. */
  method XorPhaseStep(s: HashState, ghost before: seq<Block>, ghost half: seq<Block>, rows: seq<seq<nat>>, i: nat)
    requires s.Valid() && i < s.nBlocks / 2 && XorPhaseDone(s, before, half, rows, i)
    modifies s.buffer
    ensures s.Valid()
    ensures XorPhaseDone(s, before, half, rows, i + 1) == true
  {
    var dst := s.extra.dst;
    forall j | 0 <= j < |half|
      ensures s.buffer[s.extra.src + j] == half[j]
    {
      assert s.buffer[s.extra.src + j] == before[s.extra.src + j];
    }
    XorNeighbors(s, i, rows[i], half);
    forall k | 0 <= k < s.buffer.Length && !(s.extra.dst <= k < s.extra.dst + (i + 1))
      ensures s.buffer[k] == before[k]
    {
      assert s.buffer[k] == old(s.buffer[k]);
    }
    forall k | s.extra.dst <= k < s.extra.dst + (i + 1)
      ensures s.buffer[k] == PipeXored(before[k], half, rows[k - s.extra.dst])
    {
      if k < dst + i {
        assert s.buffer[k] == old(s.buffer[k]);
      }
    }
  }

  /** Phase 1: every dst block XORed with its row of src blocks; src and everything else untouched. */
  method PipeXorPhase(s: HashState, rows: seq<seq<nat>>)
    requires s.Valid() && DoubleReady(s) && RowsBelow(rows, s.nBlocks / 2)
    modifies s.buffer
    ensures s.Valid()
    ensures forall k :: s.extra.dst <= k < s.extra.dst + s.nBlocks / 2 ==>
      s.buffer[k] == PipeXored(old(s.buffer[k]), old(s.buffer[s.extra.src..s.extra.src + s.nBlocks / 2]), rows[k - s.extra.dst])
    ensures forall k :: 0 <= k < s.buffer.Length && !(s.extra.dst <= k < s.extra.dst + s.nBlocks / 2) ==>
      s.buffer[k] == old(s.buffer[k])
  {
    ghost var before := s.buffer[..];
    ghost var half := before[s.extra.src..s.extra.src + s.nBlocks / 2];
    XorPhaseStart(s, before, half, rows);
    XorPhaseLoop(s, before, half, rows);
    XorPhaseEnd(s, before, half, rows);
    assert half == old(s.buffer[s.extra.src..s.extra.src + s.nBlocks / 2]);
    forall k | s.extra.dst <= k < s.extra.dst + s.nBlocks / 2
      ensures s.buffer[k] == PipeXored(old(s.buffer[k]), old(s.buffer[s.extra.src..s.extra.src + s.nBlocks / 2]), rows[k - s.extra.dst])
    {
      assert before[k] == old(s.buffer[k]);
    }
  }

  /** Phase 1's loop over the dst blocks in index order. */
  method XorPhaseLoop(s: HashState, ghost before: seq<Block>, ghost half: seq<Block>, rows: seq<seq<nat>>)
    requires s.Valid() && XorPhaseDone(s, before, half, rows, 0)
    modifies s.buffer
    ensures s.Valid() && XorPhaseDone(s, before, half, rows, s.nBlocks / 2)
  {
    var bpb := s.nBlocks / 2;
    var i := 0;
    while i < bpb
      invariant i <= bpb && s.Valid()
      invariant XorPhaseDone(s, before, half, rows, i) == true
    {
      XorPhaseStep(s, before, half, rows, i);
      i := i + 1;
    }
  }

  /** Before phase 1's loop no dst block is done yet. */
  lemma XorPhaseStart(s: HashState, before: seq<Block>, half: seq<Block>, rows: seq<seq<nat>>)
    requires s.Valid() && DoubleReady(s) && RowsBelow(rows, s.nBlocks / 2)
    requires before == s.buffer[..] && half == before[s.extra.src..s.extra.src + s.nBlocks / 2]
    ensures XorPhaseDone(s, before, half, rows, 0)
  {
    BlocksOfLength(s);
    AllOfLengthSlice(before, s.blockSize, s.extra.src, s.extra.src + s.nBlocks / 2);
  }

  /** After phase 1's loop every dst block is done and every other block is as before. */
  lemma XorPhaseEnd(s: HashState, before: seq<Block>, half: seq<Block>, rows: seq<seq<nat>>)
    requires XorPhaseDone(s, before, half, rows, s.nBlocks / 2)
    ensures AllOfLength(half, s.blockSize) && AllOfLength(before, s.blockSize) && |before| == s.buffer.Length
    ensures forall k :: s.extra.dst <= k < s.extra.dst + s.nBlocks / 2 ==>
      s.buffer[k] == PipeXored(before[k], half, rows[k - s.extra.dst])
    ensures forall k :: 0 <= k < s.buffer.Length && !(s.extra.dst <= k < s.extra.dst + s.nBlocks / 2) ==>
      s.buffer[k] == before[k]
  {
  }

  /** Phase 2: every dst block permuted once, four at a time; nothing else changes. */
  method PipeHashPhase(s: HashState)
    requires s.Valid() && DoubleReady(s) && s.opts.compOpts.comp == Sempira2048
    modifies s.buffer
    ensures s.Valid()
    ensures forall k :: s.extra.dst <= k < s.extra.dst + s.nBlocks / 2 ==> s.buffer[k] == s.p.simpira(old(s.buffer[k]))
    ensures forall k :: 0 <= k < s.buffer.Length && !(s.extra.dst <= k < s.extra.dst + s.nBlocks / 2) ==>
      s.buffer[k] == old(s.buffer[k])
  {
    var bpb := s.nBlocks / 2;
    var dst := s.extra.dst;
    ghost var before := s.buffer[..];
    var i := 0;
    while i < bpb
      invariant i <= bpb && s.Valid()
      invariant forall k :: dst <= k < dst + Covered(bpb, i) ==> s.buffer[k] == s.p.simpira(before[k])
      invariant forall k :: 0 <= k < s.buffer.Length && !(dst <= k < dst + Covered(bpb, i)) ==> s.buffer[k] == before[k]
    {
      CoveredStep(bpb, i);
      if i % PIPE_SIZE == 0 {
        SimpiraPipe(s, dst + i, GroupSize(bpb, i));
      }
      i := i + 1;
    }
    CoveredAll(bpb);
  }

  /**
   * hash_state_double_pipe_mix.  Outside XOR mode it fails before writing
   * anything.  Otherwise each dst block ends as the Simpira permutation of
   * its old contents XOR its src neighbours, src is untouched, and the
   * halves swap.
   */
  method DoublePipeMix(s: HashState, rows: seq<seq<nat>>) returns (err: ErrorCode)
    requires s.Valid() && DoubleReady(s) && s.opts.compOpts.comp == Sempira2048
    requires RowsOk(rows, s.nBlocks / 2, s.opts.nNeighbors)
    modifies s.buffer, s`extra
    ensures s.Valid() && DoubleReady(s)
    ensures s.opts.compOpts.comb != CombXor ==>
      err == ErrorDoublePipelineMustUseXor && s.buffer[..] == old(s.buffer[..]) && s.extra == old(s.extra)
    ensures s.opts.compOpts.comb == CombXor ==> err == ErrorNone
    ensures s.opts.compOpts.comb == CombXor ==> forall k :: old(s.extra.dst) <= k < old(s.extra.dst) + s.nBlocks / 2 ==>
      s.buffer[k]
        == s.p.simpira(PipeXored(old(s.buffer[k]), old(s.buffer[s.extra.src..s.extra.src + s.nBlocks / 2]), rows[k - old(s.extra.dst)]))
    ensures s.opts.compOpts.comb == CombXor ==>
      (forall k :: 0 <= k < s.buffer.Length && !(old(s.extra.dst) <= k < old(s.extra.dst) + s.nBlocks / 2) ==>
        s.buffer[k] == old(s.buffer[k]))
    ensures s.opts.compOpts.comb == CombXor ==> s.extra == Halves(old(s.extra.dst), old(s.extra.src))
  {
    if s.opts.compOpts.comb != CombXor {
      return ErrorDoublePipelineMustUseXor;
    }
    PipeXorPhase(s, rows);
    PipeHashPhase(s);
    s.extra := Halves(s.extra.dst, s.extra.src);
    err := ErrorNone;
  }
}
