/*
 * The XOR helpers of libbaghash/xor.c.
 *
 * A C pointer into the middle of a buffer is an array and an offset.
 */
module XorBlocks {
  import opened Bytes

  /** The n consecutive blocks of bl bytes at the start of s. */
  function Slices(s: seq<byte>, bl: nat, n: nat): (r: seq<Block>)
    ensures |r| == n && AllOfLength(r, bl)
  {
    seq(n, k requires 0 <= k < n => Chunk(s, bl, k))
  }

  /** Block k of s: its bl bytes at k * bl, or zeros past the end. */
  function Chunk(s: seq<byte>, bl: nat, k: nat): (c: Block)
    ensures |c| == bl
    ensures Span(k, bl) + bl <= |s| ==> c == s[Span(k, bl)..Span(k, bl) + bl]
  {
    if Span(k, bl) + bl <= |s| then s[Span(k, bl)..Span(k, bl) + bl] else Zero(bl)
  }

  lemma SliceAt(s: seq<byte>, bl: nat, n: nat, k: nat)
    requires Span(n, bl) <= |s| && k < n
    ensures Span(k, bl) + bl <= Span(n, bl)
    ensures Chunk(s, bl, k) == Slices(s, bl, n)[k] == s[Span(k, bl)..Span(k, bl) + bl]
  {
    SpanMonotone(k + 1, n, bl);
  }

  /**
   * xor_block: out[i] = blockA[i] ^ blockB[bOffset + i] for i < blockSize.
   * out may be the same buffer as either input (the callers pass out as
   * blockA); every input byte is read before the position is written.
   */
  method XorBlock(out: array<byte>, blockA: array<byte>, blockB: array<byte>, bOffset: nat, blockSize: nat)
    requires blockSize <= out.Length && blockSize <= blockA.Length
    requires bOffset + blockSize <= blockB.Length
    modifies out
    ensures forall i :: 0 <= i < blockSize ==> out[i] == old(blockA[i]) ^ old(blockB[bOffset + i])
    ensures forall i :: blockSize <= i < out.Length ==> out[i] == old(out[i])
  {
    var i := 0;
    while i < blockSize
      invariant 0 <= i <= blockSize
      invariant forall j :: 0 <= j < i ==> out[j] == old(blockA[j]) ^ old(blockB[bOffset + j])
      invariant forall j :: i <= j < out.Length ==> out[j] == old(out[j])
      invariant forall j :: i <= j < blockA.Length ==> blockA[j] == old(blockA[j])
      invariant forall j :: i <= j < blockB.Length ==> blockB[j] == old(blockB[j])
    {
      out[i] := blockA[i] ^ blockB[bOffset + i];
      i := i + 1;
    }
  }

  /** One xor_block call of xor_blocks, on whole sequences: the first bl bytes of out XOR the bl bytes of in at off. */
  method XorSliceInto(out: array<byte>, input: array<byte>, off: nat, bl: nat)
    requires out != input && bl <= out.Length && off + bl <= input.Length
    modifies out
    ensures out[..bl] == Xor(old(out[..bl]), input[off..off + bl])
    ensures out[bl..] == old(out[bl..])
  {
    ghost var before, slice := out[..bl], input[off..off + bl];
    XorBlock(out, out, input, off, bl);
    assert forall k :: 0 <= k < bl ==> out[..bl][k] == Xor(before, slice)[k];
  }

  /** The xor_block call for block i of in. */
  method XorChunkInto(out: array<byte>, input: array<byte>, bl: nat, n: nat, i: nat)
    requires out != input && bl <= out.Length && Span(n, bl) <= input.Length && i < n
    modifies out
    ensures out[..bl] == Xor(old(out[..bl]), Chunk(input[..], bl, i))
    ensures out[bl..] == old(out[bl..])
  {
    SliceAt(input[..], bl, n, i);
    XorSliceInto(out, input, Span(i, bl), bl);
  }

  /** xor_blocks: XOR each of the nBlocks blocks of in into the first blockLength bytes of out. */
  method XorBlocksInto(out: array<byte>, input: array<byte>, blockLength: nat, nBlocks: nat)
    requires out != input
    requires blockLength <= out.Length && Span(nBlocks, blockLength) <= input.Length
    modifies out
    ensures out[..blockLength] == XorFold(old(out[..blockLength]), Slices(input[..], blockLength, nBlocks))
    ensures out[blockLength..] == old(out[blockLength..])
  {
    ghost var start := out[..blockLength];
    var i := 0;
    while i < nBlocks
      invariant 0 <= i <= nBlocks
      invariant out[..blockLength] == XorFold(start, Slices(input[..], blockLength, i))
      invariant out[blockLength..] == old(out[blockLength..])
    {
      XorBlocksStep(start, input[..], blockLength, i);
      XorChunkInto(out, input, blockLength, nBlocks, i);
      i := i + 1;
    }
  }

  /** One more block XORed in extends the fold by that block. */
  lemma XorBlocksStep(start: Block, s: seq<byte>, bl: nat, i: nat)
    requires |start| == bl
    ensures Xor(XorFold(start, Slices(s, bl, i)), Chunk(s, bl, i)) == XorFold(start, Slices(s, bl, i + 1))
  {
    var done := Slices(s, bl, i);
    assert Slices(s, bl, i + 1) == done + [Chunk(s, bl, i)];
    XorFoldPullOut(start, done, Chunk(s, bl, i), []);
    assert done + [Chunk(s, bl, i)] + [] == done + [Chunk(s, bl, i)];
    assert done + [] == done;
  }

  /** The XOR of the blocks does not depend on the order in which they are laid out. */
  lemma XorBlocksOrderIndependent(acc: Block, s: seq<byte>, t: seq<byte>, n: nat)
    requires multiset(Slices(s, |acc|, n)) == multiset(Slices(t, |acc|, n))
    ensures XorFold(acc, Slices(s, |acc|, n)) == XorFold(acc, Slices(t, |acc|, n))
  {
    XorFoldPermutation(acc, Slices(s, |acc|, n), Slices(t, |acc|, n));
  }
}
