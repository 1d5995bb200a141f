/*
 * The block compressor of libbaghash/compress.c.
 *
 * This snapshot knows two primitives.  Its Argon2/BLAKE2b mode writes into
 * an output buffer that it also reads: with a single input block, the
 * second operand of the block function is whatever that buffer held.
 */
module BagCompress {
  import opened Bytes
  import opened Errors
  import opened Primitives
  import Compress

  datatype BagCompMethod = BagKeccak1600 | ArgonBlake2b | BagCompEnd

  /** compress_block_size: 168 for Keccak, 1024 for Argon2/BLAKE2b, 0 otherwise. */
  function BagBlockSize(comp: BagCompMethod): (n: nat)
    ensures n == 0 <==> comp == BagCompEnd
    ensures comp == BagKeccak1600 ==> n == KECCAK_1600_BLOCK_SIZE
    ensures comp == ArgonBlake2b ==> n == ARGON2_BLOCK_SIZE
  {
    match comp
    case BagKeccak1600 => KECCAK_1600_BLOCK_SIZE
    case ArgonBlake2b => ARGON2_BLOCK_SIZE
    case BagCompEnd => 0
  }

  /**
   * compress_blake2b: F(b0, b1) folded with the remaining blocks; with one
   * block, F(b0, prior) where prior is the output buffer's old contents.
   */
  function ArgonInto(f: (Block, Block) -> ArgonBlock, blocks: seq<Block>, prior: Block): Block
    requires |blocks| >= 1
  {
    if |blocks| > 1 then Compress.ArgonFold(f, f(blocks[0], blocks[1]), blocks[2..])
    else f(blocks[0], prior)
  }

  /** compress: what the output buffer holds afterwards, or the error. */
  function BagCompressSpec(p: Primitives, comp: BagCompMethod, blocks: seq<Block>, prior: Block): (r: Result<Block>)
    requires comp == ArgonBlake2b ==> |blocks| >= 1
    ensures r.Err? <==> comp == BagCompEnd
    ensures r.Err? ==> r.error == ErrorInvalidCompressionMethod
  {
    match comp
    case BagKeccak1600 => Ok(Digest(p.keccak, blocks))
    case ArgonBlake2b => Ok(ArgonInto(p.argon2FillBlock, blocks, prior))
    case BagCompEnd => Err(ErrorInvalidCompressionMethod)
  }

  /** compress_blake2b: the fold written step by step into out. */
  method CompressBlake2b(f: (Block, Block) -> ArgonBlock, blocks: seq<Block>, prior: Block) returns (out: Block)
    requires |blocks| >= 1
    ensures out == ArgonInto(f, blocks, prior)
  {
    out := prior;
    out := f(blocks[0], if |blocks| > 1 then blocks[1] else out);
    var i := 2;
    while i < |blocks|
      invariant 2 <= i <= |blocks| || (|blocks| <= 1 && i == 2)
      invariant |blocks| > 1 ==> Compress.ArgonFold(f, out, blocks[i..]) == ArgonInto(f, blocks, prior)
      invariant |blocks| <= 1 ==> out == f(blocks[0], prior)
    {
      assert blocks[i..][1..] == blocks[i + 1..];
      out := f(out, blocks[i]);
      i := i + 1;
    }
    if |blocks| > 1 {
      assert blocks[i..] == [];
    }
  }

  /** compress: dispatch on the primitive; prior is the output buffer's contents on entry. */
  method BagCompress(p: Primitives, comp: BagCompMethod, blocks: seq<Block>, prior: Block) returns (r: Result<Block>)
    requires comp == ArgonBlake2b ==> |blocks| >= 1
    ensures r == BagCompressSpec(p, comp, blocks, prior)
  {
    match comp {
      case BagKeccak1600 =>
        var out := SpongeHash(p.keccak, blocks);
        r := Ok(out);
      case ArgonBlake2b =>
        var out := CompressBlake2b(p.argon2FillBlock, blocks, prior);
        r := Ok(out);
      case BagCompEnd =>
        r := Err(ErrorInvalidCompressionMethod);
    }
  }

  /** With two or more blocks the output buffer's old contents do not matter. */
  lemma PriorIgnoredWithTwoBlocks(p: Primitives, blocks: seq<Block>, prior1: Block, prior2: Block)
    requires |blocks| >= 2
    ensures BagCompressSpec(p, ArgonBlake2b, blocks, prior1) == BagCompressSpec(p, ArgonBlake2b, blocks, prior2)
  {
  }

  /** With one block the old contents are the second operand of the block function. */
  lemma PriorUsedWithOneBlock(p: Primitives, b: Block, prior: Block)
    ensures var out: Block := p.argon2FillBlock(b, prior); BagCompressSpec(p, ArgonBlake2b, [b], prior) == Ok(out)
  {
  }

  /** Both compressors agree with libballoon's HASH mode on two or more blocks. */
  lemma AgreesWithBalloonHash(p: Primitives, blocks: seq<Block>, prior: Block)
    requires |blocks| >= 2
    ensures BagCompressSpec(p, ArgonBlake2b, blocks, prior) == Compress.HashBlocks(p, Compress.Argon, blocks)
    ensures BagCompressSpec(p, BagKeccak1600, blocks, prior) == Compress.HashBlocks(p, Compress.Keccak1600, blocks)
  {
  }
}
