/*
 * The block compressor of libballoon/compress.c.
 *
 * compress hashes a list of equally sized blocks into one block.  In HASH
 * mode every block goes into the primitive; in XOR mode the first block and
 * the XOR of all the others are hashed, so the primitive always sees two
 * inputs.  The primitives themselves are the Primitives parameter.
 */
module Compress {
  import opened Bytes
  import opened Errors
  import opened Primitives

  datatype CompMethod = Keccak1600 | Argon | Blake2b | Sha512 | Echo | Sempira2048 | CompEnd

  datatype CombMethod = CombHash | CombXor | CombEnd

  datatype CompOptions = CompOptions(comp: CompMethod, comb: CombMethod)

  /** compress_block_size: the primitive's block size, 0 for COMP__END. */
  function BlockSize(comp: CompMethod): (n: nat)
    ensures n == 0 <==> comp == CompEnd
    ensures n <= SEMPIRA_2048_BLOCK_SIZE
  {
    match comp
    case Keccak1600 => KECCAK_1600_BLOCK_SIZE
    case Blake2b => BLAKE_2B_BLOCK_SIZE
    case Argon => ARGON2_BLOCK_SIZE
    case Sha512 => SHA512_DIGEST_LENGTH
    case Echo => ECHO_BLOCK_SIZE
    case Sempira2048 => SEMPIRA_2048_BLOCK_SIZE
    case CompEnd => 0
  }

  /** Argon2FillBlock applied as acc := F(acc, b) for each remaining block in order. */
  function ArgonFold(f: (Block, Block) -> ArgonBlock, acc: Block, rest: seq<Block>): (r: Block)
    ensures |rest| > 0 || |acc| == ARGON2_BLOCK_SIZE ==> |r| == ARGON2_BLOCK_SIZE
    decreases |rest|
  {
    if |rest| == 0 then acc else ArgonFold(f, f(acc, rest[0]), rest[1..])
  }

  /**
   * What compress_argon writes: F(b0, b1) folded with the remaining blocks
   * when there are at least two, otherwise F(b0, zero block).
   */
  function ArgonChain(f: (Block, Block) -> ArgonBlock, blocks: seq<Block>): (r: Block)
    requires |blocks| >= 1
    ensures |r| == ARGON2_BLOCK_SIZE
  {
    if |blocks| > 1 then ArgonFold(f, f(blocks[0], blocks[1]), blocks[2..])
    else f(blocks[0], Zero(ARGON2_BLOCK_SIZE))
  }

  /** The primitives whose compressor reads blocks[0] whatever the count. */
  predicate ReadsFirstBlock(comp: CompMethod) {
    comp == Argon
  }

  /** compress_hash: every block into the chosen primitive. */
  function HashBlocks(p: Primitives, comp: CompMethod, blocks: seq<Block>): (r: Result<Block>)
    requires ReadsFirstBlock(comp) ==> |blocks| >= 1
    ensures r.Ok? <==> comp != CompEnd && (comp == Sempira2048 ==> |blocks| == 1)
    ensures r.Err? ==> r.error == (if comp == CompEnd then ErrorInvalidCompressionMethod else ErrorSempira)
    ensures r.Ok? ==> |r.value| == BlockSize(comp)
  {
    match comp
    case Keccak1600 => Ok(Digest(p.keccak, blocks))
    case Argon => Ok(ArgonChain(p.argon2FillBlock, blocks))
    case Blake2b => Ok(Digest(p.blake2b, blocks))
    case Sha512 => Ok(Digest(p.sha512, blocks))
    case Echo => Ok(Digest(p.echo, blocks))
    case Sempira2048 => if |blocks| != 1 then Err(ErrorSempira) else Ok(p.simpira(blocks[0]))
    case CompEnd => Err(ErrorInvalidCompressionMethod)
  }

  /** compress_xor: blocks[0] and the XOR of blocks[1..] (zero when there are none), hashed. */
  function XorThenHash(p: Primitives, comp: CompMethod, blocks: seq<Block>): (r: Result<Block>)
    requires |blocks| >= 1 && AllOfLength(blocks[1..], BlockSize(comp))
  {
    HashBlocks(p, comp, [blocks[0], XorFold(Zero(BlockSize(comp)), blocks[1..])])
  }

  /** What the caller of compress must provide: blocks of the primitive's size, and a first block when it is read. */
  ghost predicate WellFormedInput(opts: CompOptions, blocks: seq<Block>) {
    && AllOfLength(blocks, BlockSize(opts.comp))
    && (opts.comb == CombXor || ReadsFirstBlock(opts.comp) ==> |blocks| >= 1)
  }

  /** compress: dispatch on the combination mode. */
  function CompressSpec(p: Primitives, opts: CompOptions, blocks: seq<Block>): (r: Result<Block>)
    requires WellFormedInput(opts, blocks)
  {
    match opts.comb
    case CombHash => HashBlocks(p, opts.comp, blocks)
    case CombXor => XorThenHash(p, opts.comp, blocks)
    case CombEnd => Err(ErrorInvalidCompressionMethod)
  }

  /** compress_argon: out := F(b0, b1), then out := F(out, b_i) for i >= 2. */
  method CompressArgon(f: (Block, Block) -> ArgonBlock, blocks: seq<Block>) returns (out: Block)
    requires |blocks| >= 1
    ensures out == ArgonChain(f, blocks)
  {
    if |blocks| > 1 {
      out := f(blocks[0], blocks[1]);
      var i := 2;
      while i < |blocks|
        invariant 2 <= i <= |blocks|
        invariant ArgonFold(f, out, blocks[i..]) == ArgonChain(f, blocks)
      {
        assert blocks[i..][1..] == blocks[i + 1..];
        out := f(out, blocks[i]);
        i := i + 1;
      }
    } else {
      var zero := Zero(ARGON2_BLOCK_SIZE);
      out := f(blocks[0], zero);
    }
  }

  /** compress_sempira_2048: exactly one block, permuted. */
  method CompressSempira(sp: Block -> SimpiraBlock, blocks: seq<Block>) returns (err: ErrorCode, out: Block)
    ensures |blocks| != 1 ==> err == ErrorSempira
    ensures |blocks| == 1 ==> err == ErrorNone && out == sp(blocks[0])
  {
    if |blocks| != 1 {
      return ErrorSempira, [];
    }
    out := sp(blocks[0]);
    err := ErrorNone;
  }

  /** compress_hash: dispatch on the primitive. */
  method CompressHash(p: Primitives, comp: CompMethod, blocks: seq<Block>) returns (r: Result<Block>)
    requires ReadsFirstBlock(comp) ==> |blocks| >= 1
    ensures r == HashBlocks(p, comp, blocks)
  {
    match comp {
      case Keccak1600 =>
        var out := SpongeHash(p.keccak, blocks);
        r := Ok(out);
      case Argon =>
        var out := CompressArgon(p.argon2FillBlock, blocks);
        r := Ok(out);
      case Blake2b =>
        var out := SpongeHash(p.blake2b, blocks);
        r := Ok(out);
      case Sha512 =>
        var out := SpongeHash(p.sha512, blocks);
        r := Ok(out);
      case Echo =>
        var out := SpongeHash(p.echo, blocks);
        r := Ok(out);
      case Sempira2048 =>
        var err, out := CompressSempira(p.simpira, blocks);
        r := if err == ErrorNone then Ok(out) else Err(err);
      case CompEnd =>
        r := Err(ErrorInvalidCompressionMethod);
    }
  }

  /** compress_xor: a zeroed scratch block, every block after the first XORed into it, then two blocks hashed. */
  method CompressXor(p: Primitives, comp: CompMethod, blocks: seq<Block>) returns (r: Result<Block>)
    requires |blocks| >= 1 && AllOfLength(blocks, BlockSize(comp))
    ensures r == XorThenHash(p, comp, blocks)
  {
    var blockSize := BlockSize(comp);
    var buf := new byte[blockSize];
    var k := 0;
    while k < blockSize
      invariant 0 <= k <= blockSize
      invariant forall j :: 0 <= j < k ==> buf[j] == 0
    {
      buf[k] := 0;
      k := k + 1;
    }
    assert buf[..] == Zero(blockSize);
    var i := 1;
    while i < |blocks|
      invariant 1 <= i <= |blocks|
      invariant buf[..] == XorFold(Zero(blockSize), blocks[1..i])
    {
      ghost var before := buf[..];
      var b := blocks[i];
      var j := 0;
      while j < blockSize
        invariant 0 <= j <= blockSize
        invariant forall t :: 0 <= t < j ==> buf[t] == before[t] ^ b[t]
        invariant forall t :: j <= t < blockSize ==> buf[t] == before[t]
      {
        buf[j] := buf[j] ^ b[j];
        j := j + 1;
      }
      assert buf[..] == Xor(before, b);
      XorFoldPullOut(Zero(blockSize), blocks[1..i], b, []);
      assert blocks[1..i] + [b] + [] == blocks[1..i + 1];
      assert blocks[1..i] + [] == blocks[1..i];
      i := i + 1;
    }
    assert blocks[1..i] == blocks[1..];
    r := CompressHash(p, comp, [blocks[0], buf[..]]);
  }

  /** compress. */
  method Compress(p: Primitives, opts: CompOptions, blocks: seq<Block>) returns (r: Result<Block>)
    requires WellFormedInput(opts, blocks)
    ensures r == CompressSpec(p, opts, blocks)
  {
    match opts.comb {
      case CombHash =>
        r := CompressHash(p, opts.comp, blocks);
      case CombXor =>
        r := CompressXor(p, opts.comp, blocks);
      case CombEnd =>
        r := Err(ErrorInvalidCompressionMethod);
    }
  }

  /**
   * compress fails exactly for an unknown combination or primitive, and for
   * Sempira given anything but one block -- which XOR mode, hashing two,
   * always does.
   */
  lemma CompressSucceeds(p: Primitives, opts: CompOptions, blocks: seq<Block>)
    requires WellFormedInput(opts, blocks)
    ensures CompressSpec(p, opts, blocks).Ok?
        <==> opts.comb != CombEnd && opts.comp != CompEnd
             && (opts.comp == Sempira2048 ==> opts.comb == CombHash && |blocks| == 1)
  {
    if opts.comb == CombXor {
      assert XorThenHash(p, opts.comp, blocks)
          == HashBlocks(p, opts.comp, [blocks[0], XorFold(Zero(BlockSize(opts.comp)), blocks[1..])]);
    }
  }

  /** XOR mode with Sempira is always refused with ERROR_SEMPIRA. */
  lemma XorSempiraFails(p: Primitives, blocks: seq<Block>)
    requires WellFormedInput(CompOptions(Sempira2048, CombXor), blocks)
    ensures CompressSpec(p, CompOptions(Sempira2048, CombXor), blocks) == Err(ErrorSempira)
  {
  }

  /** Every block compress produces has the primitive's block size. */
  lemma CompressOutputSize(p: Primitives, opts: CompOptions, blocks: seq<Block>)
    requires WellFormedInput(opts, blocks)
    requires CompressSpec(p, opts, blocks).Ok?
    ensures |CompressSpec(p, opts, blocks).value| == BlockSize(opts.comp)
  {
  }

  /**
   * In XOR mode the result does not depend on the order of the blocks after
   * the first, and with no blocks after the first the zero block is hashed.
   */
  lemma {:induction false} XorModeOrderIndependent(p: Primitives, comp: CompMethod, blocks: seq<Block>, others: seq<Block>)
    requires |blocks| >= 1 && AllOfLength(blocks, BlockSize(comp))
    requires |others| >= 1 && others[0] == blocks[0] && multiset(others[1..]) == multiset(blocks[1..])
    ensures AllOfLength(others, BlockSize(comp))
    ensures XorThenHash(p, comp, others) == XorThenHash(p, comp, blocks)
  {
    XorFoldPermutation(Zero(BlockSize(comp)), blocks[1..], others[1..]);
  }

  lemma XorModeSingleBlock(p: Primitives, comp: CompMethod, b: Block)
    requires |b| == BlockSize(comp)
    ensures XorThenHash(p, comp, [b]) == HashBlocks(p, comp, [b, Zero(BlockSize(comp))])
  {
    assert [b][1..] == [];
  }

  /**
   * The sponge primitives absorb the blocks in order and squeeze once; Argon
   * with several blocks is the left fold of its block function.
   */
  lemma {:induction false} ArgonFoldSnoc(f: (Block, Block) -> ArgonBlock, acc: Block, rest: seq<Block>, b: Block)
    ensures ArgonFold(f, acc, rest + [b]) == f(ArgonFold(f, acc, rest), b)
    decreases |rest|
  {
    if |rest| == 0 {
      assert rest + [b] == [b];
    } else {
      assert (rest + [b])[1..] == rest[1..] + [b];
      ArgonFoldSnoc(f, f(acc, rest[0]), rest[1..], b);
    }
  }
}
