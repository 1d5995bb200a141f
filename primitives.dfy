/*
 * The cryptographic primitives the hash calls into, as parameters.
 *
 * None of them is modelled: SHA-256 + AES-128-CTR (the bitstreams), Keccak,
 * BLAKE2b, ECHO, SHA-512 (sponge-style hashes), Argon2's block function and
 * the Simpira permutation are given as function values.  The model only
 * fixes how the Balloon code drives them: which bytes go in, in which order,
 * and how many bytes come out.
 */
module Primitives {
  import opened Bytes

  /**
   * The bitstream's pseudorandom bytes: ks(seed, pos) is the byte at
   * position pos of the AES-128-CTR keystream whose key is the SHA-256
   * digest of the seed bytes.
   */
  type Keystream = (seq<byte>, nat) -> byte

  /** Keystream bytes [pos, pos + len) under the given seed. */
  function KeystreamBytes(ks: Keystream, seed: seq<byte>, pos: nat, len: nat): (r: seq<byte>)
    ensures |r| == len
    ensures forall i :: 0 <= i < len ==> r[i] == ks(seed, pos + i)
  {
    seq(len, i requires 0 <= i => ks(seed, pos + i))
  }

  /** Reading a stretch of keystream in two pieces yields the same bytes as in one. */
  lemma KeystreamSplit(ks: Keystream, seed: seq<byte>, pos: nat, a: nat, b: nat)
    ensures KeystreamBytes(ks, seed, pos, a + b)
         == KeystreamBytes(ks, seed, pos, a) + KeystreamBytes(ks, seed, pos + a, b)
  {
    var whole := KeystreamBytes(ks, seed, pos, a + b);
    var parts := KeystreamBytes(ks, seed, pos, a) + KeystreamBytes(ks, seed, pos + a, b);
    assert |whole| == |parts|;
    forall i | 0 <= i < a + b ensures whole[i] == parts[i] {
      if i >= a {
        assert parts[i] == KeystreamBytes(ks, seed, pos + a, b)[i - a];
      }
    }
  }

  /**
   * A hash used as init / absorb-each-block / squeeze (Keccak's sponge,
   * BLAKE2b, ECHO and SHA-512 all have this shape); the state is opaque.
   */
  datatype Sponge<B> = Sponge(
    init: seq<byte>,
    absorb: (seq<byte>, Block) -> seq<byte>,
    squeeze: seq<byte> -> B)

  /** The sponge state after absorbing the blocks in order. */
  function Absorbed<B>(sp: Sponge<B>, blocks: seq<Block>): seq<byte>
  {
    if |blocks| == 0 then sp.init
    else sp.absorb(Absorbed(sp, blocks[..|blocks| - 1]), blocks[|blocks| - 1])
  }

  /** The digest of a sequence of blocks. */
  function Digest<B>(sp: Sponge<B>, blocks: seq<Block>): B
  {
    sp.squeeze(Absorbed(sp, blocks))
  }

  /**
   * Each primitive writes exactly one block of its own size: the outputs
   * are typed by that size.
   */
  datatype Primitives = Primitives(
    keccak: Sponge<KeccakBlock>,
    blake2b: Sponge<Blake2bBlock>,
    sha512: Sponge<Sha512Digest>,
    echo: Sponge<EchoBlock>,
    argon2FillBlock: (Block, Block) -> ArgonBlock,
    simpira: Block -> SimpiraBlock)

  const KECCAK_1600_BLOCK_SIZE: nat := 168
  const BLAKE_2B_BLOCK_SIZE: nat := 64
  const SHA512_DIGEST_LENGTH: nat := 64
  const ECHO_BLOCK_SIZE: nat := 64
  const ARGON2_BLOCK_SIZE: nat := 1024
  const SEMPIRA_2048_BLOCK_SIZE: nat := 2048

  type KeccakBlock = b: Block | |b| == KECCAK_1600_BLOCK_SIZE witness Zero(KECCAK_1600_BLOCK_SIZE)
  type Blake2bBlock = b: Block | |b| == BLAKE_2B_BLOCK_SIZE witness Zero(BLAKE_2B_BLOCK_SIZE)
  type Sha512Digest = b: Block | |b| == SHA512_DIGEST_LENGTH witness Zero(SHA512_DIGEST_LENGTH)
  type EchoBlock = b: Block | |b| == ECHO_BLOCK_SIZE witness Zero(ECHO_BLOCK_SIZE)
  type ArgonBlock = b: Block | |b| == ARGON2_BLOCK_SIZE witness Zero(ARGON2_BLOCK_SIZE)
  type SimpiraBlock = b: Block | |b| == SEMPIRA_2048_BLOCK_SIZE witness Zero(SEMPIRA_2048_BLOCK_SIZE)

  /**
   * Init, absorb every block in order, squeeze: the loop of
   * compress_keccak / compress_blake2b / compress_echo / compress_sha512.
   */
  method SpongeHash<B>(sp: Sponge<B>, blocks: seq<Block>) returns (out: B)
    ensures out == Digest(sp, blocks)
  {
    var state := sp.init;
    var i := 0;
    while i < |blocks|
      invariant 0 <= i <= |blocks|
      invariant state == Absorbed(sp, blocks[..i])
    {
      assert blocks[..i + 1][..i] == blocks[..i];
      state := sp.absorb(state, blocks[i]);
      i := i + 1;
    }
    assert blocks[..|blocks|] == blocks;
    out := sp.squeeze(state);
  }
}
