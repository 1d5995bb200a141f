# Balloon / BagHash hash-state engine in Dafny

This project models the core of the Balloon and BagHash memory-hard password
hashing libraries (`libballoon/` and `libbaghash/`) and proves properties of
that model. A hash run has three phases on a large buffer of fixed-size blocks:

- **fill**: the buffer is filled from a deterministic random stream seeded with
  the password and the salt.
- **mix**: the buffer is mixed `t_cost` times. Each pass rewrites blocks as the
  compression of a predecessor and of neighbours the stream picks.
- **extract**: the output is drawn from a stream seeded with the final blocks.

The cryptographic primitives are function-valued parameters (`Primitives.Primitives`):

- SHA-256 with AES-CTR behind the stream: a keystream from (seed bytes,
  position) to a byte;
- Keccak, BLAKE2b, the Argon2 compression G, SHA-512, ECHO and Simpira behind
  the compressor.

Everything around them is modelled: index arithmetic, in-place buffer updates,
state flags and validation rules.

Modules, one or more per source file:

| module | file | source |
|---|---|---|
| `Bytes` | `bytes.dfy` | bytes, blocks, XOR and the XOR fold shared by every file |
| `Errors` | `errors.dfy` | the error codes of both libraries, and the first-error combination |
| `Encode` | `encode.dfy` | `libballoon/encode.c`: little-endian codecs, as loops over caller arrays |
| `XorBlocks` | `xor.dfy` | `libbaghash/xor.c`: `xor_block` and `xor_blocks` in place |
| `Primitives` | `primitives.dfy` | the foreign primitives, keystream slices and the absorb-then-squeeze sponge |
| `Bitstream` | `bitstream.dfy` | `libballoon/bitstream.c` as a class: seeding, finalize, chunked fill, `rand_uint64` |
| `BagBitstream` | `bagbitstream.dfy` | `libbaghash/bitstream.c` as a class: seeding, fill, `rand_byte`, the `rand_int` rejection loop, its integer helpers and `rand_ints` |
| `Compress` / `BagCompress` | `compress.dfy` / `bagcompress.dfy` | the two `compress.c` files: dispatch, HASH and XOR modes, block sizes |
| `BalloonOptions` / `BagOptions` | `options.dfy` / `bagoptions.dfy` | the two `options.c` files and `libbaghash/util.c` |
| `HashStates`, `HashStateEngine` | `hashstate.dfy`, `engine.dfy` | `libballoon/hash_state.c`: the state class, `block_index`, `fill_bytes_from_strings`, and the init/fill/mix/extract dispatch |
| `HashStateSingle`, `HashStateDouble`, `HashStateDoublePar`, `HashStateArgon2` | `single.dfy`, `double.dfy`, `doublepar.dfy`, `argon2.dfy` | the four strategies `libballoon/hash_state.c` dispatches to (`libbaghash/hash_state_*.c`) |
| `HashStateCatena`, `HashStateScrypt`, `HashStateDoublePipe` | `catena.dfy`, `scrypt.dfy`, `doublepipe.dfy` | the strategies of `libballoon/hash_state_{catena,scrypt,double_pipe}.c`, which the dispatcher does not reach; each is modelled on its own |
| `Balloon` | `balloon.dfy` | `libballoon/balloon.c`: validation, per-worker salts, the workers and the XOR join |
| `BagHashApi` | `baghash.dfy` | `libbaghash/baghash.c`: checks, then fill, mix `t_cost` times, extract |

How the source's forms are modelled:

- **Imperative code stays imperative.**
  - The hash state (`HashStates.HashState`) is a class. Its buffer is an `array<Block>` of `n_blocks` blocks.
  - Its strategy data (src/dst halves, `round_count`, per-worker streams) is a field that the mix methods reassign.
  - Each strategy's mix is a method whose loop invariants say which blocks are already done.
  - Each mix is proved against a function that states what every block becomes.
- **Threads run one after another**, in worker-index order. The worker ranges are disjoint, so the order does not change the result.
- **Integers are unbounded.** The 64-bit and 32-bit widths of the C code appear as bounds, or as an explicit reduction modulo 2^32 or 2^64 where the code relies on wrap-around.

Five places in the code are evidently wrong; "## Findings" lists them. Each has a member that models the code as written and a corrected member. The operations run the corrected version:

- the Argon2 predecessor of block 0 after the first pass;
- the end of the last double-par worker's range;
- the `strncpy` copy of the salt in `worker_salt`;
- the XOR into uninitialised memory of libbaghash's `fill_buffer`;
- the key test of libbaghash's `seed_finalize`, which takes OpenSSL's success for a failure.

"## Left out" names every operation that runs corrected behaviour.

Where the code and the repository's own tests disagree, the model follows the code:

- `bytes_required(1)` is 1 (`libbaghash/bitstream.c:109-118`), although `bagtest/bitstream_test.c:67-68` expects 0. See `BagBitstream.BytesRequired`.
- The libbaghash `seed_add` succeeds after finalize (`libbaghash/bitstream.c:27-33`), although `bagtest/bitstream_test.c:143` expects a failure. See `BagBitstream.BagBitstream.SeedAdd`.
- The one exception is libbaghash's `seed_finalize`. As written it always fails (`libbaghash/bitstream.c:44`), while `bagtest/bitstream_test.c:103,138,164-165,190` expect it to succeed. It is a Finding: the operations use the corrected `BagBitstream.BagBitstream.SeedFinalize`, and `SeedFinalizeAsWritten` models the code.
- `balloon_worker` calls `hash_state_fill` with the salt before the input, as `libballoon/hash_state.h` declares it. `libballoon/hash_state.c` defines the function with the input first. `Balloon.WorkerOps` follows the call in `balloon.c`.

A few loop invariants are written `P(...) == true`. Comparing the predicate with `true` makes the verifier keep it as one fact instead of unfolding its definition at every step, which keeps those loops within the solver's budget.

## Model

| member | source | states |
|---|---|---|
| Bytes.Xor | libbaghash/xor.c:8-10 | each byte of the result is the XOR of the two input bytes at that index, and the result has the inputs' length |
| Bytes.Zero | libballoon/compress.c:190-192 | the scratch block that memset clears: n bytes, every one zero |
| Bytes.XorFoldCommute | libbaghash/xor.c:16-19 | XORing one block into the accumulator before folding the rest gives the same block as XORing it in afterwards |
| Bytes.XorFoldUndo | libbaghash/xor.c:16-19 | XORing the same blocks into an accumulator twice gives the accumulator back |
| Bytes.XorFoldPullOut | libbaghash/xor.c:16-19 | a block anywhere in the fold can be moved to the end without changing the result |
| Bytes.XorFoldPermutation | libbaghash/xor.c:16-19 | folding any permutation (same multiset) of the blocks gives the same block |
| XorBlocks.Chunk | libbaghash/xor.c:17 | block k of a byte string is its block_length bytes starting at k * block_length |
| XorBlocks.SliceAt | libbaghash/xor.c:17 | block k of the first n blocks lies inside them and equals the bytes at k * block_length |
| XorBlocks.XorBlock | libbaghash/xor.c:4-11 | out[i] becomes blockA[i] ^ blockB[i] (both read before the write, so out may alias an input) for i < block_size; no other byte of out changes |
| XorBlocks.XorSliceInto | libbaghash/xor.c:17-18 | one xor_block call of xor_blocks: the first block_length bytes of out become their XOR with the block at the given offset; the rest of out is unchanged |
| XorBlocks.XorChunkInto | libbaghash/xor.c:17-18 | the call for block i XORs block i of in into out and changes nothing else |
| XorBlocks.XorBlocksInto | libbaghash/xor.c:13-20 | out's first block_length bytes end as their initial value XOR every block of in, folded in index order (unchanged when n_blocks is 0); no other byte changes |
| XorBlocks.XorBlocksStep | libbaghash/xor.c:16-19 | XORing block i into the fold of blocks 0..i-1 gives the fold of blocks 0..i |
| XorBlocks.XorBlocksOrderIndependent | libbaghash/xor.c:16-19 | two inputs holding the same blocks in any order give the same xor_blocks result |
| Encode.LittleEndian | libballoon/encode.c:19-32 | the little-endian value of n bytes is below 256^n |
| Encode.DecodeEncode | libballoon/encode.c:19-49 | decoding the n-byte encoding of a value gives the value modulo 256^n |
| Encode.EncodeDecode | libballoon/encode.c:19-49 | encoding a decoded byte string at its own length gives the byte string back |
| Encode.EncodeHighBytesZero | libballoon/encode.c:42-58 | bytes of the encoding past the k-th are zero when the value is below 256^k (past index 7 for a uint64, past index 3 for a uint32) |
| Encode.ZeroEncodesToZeros | libballoon/encode.c:42-49 | every byte of the encoding of 0 is zero |
| Encode.BytesToLittleendUint64 | libballoon/encode.c:19-32 | the result is the little-endian value of the first min(n_bytes, 8) bytes (0 for n_bytes = 0) and fits in 64 bits |
| Encode.BytesToLittleendUint32 | libballoon/encode.c:34-40 | the result is the 64-bit decoding modulo 2^32 and fits in 32 bits |
| Encode.WriteLittleEndian | libballoon/encode.c:42-58 | bytes[i] becomes byte i of the value, least significant first, for i < n_bytes; no other byte changes |
| Encode.Uint64ToLittleendBytes | libballoon/encode.c:42-49 | bytes[..n_bytes] is the little-endian encoding of the 64-bit value and bytes past n_bytes are unchanged |
| Encode.Uint32ToLittleendBytes | libballoon/encode.c:51-58 | bytes[..n_bytes] is the little-endian encoding of the 32-bit value and bytes past n_bytes are unchanged |
| Primitives.KeystreamBytes | libballoon/bitstream.c:98-127 | a stretch of len keystream bytes has length len, and byte i is the keystream byte at position pos + i |
| Primitives.KeystreamSplit | libballoon/bitstream.c:116-123 | reading a stretch of keystream in two pieces gives the same bytes as reading it in one |
| Primitives.SpongeHash | libballoon/compress.c:55-72 | init, absorb every block in order, squeeze: the output is the digest of the blocks in order |
| Compress.BlockSize | libballoon/compress.c:201-223 | the block size is 0 exactly for COMP__END and never more than Sempira's 2048 bytes |
| Compress.ArgonFold | libballoon/compress.c:79-81 | the fold yields an Argon2 block whenever it applies the block function at least once |
| Compress.ArgonFoldSnoc | libballoon/compress.c:79-81 | folding one more block applies the block function once more to the previous result |
| Compress.ArgonChain | libballoon/compress.c:74-89 | compress_argon's output is one Argon2 block |
| Compress.HashBlocks | libballoon/compress.c:158-182 | compress_hash succeeds exactly for a listed primitive other than Sempira, or Sempira with exactly one block; COMP__END gives ERROR_INVALID_COMPRESSION_METHOD and Sempira otherwise ERROR_SEMPIRA; the output has the primitive's block size |
| Compress.CompressArgon | libballoon/compress.c:74-89 | F(b0, b1) folded with b2, b3, ... in order when there are at least two blocks, otherwise F(b0, zero block) |
| Compress.CompressSempira | libballoon/compress.c:109-119 | any count but one gives ERROR_SEMPIRA; one block gives the permutation of that block |
| Compress.CompressHash | libballoon/compress.c:158-182 | the dispatch on the primitive computes HashBlocks |
| Compress.CompressXor | libballoon/compress.c:185-199 | the result is the hash of exactly two blocks: blocks[0], and the XOR of blocks[1..] accumulated into a zeroed scratch block |
| Compress.Compress | libballoon/compress.c:40-52 | the dispatch on the combination mode computes CompressSpec |
| Compress.CompressSucceeds | libballoon/compress.c:40-52 | compress succeeds exactly when the combination is HASH or XOR, the primitive is not COMP__END, and for Sempira only in HASH mode with one block |
| Compress.XorSempiraFails | libballoon/compress.c:109-119 | XOR mode with Sempira always fails with ERROR_SEMPIRA, since it hashes two blocks |
| Compress.CompressOutputSize | libballoon/compress.c:40-52 | every successful compress writes one block of the primitive's block size |
| Compress.XorModeOrderIndependent | libballoon/compress.c:193-195 | in XOR mode the result does not depend on the order of the blocks after the first |
| Compress.XorModeSingleBlock | libballoon/compress.c:191-197 | in XOR mode a single block is hashed together with the all-zero block |
| BagCompress.BagBlockSize | libbaghash/compress.c:61-75 | 168 for Keccak, 1024 for Argon2/BLAKE2b, and 0 exactly for COMP__END |
| BagCompress.BagCompressSpec | libbaghash/compress.c:43-59 | compress fails exactly for COMP__END, with ERROR_INVALID_COMPRESSION_METHOD |
| BagCompress.CompressBlake2b | libbaghash/compress.c:32-41 | the block function folded into out: F(b0, b1) then F(out, b_i), or F(b0, out's old contents) with a single block |
| BagCompress.BagCompress | libbaghash/compress.c:43-59 | the dispatch on the primitive computes BagCompressSpec |
| BagCompress.PriorIgnoredWithTwoBlocks | libbaghash/compress.c:35-38 | with two or more blocks the old contents of out do not affect the result |
| BagCompress.PriorUsedWithOneBlock | libbaghash/compress.c:35 | with one block the old contents of out are the block function's second operand |
| BagCompress.AgreesWithBalloonHash | libbaghash/compress.c:13-38 | on two or more blocks both compressors give the same block as libballoon's HASH mode with the same primitive |
| Bitstream.Bitstream.constructor | libballoon/bitstream.c:28-42 | a new stream is not finalized, has absorbed no seed bytes and is at keystream position 0 |
| Bitstream.Bitstream.SeedAdd | libballoon/bitstream.c:59-68 | after finalize the call fails with ERROR_BITSTREAM_FINALIZED and the seed is unchanged; before it the bytes are appended to the seed |
| Bitstream.Bitstream.SeedFinalize | libballoon/bitstream.c:70-96 | the stream is initialized and the counter starts at 0; on a first finalize the key becomes the seed absorbed so far; a second finalize is not refused, and its key is left open |
| Bitstream.Bitstream.EncryptPartial | libballoon/bitstream.c:98-107 | to_encrypt keystream bytes are written at the offset, the position advances by to_encrypt, and the bytes before and after are unchanged |
| Bitstream.Bitstream.FillBuffer | libballoon/bitstream.c:109-127 | before finalize: ERROR_BITSTREAM_UNINITIALIZED and nothing changes; after: exactly outlen bytes, the keystream from the old position (whatever the chunking), are written, the position advances by outlen, and bytes past outlen are unchanged |
| Bitstream.Bitstream.RandUint64 | libballoon/bitstream.c:130-142 | the little-endian value of the next eight keystream bytes, below 2^64, with the position advanced by 8; before finalize ERROR_BITSTREAM_UNINITIALIZED |
| BagBitstream.BitLengthBounds | libbaghash/bitstream.c:132-143 | the bit length b of v satisfies v < 2^b and, for v > 0, 2^(b-1) <= v |
| BagBitstream.BitsInInt | libbaghash/bitstream.c:132-143 | the shift count is the bit length of val: val < 2^ret and 2^(ret-1) <= val when val > 0 |
| BagBitstream.BytesNeededFrom | libbaghash/bitstream.c:112-117 | the count lies between the starting count and 8, and below 8 it is enough bytes for v |
| BagBitstream.BytesNeededLeast | libbaghash/bitstream.c:113-115 | the loop stops at the first count that is enough: every smaller count from the start is too few bytes |
| BagBitstream.BytesRequired | libbaghash/bitstream.c:109-118 | the least k < 8 with val < 256^k, else 8: k <= 8, k bytes suffice when k < 8, and every smaller count does not |
| BagBitstream.BytesNeededCovers | libbaghash/bitstream.c:83-86 | every size_t value fits in bytes_required of its bytes |
| BagBitstream.MaskCoversBound | libbaghash/bitstream.c:83-96 | the masked draw range [0, 2^bits_in_int(max)) contains max and is no wider than the bytes_required(max) bytes drawn |
| BagBitstream.BigEndian | libbaghash/bitstream.c:120-130 | the big-endian value of n bytes is below 256^n |
| BagBitstream.BytesToInt | libbaghash/bitstream.c:120-130 | the first n bytes read big-endian (0 for n = 0), below 256^n |
| BagBitstream.Attempt | libbaghash/bitstream.c:94-95 | one attempt's value is below 2^bits |
| BagBitstream.StreamValueIsBigEndian | libbaghash/bitstream.c:89-94 | the attempt value computed over keystream positions is the big-endian decoding of the bytes rand_byte hands out |
| BagBitstream.DrawLoopAccept | libbaghash/bitstream.c:96-98 | an attempt below max ends the loop with that value, just past its bytes |
| BagBitstream.DrawLoopReject | libbaghash/bitstream.c:88-96 | an attempt at or above max is discarded and the loop continues at the next keystream bytes |
| BagBitstream.DrawnBelowMax | libbaghash/bitstream.c:88-98 | an accepted draw is below max and consumed keystream bytes (unless no bytes are drawn) |
| BagBitstream.ZeroBoundNeverAccepts | libbaghash/bitstream.c:83-96 | with max = 0 no attempt is ever accepted, so the source's loop never ends |
| BagBitstream.XorStreamDone | libbaghash/bitstream.c:56-57 | bytes XORed one by one with the keystream are the prefix XOR the keystream stretch |
| BagBitstream.XorFillNeedsZeroedBuffer | libbaghash/bitstream.c:51-59 | XORing the keystream into a buffer leaves exactly the keystream if and only if the buffer was all zero |
| BagBitstream.BagBitstream.constructor | libbaghash/bitstream.c:13-25 | a new stream is not initialized, has an empty seed and is at keystream position 0 |
| BagBitstream.BagBitstream.InitWithSeed | libbaghash/bitstream.h:30 | init, add the seed, finalize: initialized with the seed as key |
| BagBitstream.BagBitstream.SeedAdd | libbaghash/bitstream.c:27-33 | the bytes are appended and ERROR_NONE returned, also after finalize (this version does not refuse) |
| BagBitstream.BagBitstream.SeedFinalize | libbaghash/bitstream.c:35-49 | the corrected key test (see Findings): when AES_set_encrypt_key returns 0 the key becomes the seed so far and initialized is set; any other return gives ERROR_OPENSSL_AES with the stream unchanged; the position is kept |
| BagBitstream.BagBitstream.SeedFinalizeAsWritten | libbaghash/bitstream.c:35-49 | the key test as written: when AES_set_encrypt_key returns 0 (its success) the result is ERROR_OPENSSL_AES and initialized is kept; a non-zero return marks the stream initialized with ERROR_NONE |
| BagBitstream.BagBitstream.FillBufferAsWritten | libbaghash/bitstream.c:51-59 | before finalize ERROR_BITSTREAM_UNINITIALIZED and nothing changes; after, out[..outlen] becomes its old contents XOR the next outlen keystream bytes and the position advances by outlen |
| BagBitstream.BagBitstream.XorKeystream | libbaghash/bitstream.c:56-57 | the in-place counter-mode encryption: out[..outlen] becomes its old contents XOR the keystream from the current position; the rest of out is unchanged |
| BagBitstream.BagBitstream.FillBuffer | libbaghash/bitstream.h:36-40 | the documented behaviour: out[..outlen] becomes exactly the next outlen keystream bytes and the position advances by outlen; ERROR_BITSTREAM_UNINITIALIZED before finalize |
| BagBitstream.BagBitstream.RandByte | libbaghash/bitstream.c:61-77 | the next keystream byte, with the position advanced by one; ERROR_BITSTREAM_UNINITIALIZED before finalize |
| BagBitstream.BagBitstream.DrawBytes | libbaghash/bitstream.c:89-92 | n rand_byte calls give the next n keystream bytes; the first call fails when the stream is not initialized |
| BagBitstream.BagBitstream.TryOnce | libbaghash/bitstream.c:89-95 | one pass of the do-while body: the attempt value of the next nBytes bytes, with the position advanced by nBytes; ERROR_BITSTREAM_UNINITIALIZED before finalize |
| BagBitstream.BagBitstream.RandInt | libbaghash/bitstream.c:79-100 | the outcome is the rejection loop with bytes_required(max) bytes and bits_in_int(max) bits per attempt; on success the value is below max; ERROR_BITSTREAM_UNINITIALIZED before finalize |
| BagBitstream.BagBitstream.Sample | libbaghash/bitstream.c:88-98 | the do-while loop for a given byte and bit count: fails on an uninitialized stream, otherwise ends as the rejection loop does, and any value returned is below max |
| BagBitstream.BagBitstream.SampleLoop | libbaghash/bitstream.c:88-96 | on an initialized stream the loop's outcome and final position are those of the rejection loop |
| BagBitstream.BagBitstream.SampleStep | libbaghash/bitstream.c:89-96 | an attempt below max is the loop's result; one at or above max leaves the rest of the loop to run from the new position |
| BagBitstream.BagBitstream.DrawFresh | libbaghash/bitstream.h:48-49 | a value drawn for a distinct batch is below max and not among the values already taken |
| BagBitstream.BagBitstream.RandInts | libbaghash/bitstream.h:48-49 | k values below max; with distinct they are pairwise different, and max < k fails with ERROR_BITSTREAM_MAX_TOO_SMALL before any draw |
| BalloonOptions.Raise | libballoon/options.c:32-35 | t_cost and m_cost below their minimums are raised to them, each otherwise kept, and no other field changes |
| BalloonOptions.NBlocks | libballoon/options.c:162-168 | at least BLOCKS_MIN; above it, the number of whole blocks of the primitive's size in m_cost |
| BalloonOptions.NNeighbors | libballoon/options.c:138-160 | at most 20, and 0 exactly when the combination is not XOR and the mix is not single, double, double-par, Argon2 or scrypt |
| BalloonOptions.Validate | libballoon/options.c:26-84 | the options come back with both costs raised; the result is ERROR_NONE exactly when the raised options satisfy every rule (m_cost below MCOST_MAX, neighbours unless XOR, thread limits, the double-pipe/Sempira pairing, scrypt's single pass and thread, no 64-bit overflow, XOR only with the double mixes); m_cost at or above MCOST_MAX gives ERROR_MCOST_TOO_BIG |
| BalloonOptions.OverflowGuardNeverFires | libballoon/options.c:71-74 | once m_cost < MCOST_MAX, n_blocks * block_size fits in 64 bits, so the overflow check never fires |
| BalloonOptions.ValidateIdempotent | libballoon/options.c:26-84 | validating the options validate produced changes nothing and gives the same verdict |
| BalloonOptions.ZeroTcostIsRaised | libballoon/options.c:32-33 | t_cost = 0 is raised to TCOST_MIN instead of being refused |
| BalloonOptions.DefaultNeighborsPassNeighborCheck | libballoon/options.c:39-42 | the default neighbour count of the single, double, double-par, Argon2 and scrypt mixes never trips the no-neighbours check |
| BagOptions.NBlocks | libbaghash/options.c:109-115 | at least BLOCKS_MIN; above it, the number of whole blocks of the primitive's size in m_cost |
| BagOptions.NeighborsSingle | libbaghash/options.c:38-63 | the single-buffer degree lies between 13 and 80 |
| BagOptions.NeighborsDouble | libbaghash/options.c:65-92 | the double-buffer degree lies between 13 and 40 |
| BagOptions.NeighborsDoubleNonIncreasing | libbaghash/options.c:65-92 | the double-buffer degree never grows with the block count, is 40 up to 64 blocks and 13 above 2048 |
| BagOptions.NeighborsSingleNotMonotone | libbaghash/options.c:38-63 | the single-buffer degree is 80 up to 16 blocks and 13 above 2048, but 14 at 513 blocks and 15 at 1025, so it is not monotone |
| BagOptions.NNeighbors | libbaghash/options.c:94-107 | the single and double tables for those mixes, and 0 exactly for double-par and unknown mixes (Argon2 gets 1) |
| BagOptions.Raise | libbaghash/options.c:16-19 | t_cost and m_cost below their minimums are raised to them, each otherwise kept, and no other field changes |
| BagOptions.Validate | libbaghash/options.c:10-36 | the options come back with both costs raised; ERROR_NONE exactly when the raised options satisfy every rule; m_cost at or above MCOST_MAX gives ERROR_MCOST_TOO_BIG, otherwise n_neighbors = 0 gives ERROR_NO_NEIGHBORS |
| BagOptions.DivGuard | libbaghash/options.c:26-29 | the overflow test n_blocks > UINT64_MAX / block_size holds exactly when n_blocks * block_size overflows |
| BagOptions.ZeroTcostAccepted | libbaghash/options.c:16-17 | t_cost = 0 is raised to TCOST_MIN and gives the same verdict as TCOST_MIN itself |
| BagOptions.ValidateParameters | libbaghash/util.c:7-26 | ERROR_NONE exactly when all three lengths lie in their lower-inclusive, upper-exclusive ranges; outlen is checked first, then inlen, then saltlen, and a TOO_SMALL error means that length is below its minimum |
| BagOptions.ValidateParametersBounds | libbaghash/util.c:10-23 | OUTLEN_MIN - 1 is too small, OUTLEN_MIN is accepted, OUTLEN_MAX is too big, and a zero length gives the matching TOO_SMALL error for each of the three |
| Errors.FirstError | libballoon/balloon.c:156-165 | the combined error is ERROR_NONE exactly when every error is, and otherwise the first non-none error in index order |
| HashStates.EvenBlocks | libballoon/hash_state.c:93-96 | n_blocks after init is options_n_blocks rounded up to the next even number, so it is even and at least BLOCKS_MIN |
| HashStates.StreamBlocks | libballoon/hash_state.c:152-174 | block k of a stream-filled region is the block_size keystream bytes from k * block_size |
| HashStates.SlicedKeystream | libballoon/hash_state.c:168 | cutting n * block_size keystream bytes into blocks gives those blocks |
| HashStates.FillBytesFromStrings | libballoon/hash_state.c:152-174 | a fresh stream seeded with in, then salt, in that order, yields exactly bytes_to_fill keystream bytes from position 0, and no step fails |
| HashStates.Gather | libbaghash/hash_state_single.c:60-66 | entry j of the gathered inputs is the block that pick j points at |
| HashStates.DrawNeighbors | libbaghash/hash_state_double.c:77-82 | the neighbour loop: its picks, its error and the main stream's new position are those of DrawRow, k successive rand_int(max) draws each starting where the previous one stopped, the first failing draw ending the row with its error; every pick is below max |
| HashStates.DrawnRowBelow | libbaghash/hash_state_double.c:77-82 | a row the stream draws whole has k picks, each below max |
| HashStates.DrawRowStep | libbaghash/hash_state_double.c:77-82 | one more rand_int of a row: a drawn value joins the row and the rest follows from where it stopped; a failed draw fails the whole row there |
| HashStates.RowSoFarStep | libbaghash/hash_state_double.c:77-82 | one pass of the neighbour loop keeps its invariant: with the picks so far below max, a drawn value below max extends them and the rest of the row follows from the new position; a failed draw is the outcome of the whole row, with its error and position |
| HashStates.RowSoFarDone | libbaghash/hash_state_double.c:77-82 | the neighbour loop leaves with k picks: they are the whole row, drawn without error, ending at the current position |
| HashStates.PicksEndExtend | libbaghash/hash_state_single.c:60-66 | drawing the next row where the earlier rows stopped extends the rows drawn so far |
| HashStates.PicksDetermined | libbaghash/hash_state_single.c:44-66 | the main stream decides the neighbours: two runs drawing the same number of rows from the same key and position draw the same rows and stop at the same position |
| HashStates.BlocksOfLength | libballoon/hash_state.c:99-104 | every block of the buffer has the primitive's block size |
| HashStates.BlockIndexDisjoint | libballoon/hash_state.c:34-38 | block i's bytes block_size * i .. block_size * i + block_size lie inside the n-block buffer and do not overlap block j's for i != j |
| HashStates.HashState.constructor | libballoon/hash_state.c:89-104 | n_blocks is options_n_blocks made even, has_mixed is false, block_size is the primitive's and the buffer holds n_blocks blocks |
| HashStates.HashState.SeedMainStream | libballoon/hash_state.c:109 | the main stream is seeded with the salt alone, finalized and at position 0 |
| HashStates.HashState.BlockLast | libballoon/hash_state.c:40-44 | block_last is block n_blocks - 1, the last block |
| HashStates.HashState.WriteBlock | libbaghash/hash_state_single.c:71-76 | the copy of a temporary into block k changes block k alone |
| HashStates.HashState.WriteBlocks | libballoon/hash_state.c:168 | blocks from .. from + count become the consecutive blocks of the bytes; no other block changes |
| HashStates.HashState.FillFromStrings | libballoon/hash_state.c:152-174 | blocks from .. from + count become the consecutive blocks of the stream seeded with in then salt; no other block changes and nothing fails |
| HashStates.HashState.WriteStream | libballoon/hash_state.c:168 | block from + j becomes the j-th block_size bytes of the stream's keystream; no other block changes |
| HashStateEngine.Dispatch | libballoon/hash_state.c:46-87 | only the single, double, double-par and Argon2 mixes get a strategy, each its own; every other mix gets none (ERROR_INVALID_MIX_METHOD) |
| HashStateEngine.EvenBlocksFit | libballoon/hash_state.c:93-96 | n_blocks rounded up to even still fits in a size_t |
| HashStateEngine.Init | libballoon/hash_state.c:89-115 | the fields are set first (n_blocks even, has_mixed false, block size); a mix without a strategy fails with ERROR_INVALID_MIX_METHOD; otherwise the main stream is seeded with the salt alone and the strategy's extra data is set up (halves for double, round 0 for Argon2, one seed per worker drawn for double-par) |
| HashStateEngine.Fill | libballoon/hash_state.c:129-135 | the strategy's fill: every block (single), the first half (double), each worker's range (double-par, with the corrected ranges, stream fill and finalize, see Left out) or block 0 (Argon2) from streams seeded with in and salt; never fails |
| HashStateEngine.Mix | libballoon/hash_state.c:137-142 | has_mixed is set even if the strategy fails, and the buffer changes as the strategy's pass says (Mixed, DoubleMixed, WorkersMixed, Argon2Mixed), the single, double and Argon2 neighbours being the main stream's draws from its old position; a single, double or Argon2 pass that fails stopped at the step whose draw gave up (ErrorDrawLimit) or whose drawn inputs the compression rejected with that very error (SingleStopped, DoubleStopped, Argon2Stopped); double and double-par swap src and dst, and Argon2 adds one to round_count, exactly when their pass succeeds |
| HashStateEngine.MixStrategy | libballoon/hash_state.c:141 | the call through f_mix: the dispatched strategy's pass, with the same buffer, stream, failure and extra-data postconditions as Mix |
| HashStateEngine.Extract | libballoon/hash_state.c:144-150 | before any mix ERROR_CANNOT_EXTRACT_BEFORE_MIX and no output; afterwards the strategy's output, the keystream of the block(s) it reads |
| HashStateEngine.ExtractReadsLastBlock | libbaghash/hash_state_single.c:83-89 | the single-buffer and Argon2 outputs depend on the last block alone |
| HashStateEngine.ExtractReadsFirstHalf | libbaghash/hash_state_double.c:100-107 | the double-buffer output depends on the physical first half alone, whichever half is src |
| HashStateSingle.SingleInputs | libbaghash/hash_state_single.c:47-66 | step i compresses n_neighbors + 2 blocks: the previous block (the last block, not yet rewritten, for i = 0; the freshly written block i - 1 otherwise), block i's old contents, then each neighbour as the pass has left it |
| HashStateSingle.SingleInputsFromBuffer | libbaghash/hash_state_single.c:52-65 | the blocks read out of the buffer in the middle of a pass (prev, block i, the picked blocks) are SingleInputs, since the blocks from i on still hold their old contents |
| HashStateSingle.SingleInputsPrefix | libbaghash/hash_state_single.c:44-66 | step i reads no rewritten block at or above i: only blocks below i of the pass so far matter |
| HashStateSingle.SingleChain | libbaghash/hash_state_single.c:50-55 | block 0 reads the last block's old contents, every other block reads the block just rewritten, and a neighbour equal to i is read with its old contents |
| HashStateSingle.MixedExtend | libbaghash/hash_state_single.c:71-76 | writing step i's compression into block i alone keeps the earlier steps done and completes step i |
| HashStateSingle.SingleFill | libbaghash/hash_state_single.c:27-34 | all n_blocks blocks become the consecutive blocks of the stream seeded with in then salt; never fails |
| HashStateSingle.SingleGather | libbaghash/hash_state_single.c:52-65 | the pointers gathered for block i are SingleInputs of the pass so far |
| HashStateSingle.SingleStep | libbaghash/hash_state_single.c:45-72 | one step's n_neighbors picks are the main stream's next rand_int(n_blocks) draws (DrawRow from its old position), and the step yields the block-size compression of prev, block i and those neighbours; on failure either the draw gave up (ErrorDrawLimit) or the whole row was drawn and the compression of those inputs returned the error (StepFailed); the buffer is not written |
| HashStateSingle.SingleMix | libbaghash/hash_state_single.c:36-81 | blocks are rewritten in index order, each the compression of its step's inputs; the rows of picks are those the main stream draws one after the other from its old position (DrewPicks); on failure the pass stopped at step |picks| < n_blocks, whose draw gave up or whose drawn inputs' compression returned the error (SingleStopped); the blocks not reached keep their contents |
| HashStateSingle.MixedDetermined | libbaghash/hash_state_single.c:44-78 | two buffers with the same first m steps done, from the same start and neighbour rows, agree on those m blocks |
| HashStateSingle.SingleMixDeterministic | libbaghash/hash_state_single.c:36-81 | two complete passes from the same buffer, with the main stream at the same key and position, draw the same neighbours, leave the same buffer and the stream at the same position |
| HashStateSingle.SingleExtract | libbaghash/hash_state_single.c:83-89 | the output is the keystream of a stream seeded with the last block alone |
| HashStateDouble.DoubleInputs | libbaghash/hash_state_double.c:64-82 | dst[i] compresses n_neighbors + 1 blocks, the first being prev (dst[i - 1], or src's last block when i = 0) |
| HashStateDouble.DoubleInputsPicks | libbaghash/hash_state_double.c:72-81 | after prev come the picked src blocks, src + pick for each pick in the row's order |
| HashStateDouble.DoubleInputsFromBuffer | libbaghash/hash_state_double.c:69-81 | the blocks read out of the buffer in the middle of a pass, through the src and dst offsets, are DoubleInputs, since src is never written |
| HashStateDouble.DoubleMixedExtend | libbaghash/hash_state_double.c:87-88 | writing dst[i]'s compression into dst[i] alone keeps the earlier dst blocks done and completes dst[i] |
| HashStateDouble.DoubleInputsFrame | libbaghash/hash_state_double.c:69 | dst[i]'s inputs depend on the dst half only through dst[i - 1] |
| HashStateDouble.DoubleStepDoneFrame | libbaghash/hash_state_double.c:69 | a finished dst block stays finished while it and the dst block before it keep their values |
| HashStateDouble.DoubleInit | libbaghash/hash_state_double.c:17-29 | src starts at block 0 and dst at block n_blocks / 2 |
| HashStateDouble.DoubleFill | libbaghash/hash_state_double.c:38-45 | only the first half is written, n_blocks * block_size / 2 stream bytes seeded with in then salt; the second half is unchanged |
| HashStateDouble.DoubleStep | libbaghash/hash_state_double.c:62-88 | one step's n_neighbors picks are the main stream's next rand_int(blocks_per_buf) draws (DrawRow from its old position), and the step yields the block-size compression of dst[i]'s inputs; on failure either the draw gave up (ErrorDrawLimit) or the row was drawn and the compression of dst[i]'s inputs returned the error (DoubleStepFailed) |
| HashStateDouble.DoubleWrite | libbaghash/hash_state_double.c:87 | writing dst[i]'s compression into dst[i] extends the finished dst blocks by step i's row and leaves every other block as before |
| HashStateDouble.GatherInputs | libbaghash/hash_state_double.c:69-82 | the pointers gathered for dst[i] are DoubleInputs of the pass so far |
| HashStateDouble.DoubleMix | libbaghash/hash_state_double.c:53-98 | the dst blocks are rewritten in order, each the compression of its inputs, with the rows of picks the main stream draws one after the other from its old position; on failure the pass stopped at dst block |picks|, whose draw gave up or whose compression returned the error (DoubleStopped); nothing outside the rewritten dst blocks changes (src included); on success src and dst are swapped, so two passes give them back their roles, and on failure they are kept |
| HashStateDouble.DoublePass | libbaghash/hash_state_double.c:61-89 | the step loop: dst rewritten in index order from the rows the main stream draws, src and every block outside the rewritten dst blocks unchanged; a failure stops it at dst block |picks|, whose draw gave up or whose drawn inputs' compression returned the error (DoubleStopped) |
| HashStateDouble.DoubleMixedDetermined | libbaghash/hash_state_double.c:61-89 | two buffers with the same first m dst blocks done, from the same start and rows, agree on those m dst blocks |
| HashStateDouble.DoubleMixDeterministic | libbaghash/hash_state_double.c:53-98 | two complete passes from the same buffer and halves, with the main stream at the same key and position, draw the same neighbours, leave the same buffer and the stream at the same position |
| HashStateDouble.DoubleExtract | libbaghash/hash_state_double.c:100-107 | the output is the keystream of a stream seeded with the bytes of the physical first half, whichever half is src |
| HashStateDouble.DoubleHalvesPartition | libbaghash/hash_state_double.c:25-26 | every block below n_blocks lies in exactly one of the two halves |
| HashStateDoublePar.SpanFits | libbaghash/hash_state_double_par.c:124-125 | the n_threads ranges of blocks_per_thread blocks fit in the half |
| HashStateDoublePar.WorkerStart | libbaghash/hash_state_double_par.c:124-125 | worker w starts at w * (blocks_per_buf / n_threads), inside the half |
| HashStateDoublePar.WorkerEndAsWritten | libbaghash/hash_state_double_par.c:126 | the end as written (the last worker stops at blocks_per_buf - 1) lies between the start and blocks_per_buf |
| HashStateDoublePar.WorkerEnd | libbaghash/hash_state_double_par.c:124-126 | the corrected end (the last worker runs to blocks_per_buf) lies between the start and blocks_per_buf |
| HashStateDoublePar.WorkerRangesTile | libbaghash/hash_state_double_par.c:124-126 | with the corrected end the first range starts at 0, the last ends at blocks_per_buf, and each range ends where the next starts |
| HashStateDoublePar.Owner | libbaghash/hash_state_double_par.c:124-126 | the worker whose range holds block k is a valid worker index |
| HashStateDoublePar.OwnerBounds | libbaghash/hash_state_double_par.c:124-126 | block k lies at or after its owner's start, and before the owner's start + blocks_per_thread unless the owner is the last worker |
| HashStateDoublePar.WorkerRangesPartition | libbaghash/hash_state_double_par.c:124-126 | with the corrected end, every block of the half lies in its owner's range and in no other worker's |
| HashStateDoublePar.WorkerRangesOrdered | libbaghash/hash_state_double_par.c:124-126 | an earlier worker's range ends no later than a later worker's starts, so the ranges are disjoint |
| HashStateDoublePar.WorkerRangesAsWrittenMissLast | libbaghash/hash_state_double_par.c:124-130 | as written, block blocks_per_buf - 1 lies in no worker's range, so neither fill nor mix writes it |
| HashStateDoublePar.WorkerRangesAsWrittenExample | libbaghash/hash_state_double_par.c:124-126 | with 8 blocks per half and 2 workers, worker 1 covers blocks 4 to 6 as written and 4 to 7 when corrected |
| HashStateDoublePar.ParInit | libbaghash/hash_state_double_par.c:36-73 | src is the first half and dst the second; worker w's stream is seeded with the 32 main-stream bytes at offset 32 * w, in worker order (the corrected overwriting fill, see Findings), and the main stream advances 32 bytes per worker |
| HashStateDoublePar.NewWorkerStream | libbaghash/hash_state_double_par.c:59-66 | a fresh stream seeded with the next 32 main-stream bytes, written by the corrected overwriting fill (see Findings), which advance the main stream by 32 |
| HashStateDoublePar.WorkerSeed | libbaghash/hash_state_double_par.c:185-198 | worker i's fill seed is in, then salt, then i & 0xff and (i >> 8) & 0xff |
| HashStateDoublePar.IndexBytesInjective | libbaghash/hash_state_double_par.c:186-188 | two different uint16_t indices give different index bytes |
| HashStateDoublePar.WorkerSeedsDistinct | libbaghash/hash_state_double_par.c:185-198 | two different workers' fill seeds differ |
| HashStateDoublePar.FillBlockOfWorker | libbaghash/hash_state_double_par.c:160-164 | a src block in worker w's range holds worker w's stream output, read from the start of that range |
| HashStateDoublePar.StreamIsParFill | libbaghash/hash_state_double_par.c:160-164 | the stream output written from the start of a worker's range is what the whole fill puts there |
| HashStateDoublePar.FillWorker | libbaghash/hash_state_double_par.c:160-164 | with the corrected range end, overwriting fill and finalize (see Findings): one fill worker writes its range of src from its own stream and nothing outside that range |
| HashStateDoublePar.WorkerBytes | libbaghash/hash_state_double_par.c:185-198 | with the corrected finalize (see Findings): the bytes of a fresh stream seeded with in, salt and the worker's index bytes |
| HashStateDoublePar.ParFill | libbaghash/hash_state_double_par.c:95-101 | with the corrected range ends, overwriting fill and finalize (see Findings): every src block ends holding its owner's stream output and blocks outside src are unchanged; with no workers (zero-length arrays in C, undefined) nothing changes |
| HashStateDoublePar.ParFillAsWritten | libbaghash/hash_state_double_par.c:180-198 | as written, with at least one worker the fill returns ERROR_OPENSSL_AES from worker 0's seed_finalize before any thread starts, writing no block; with none it returns ERROR_NONE |
| HashStateDoublePar.KeptChain | libbaghash/hash_state_double_par.c:180-217 | two writes, the second right after the first's range, keep every block outside both |
| HashStateDoublePar.FillThread | libbaghash/hash_state_double_par.c:180-217 | running fill worker w after workers 0 .. w - 1 extends the filled ranges by worker w's |
| HashStateDoublePar.RowNeighbors | libbaghash/hash_state_double_par.c:121-138 | a row has n_neighbors picks, except that XOR mode with n_neighbors = 0 takes the matrix generator's row weight |
| HashStateDoublePar.HalfKept | libbaghash/hash_state_double_par.c:130-158 | writes outside the src half leave src holding what it held |
| HashStateDoublePar.MixBlock | libbaghash/hash_state_double_par.c:131-158 | one dst block: its row has row_neighbors picks below blocks_per_buf, distinct in XOR mode, and the output is the compression of exactly those src blocks (no prev block) |
| HashStateDoublePar.RangeDoneExtend | libbaghash/hash_state_double_par.c:130-159 | writing the next row's compression right after the range mixed so far extends it by that row |
| HashStateDoublePar.MixStep | libbaghash/hash_state_double_par.c:130-159 | one loop iteration mixes the next block of the range; on an error nothing is written and the mixed range stays as it was |
| HashStateDoublePar.MixWorker | libbaghash/hash_state_double_par.c:128-159 | a worker mixes its range in order, stops at the first error, writes only the blocks it finished and has finished all of them when it returns no error |
| HashStateDoublePar.WorkersMixedExtend | libbaghash/hash_state_double_par.c:206-212 | adding worker w's range keeps the earlier workers' blocks and adds the ones worker w wrote |
| HashStateDoublePar.Done | libbaghash/hash_state_double_par.c:124-126 | with the corrected range end (see Findings): the first w workers reach no further than the half, and all of them reach its end |
| HashStateDoublePar.DoneBounds | libbaghash/hash_state_double_par.c:124-126 | worker w starts where the first w workers stop and ends where the first w + 1 stop |
| HashStateDoublePar.RunWorker | libbaghash/hash_state_double_par.c:109-168 | with the corrected range end (see Findings): one mix worker on its own stream, run after workers 0 .. w - 1, extends the mixed ranges by its own and records its result |
| HashStateDoublePar.MixedUpToExtend | libbaghash/hash_state_double_par.c:180-212 | worker w's mixed range, written after the first w workers', extends them by one worker |
| HashStateDoublePar.ParRunThreads | libbaghash/hash_state_double_par.c:170-220 | with the corrected range ends (see Findings): the workers run one after another in index order, each on its own stream and range; a worker without error has mixed its whole range from the src half, and nothing outside dst changes |
| HashStateDoublePar.RunWorkers | libbaghash/hash_state_double_par.c:180-212 | with the corrected range ends (see Findings): after the thread loop every worker's range is mixed as far as its result allows |
| HashStateDoublePar.RunStart | libbaghash/hash_state_double_par.c:180 | before any worker runs, nothing of dst is mixed and the buffer is as it was |
| HashStateDoublePar.RunComplete | libbaghash/hash_state_double_par.c:206-219 | with the corrected range ends (see Findings): once every worker has run, the whole dst half is accounted for and nothing outside it changed |
| HashStateDoublePar.ParMix | libbaghash/hash_state_double_par.c:222-238 | with the corrected range ends (see Findings): the error is the lowest-index failing worker's; only a pass without error swaps src and dst; every block of a worker without error holds the compression of its row of the old src half |
| HashStateArgon2.PrevIndexAsWritten | libbaghash/hash_state_argon2.c:61 | as written: i - 1 for i > 0, and for block 0 after the first pass (size_t)-1 mod n_blocks, always a block index |
| HashStateArgon2.PrevIndex | libbaghash/hash_state_argon2.c:59-61 | the intended predecessor: block i - 1 cyclically (the last block for block 0), except block 0 of the first pass, which uses itself |
| HashStateArgon2.PrevIndexAsWrittenDiffers | libbaghash/hash_state_argon2.c:61 | with 34 blocks the second pass hashes block 17 instead of block 33 into block 0 |
| HashStateArgon2.PrevIndexAgreesOnPowersOfTwo | libbaghash/hash_state_argon2.c:61 | the code as written and the intended predecessor agree whenever n_blocks is a power of two up to 2^64 |
| HashStateArgon2.NeighborBound | libbaghash/hash_state_argon2.c:65-67 | the neighbour bound is n_blocks after the first pass and i during it, so it is 0 exactly for block 0 of the first pass |
| HashStateArgon2.Argon2InputsPrefix | libbaghash/hash_state_argon2.c:56-75 | step i reads no block at or above i that the pass has rewritten |
| HashStateArgon2.Argon2InputsFromBuffer | libbaghash/hash_state_argon2.c:61-75 | in the middle of a pass the buffer holds exactly the two blocks step i reads: its predecessor and its neighbour |
| HashStateArgon2.Argon2MixedExtend | libbaghash/hash_state_argon2.c:78-84 | copying step i's compression into block i alone keeps the earlier steps done and completes step i |
| HashStateArgon2.Argon2Init | libbaghash/hash_state_argon2.c:18-29 | round_count starts at 0 |
| HashStateArgon2.Argon2Fill | libbaghash/hash_state_argon2.c:38-45 | only block 0 is written, with block_size bytes of the stream seeded with in then salt |
| HashStateArgon2.Argon2Step | libbaghash/hash_state_argon2.c:57-79 | with the corrected predecessor PrevIndex (see Findings): the neighbour is the main stream's next rand_int draw below the bound, or block 0 without a draw when the bound is 0 (so rand_int never gets bound 0), and the output is the block-size compression of exactly two blocks, the predecessor and the neighbour; on failure the draw gave up (ErrorDrawLimit) or the neighbour was picked and the compression of those two blocks returned the error (Argon2StepFailed) |
| HashStateArgon2.Argon2Mix | libbaghash/hash_state_argon2.c:47-90 | with the corrected predecessor PrevIndex (see Findings): the blocks are rewritten in index order, each from its predecessor and the neighbour the main stream draws from its old position (Argon2DrewPicks); on failure the pass stopped at step |nbs|, whose draw gave up or whose compression returned the error (Argon2Stopped); blocks not reached are unchanged; round_count rises by exactly 1 after a complete pass and is kept on failure |
| HashStateArgon2.Argon2Pass | libbaghash/hash_state_argon2.c:56-85 | the step loop of pass round_count, with the corrected predecessor: blocks rewritten in index order from the neighbours the main stream draws, the blocks not reached unchanged; a failure stops it at step |nbs|, whose draw gave up or whose two inputs' compression returned the error (Argon2Stopped) |
| HashStateArgon2.Argon2PicksEndExtend | libbaghash/hash_state_argon2.c:67-74 | step i's draw where the earlier steps' draws stopped extends the neighbours drawn so far |
| HashStateArgon2.Argon2PicksDetermined | libbaghash/hash_state_argon2.c:56-75 | the main stream decides a pass's neighbours: two runs of the same length from the same key and position draw the same neighbours and stop at the same position |
| HashStateArgon2.Argon2MixedDetermined | libbaghash/hash_state_argon2.c:56-85 | two buffers with the same first m steps of a pass done, from the same start and neighbours, agree on those m blocks |
| HashStateArgon2.Argon2MixDeterministic | libbaghash/hash_state_argon2.c:47-90 | two complete passes with the same round_count from the same buffer, with the main stream at the same key and position, draw the same neighbours, leave the same buffer and the stream at the same position |
| HashStateArgon2.Argon2FirstBlockFirstPass | libbaghash/hash_state_argon2.c:61-74 | in the first pass block 0 hashes its own old contents as both predecessor and neighbour |
| HashStateArgon2.Argon2FirstPassReadsRewritten | libbaghash/hash_state_argon2.c:61-71 | in the first pass block i > 0 reads block i - 1 and a neighbour below i, both already rewritten |
| HashStateCatena.Rev | libballoon/hash_state_catena.c:51-64 | the reversal of n bits is below 2^n |
| HashStateCatena.RevHighIgnored | libballoon/hash_state_catena.c:56-61 | bits of the input at position n and above play no part in the reversal |
| HashStateCatena.RevLowBitsOnly | libballoon/hash_state_catena.c:56-61 | reversing x gives the same as reversing x mod 2^n |
| HashStateCatena.RevSnoc | libballoon/hash_state_catena.c:56-61 | reversing one more bit moves the earlier result up one place and puts bit n at the bottom |
| HashStateCatena.RevTop | libballoon/hash_state_catena.c:56-61 | the low bit of x becomes the top bit of the n + 1 reversed bits |
| HashStateCatena.RevInvolution | libballoon/hash_state_catena.c:51-64 | reversing n bits twice gives back every value below 2^n |
| HashStateCatena.RevInjective | libballoon/hash_state_catena.c:108 | reversal is one-to-one on [0, 2^n), so distinct dst blocks read distinct src blocks |
| HashStateCatena.NearestPowerOfTwo | libballoon/hash_state_catena.c:37-49 | for 1 <= in < 2^63 the result is p = 2^n_bits with p <= in < 2p, and the doubling variable takes the uint64_t values ShiftedOut; in = 0 gives 0 with n_bits = -1 |
| HashStateCatena.ShiftedOutValue | libballoon/hash_state_catena.c:40-44 | after k passes the uint64_t out is 2^k for k < 64 and 0 from the 64th pass on |
| HashStateCatena.ShiftedOutDoubles | libballoon/hash_state_catena.c:43 | while out is below 2^63 the uint64_t shift only doubles it |
| HashStateCatena.DoublingNeverEnds | libballoon/hash_state_catena.c:42-45 | for 2^63 <= in <= UINT64_MAX every value out takes is at most in, so out <= in never fails and the loop never ends |
| HashStateCatena.ShiftIn | libballoon/hash_state_catena.c:57-60 | shifting the low bit of in into out keeps out * 2^m + reverse(in, m) with one bit fewer to go |
| HashStateCatena.ReverseBits | libballoon/hash_state_catena.c:51-64 | the loop result is the reversal of the low n_bits bits of in (none when n_bits <= 0) |
| HashStateCatena.CatenaInit | libballoon/hash_state_catena.c:66-82 | n_blocks is rounded down to a power of two 2^(n_bits + 1) (at most halving it), n_bits indexes one half, src is the first half and dst the second |
| HashStateCatena.CatenaMixedExtend | libballoon/hash_state_catena.c:111 | writing dst[i]'s compression into dst[i] alone keeps the earlier dst blocks done and completes dst[i] |
| HashStateCatena.CatenaInputsFromBuffer | libballoon/hash_state_catena.c:104-108 | the two blocks read from the buffer mid-pass are dst[i]'s inputs: prev (dst[i - 1], or src's last block for i = 0) and src[reverse_bits(i)] |
| HashStateCatena.ReversedIndex | libballoon/hash_state_catena.c:108 | reverse_bits(i, n_bits) of a block index of a half is a block index of the half |
| HashStateCatena.CatenaGather | libballoon/hash_state_catena.c:104-108 | exactly two blocks, both of the block size: dst[i]'s inputs |
| HashStateCatena.CatenaStep | libballoon/hash_state_catena.c:104-112 | the output is the block-size compression of dst[i]'s two inputs, and a failure is exactly that compression's error |
| HashStateCatena.CatenaMix | libballoon/hash_state_catena.c:92-122 | the dst blocks are rewritten in order, each from its two inputs; on failure the pass stopped at dst block done < blocks_per_buf, whose inputs' compression returned the error; nothing outside the rewritten dst blocks changes (src included); src and dst are swapped after a complete pass and kept on failure |
| HashStateCatena.CatenaWrite | libballoon/hash_state_catena.c:111 | the write of one iteration extends the finished part of the pass by dst[i] |
| HashStateScrypt.Integrify | libballoon/hash_state_scrypt.c:74-80 | the value is a uint64_t; for blocks of 8 bytes or more it is the little-endian reading of the first 8 bytes |
| HashStateScrypt.ChainedDetermined | libballoon/hash_state_scrypt.c:54-62 | two buffers chained from the same block 0 agree on every chained block: fill depends on in and salt only through block 0 |
| HashStateScrypt.ChainedExtend | libballoon/hash_state_scrypt.c:57-61 | writing block i as the compression of block i - 1 and the zero block extends the chain by one |
| HashStateScrypt.ScryptFill | libballoon/hash_state_scrypt.c:41-65 | block 0 is the stream output for in and salt; blocks 1 .. done - 1 each hash their predecessor with a zero block; all n_blocks are done on success; on failure block done < n_blocks was not written because compressing block done - 1 with a zero block returned the error, and the rest are untouched |
| HashStateScrypt.ScryptMix | libballoon/hash_state_scrypt.c:67-72 | mixing always succeeds and changes nothing |
| HashStateScrypt.ScryptRun | libballoon/hash_state_scrypt.c:90-97 | a completed walk yields a block of the block size |
| HashStateScrypt.ScryptRunStep | libballoon/hash_state_scrypt.c:91-96 | one step compresses the accumulator with block integrify(acc) mod n; a failure ends the walk with that error, a success continues from the new accumulator |
| HashStateScrypt.ScryptWalk | libballoon/hash_state_scrypt.c:86-97 | the loop runs the n_blocks-step walk from the last block, returning its block or its first error |
| HashStateScrypt.ScryptExtract | libballoon/hash_state_scrypt.c:82-101 | on a walk error that error is returned; otherwise the output is outlen bytes of the stream seeded with the final accumulator alone |
| HashStateDoublePipe.GroupSize | libballoon/hash_state_double_pipe.c:75 | a group holds 1 to 4 blocks and stays inside the half; a group of fewer than 4 ends exactly at blocks_per_buf |
| HashStateDoublePipe.PipeGroupsPartition | libballoon/hash_state_double_pipe.c:73-83 | every block k of the half lies in exactly one group, the one starting at k - k mod 4 |
| HashStateDoublePipe.Covered | libballoon/hash_state_double_pipe.c:73-83 | the blocks permuted so far form a prefix of the half at least as long as the loop index |
| HashStateDoublePipe.CoveredStep | libballoon/hash_state_double_pipe.c:74-82 | an iteration at a multiple of 4 extends the permuted prefix by that group; any other iteration leaves it alone |
| HashStateDoublePipe.CoveredAll | libballoon/hash_state_double_pipe.c:73-83 | when the loop ends every block of the half has been permuted |
| HashStateDoublePipe.PipeXored | libballoon/hash_state_double_pipe.c:63-67 | XORing in the neighbours keeps the block size, and no neighbours leave the block as it was |
| HashStateDoublePipe.PipeXoredUndo | libballoon/hash_state_double_pipe.c:63-67 | XORing the same neighbours in twice gives the block back |
| HashStateDoublePipe.SimpiraPipe | libballoon/hash_state_double_pipe.c:77-81 | the count blocks starting at start are each replaced by their Simpira permutation; no other block changes |
| HashStateDoublePipe.XorNeighbors | libballoon/hash_state_double_pipe.c:55-67 | dst block i becomes its old contents XOR the src blocks its row picks; no other block changes |
| HashStateDoublePipe.XorPhaseStep | libballoon/hash_state_double_pipe.c:54-68 | one iteration extends the finished dst prefix by block i and leaves the other blocks as they were |
| HashStateDoublePipe.XorPhaseLoop | libballoon/hash_state_double_pipe.c:54-68 | the loop leaves every dst block XORed with its row |
| HashStateDoublePipe.XorPhaseStart | libballoon/hash_state_double_pipe.c:54 | before the loop no dst block has been XORed |
| HashStateDoublePipe.XorPhaseEnd | libballoon/hash_state_double_pipe.c:54-68 | after the loop every dst block holds its XOR with the src half as it stood before, and every other block is unchanged |
| HashStateDoublePipe.PipeXorPhase | libballoon/hash_state_double_pipe.c:54-68 | phase 1: every dst block is XORed with the src blocks of its row; src and everything else stay as they were |
| HashStateDoublePipe.PipeHashPhase | libballoon/hash_state_double_pipe.c:70-83 | phase 2: every dst block is permuted exactly once by Simpira, four at a time; nothing else changes |
| HashStateDoublePipe.DoublePipeMix | libballoon/hash_state_double_pipe.c:43-92 | outside XOR mode it fails with ERROR_DOUBLE_PIPELINE_MUST_USE_XOR and changes nothing; otherwise each dst block ends as Simpira(old block XOR its src neighbours), src is untouched and the halves swap |
| Balloon.ValidateRun | libballoon/balloon.c:51-65 | the options pass exactly when t_cost >= TCOST_MIN, SCOST_MIN <= s_cost < SCOST_MAX and n_threads <= THREADS_MAX; the t_cost, then s_cost (small, then big), then n_threads check decides the error |
| Balloon.ValidateRunRejectsZeroTcost | libballoon/balloon.c:54-55 | a zero t_cost is rejected with ERROR_TCOST_TOO_SMALL, not raised |
| Balloon.Strncpy | libballoon/balloon.c:74 | strncpy over SALT_LEN bytes copies every byte up to the first zero byte and zeroes every byte after it |
| Balloon.StrncpyNoZero | libballoon/balloon.c:74 | a salt with no zero byte is copied unchanged |
| Balloon.SaltWord | libballoon/balloon.c:75 | the little-endian uint32 of the first four bytes plus the worker index wraps to a value below 2^32 |
| Balloon.WorkerSaltAsWritten | libballoon/balloon.c:69-83 | the per-worker salt as the code computes it (strncpy first) has the salt's length |
| Balloon.WorkerSalt | libballoon/balloon.c:69-83 | the intended per-worker salt (the salt copied whole, see Findings): bytes 4 onward kept and the first four holding LE32(salt[0..4]) + worker_idx mod 2^32 |
| Balloon.WorkerSaltFirstWorker | libballoon/balloon.c:72-82 | with the intended per-worker salt, worker 0 hashes under exactly the caller's salt (as written, only for salts without a zero byte: WorkerSaltAsWrittenNoZero) |
| Balloon.WorkerSaltsDistinct | libballoon/balloon.c:134-143 | two different worker indices never get the same salt |
| Balloon.WorkerSaltInjective | libballoon/balloon.c:69-83 | different caller salts give different per-worker salts for the same worker |
| Balloon.WorkerSaltAsWrittenNoZero | libballoon/balloon.c:74 | for a salt without zero bytes the code as written agrees with the intended salt, and worker 0 gets the caller's salt |
| Balloon.WorkerSaltAsWrittenZeroesTail | libballoon/balloon.c:74-82 | as written, every byte past the first four that follows a zero byte of the salt becomes zero |
| Balloon.WorkerSaltAsWrittenDropsLast | libballoon/balloon.c:74 | as written, the salt 1,0,0,0,x gives worker 0 the salt 1,0,0,0,0 whatever x is |
| Balloon.WorkerSaltAsWrittenCollides | libballoon/balloon.c:74 | as written, the salts 1,0,0,0,5 and 1,0,0,0,6 give worker 0 the same salt, which differs from the caller's |
| Balloon.WriteWorkerSalt | libballoon/balloon.c:69-83 | tsalt ends holding the intended per-worker salt, the salt copied whole rather than with strncpy (see Findings) |
| Balloon.BalloonXor | libballoon/balloon.c:43-49 | a ends as its old contents XOR b, byte by byte |
| Balloon.MixTimesSplit | libballoon/balloon.c:100-103 | a + b mix passes are a passes followed by b more, unless one of the first a fails |
| Balloon.MixTimesFails | libballoon/balloon.c:100-103 | a failed run of passes reports a code other than ERROR_NONE |
| Balloon.WorkerSpecWellFormed | libballoon/balloon.c:85-112 | a worker yields a BLOCK_SIZE block or a real error code |
| Balloon.BalloonWorker | libballoon/balloon.c:85-112 | init, fill, t_cost mix passes and extract run in that order; the result is the first failing call's code or the extracted block |
| Balloon.Codes | libballoon/balloon.c:161-162 | one return code per worker |
| Balloon.Values | libballoon/balloon.c:164 | when every worker succeeded, one block per worker, in worker order |
| Balloon.JoinFromCorrect | libballoon/balloon.c:156-165 | the join succeeds exactly when every worker did, and then yields the XOR of all their blocks in index order; otherwise it reports the first failing worker's code, never ERROR_NONE |
| Balloon.Outcomes | libballoon/balloon.c:132-153 | one outcome per thread, worker t hashing under the intended salt WorkerSalt(salt, t) (see Findings) |
| Balloon.OutcomesWellFormed | libballoon/balloon.c:85-112 | every worker outcome is a BLOCK_SIZE block or a real error |
| Balloon.BalloonSpecOutcome | libballoon/balloon.c:114-168 | with the intended worker salts (see Findings): inlen >= INLEN_MAX gives ERROR_INLEN_TOO_BIG first, then the options error; past the checks the run succeeds exactly when every worker does, with the XOR of the workers' blocks as output, and otherwise reports the first failing worker |
| Balloon.BalloonNoThreads | libballoon/balloon.c:156-157 | with zero threads the output is BLOCK_SIZE zero bytes; the source then declares zero-length arrays (balloon.c:132-133), which C leaves undefined, and the model runs its loops zero times |
| Balloon.BalloonInternal | libballoon/balloon.c:114-168 | with the intended worker salts (see Findings): a null pointer gives ERROR_NULL_POINTER; otherwise the code and output are the run's; the output is untouched when a check fails, and when a worker fails it holds the XOR of the blocks of the workers before it |
| Balloon.SpawnWorkers | libballoon/balloon.c:134-153 | worker t runs under the intended salt WorkerSalt(salt, t) (see Findings); the outcomes are the workers' in index order |
| Balloon.JoinWorkers | libballoon/balloon.c:156-165 | out is zeroed, then the first failing worker's code is returned or every worker's block is XORed into out; either way out ends as the XOR of the blocks of the workers before the first failure, in index order |
| Balloon.OkPrefix | libballoon/balloon.c:157-165 | the workers the join loop XORs in: every worker before the count succeeded, and the worker at the count, if any, failed |
| Balloon.JoinSnoc | libballoon/balloon.c:164 | XORing the next successful worker's block into out extends the fold of the earlier workers' blocks by that block |
| BagHashApi.MixIgnoringSplit | libbaghash/baghash.c:46-48 | a + b mix passes are a passes followed by b more |
| BagHashApi.RaisedT | libbaghash/baghash.c:29-30 | the raised t_cost is at least TCOST_MIN and unchanged when already at least that |
| BagHashApi.RaisedM | libbaghash/baghash.c:31-32 | the raised m_cost is at least MCOST_MIN and unchanged when already at least that |
| BagHashApi.BagHashOutcome | libbaghash/baghash.c:14-56 | a length error from validate_parameters is returned first; a call that passes the checks fails only on m_cost >= MCOST_MAX (after raising), in init or in fill; a successful call yields outlen bytes |
| BagHashApi.BagHashRaisesCosts | libbaghash/baghash.c:29-32 | costs below their minimums give exactly the result of the minimums |
| BagHashApi.BagHashMixesThenExtracts | libbaghash/baghash.c:45-51 | t_cost + 1 passes are extract applied to one more mix pass after t_cost passes: the passes run between fill and extract, and their codes are ignored |
| BagHashApi.BagHash | libbaghash/baghash.c:14-56 | a null out, in or salt gives ERROR_NULL_POINTER; otherwise the code and output are BagHashSpec's; out is only written on success |

## Left out

- Threads. The `pthread_create`/`pthread_join` calls of `libballoon/balloon.c:132-165` and `libbaghash/hash_state_double_par.c:170-220` become sequential loops in worker-index order. `ERROR_PTHREAD` is never returned.
- Cryptography. SHA-256, AES-CTR, Keccak, BLAKE2b, Argon2 G, SHA-512, ECHO and Simpira are uninterpreted function values. Their failure codes (`ERROR_OPENSSL_*`, the Keccak, ECHO and BLAKE2b returns) are not modelled: every primitive call succeeds. The exception is the return value of OpenSSL's `AES_set_encrypt_key`. It is modelled by its documented values (BagBitstream.AesSetEncryptKey), because libbaghash tests it the wrong way round.
- Memory. `*_free`, `printf` and the other output calls are left out. malloc never fails.
- HashStateEngine.Init: never returns `ERROR_MALLOC` (`libballoon/hash_state.c:114`), because allocation cannot fail in the model.
- BagBitstream.BagBitstream.RandInt: the source's do-while loop is unbounded, and it never ends for `max = 0`. The model gives up after `ATTEMPT_LIMIT` (2^32) attempts with the model-only code `ErrorDrawLimit`. The draw is still fixed by the keystream: `BagBitstream.ZeroBoundNeverAccepts` shows a zero bound never succeeds.
- BagBitstream.BagBitstream.RandInt: `(1 << bits)` and `(1 << (8*k))` are `int` shifts in the source. They are modelled as 2^bits and 256^k, which is what they mean for the widths that occur. Shifts of 32 or more, which are undefined in C, are not reproduced.
- BagBitstream.BagBitstream.RandByte: the `generated` / `genp` buffer management of `libbaghash/bitstream.c:61-77, 102-107` is not modelled. `generated` is never allocated and `genp` is never reset. `rand_byte` is modelled as "the next keystream byte".
- BagBitstream.BagBitstream.RandInts: `bitstream_rand_ints` and `bitstream_rand_ints_nodup` are only declared in `libbaghash/bitstream.h`. The model draws with `rand_int` and redraws duplicates. Its contract states only what the header promises: k values below max, distinct when asked, and `ERROR_BITSTREAM_MAX_TOO_SMALL` when max < k. The body is not part of this model.
- Per-row neighbour counts. In the double-par strategy they come from the matrix generator (`matgen/`, a floating-point binomial draw from Boost). They are an input sequence `weights` of `HashStateDoublePar`.
- HashStateDoublePipe.DoublePipeMix: the rows that `bitstream_rand_ints_nodup` returns are a parameter, so the sampler's error return (`libballoon/hash_state_double_pipe.c:58-60`) is not modelled. The rows are duplicate-free and below `blocks_per_buf`, as the sampler promises.
- HashStateArgon2.Argon2Step: reads the corrected predecessor PrevIndex. As written (`libbaghash/hash_state_argon2.c:61`), block 0 of a later pass reads block (2^64 - 1) mod n_blocks; the two agree only when n_blocks is a power of two (first Findings row).
- HashStateArgon2.Argon2Mix: runs Argon2Step, so it uses the corrected predecessor too. The same holds for HashStateArgon2.Argon2Pass.
- HashStateDoublePar.ParInit: seeds each worker with the corrected overwriting fill. As written, `bitstream_fill_buffer` XORs 32 keystream bytes into an uninitialised stack array (`libbaghash/hash_state_double_par.c:61-62`), so the seed is not determined (fourth Findings row).
- HashStateDoublePar.NewWorkerStream: the same corrected overwriting fill as ParInit.
- HashStateDoublePar.FillWorker: fills up to the corrected end WorkerEnd with the overwriting fill. As written, the last worker stops at blocks_per_buf - 1 and the keystream is XORed into the buffer (second and fourth Findings rows).
- HashStateDoublePar.ParFill: runs FillWorker, so block blocks_per_buf - 1 of src is filled; as written it is never written by fill.
- HashStateDoublePar.Done: speaks of the corrected ranges; as written the workers together stop at blocks_per_buf - 1.
- HashStateDoublePar.RunWorker: runs the last worker to blocks_per_buf, the corrected end; as written it stops at blocks_per_buf - 1.
- HashStateDoublePar.ParRunThreads: runs the workers on the corrected ranges, so the last dst block is mixed; as written it is never written.
- HashStateDoublePar.RunWorkers: the ranges are the corrected ones.
- HashStateDoublePar.RunComplete: the whole dst half is accounted for only with the corrected ranges.
- HashStateDoublePar.ParMix: ensures that the last dst block holds a compression, which holds only with the corrected ranges.
- HashStateEngine.Fill: its double-par case is ParFill, with the corrected ranges and fill.
- Balloon.WorkerSalt: copies the whole salt. `libballoon/balloon.c:74` copies it with `strncpy`, which zeroes every byte after the first zero byte; WorkerSaltAsWritten models that (third Findings row).
- Balloon.WorkerSaltFirstWorker: holds for the intended salt; as written, only for salts without a zero byte.
- Balloon.WriteWorkerSalt: writes the intended salt, not the `strncpy` salt.
- Balloon.Outcomes: the workers hash under the intended salts.
- Balloon.SpawnWorkers: worker t runs under the intended salt WorkerSalt(salt, t).
- Balloon.BalloonSpecOutcome: describes the run under the intended salts; for the salt 1,0,0,0,5 the code hashes worker 0 under 1,0,0,0,0.
- Balloon.BalloonInternal: hashes under the intended worker salts.
- BagBitstream.BagBitstream.SeedFinalize: takes a zero return of AES_set_encrypt_key as success. As written, `libbaghash/bitstream.c:44` takes it as failure, so every finalize returns `ERROR_OPENSSL_AES` (SeedFinalizeAsWritten, fifth Findings row). OpenSSL's return is modelled by its documented values (AesSetEncryptKey).
- BagBitstream.BagBitstream.InitWithSeed: succeeds and initializes the stream. `bitstream_init_with_seed` is declared in `libbaghash/bitstream.h:30` without a body, so its success is assumed.
- HashStateDoublePar.WorkerBytes: seeds each fill stream with the corrected finalize. As written, that finalize fails and the stream never initializes.
- HashStateDoublePar.FillWorker: also runs the corrected finalize. As written, `run_threads` returns `ERROR_OPENSSL_AES` at worker 0 before any fill worker runs (ParFillAsWritten).
- HashStateDoublePar.ParFill: also ensures `ERROR_NONE` with every src block filled. As written, the double-par fill returns `ERROR_OPENSSL_AES` whenever there is a worker, and writes nothing (ParFillAsWritten).
- HashStateEngine.Fill: its double-par case also uses the corrected finalize, so it never fails. As written, that case always returns `ERROR_OPENSSL_AES` when there is a worker.
- Bitstream.Bitstream.SeedFinalize: the key of a second finalize is left open. The source runs `SHA256_Final` again on a context that the first call already finished (`libballoon/bitstream.c:76`), and the model does not know that digest. No operation of the model finalizes a stream twice.
- HashStateEngine.Extract: not defined for the double-par mix. `libballoon/hash_state.c:71` installs `hash_state_double_par_extract`, but `libbaghash/hash_state_double_par.c` does not define it, so that extract is not part of this model.
- Constants missing from the headers: `SCOST_MIN`, `SCOST_MAX`, `SALT_LEN`, `BLOCK_SIZE`, and libbaghash's `MCOST_MIN`, `MCOST_MAX`, `TCOST_MIN` and `BLOCKS_MIN`. They are uninterpreted constants. `SALT_LEN` is assumed to be at least 4, since `worker_salt` reads four bytes of the salt.
- BalloonOptions.NBlocks: `options_n_blocks` requires a valid primitive. `compress_block_size` is 0 for `COMP__END`, and dividing by it is undefined. The same holds for BagOptions.NBlocks.
- `libbaghash/hash_state.c` is a stub, superseded by `libballoon/hash_state.c`. It is not part of this model.
- Not part of this model:
  - `libballoon/parse.c` (base64 and tokenising);
  - `libballoon/api.c` (reads `/dev/urandom`);
  - the command-line programs, benchmarks and timing code;
  - the statistical tests (distinct outputs for distinct seeds, avalanche counts).

## Findings

| source | as written | input that shows it | evidently intended | confidence | as-written member | corrected member |
|---|---|---|---|---|---|---|
| libbaghash/hash_state_argon2.c:61 | for block 0 after the first pass, prev is `(size_t)(i - 1) % n_blocks`, that is (2^64 - 1) mod n_blocks | n_blocks = 34, round 1, block 0: prev is block 17 | prev is the last block, n_blocks - 1; the two agree only when n_blocks is a power of two | not executed | HashStateArgon2.PrevIndexAsWrittenDiffers | HashStateArgon2.PrevIndexAgreesOnPowersOfTwo |
| libbaghash/hash_state_double_par.c:126 | the last worker's range ends at blocks_per_buf - 1 | 8 blocks per half, 2 workers: worker 1 covers blocks 4 to 6, and block 7 is never filled or mixed | the last worker ends at blocks_per_buf, so the ranges tile the half | not executed | HashStateDoublePar.WorkerRangesAsWrittenMissLast | HashStateDoublePar.WorkerRangesPartition |
| libballoon/balloon.c:74 | `strncpy` copies the salt into tsalt, so every salt byte after the first zero byte becomes 0 | salts 1,0,0,0,5 and 1,0,0,0,6 give worker 0 the same salt 1,0,0,0,0 | the salt is copied whole (`memcpy`), so different salts give different worker salts | not executed | Balloon.WorkerSaltAsWrittenCollides | Balloon.WorkerSaltInjective |
| libbaghash/bitstream.c:56-57 | `fill_buffer` XORs the keystream into the caller's bytes. `libbaghash/bitstream.h:36-40` says the buffer is zeroed first; the seeds at `libbaghash/hash_state_double_par.c:61-62` are uninitialised stack memory | a one-byte buffer holding 1 gets 1 XOR k instead of the keystream byte k | the buffer is overwritten with the keystream | not executed | BagBitstream.XorFillNeedsZeroedBuffer | BagBitstream.BagBitstream.FillBuffer |
| libbaghash/bitstream.c:44 | `if (!AES_set_encrypt_key(...))` treats OpenSSL's success return 0 as a failure, so `seed_finalize` returns ERROR_OPENSSL_AES and leaves the stream uninitialised | any seed with the 256-bit AES_CTR_KEY_LEN; in the double-par fill, `run_threads` returns ERROR_OPENSSL_AES at worker 0 before any block is written | the test is `AES_set_encrypt_key(...) != 0`, as `bagtest/bitstream_test.c:103` expects | not executed | HashStateDoublePar.ParFillAsWritten | BagBitstream.BagBitstream.SeedFinalize |
