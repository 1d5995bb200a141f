/*
 * The hash state of libballoon/hash_state.c: a buffer of n_blocks blocks of
 * block_size bytes, the main random stream, the has_mixed gate and the
 * strategy's extra data.
 *
 * The buffer is an array of blocks rather than one flat byte array:
 * block_index(i), the byte offset block_size * i, becomes the array index i.
 * The strategy files each become a module of methods over a HashState; the
 * dispatch of hash_state.c lives in HashStateEngine.
 */
module HashStates {
  import opened Bytes
  import opened Errors
  import opened Primitives
  import opened Compress
  import opened BalloonOptions
  import opened XorBlocks
  import BagBitstream
  import Bitstream

  /** The void *extra_data of each strategy. */
  datatype ExtraData =
    | NoExtra
      /** struct double_data: block indices of the two halves. */
    | Halves(src: nat, dst: nat)
      /** struct double_par_data: the halves and one stream per worker. */
    | ParData(src: nat, dst: nat, streams: seq<BagBitstream.BagBitstream>)
      /** struct argon2_data */
    | Argon2Data(roundCount: nat)
      /** struct catena_data */
    | CatenaData(src: nat, dst: nat, nBits: int)

  /** n_blocks after hash_state_init: options_n_blocks, made even. */
  function EvenBlocks(opts: Options): (n: nat)
    requires opts.compOpts.comp != CompEnd
    ensures n % 2 == 0 && NBlocks(opts) <= n <= NBlocks(opts) + 1 && n >= BLOCKS_MIN
  {
    if NBlocks(opts) % 2 != 0 then NBlocks(opts) + 1 else NBlocks(opts)
  }

  /** Block k of what a stream seeded with seed writes from its start into consecutive bs-byte blocks. */
  function StreamBlocks(ks: Keystream, seed: seq<byte>, bs: nat, n: nat): (r: seq<Block>)
    ensures |r| == n
    ensures forall k :: 0 <= k < n ==> r[k] == KeystreamBytes(ks, seed, Span(k, bs), bs)
  {
    seq(n, k requires 0 <= k < n => KeystreamBytes(ks, seed, Span(k, bs), bs))
  }

  /** Cutting n * bs keystream bytes into blocks gives the blocks of StreamBlocks. */
  lemma SlicedKeystream(ks: Keystream, seed: seq<byte>, bs: nat, n: nat)
    ensures Slices(KeystreamBytes(ks, seed, 0, Span(n, bs)), bs, n) == StreamBlocks(ks, seed, bs, n)
  {
    var bytes := KeystreamBytes(ks, seed, 0, Span(n, bs));
    forall k | 0 <= k < n
      ensures Slices(bytes, bs, n)[k] == StreamBlocks(ks, seed, bs, n)[k]
    {
      SliceAt(bytes, bs, n, k);
      assert bytes[Span(k, bs)..Span(k, bs) + bs] == KeystreamBytes(ks, seed, Span(k, bs), bs);
    }
  }

  /**
   * fill_bytes_from_strings: a fresh libballoon stream seeded with in and then
   * salt yields len bytes.  None of its steps can fail here.
   */
  method FillBytesFromStrings(ks: Keystream, input: seq<byte>, salt: seq<byte>, len: nat)
    returns (err: ErrorCode, bytes: seq<byte>)
    ensures err == ErrorNone && bytes == KeystreamBytes(ks, input + salt, 0, len)
  {
    var bits := new Bitstream.Bitstream(ks);
    err := bits.SeedAdd(input);
    assert bits.seed == input;
    err := bits.SeedAdd(salt);
    err := bits.SeedFinalize();
    assert bits.key == input + salt && bits.pos == 0;
    var out := new byte[len];
    err := bits.FillBuffer(out, len);
    bytes := out[..];
    assert bytes == out[..len];
  }

  /** Block x as step i of an in-place pass sees it: rewritten below i, old from i on. */
  function Current(before: seq<Block>, after: seq<Block>, n: nat, i: nat, x: nat): Block
    requires n <= |before| && n <= |after| && x < n
  {
    if x < i then after[x] else before[x]
  }

  /** Every pick of a row is a block index below n. */
  ghost predicate RowBelow(row: seq<nat>, n: nat) {
    forall j :: 0 <= j < |row| ==> row[j] < n
  }

  /** The blocks a row of picks points at, in the row's order. */
  function Gather(blocks: seq<Block>, row: seq<nat>): (r: seq<Block>)
    requires forall j :: 0 <= j < |row| ==> row[j] < |blocks|
    ensures |r| == |row| && forall j :: 0 <= j < |row| ==> r[j] == blocks[row[j]]
  {
    seq(|row|, j requires 0 <= j < |row| => blocks[row[j]])
  }

  /** The outcome of drawing a whole row of neighbours: the row and the stream position after it, or a failed draw. */
  datatype RowDraw = RowDrawn(row: seq<nat>, next: nat) | RowFailed(next: nat)

  /** A row drawn after the picks in front: the front picks are put ahead of it. */
  function Extend(front: seq<nat>, d: RowDraw): RowDraw {
    match d
    case RowDrawn(row, next) => RowDrawn(front + row, next)
    case RowFailed(next) => RowFailed(next)
  }

  /**
   * k successive rand_int(max) calls from keystream position pos: each draw
   * starts where the previous one stopped, and the first draw that gives up
   * ends the row.
   */
  function DrawRow(ks: Keystream, key: seq<byte>, pos: nat, max: nat, k: nat): RowDraw
    decreases k
  {
    if k == 0 then RowDrawn([], pos)
    else
      match BagBitstream.DrawBelow(ks, key, pos, max, BagBitstream.ATTEMPT_LIMIT)
      case GaveUp(next) => RowFailed(next)
      case Drawn(v, next) => Extend([v], DrawRow(ks, key, next, max, k - 1))
  }

  /** What a caller sees of a row draw: the error code, the row and the stream position. */
  ghost predicate RowOutcome(d: RowDraw, err: ErrorCode, row: seq<nat>, pos: nat) {
    match d
    case RowDrawn(r, next) => err == ErrorNone && row == r && pos == next
    case RowFailed(next) => err == ErrorDrawLimit && pos == next
  }

  /**
   * Where a step or a pass that stopped with an error leaves the stream: d
   * is the draw of the row it stopped at, which either failed or was drawn
   * whole before the compression failed.
   */
  ghost predicate StoppedAt(d: RowDraw, err: ErrorCode, pos: nat) {
    err != ErrorNone && pos == d.next && (d.RowFailed? ==> err == ErrorDrawLimit)
  }

  /** A drawn row has k picks, each below max. */
  lemma {:induction false} DrawnRowBelow(ks: Keystream, key: seq<byte>, pos: nat, max: nat, k: nat)
    requires DrawRow(ks, key, pos, max, k).RowDrawn?
    ensures |DrawRow(ks, key, pos, max, k).row| == k && RowBelow(DrawRow(ks, key, pos, max, k).row, max)
    decreases k
  {
    if k > 0 {
      var d := BagBitstream.DrawBelow(ks, key, pos, max, BagBitstream.ATTEMPT_LIMIT);
      BagBitstream.DrawnBelowMax(ks, key, pos, max, BagBitstream.BytesNeeded(max), BagBitstream.BitLength(max),
                                 BagBitstream.ATTEMPT_LIMIT);
      DrawnRowBelow(ks, key, d.next, max, k - 1);
    }
  }

  /**
   * The stream position after the rows of picks were drawn one after the
   * other from pos, k picks below max each; None if some row is not what
   * the stream gives there.
   */
  function PicksEnd(ks: Keystream, key: seq<byte>, pos: nat, max: nat, k: nat, picks: seq<seq<nat>>): Option<nat>
    decreases |picks|
  {
    if |picks| == 0 then Some(pos)
    else
      match PicksEnd(ks, key, pos, max, k, picks[..|picks| - 1])
      case None => None
      case Some(p) =>
        match DrawRow(ks, key, p, max, k)
        case RowDrawn(row, next) => if row == picks[|picks| - 1] then Some(next) else None
        case RowFailed(_) => None
  }

  /** The rows of picks were drawn one after the other from pos and the stream now stands at end. */
  ghost predicate DrewPicks(ks: Keystream, key: seq<byte>, pos: nat, max: nat, k: nat, picks: seq<seq<nat>>, end: nat) {
    PicksEnd(ks, key, pos, max, k, picks) == Some(end)
  }

  /**
   * A pass that drew the rows of picks from pos and then stopped with err
   * at the next row, leaving the stream at end.
   */
  ghost predicate StoppedAfter(ks: Keystream, key: seq<byte>, pos: nat, max: nat, k: nat, picks: seq<seq<nat>>,
                               err: ErrorCode, end: nat) {
    && PicksEnd(ks, key, pos, max, k, picks).Some?
    && StoppedAt(NextRow(ks, key, pos, max, k, picks), err, end)
  }

  /** The draw of the row that follows the rows of picks drawn from pos. */
  function NextRow(ks: Keystream, key: seq<byte>, pos: nat, max: nat, k: nat, picks: seq<seq<nat>>): RowDraw
    requires PicksEnd(ks, key, pos, max, k, picks).Some?
  {
    DrawRow(ks, key, PicksEnd(ks, key, pos, max, k, picks).value, max, k)
  }

  /** The next row drawn where the picks end extends them. */
  lemma PicksEndExtend(ks: Keystream, key: seq<byte>, pos: nat, max: nat, k: nat, picks: seq<seq<nat>>,
                       p: nat, row: seq<nat>, next: nat)
    requires DrewPicks(ks, key, pos, max, k, picks, p)
    requires DrawRow(ks, key, p, max, k) == RowDrawn(row, next)
    ensures DrewPicks(ks, key, pos, max, k, picks + [row], next)
  {
    assert (picks + [row])[..|picks|] == picks;
  }

  /** The stream decides the picks: two sequences of rows drawn from the same position with the same length agree. */
  lemma {:induction false} PicksDetermined(ks: Keystream, key: seq<byte>, pos: nat, max: nat, k: nat,
                                           picks: seq<seq<nat>>, picks': seq<seq<nat>>)
    requires PicksEnd(ks, key, pos, max, k, picks).Some? && PicksEnd(ks, key, pos, max, k, picks').Some?
    requires |picks| == |picks'|
    ensures picks == picks'
    ensures PicksEnd(ks, key, pos, max, k, picks) == PicksEnd(ks, key, pos, max, k, picks')
    decreases |picks|
  {
    if |picks| > 0 {
      var n := |picks| - 1;
      PicksDetermined(ks, key, pos, max, k, picks[..n], picks'[..n]);
      assert picks == picks[..n] + [picks[n]] && picks' == picks'[..n] + [picks'[n]];
    }
  }

  /**
   * One more rand_int of a row: if it draws v, the row so far plus v is
   * followed by the rest of the row from where it stopped; if it gives up,
   * the whole row fails there.
   */
  lemma DrawRowStep(ks: Keystream, key: seq<byte>, pos: nat, max: nat, m: nat, row: seq<nat>,
                    err: ErrorCode, v: nat, next: nat)
    requires m > 0 && BagBitstream.Outcome(BagBitstream.DrawBelow(ks, key, pos, max, BagBitstream.ATTEMPT_LIMIT), err, v, next)
    ensures err == ErrorNone ==>
      Extend(row, DrawRow(ks, key, pos, max, m)) == Extend(row + [v], DrawRow(ks, key, next, max, m - 1))
    ensures err != ErrorNone ==> err == ErrorDrawLimit && Extend(row, DrawRow(ks, key, pos, max, m)) == RowFailed(next)
  {
    if err == ErrorNone {
      ExtendTwice(row, v, DrawRow(ks, key, next, max, m - 1));
    }
  }

  /**
   * The loop of DrawNeighbors after one more rand_int from pos: the whole
   * row from start is the picks so far, v, and the rest drawn from next; or
   * it failed at next.
   */
  lemma RowSoFarStep(ks: Keystream, key: seq<byte>, start: nat, pos: nat, max: nat, k: nat, row: seq<nat>,
                     err: ErrorCode, v: nat, next: nat)
    requires |row| < k
    requires DrawRow(ks, key, start, max, k) == Extend(row, DrawRow(ks, key, pos, max, k - |row|))
    requires BagBitstream.Outcome(BagBitstream.DrawBelow(ks, key, pos, max, BagBitstream.ATTEMPT_LIMIT), err, v, next)
    requires RowBelow(row, max) && (err == ErrorNone ==> v < max)
    ensures err == ErrorNone ==> RowBelow(row + [v], max) && |row + [v]| <= k
    ensures err == ErrorNone ==>
      DrawRow(ks, key, start, max, k) == Extend(row + [v], DrawRow(ks, key, next, max, k - |row + [v]|))
    ensures err != ErrorNone ==> RowOutcome(DrawRow(ks, key, start, max, k), err, row, next)
  {
    DrawRowStep(ks, key, pos, max, k - |row|, row, err, v, next);
    assert k - |row + [v]| == k - |row| - 1;
  }

  /** The loop of DrawNeighbors ends with the whole row drawn. */
  lemma RowSoFarDone(ks: Keystream, key: seq<byte>, start: nat, pos: nat, max: nat, k: nat, row: seq<nat>)
    requires |row| == k
    requires DrawRow(ks, key, start, max, k) == Extend(row, DrawRow(ks, key, pos, max, k - |row|))
    ensures RowOutcome(DrawRow(ks, key, start, max, k), ErrorNone, row, pos)
  {
    assert row + [] == row;
  }

  /** Extending by a row and then by one more pick is extending by both. */
  lemma ExtendTwice(row: seq<nat>, v: nat, d: RowDraw)
    ensures Extend(row, Extend([v], d)) == Extend(row + [v], d)
  {
    if d.RowDrawn? {
      assert row + ([v] + d.row) == (row + [v]) + d.row;
    }
  }

  /**
   * The neighbour loop of the mix functions: rand_int called k times with
   * bound max; the first error stops the loop and is returned.
   */
  method DrawNeighbors(st: BagBitstream.BagBitstream, k: nat, max: nat) returns (err: ErrorCode, row: seq<nat>)
    requires st.initialized && max <= BagBitstream.SIZE_MAX
    modifies st`pos
    ensures RowOutcome(DrawRow(st.ks, st.key, old(st.pos), max, k), err, row, st.pos)
    ensures err == ErrorNone ==> |row| == k
    ensures RowBelow(row, max)
  {
    ghost var ks, key, start := st.ks, st.key, st.pos;
    row := [];
    while |row| < k
      invariant st.initialized && st.ks == ks && st.key == key
      invariant RowBelow(row, max) && |row| <= k
      invariant DrawRow(ks, key, start, max, k) == Extend(row, DrawRow(ks, key, st.pos, max, k - |row|))
      decreases k - |row|
    {
      ghost var p := st.pos;
      var v;
      err, v := st.RandInt(max);
      RowSoFarStep(ks, key, start, p, max, k, row, err, v, st.pos);
      if err != ErrorNone {
        return;
      }
      row := row + [v];
    }
    RowSoFarDone(ks, key, start, st.pos, max, k, row);
    err := ErrorNone;
  }

  /** Every block of a valid state has the state's block size. */
  lemma BlocksOfLength(s: HashState)
    requires s.Valid()
    ensures AllOfLength(s.buffer[..], s.blockSize)
  {
  }

  class HashState {
    const p: Primitives
    const ks: Keystream
    const opts: Options
    var nBlocks: nat
    const blockSize: nat
    var hasMixed: bool
    const buffer: array<Block>
    var bstream: BagBitstream.BagBitstream
    var extra: ExtraData

    /** What every strategy relies on once hash_state_init has succeeded. */
    ghost predicate Valid()
      reads this`nBlocks, this`bstream, buffer, bstream`initialized
    {
      && opts.compOpts.comp != CompEnd
      && blockSize == BlockSize(opts.compOpts.comp)
      && 2 <= nBlocks <= buffer.Length && nBlocks % 2 == 0
      && (forall i :: 0 <= i < buffer.Length ==> |buffer[i]| == blockSize)
      && bstream.ks == ks && bstream.initialized
    }

    /**
     * The field assignments of hash_state_init: n_blocks forced even,
     * has_mixed cleared, the block size of the primitive and a buffer of
     * n_blocks blocks (malloc's contents are unspecified; zero here).  The
     * main stream is seeded afterwards, by SeedMainStream.
     */
    constructor (p: Primitives, ks: Keystream, opts: Options)
      requires opts.compOpts.comp != CompEnd
      ensures this.p == p && this.ks == ks && this.opts == opts
      ensures nBlocks == EvenBlocks(opts) && !hasMixed && extra == NoExtra
      ensures blockSize == BlockSize(opts.compOpts.comp)
      ensures fresh(buffer) && buffer.Length == nBlocks
      ensures forall i :: 0 <= i < buffer.Length ==> buffer[i] == Zero(blockSize)
      ensures fresh(bstream) && bstream.ks == ks && !bstream.initialized
    {
      this.p := p;
      this.ks := ks;
      this.opts := opts;
      var n := NBlocks(opts);
      if n % 2 != 0 {
        n := n + 1;
      }
      nBlocks := n;
      hasMixed := false;
      var bs := BlockSize(opts.compOpts.comp);
      blockSize := bs;
      buffer := new Block[n](_ => Zero(bs));
      bstream := new BagBitstream.BagBitstream(ks);
      extra := NoExtra;
    }

    /** bitstream_init_with_seed on the main stream: seeded with the salt alone. */
    method SeedMainStream(salt: seq<byte>)
      modifies this`bstream
      ensures fresh(bstream) && bstream.ks == ks && bstream.initialized
      ensures bstream.key == salt && bstream.pos == 0
    {
      bstream := new BagBitstream.BagBitstream.InitWithSeed(ks, salt);
    }

    /** block_index: the byte offset of block i in the flat buffer of the source. */
    function BlockIndex(i: nat): (offset: nat)
      reads this
    {
      blockSize * i
    }

    /** block_last: the index of the last block. */
    function BlockLast(): (i: nat)
      requires nBlocks >= 1
      reads this
      ensures i < nBlocks && i + 1 == nBlocks
    {
      nBlocks - 1
    }

    /** The blocks as a sequence. */
    ghost function Blocks(): seq<Block>
      reads this, buffer
    {
      buffer[..]
    }

    /** Copy one block of the right size into block k; the state stays valid. */
    method WriteBlock(k: nat, b: Block)
      requires Valid() && k < buffer.Length && |b| == blockSize
      modifies buffer
      ensures Valid() && buffer[..] == old(buffer[..])[k := b]
    {
      buffer[k] := b;
    }

    /**
     * Write count blocks cut from bytes into buffer[from..from + count]; the
     * memcpy / stream write into a block_index pointer.
     */
    method WriteBlocks(from: nat, bytes: seq<byte>, count: nat)
      requires from + count <= buffer.Length && Span(count, blockSize) <= |bytes|
      modifies buffer
      ensures forall k :: from <= k < from + count ==> buffer[k] == Slices(bytes, blockSize, count)[k - from]
      ensures forall k :: 0 <= k < buffer.Length && !(from <= k < from + count) ==> buffer[k] == old(buffer[k])
    {
      var blocks := Slices(bytes, blockSize, count);
      var j := 0;
      while j < count
        invariant j <= count
        invariant forall k :: from <= k < from + j ==> buffer[k] == blocks[k - from]
        invariant forall k :: 0 <= k < buffer.Length && !(from <= k < from + j) ==> buffer[k] == old(buffer[k])
      {
        buffer[from + j] := blocks[j];
        j := j + 1;
      }
    }

    /**
     * fill_bytes_from_strings into blocks from..from + count: they become the
     * consecutive blocks of the stream seeded with in and then salt.
     */
    method FillFromStrings(from: nat, count: nat, input: seq<byte>, salt: seq<byte>) returns (err: ErrorCode)
      requires Valid() && from + count <= buffer.Length
      modifies buffer
      ensures Valid() && err == ErrorNone
      ensures forall k :: from <= k < from + count ==>
        buffer[k] == KeystreamBytes(ks, input + salt, Span(k - from, blockSize), blockSize)
      ensures forall k :: 0 <= k < buffer.Length && !(from <= k < from + count) ==> buffer[k] == old(buffer[k])
    {
      var bytes;
      err, bytes := FillBytesFromStrings(ks, input, salt, Span(count, blockSize));
      WriteStream(from, count, input + salt, bytes);
    }

    /**
     * Write count blocks of the keystream of seed, read from its start,
     * into blocks from..from + count: block from + j gets the j-th block_size
     * bytes.
     */
    method WriteStream(from: nat, count: nat, ghost seed: seq<byte>, bytes: seq<byte>)
      requires Valid() && from + count <= buffer.Length && bytes == KeystreamBytes(ks, seed, 0, Span(count, blockSize))
      modifies buffer
      ensures Valid()
      ensures forall k :: from <= k < from + count ==>
        buffer[k] == KeystreamBytes(ks, seed, Span(k - from, blockSize), blockSize)
      ensures forall k :: 0 <= k < buffer.Length && !(from <= k < from + count) ==> buffer[k] == old(buffer[k])
    {
      WriteBlocks(from, bytes, count);
      SlicedKeystream(ks, seed, blockSize, count);
      ghost var blocks := StreamBlocks(ks, seed, blockSize, count);
      forall k | from <= k < from + count
        ensures buffer[k] == KeystreamBytes(ks, seed, Span(k - from, blockSize), blockSize)
      {
        assert buffer[k] == blocks[k - from];
      }
    }
  }

  /** Blocks i and j of a flat buffer do not overlap when i != j, and block i < n lies inside n blocks. */
  lemma BlockIndexDisjoint(bs: nat, n: nat, i: nat, j: nat)
    requires i < n && j < n && i != j
    ensures bs * i + bs <= bs * n
    ensures bs * i + bs <= bs * j || bs * j + bs <= bs * i
  {
    MulMonotone(i + 1, n, bs);
    MulStep(i, bs);
    MulStep(j, bs);
    if i < j {
      MulMonotone(i + 1, j, bs);
    } else {
      MulMonotone(j + 1, i, bs);
    }
  }
}
