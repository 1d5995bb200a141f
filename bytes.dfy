/*
 * Bytes, blocks and the arithmetic that the codecs and samplers share.
 *
 * A block is a byte sequence; the hash state keeps every block at the
 * compression primitive's block size.
 */
module Bytes {

  type byte = bv8
  type Block = seq<byte>

  const UINT32_MAX: nat := 0xFFFF_FFFF
  const UINT64_MAX: nat := 0xFFFF_FFFF_FFFF_FFFF

  function Pow2(n: nat): (r: nat)
    ensures r >= 1
  {
    if n == 0 then 1 else 2 * Pow2(n - 1)
  }

  function Pow256(n: nat): (r: nat)
    ensures r >= 1
  {
    if n == 0 then 1 else 256 * Pow256(n - 1)
  }

  lemma {:induction false} Pow2Add(a: nat, b: nat)
    ensures Pow2(a + b) == Pow2(a) * Pow2(b)
  {
    if a > 0 {
      Pow2Add(a - 1, b);
    }
  }

  lemma {:induction false} Pow2Monotone(a: nat, b: nat)
    requires a <= b
    ensures Pow2(a) <= Pow2(b)
  {
    if a < b {
      Pow2Monotone(a, b - 1);
    }
  }

  lemma MulMonotone(a: nat, b: nat, d: nat)
    requires a <= b
    ensures a * d <= b * d && d * a <= d * b
  {
  }

  lemma MulStep(a: nat, d: nat)
    ensures (a + 1) * d == a * d + d && d * (a + 1) == d * a + d
  {
  }

  /**
   * n consecutive pieces of size bytes each, n * size, counted one piece at
   * a time: piece k starts at Span(k, size) and the next one at
   * Span(k, size) + size, by definition.
   */
  function Span(n: nat, size: nat): (r: nat)
  {
    if n == 0 then 0 else Span(n - 1, size) + size
  }

  lemma {:induction false} SpanIsProduct(n: nat, size: nat)
    ensures Span(n, size) == n * size
  {
    if n > 0 {
      SpanIsProduct(n - 1, size);
      MulStep(n - 1, size);
    }
  }

  lemma {:induction false} SpanMonotone(a: nat, b: nat, size: nat)
    requires a <= b
    ensures Span(a, size) <= Span(b, size)
    decreases b - a
  {
    if a < b {
      SpanMonotone(a, b - 1, size);
    }
  }

  /** v / d and v % d are the k and s of any v = d * k + s with s < d. */
  lemma DivModUnique(v: nat, d: nat, k: nat, s: nat)
    requires d >= 1 && v == d * k + s && s < d
    ensures v % d == s && v / d == k
  {
    var k', s' := v / d, v % d;
    assert v == d * k' + s' && 0 <= s' < d;
    if k' < k {
      MulMonotone(k' + 1, k, d);
      MulStep(k', d);
      assert false;
    } else if k' > k {
      MulMonotone(k + 1, k', d);
      MulStep(k, d);
      assert false;
    }
  }

  /** 2^64, the modulus of size_t and uint64_t arithmetic. */
  /** 2^63, the top bit of a uint64_t. */
  const POW2_63: nat := 0x8000_0000_0000_0000

  lemma Pow2Of63()
    ensures Pow2(63) == POW2_63
  {
    Pow2Of64();
  }

  lemma Pow2Of64()
    ensures Pow2(64) == UINT64_MAX + 1
  {
    assert Pow2(1) == 2;
    Pow2Add(1, 1);
    assert Pow2(2) == 4;
    Pow2Add(2, 2);
    assert Pow2(4) == 16;
    Pow2Add(4, 4);
    assert Pow2(8) == 256;
    Pow2Add(8, 8);
    assert Pow2(16) == 0x1_0000;
    Pow2Add(16, 16);
    assert Pow2(32) == 0x1_0000_0000;
    Pow2Add(32, 32);
  }

  /** 256^4 = 2^32, the modulus of uint32_t arithmetic. */
  lemma Pow256Four()
    ensures Pow256(4) == UINT32_MAX + 1
  {
    assert Pow256(1) == 256;
    assert Pow256(2) == 0x1_0000;
    assert Pow256(3) == 0x100_0000;
  }

  /** 256^8 = 2^64. */
  lemma Pow256Eight()
    ensures Pow256(8) == UINT64_MAX + 1
  {
    Pow256Four();
    assert Pow256(5) == 0x100_0000_0000;
    assert Pow256(6) == 0x1_0000_0000_0000;
    assert Pow256(7) == 0x100_0000_0000_0000;
  }

  lemma {:induction false} Pow256IsPow2(n: nat)
    ensures Pow256(n) == Pow2(8 * n)
  {
    if n > 0 {
      Pow256IsPow2(n - 1);
      Pow2Add(8, 8 * (n - 1));
      assert 8 * n == 8 + 8 * (n - 1);
    }
  }

  lemma {:induction false} Pow256Monotone(a: nat, b: nat)
    requires a <= b
    ensures Pow256(a) <= Pow256(b)
  {
    if a < b {
      Pow256Monotone(a, b - 1);
    }
  }

  /** A block of n zero bytes (the source's bzero/calloc'd scratch). */
  function Zero(n: nat): (z: Block)
    ensures |z| == n && forall i :: 0 <= i < n ==> z[i] == 0
  {
    seq(n, _ => 0)
  }

  /** Bytewise XOR of two blocks of the same length. */
  function Xor(a: Block, b: Block): (r: Block)
    requires |a| == |b|
    ensures |r| == |a|
    ensures forall i :: 0 <= i < |a| ==> r[i] == a[i] ^ b[i]
  {
    seq(|a|, i requires 0 <= i < |a| => a[i] ^ b[i])
  }

  /** A block that is a XOR b at every index is Xor(a, b). */
  lemma XorPointwise(a: Block, b: Block, c: Block)
    requires |a| == |b| == |c|
    requires forall j :: 0 <= j < |c| ==> c[j] == a[j] ^ b[j]
    ensures c == Xor(a, b)
  {
  }

  ghost predicate AllOfLength(blocks: seq<Block>, n: nat) {
    forall k :: 0 <= k < |blocks| ==> |blocks[k]| == n
  }

  /** acc XOR blocks[0] XOR blocks[1] ..., folded left to right. */
  function XorFold(acc: Block, blocks: seq<Block>): (r: Block)
    requires AllOfLength(blocks, |acc|)
    ensures |r| == |acc|
    decreases |blocks|
  {
    if |blocks| == 0 then acc else XorFold(Xor(acc, blocks[0]), blocks[1..])
  }

  /** Folding one more block in first, or XORing it afterwards, agree. */
  lemma {:induction false} XorFoldCommute(acc: Block, x: Block, blocks: seq<Block>)
    requires |x| == |acc| && AllOfLength(blocks, |acc|)
    ensures XorFold(Xor(acc, x), blocks) == Xor(XorFold(acc, blocks), x)
    decreases |blocks|
  {
    if |blocks| > 0 {
      var y := blocks[0];
      assert Xor(Xor(acc, x), y) == Xor(Xor(acc, y), x);
      XorFoldCommute(Xor(acc, y), x, blocks[1..]);
    }
  }

  /** XORing the same blocks in a second time restores the accumulator. */
  lemma {:induction false} XorFoldUndo(acc: Block, blocks: seq<Block>)
    requires AllOfLength(blocks, |acc|)
    ensures XorFold(XorFold(acc, blocks), blocks) == acc
    decreases |blocks|
  {
    if |blocks| > 0 {
      var x, rest := blocks[0], blocks[1..];
      var once := XorFold(acc, rest);
      XorFoldCommute(acc, x, rest);
      assert Xor(Xor(once, x), x) == once;
      XorFoldUndo(acc, rest);
    }
  }

  lemma {:induction false} XorFoldPullOut(acc: Block, p: seq<Block>, x: Block, q: seq<Block>)
    requires |x| == |acc| && AllOfLength(p, |acc|) && AllOfLength(q, |acc|)
    ensures AllOfLength(p + [x] + q, |acc|) && AllOfLength(p + q, |acc|)
    ensures XorFold(acc, p + [x] + q) == Xor(XorFold(acc, p + q), x)
    decreases |p|
  {
    if |p| == 0 {
      assert p + [x] + q == [x] + q;
      assert ([x] + q)[1..] == q;
      assert p + q == q;
      XorFoldCommute(acc, x, q);
    } else {
      assert (p + [x] + q)[1..] == p[1..] + [x] + q;
      assert (p + q)[1..] == p[1..] + q;
      assert (p + [x] + q)[0] == p[0] && (p + q)[0] == p[0];
      XorFoldPullOut(Xor(acc, p[0]), p[1..], x, q);
    }
  }

  lemma SameMultisetSameLength(bs: seq<Block>, cs: seq<Block>, n: nat)
    requires AllOfLength(bs, n) && multiset(bs) == multiset(cs)
    ensures AllOfLength(cs, n)
  {
    forall k | 0 <= k < |cs| ensures |cs[k]| == n {
      assert cs[k] in multiset(cs);
      assert cs[k] in multiset(bs);
      var j :| 0 <= j < |bs| && bs[j] == cs[k];
    }
  }

  lemma AllOfLengthSlice(bs: seq<Block>, n: nat, i: nat, j: nat)
    requires AllOfLength(bs, n) && i <= j <= |bs|
    ensures AllOfLength(bs[i..j], n)
  {
    forall k | 0 <= k < j - i ensures |bs[i..j][k]| == n {
      assert bs[i..j][k] == bs[i + k];
    }
  }

  /** Removing the block at k removes one copy of it from the multiset. */
  lemma MultisetRemoveAt(cs: seq<Block>, k: nat)
    requires k < |cs|
    ensures cs == cs[..k] + [cs[k]] + cs[k + 1..]
    ensures multiset(cs[..k] + cs[k + 1..]) == multiset(cs) - multiset{cs[k]}
  {
    assert cs == cs[..k] + [cs[k]] + cs[k + 1..];
  }

  /**
   * The XOR of a collection of blocks does not depend on their order:
   * folding any permutation of the blocks gives the same block.
   */
  lemma {:induction false} XorFoldPermutation(acc: Block, bs: seq<Block>, cs: seq<Block>)
    requires AllOfLength(bs, |acc|) && multiset(bs) == multiset(cs)
    ensures AllOfLength(cs, |acc|)
    ensures XorFold(acc, bs) == XorFold(acc, cs)
    decreases |bs|
  {
    SameMultisetSameLength(bs, cs, |acc|);
    if |bs| > 0 {
      var x, rest := bs[0], bs[1..];
      var k := LocateFirst(bs, cs);
      var p, q := cs[..k], cs[k + 1..];
      AllOfLengthSlice(bs, |acc|, 1, |bs|);
      AllOfLengthSlice(cs, |acc|, 0, k);
      AllOfLengthSlice(cs, |acc|, k + 1, |cs|);
      XorFoldPermutation(Xor(acc, x), rest, p + q);
      XorFoldCommute(acc, x, p + q);
      XorFoldPullOut(acc, p, x, q);
    }
  }

  /** In a permutation cs of bs, some position k holds bs[0], and the rest of both still match. */
  lemma LocateFirst(bs: seq<Block>, cs: seq<Block>) returns (k: nat)
    requires |bs| > 0 && multiset(bs) == multiset(cs)
    ensures k < |cs| && cs[k] == bs[0] && cs == cs[..k] + [bs[0]] + cs[k + 1..]
    ensures multiset(bs[1..]) == multiset(cs[..k] + cs[k + 1..])
  {
    assert bs[0] in multiset(cs) by {
      assert bs[0] in multiset(bs);
    }
    k :| 0 <= k < |cs| && cs[k] == bs[0];
    MultisetRemoveAt(cs, k);
    MultisetRemoveAt(bs, 0);
    assert bs[..0] + bs[1..] == bs[1..];
  }

  /** The concatenation of a sequence of blocks. */
  function Concat(blocks: seq<Block>): (r: seq<byte>)
    ensures |blocks| == 0 ==> r == []
  {
    if |blocks| == 0 then [] else blocks[0] + Concat(blocks[1..])
  }
}
