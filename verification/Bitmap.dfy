/** The blocks of the bitmap, bit by bit. */
module Bitmap {
  import opened Basics
  import opened FsLayout

  /** A block of the bitmap. */
  type RawBlock = b: seq<bv8> | |b| == 512 witness seq(512, i => 0 as bv8)

  function Mask(k: nat): (m: bv8)
    requires k < 8
  {
    1 << k
  }

  function Pow2(k: nat): (p: nat)
    ensures p > 0
  {
    if k == 0 then 1 else 2 * Pow2(k - 1)
  }

  lemma HalfByte(x: bv8)
    ensures (x >> 1) as int == (x as int) / 2
    ensures x & Mask(0) != 0 <==> (x as int) % 2 == 1
  {
  }

  lemma NextMask(x: bv8, k: nat)
    requires 0 < k < 8
    ensures x & Mask(k) != 0 <==> (x >> 1) & Mask(k - 1) != 0
  {
  }

  /** Bit k of a number, counted from the lowest. */
  predicate NatBit(n: nat, k: nat) {
    if k == 0 then n % 2 == 1 else NatBit(n / 2, k - 1)
  }

  lemma {:induction false} NatBitIs(n: nat, k: nat)
    ensures NatBit(n, k) <==> n / Pow2(k) % 2 == 1
  {
    if k > 0 {
      NatBitIs(n / 2, k - 1);
      HalfDivided(n, Pow2(k - 1));
    }
  }

  lemma HalfDivided(n: nat, p: nat)
    requires p > 0
    ensures n / 2 / p == n / (2 * p)
  {
    var q, r := n / 2 / p, n / 2 % p;
    assert n / 2 == q * p + r;
    assert q * (2 * p) == 2 * (q * p);
    ModIs(n, 2 * p, q, 2 * r + n % 2);
  }

  lemma {:induction false} MaskBit(x: bv8, k: nat)
    requires k < 8
    ensures x & Mask(k) != 0 <==> NatBit(x as int, k)
  {
    HalfByte(x);
    if k > 0 {
      NextMask(x, k);
      MaskBit(x >> 1, k - 1);
    }
  }

  /** Mask k selects the bit of value 2^k. */
  lemma MaskIs(x: bv8, k: nat)
    requires k < 8
    ensures x & Mask(k) != 0 <==> (x as int) / Pow2(k) % 2 == 1
  {
    MaskBit(x, k);
    NatBitIs(x as int, k);
  }

  lemma BitOfOr(x: bv8, k: nat, j: nat)
    requires k < 8 && j < 8
    ensures (x | Mask(k)) & Mask(j) != 0 <==> j == k || x & Mask(j) != 0
  {
  }

  lemma BitOfAndNot(x: bv8, k: nat, j: nat)
    requires k < 8 && j < 8
    ensures x & !Mask(k) & Mask(j) != 0 <==> j != k && x & Mask(j) != 0
  {
  }

  function ByteOf(blocks: seq<RawBlock>, b: nat): (x: bv8)
    requires b / BPB < |blocks|
  {
    blocks[b / BPB][b % BPB / 8]
  }

  /** The bit of block b. */
  function Bit(blocks: seq<RawBlock>, b: nat): (r: bool)
    requires b / BPB < |blocks|
  {
    ByteOf(blocks, b) & Mask(b % 8) != 0
  }

  /** The bit of block b is bit b % 8, counted from the lowest, of byte b / 8 of the bitmap. */
  lemma BitIs(blocks: seq<RawBlock>, b: nat)
    requires b / BPB < |blocks|
    ensures b / 8 / 512 < |blocks|
    ensures Bit(blocks, b) <==> (blocks[b / 8 / 512][b / 8 % 512] as int) / Pow2(b % 8) % 2 == 1
  {
    ByteIndex(b);
    MaskIs(ByteOf(blocks, b), b % 8);
  }

  lemma ByteIndex(b: nat)
    ensures b / 8 / 512 == b / BPB && b / 8 % 512 == b % BPB / 8
  {
  }

  // ------------------------------------------------------------------
  // The bitmap of a new file system

  /** Byte j of a bitmap whose first n bits are set, and no others. */
  function FirstBits(n: nat, j: nat): (x: nat) {
    if 8 * j + 8 <= n then 255 else if n <= 8 * j then 0 else Pow2(n - 8 * j) - 1
  }

  /** The first n bits of the bitmap are set, and no others. */
  predicate FirstUsed(blocks: seq<RawBlock>, n: nat) {
    forall j :: 0 <= j < 512 * |blocks| ==> blocks[j / 512][j % 512] as int == FirstBits(n, j)
  }

  /** `balloc` of mkfs: the bitmap block in which the first blocks are used. */
  method FormatBitmap(used: nat) returns (buf: RawBlock)
    requires used < BPB
    ensures FirstUsed([buf], used)
  {
    buf := seq(512, i => 0 as bv8);
    var i := 0;
    while i < used
      invariant 0 <= i <= used && FirstUsed([buf], i)
    {
      FirstUsedNext(buf, i);
      buf := buf[i / 8 := buf[i / 8] | Mask(i % 8)];
      i := i + 1;
    }
  }

  lemma FirstUsedNext(buf: RawBlock, i: nat)
    requires FirstUsed([buf], i) && i < BPB
    ensures FirstUsed([buf[i / 8 := buf[i / 8] | Mask(i % 8)]], i + 1)
  {
    var buf' := buf[i / 8 := buf[i / 8] | Mask(i % 8)];
    forall j | 0 <= j < 512 ensures [buf'][j / 512][j % 512] as int == FirstBits(i + 1, j) {
      assert [buf][j / 512][j % 512] as int == FirstBits(i, j);
      if j == i / 8 {
        NextBit(buf[j], i);
      }
    }
  }

  lemma NextBit(x: bv8, i: nat)
    requires x as int == FirstBits(i, i / 8)
    ensures (x | Mask(i % 8)) as int == FirstBits(i + 1, i / 8)
  {
    SmallPowers();
    LowBits(x, i % 8);
  }

  lemma SmallPowers()
    ensures Pow2(0) == 1 && Pow2(1) == 2 && Pow2(2) == 4 && Pow2(3) == 8
    ensures Pow2(4) == 16 && Pow2(5) == 32 && Pow2(6) == 64 && Pow2(7) == 128 && Pow2(8) == 256
  {
    assert Pow2(4) == 2 * Pow2(3) && Pow2(8) == 2 * Pow2(7);
  }

  lemma LowBits(x: bv8, k: nat)
    requires k < 8 && x as int == Pow2(k) - 1
    ensures (x | Mask(k)) as int == Pow2(k + 1) - 1
  {
    SmallPowers();
  }

  /** Then block b is used exactly if it is one of the first n. */
  lemma FirstUsedBit(blocks: seq<RawBlock>, n: nat, b: nat)
    requires FirstUsed(blocks, n) && b / BPB < |blocks|
    ensures Bit(blocks, b) <==> b < n
  {
    BitIs(blocks, b);
    SmallPowers();
    assert (blocks[b / 8 / 512][b / 8 % 512] as int) == FirstBits(n, b / 8);
  }

  /** The blocks show the bitmap. */
  predicate Shows(blocks: seq<RawBlock>, bitmap: seq<bool>) {
    && |bitmap| <= |blocks| * BPB
    && forall b {:trigger Bit(blocks, b)} :: 0 <= b < |bitmap| ==> Bit(blocks, b) == bitmap[b]
  }

  /** On a bitmap as mkfs writes it, the lowest free block is the first that mkfs did not use. */
  lemma LowestFree(blocks: seq<RawBlock>, bitmap: seq<bool>, n: nat, r: nat)
    requires Shows(blocks, bitmap) && FirstUsed(blocks, n)
    requires r < |bitmap| && !bitmap[r] && forall c :: 0 <= c < r ==> bitmap[c]
    ensures r == n
  {
    InBlocks(r, |bitmap|, |blocks|);
    FirstUsedBit(blocks, n, r);
    if n < r {
      InBlocks(n, |bitmap|, |blocks|);
      FirstUsedBit(blocks, n, n);
    }
  }

  function WithByte(blocks: seq<RawBlock>, b: nat, x: bv8): (blocks': seq<RawBlock>)
    requires b / BPB < |blocks|
  {
    blocks[b / BPB := blocks[b / BPB][b % BPB / 8 := x]]
  }

  /** Bits b and c are in the same byte. */
  predicate SameByte(b: nat, c: nat) {
    b / BPB == c / BPB && b % BPB / 8 == c % BPB / 8
  }

  lemma SameBit(b: nat, c: nat)
    requires SameByte(b, c) && b % 8 == c % 8
    ensures b == c
  {
    BitParts(b);
    BitParts(c);
  }

  /** Block, byte and bit of a position in the bitmap. */
  lemma BitParts(b: nat)
    ensures b == b / BPB * BPB + b % BPB / 8 * 8 + b % 8
  {
    assert b % BPB % 8 == b % 8;
  }

  /** Only the bits of one byte depend on it. */
  lemma ByteAfter(blocks: seq<RawBlock>, b: nat, x: bv8, c: nat)
    requires b / BPB < |blocks| && c / BPB < |blocks|
    ensures SameByte(b, c) ==> ByteOf(WithByte(blocks, b, x), c) == x && ByteOf(blocks, c) == ByteOf(blocks, b)
    ensures !SameByte(b, c) ==> ByteOf(WithByte(blocks, b, x), c) == ByteOf(blocks, c)
  {
  }

  lemma InBlocks(b: nat, n: nat, blocks: nat)
    requires b < n <= blocks * BPB
    ensures b / BPB < blocks
  {
  }

  /** Changing one bit of a byte changes one bit of the bitmap. */
  lemma BitAfter(blocks: seq<RawBlock>, b: nat, x: bv8, v: bool, c: nat)
    requires b / BPB < |blocks| && c / BPB < |blocks|
    requires x & Mask(c % 8) != 0 <==> if c % 8 == b % 8 then v else ByteOf(blocks, b) & Mask(c % 8) != 0
    ensures Bit(WithByte(blocks, b, x), c) == if c == b then v else Bit(blocks, c)
  {
    ByteAfter(blocks, b, x, c);
    if SameByte(b, c) && b % 8 == c % 8 {
      SameBit(b, c);
    }
  }

  /** What is true of each bit is true of the bitmap. */
  lemma OneChanged(blocks: seq<RawBlock>, blocks': seq<RawBlock>, bitmap: seq<bool>, b: nat, v: bool)
    requires Shows(blocks, bitmap) && b < |bitmap| && |blocks'| == |blocks|
    requires forall c: nat {:trigger Bit(blocks', c)} :: c / BPB < |blocks| ==>
               Bit(blocks', c) == if c == b then v else Bit(blocks, c)
    ensures Shows(blocks', bitmap[b := v])
  {
    forall c | 0 <= c < |bitmap| ensures c / BPB < |blocks| && Bit(blocks', c) == bitmap[b := v][c] {
      InBlocks(c, |bitmap|, |blocks|);
      assert Bit(blocks, c) == bitmap[c];
    }
  }

  lemma SetShows(blocks: seq<RawBlock>, bitmap: seq<bool>, b: nat)
    requires Shows(blocks, bitmap) && b < |bitmap|
    ensures b / BPB < |blocks|
    ensures Shows(WithByte(blocks, b, ByteOf(blocks, b) | Mask(b % 8)), bitmap[b := true])
  {
    InBlocks(b, |bitmap|, |blocks|);
    var x := ByteOf(blocks, b) | Mask(b % 8);
    forall c: nat | c / BPB < |blocks|
      ensures Bit(WithByte(blocks, b, x), c) == if c == b then true else Bit(blocks, c)
    {
      BitOfOr(ByteOf(blocks, b), b % 8, c % 8);
      BitAfter(blocks, b, x, true, c);
    }
    OneChanged(blocks, WithByte(blocks, b, x), bitmap, b, true);
  }

  lemma ClearShows(blocks: seq<RawBlock>, bitmap: seq<bool>, b: nat)
    requires Shows(blocks, bitmap) && b < |bitmap|
    ensures b / BPB < |blocks|
    ensures Shows(WithByte(blocks, b, ByteOf(blocks, b) & !Mask(b % 8)), bitmap[b := false])
  {
    InBlocks(b, |bitmap|, |blocks|);
    var x := ByteOf(blocks, b) & !Mask(b % 8);
    forall c: nat | c / BPB < |blocks|
      ensures Bit(WithByte(blocks, b, x), c) == if c == b then false else Bit(blocks, c)
    {
      BitOfAndNot(ByteOf(blocks, b), b % 8, c % 8);
      BitAfter(blocks, b, x, false, c);
    }
    OneChanged(blocks, WithByte(blocks, b, x), bitmap, b, false);
  }

  /** Bit bi of the block that begins with the bit of b. */
  lemma BitInBlock(blocks: seq<RawBlock>, bitmap: seq<bool>, b: nat, bi: nat)
    requires Shows(blocks, bitmap) && b % BPB == 0 && bi < BPB && b + bi < |bitmap|
    ensures (b + bi) / BPB == b / BPB < |blocks| && (b + bi) % BPB == bi && (b + bi) % 8 == bi % 8
    ensures bitmap[b + bi] <==> blocks[b / BPB][bi / 8] & Mask(bi % 8) != 0
  {
    InBlocks(b + bi, |bitmap|, |blocks|);
    IndexInBlock(b, bi);
    assert Bit(blocks, b + bi) == bitmap[b + bi];
  }

  lemma IndexInBlock(b: nat, bi: nat)
    requires b % BPB == 0 && bi < BPB
    ensures (b + bi) / BPB == b / BPB && (b + bi) % BPB == bi && (b + bi) % 8 == bi % 8
  {
  }
}
