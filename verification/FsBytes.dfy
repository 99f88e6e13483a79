/** Bits and words inside disk blocks: the free bitmap and the entries of an indirect block. */
module FsBytes {

  const BSIZE: int := 1024
  const BPB: int := BSIZE * 8
  const NINDIRECT: int := 256

  /** A disk block: BSIZE bytes. */
  ghost predicate IsBlock(s: seq<int>) {
    |s| == BSIZE && forall i :: 0 <= i < BSIZE ==> 0 <= s[i] < 256
  }

  function ZeroBlock(): (s: seq<int>)
    ensures IsBlock(s)
  {
    seq(BSIZE, _ => 0)
  }

  /** (x & (1 << k)) != 0 */
  predicate ByteBit(x: int, k: nat)
    decreases k
  {
    if k == 0 then x % 2 == 1 else ByteBit(x / 2, k - 1)
  }

  /** x | (1 << k) */
  function ByteOr(x: int, k: nat): int
    decreases k
  {
    if k == 0 then x / 2 * 2 + 1 else 2 * ByteOr(x / 2, k - 1) + x % 2
  }

  /** x & ~(1 << k) */
  function ByteAndNot(x: int, k: nat): int
    decreases k
  {
    if k == 0 then x / 2 * 2 else 2 * ByteAndNot(x / 2, k - 1) + x % 2
  }

  /** 1 << n */
  function Power(n: nat): int {
    if n == 0 then 1 else 2 * Power(n - 1)
  }

  lemma {:induction false} ByteOrBits(x: int, k: nat, j: nat, n: nat)
    requires 0 <= x < Power(n) && k < n
    ensures 0 <= ByteOr(x, k) < Power(n)
    ensures ByteBit(ByteOr(x, k), j) <==> j == k || ByteBit(x, j)
    decreases k
  {
    if k > 0 {
      ByteOrBits(x / 2, k - 1, if j > 0 then j - 1 else 0, n - 1);
    }
  }

  lemma {:induction false} ByteAndNotBits(x: int, k: nat, j: nat, n: nat)
    requires 0 <= x < Power(n) && k < n
    ensures 0 <= ByteAndNot(x, k) < Power(n)
    ensures ByteBit(ByteAndNot(x, k), j) <==> j != k && ByteBit(x, j)
    decreases k
  {
    if k > 0 {
      ByteAndNotBits(x / 2, k - 1, if j > 0 then j - 1 else 0, n - 1);
    }
  }

  lemma EightBits()
    ensures Power(8) == 256
  {
    assert Power(4) == 16;
  }

  /** Bit i of a bitmap block. */
  predicate BitOf(s: seq<int>, i: int)
    requires |s| == BSIZE && 0 <= i < BPB
  {
    ByteBit(s[i / 8], i % 8)
  }

  function SetBit(s: seq<int>, i: int): seq<int>
    requires |s| == BSIZE && 0 <= i < BPB
  {
    s[i / 8 := ByteOr(s[i / 8], i % 8)]
  }

  function ClearBit(s: seq<int>, i: int): seq<int>
    requires |s| == BSIZE && 0 <= i < BPB
  {
    s[i / 8 := ByteAndNot(s[i / 8], i % 8)]
  }

  lemma SetBitBits(s: seq<int>, i: int)
    requires IsBlock(s) && 0 <= i < BPB
    ensures IsBlock(SetBit(s, i))
    ensures forall j :: 0 <= j < BPB ==> (BitOf(SetBit(s, i), j) <==> j == i || BitOf(s, j))
  {
    EightBits();
    forall j | 0 <= j < BPB
      ensures BitOf(SetBit(s, i), j) <==> j == i || BitOf(s, j)
    {
      if j / 8 == i / 8 { ByteOrBits(s[i / 8], i % 8, j % 8, 8); }
    }
    ByteOrBits(s[i / 8], i % 8, 0, 8);
  }

  lemma ClearBitBits(s: seq<int>, i: int)
    requires IsBlock(s) && 0 <= i < BPB
    ensures IsBlock(ClearBit(s, i))
    ensures forall j :: 0 <= j < BPB ==> (BitOf(ClearBit(s, i), j) <==> j != i && BitOf(s, j))
  {
    EightBits();
    forall j | 0 <= j < BPB
      ensures BitOf(ClearBit(s, i), j) <==> j != i && BitOf(s, j)
    {
      if j / 8 == i / 8 { ByteAndNotBits(s[i / 8], i % 8, j % 8, 8); }
    }
    ByteAndNotBits(s[i / 8], i % 8, 0, 8);
  }

  /** The j-th little-endian 32-bit word of a block. */
  function Word(s: seq<int>, j: int): int
    requires |s| == BSIZE && 0 <= j < NINDIRECT
  {
    s[4 * j] + 0x100 * s[4 * j + 1] + 0x1_0000 * s[4 * j + 2] + 0x100_0000 * s[4 * j + 3]
  }

  function PutWord(s: seq<int>, j: int, v: int): seq<int>
    requires |s| == BSIZE && 0 <= j < NINDIRECT
  {
    s[4 * j := v % 0x100][4 * j + 1 := v / 0x100 % 0x100]
     [4 * j + 2 := v / 0x1_0000 % 0x100][4 * j + 3 := v / 0x100_0000 % 0x100]
  }

  lemma PutWordWords(s: seq<int>, j: int, v: int)
    requires IsBlock(s) && 0 <= j < NINDIRECT && 0 <= v < 0x1_0000_0000
    ensures IsBlock(PutWord(s, j, v))
    ensures forall i :: 0 <= i < NINDIRECT ==> Word(PutWord(s, j, v), i) == if i == j then v else Word(s, i)
  {
    forall i | 0 <= i < NINDIRECT
      ensures Word(PutWord(s, j, v), i) == if i == j then v else Word(s, i)
    {
      if i == j { WordPut(s, j, v); } else { WordOther(s, j, v, i); }
    }
  }

  lemma WordPut(s: seq<int>, j: int, v: int)
    requires IsBlock(s) && 0 <= j < NINDIRECT && 0 <= v < 0x1_0000_0000
    ensures Word(PutWord(s, j, v), j) == v
  {
  }

  lemma WordOther(s: seq<int>, j: int, v: int, i: int)
    requires |s| == BSIZE && 0 <= j < NINDIRECT && 0 <= i < NINDIRECT && i != j
    ensures Word(PutWord(s, j, v), i) == Word(s, i)
  {
  }

  lemma ZeroBlockWords()
    ensures forall i :: 0 <= i < NINDIRECT ==> Word(ZeroBlock(), i) == 0
  {
  }
}
