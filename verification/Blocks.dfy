/** Disk blocks as arrays of bytes, with the two other ways the kernel reads
    them: as arrays of little-endian 32-bit words (the log header, indirect
    blocks) and as arrays of bits (the free map). */
module Blocks {

  const BSIZE := 512
  const WORDS := 128 // BSIZE / sizeof(uint)
  const BPB := 4096  // bitmap bits per block

  type Byte = x: int | 0 <= x < 256
  type Word = x: int | 0 <= x < 0x1_0000_0000
  type Block = s: seq<Byte> | |s| == BSIZE witness seq(BSIZE, _ => 0)

  function Zeroed(): (b: Block)
    ensures forall i :: 0 <= i < BSIZE ==> b[i] == 0
  {
    seq(BSIZE, _ => 0)
  }

  function GetWord(b: Block, j: nat): Word
    requires j < WORDS
  {
    WordOf(b[4 * j], b[4 * j + 1], b[4 * j + 2], b[4 * j + 3])
  }

  function WordOf(b0: int, b1: int, b2: int, b3: int): int {
    b0 + 0x100 * b1 + 0x1_0000 * b2 + 0x100_0000 * b3
  }

  function SetWord(b: Block, j: nat, v: Word): (r: Block)
    requires j < WORDS
    ensures GetWord(r, j) == v
    ensures forall k: nat :: k < WORDS && k != j ==> GetWord(r, k) == GetWord(b, k)
  {
    WordParts(v);
    b[4 * j := v % 0x100][4 * j + 1 := v / 0x100 % 0x100]
     [4 * j + 2 := v / 0x1_0000 % 0x100][4 * j + 3 := v / 0x100_0000]
  }

  /** The bytes of a word make it up. */
  lemma WordParts(v: Word)
    ensures WordOf(v % 0x100, v / 0x100 % 0x100, v / 0x1_0000 % 0x100, v / 0x100_0000) == v
  {
    Halves(v);
    Halves(v / 0x100);
    Quotient(v, 0x100);
    Quotient(v, 0x1_0000);
    Halves(v / 0x1_0000);
  }

  lemma Halves(v: nat)
    ensures v == v % 0x100 + 0x100 * (v / 0x100)
  {
  }

  lemma Quotient(v: nat, k: nat)
    requires k == 0x100 || k == 0x1_0000
    ensures v / k / 0x100 == v / (k * 0x100)
  {
    if k == 0x100 {
      assert v / 0x100 / 0x100 == v / 0x1_0000;
    } else {
      assert v / 0x1_0000 / 0x100 == v / 0x100_0000;
    }
  }

  lemma ZeroWords()
    ensures forall j: nat :: j < WORDS ==> GetWord(Zeroed(), j) == 0
  {
  }

  /** 1 << k */
  function Mask(k: nat): (m: int) {
    if k == 0 then 1 else 2 * Mask(k - 1)
  }

  /** (x >> k) & 1 */
  predicate BitOf(x: nat, k: nat) {
    if k == 0 then x % 2 == 1 else BitOf(x / 2, k - 1)
  }

  predicate TestBit(b: Block, i: nat)
    requires i < BPB
  {
    BitOf(b[i / 8], i % 8)
  }

  /** `x |= 1 << k` when bit k is clear and `x &= ~(1 << k)` when it is set:
      one bit changes and no other. */
  function Flip(x: nat, k: nat): (y: nat)
    ensures forall j: nat :: BitOf(y, j) == (BitOf(x, j) != (j == k))
    ensures y == if BitOf(x, k) then x - Mask(k) else x + Mask(k)
    ensures forall h: nat :: k < h && x < Mask(h) ==> y < Mask(h)
  {
    if k == 0 then x + 1 - x % 2 * 2 else 2 * Flip(x / 2, k - 1) + x % 2
  }

  function FlipBit(b: Block, i: nat): (r: Block)
    requires i < BPB
    ensures TestBit(r, i) == !TestBit(b, i)
    ensures forall j: nat :: j < BPB && j != i ==> TestBit(r, j) == TestBit(b, j)
  {
    assert Mask(8) == 256; b[i / 8 := Flip(b[i / 8], i % 8)]
  }
}
