/**
  Disk blocks as 512 bytes, and the two ways the file system looks inside
  them: as little-endian 32-bit words (log header, indirect blocks, inodes)
  and as an array of bits (the free map).
 */
module Blocks {
  // Words in a block (NINDIRECT), and bits in a block (BPB).
  const WPB: nat := 128
  const BPB: nat := 4096

  type Byte = x: int | 0 <= x < 256
  type Word = x: int | 0 <= x < 0x1_0000_0000

  type Block = b: seq<Byte> | |b| == 512 witness seq(512, i => 0)

  function Zero(): Block {
    seq(512, i => 0)
  }

  /** The i-th little-endian word of a block. */
  function GetWord(b: Block, i: nat): (w: Word)
    requires i < WPB
  {
    var b0: int, b1: int, b2: int, b3: int := b[4 * i], b[4 * i + 1], b[4 * i + 2], b[4 * i + 3];
    b0 + 0x100 * b1 + 0x1_0000 * b2 + 0x100_0000 * b3
  }

  /** The block with word i overwritten, every other byte kept. */
  function PutWord(b: Block, i: nat, w: Word): (r: Block)
    requires i < WPB
    ensures GetWord(r, i) == w
    ensures forall j :: 0 <= j < WPB && j != i ==> GetWord(r, j) == GetWord(b, j)
  {
    var r := b[4 * i := w % 0x100][4 * i + 1 := w / 0x100 % 0x100]
              [4 * i + 2 := w / 0x1_0000 % 0x100][4 * i + 3 := w / 0x100_0000];
    WordBytes(w);
    r
  }

  lemma WordBytes(w: Word)
    ensures w % 0x100 + 0x100 * (w / 0x100 % 0x100) + 0x1_0000 * (w / 0x1_0000 % 0x100)
            + 0x100_0000 * (w / 0x100_0000) == w
    ensures 0 <= w / 0x100_0000 < 0x100
  {
    assert w / 0x100 / 0x100 == w / 0x1_0000;
    assert w / 0x1_0000 / 0x100 == w / 0x100_0000;
  }

  lemma ZeroWords()
    ensures forall i :: 0 <= i < WPB ==> GetWord(Zero(), i) == 0
  {
  }

  function Pow2(k: nat): (p: nat)
    ensures p >= 1
  {
    if k == 0 then 1 else 2 * Pow2(k - 1)
  }

  /** Bit k of x, as the mask `1 << k` selects it. */
  predicate Bit(x: nat, k: nat) {
    if k == 0 then x % 2 == 1 else Bit(x / 2, k - 1)
  }

  /** Bit i of a block: bit i % 8 of byte i / 8. */
  predicate GetBit(b: Block, i: nat)
    requires i < BPB
  {
    Bit(b[i / 8], i % 8)
  }

  /** Setting a clear bit of the map sets bit i and no other. */
  function SetBit(b: Block, i: nat): (r: Block)
    requires i < BPB && !GetBit(b, i)
    ensures forall j :: 0 <= j < BPB ==> GetBit(r, j) == (j == i || GetBit(b, j))
  {
    assert Pow2(8) == 256 by { assert Pow2(4) == 16; }
    BitRange(b[i / 8], i % 8, 8);
    var v := b[i / 8] + Pow2(i % 8);
    SetOneBit(b[i / 8], i % 8);
    b[i / 8 := v]
  }

  /** Clearing a set bit of the map clears bit i and no other. */
  function ClearBit(b: Block, i: nat): (r: Block)
    requires i < BPB && GetBit(b, i)
    ensures forall j :: 0 <= j < BPB ==> GetBit(r, j) == (j != i && GetBit(b, j))
  {
    assert Pow2(8) == 256 by { assert Pow2(4) == 16; }
    BitRange(b[i / 8], i % 8, 8);
    var v := b[i / 8] - Pow2(i % 8);
    ClearOneBit(b[i / 8], i % 8);
    b[i / 8 := v]
  }

  /** Adding or subtracting a mask stays within n bits. */
  lemma {:induction false} BitRange(x: nat, k: nat, n: nat)
    requires k < n && x < Pow2(n)
    ensures !Bit(x, k) ==> x + Pow2(k) < Pow2(n)
    ensures Bit(x, k) ==> x >= Pow2(k)
  {
    if k > 0 {
      BitRange(x / 2, k - 1, n - 1);
    } else {
      assert Pow2(n) == 2 * Pow2(n - 1);
    }
  }

  lemma {:induction false} SetOneBit(x: nat, k: nat)
    requires !Bit(x, k)
    ensures forall j: nat :: Bit(x + Pow2(k), j) == (j == k || Bit(x, j))
  {
    if k > 0 {
      SetOneBit(x / 2, k - 1);
      assert (x + Pow2(k)) / 2 == x / 2 + Pow2(k - 1);
    }
    forall j: nat
      ensures Bit(x + Pow2(k), j) == (j == k || Bit(x, j))
    {
      if j > 0 {
        assert Bit(x + Pow2(k), j) == Bit((x + Pow2(k)) / 2, j - 1);
      }
    }
  }

  lemma {:induction false} ClearOneBit(x: nat, k: nat)
    requires Bit(x, k) && x >= Pow2(k)
    ensures forall j: nat :: Bit(x - Pow2(k), j) == (j != k && Bit(x, j))
  {
    var y := x - Pow2(k);
    if Bit(y, k) {
      CarryBit(y, k);
      assert false;
    }
    SetOneBit(y, k);
  }

  lemma {:induction false} CarryBit(y: nat, k: nat)
    ensures Bit(y + Pow2(k), k) != Bit(y, k)
  {
    if k > 0 {
      CarryBit(y / 2, k - 1);
      assert (y + Pow2(k)) / 2 == y / 2 + Pow2(k - 1);
    }
  }

  /** Bit i of a block is selected by the mask 2^(i mod 8) in byte i div 8. */
  lemma {:induction false} GetBitIs(b: Block, i: nat)
    requires i < BPB
    ensures GetBit(b, i) <==> b[i / 8] / Pow2(i % 8) % 2 == 1
  {
    BitIs(b[i / 8], i % 8);
  }

  lemma {:induction false} BitIs(x: nat, k: nat)
    requires k < 8
    ensures Bit(x, k) <==> x / Pow2(k) % 2 == 1
  {
    if k > 0 {
      BitIs(x / 2, k - 1);
      assert Pow2(1) == 2 && Pow2(2) == 4 && Pow2(3) == 8 && Pow2(4) == 16;
      assert Pow2(5) == 32 && Pow2(6) == 64 && Pow2(7) == 128;
      match k {
        case 1 => case 2 => case 3 => case 4 => case 5 => case 6 => case _ =>
      }
    }
  }
}
