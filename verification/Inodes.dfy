/** On-disk inodes (struct dinode of fs.h): eight 64-byte records to a block. */
module Inodes {
  import opened Blocks

  const NDIRECT: nat := 12
  const IPB: nat := 8

  type Half = x: int | 0 <= x < 0x1_0000

  type Addrs = a: seq<Word> | |a| == 13 witness seq(13, i => 0)

  datatype Inode = Inode(typ: Half, major: Half, minor: Half, nlink: Half, size: Word, addrs: Addrs)

  function Words(b: Block): (w: seq<Word>) {
    seq(WPB, j requires 0 <= j < WPB => GetWord(b, j))
  }

  /** The record at index s of an inode block. */
  function ReadInode(b: Block, s: nat): (ip: Inode)
    requires s < IPB
  {
    var w0, w1 := GetWord(b, 16 * s), GetWord(b, 16 * s + 1);
    Inode(w0 % 0x1_0000, w0 / 0x1_0000, w1 % 0x1_0000, w1 / 0x1_0000, GetWord(b, 16 * s + 2),
          Words(b)[16 * s + 3..16 * s + 16])
  }

  function PutAddrs(b: Block, s: nat, a: seq<Word>): (r: Block)
    requires s < IPB && |a| <= 13
    ensures forall k :: 0 <= k < |a| ==> GetWord(r, 16 * s + 3 + k) == a[k]
    ensures forall j :: 0 <= j < WPB && !(16 * s + 3 <= j < 16 * s + 3 + |a|) ==> GetWord(r, j) == GetWord(b, j)
  {
    if a == [] then b else
      PutWord(PutAddrs(b, s, a[..|a| - 1]), 16 * s + 2 + |a|, a[|a| - 1])
  }

  /** The field assignments and memmove of iupdate: record s changes, the others do not. */
  function WriteInode(b: Block, s: nat, ip: Inode): (r: Block)
    requires s < IPB
  {
    var b1 := PutWord(b, 16 * s, ip.typ + 0x1_0000 * ip.major);
    var b2 := PutWord(b1, 16 * s + 1, ip.minor + 0x1_0000 * ip.nlink);
    PutAddrs(PutWord(b2, 16 * s + 2, ip.size), s, ip.addrs)
  }

  lemma WriteInodeReads(b: Block, s: nat, ip: Inode)
    requires s < IPB
    ensures ReadInode(WriteInode(b, s, ip), s) == ip
    ensures forall t :: 0 <= t < IPB && t != s ==> ReadInode(WriteInode(b, s, ip), t) == ReadInode(b, t)
  {
    hide GetWord, PutWord, PutAddrs;
    var r := WriteInode(b, s, ip);
    assert forall j :: 0 <= j < WPB && !(16 * s <= j < 16 * s + 16) ==> GetWord(r, j) == GetWord(b, j);
    forall t | 0 <= t < IPB && t != s
      ensures ReadInode(r, t) == ReadInode(b, t)
    {
      assert ReadInode(r, t).addrs == ReadInode(b, t).addrs;
    }
    assert ReadInode(r, s).addrs == ip.addrs;
  }

  function ByteAt(b: Block, i: nat): int
    requires i < 512
  {
    b[i]
  }

  /** The layout of a record: four 16-bit fields, the size and thirteen addresses, low byte first. */
  lemma InodeBytes(b: Block, s: nat)
    requires s < IPB
    ensures var ip, o := ReadInode(b, s), 64 * s;
      && ip.typ == ByteAt(b, o) + 0x100 * ByteAt(b, o + 1) && ip.major == ByteAt(b, o + 2) + 0x100 * ByteAt(b, o + 3)
      && ip.minor == ByteAt(b, o + 4) + 0x100 * ByteAt(b, o + 5)
        && ip.nlink == ByteAt(b, o + 6) + 0x100 * ByteAt(b, o + 7)
      && ip.size == GetWord(b, o / 4 + 2) && forall k :: 0 <= k < 13 ==> ip.addrs[k] == GetWord(b, o / 4 + 3 + k)
  {
    Split(ByteAt(b, 64 * s), ByteAt(b, 64 * s + 1), ByteAt(b, 64 * s + 2), ByteAt(b, 64 * s + 3));
    Split(ByteAt(b, 64 * s + 4), ByteAt(b, 64 * s + 5), ByteAt(b, 64 * s + 6), ByteAt(b, 64 * s + 7));
  }

  lemma Split(b0: int, b1: int, b2: int, b3: int)
    requires 0 <= b0 < 0x100 && 0 <= b1 < 0x100 && 0 <= b2 < 0x100 && 0 <= b3 < 0x100
    ensures var w := b0 + 0x100 * b1 + 0x1_0000 * b2 + 0x100_0000 * b3;
      w % 0x1_0000 == b0 + 0x100 * b1 && w / 0x1_0000 == b2 + 0x100 * b3
  {
  }
}
