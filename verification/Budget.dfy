/**
  Disks on which a chunk of filewrite logs as much as it can: ten blocks for a file without
  holes, eleven for one with.  Their five free blocks have their bits in five different
  blocks of the free map; everything else is owned.
 */
module BudgetCases {
  import opened Blocks
  import opened Inodes
  import opened FsState
  import opened FreeBlocks
  import opened FileSys
  import opened File
  import GroupCommit
  import Mkfs

  const T_FILE: Half := 2

  // Blocks that the files from 1 on own, 141 each: all from 4096 on but every 4096th.
  const BULK: nat := 16380

  /** With `own`, file 0 has its first ten blocks, which come before block 4095. */
  function Disk(own: bool): Super {
    Super(20480, 200, 32, 58, if own then 4085 else 4095)
  }

  function Nth(t: nat): nat {
    4096 + t + t / 4095
  }

  function Rank(b: nat): nat
    requires 4096 <= b
  {
    b - 4096 - (b - 4096) / 4096
  }

  lemma NthRank(t: nat)
    requires t < BULK
    ensures 4096 <= Nth(t) < 20480 && Nth(t) % 4096 != 4095 && Rank(Nth(t)) == t
  {
  }

  lemma RankNth(b: nat)
    requires 4096 <= b < 20480 && b % 4096 != 4095
    ensures Rank(b) < BULK && Nth(Rank(b)) == b
  {
  }

  /** Reference k of file j. */
  function Link(own: bool, j: nat, k: nat): Word
    requires k < NSLOTS
  {
    if j == 0 then (if own && k < 10 then 4085 + k else 0)
    else if 141 * (j - 1) + k < BULK then NthRank(141 * (j - 1) + k); Nth(141 * (j - 1) + k)
    else 0
  }

  predicate Taken(own: bool, b: nat) {
    (own && 4085 <= b < 4095) || (4096 <= b < 20480 && b % 4096 != 4095)
  }

  /** Whose block it is. */
  function Holder(own: bool, b: nat): (nat, nat)
    requires Taken(own, b)
  {
    if b < 4096 then (0, b - 4085) else (Rank(b) / 141 + 1, Rank(b) % 141)
  }

  lemma HolderLinks(own: bool, b: nat)
    requires Taken(own, b)
    ensures Holder(own, b).0 < 200 && Holder(own, b).1 < NSLOTS && Link(own, Holder(own, b).0, Holder(own, b).1) == b
  {
    if b >= 4096 {
      RankNth(b);
    }
  }

  lemma LinkHeld(own: bool, j: nat, k: nat)
    requires k < NSLOTS && Link(own, j, k) != 0
    ensures Taken(own, Link(own, j, k)) && Holder(own, Link(own, j, k)) == (j, k)
  {
    if j > 0 {
      var t := 141 * (j - 1) + k;
      NthRank(t);
      assert t / 141 == j - 1 && t % 141 == k;
    }
  }

  /** A block with these words, and one with these bits. */
  function WordBlock(ws: seq<Word>): (r: Block)
    requires |ws| <= WPB
    ensures forall e :: 0 <= e < |ws| ==> GetWord(r, e) == ws[e]
  {
    if ws == [] then Zero() else
      var n := |ws| - 1;
      PutWord(WordBlock(ws[..n]), n, ws[n])
  }

  function BitBlock(bs: seq<bool>): (r: Block)
    requires |bs| <= BPB
    ensures forall i :: 0 <= i < BPB ==> (GetBit(r, i) <==> i < |bs| && bs[i])
  {
    if bs == [] then
      Mkfs.ZeroBits();
      Zero()
    else
      var n := |bs| - 1;
      if bs[n] then SetBit(BitBlock(bs[..n]), n) else BitBlock(bs[..n])
  }

  predicate InUse(own: bool, b: nat) {
    b < Disk(own).nmeta || Taken(own, b)
  }

  /** Block b of the disk. */
  function Contents(own: bool, b: nat): Block {
    if 58 <= b < 63 then BitBlock(seq(BPB, i requires 0 <= i < BPB => InUse(own, BPB * (b - 58) + i)))
    else if Taken(own, b) && Holder(own, b).1 == IND then
      WordBlock(seq(NINDIRECT, e requires 0 <= e < NINDIRECT => Link(own, Holder(own, b).0, 13 + e)))
    else Zero()
  }

  /** The last byte of file 0 is the first of file block 9. */
  function InodeAt(own: bool, j: nat): Inode {
    Inode(T_FILE, 0, 0, 1, if j == 0 then 4609 else 0, seq(13, k requires 0 <= k < 13 => Link(own, j, k)))
  }

  function Full(own: bool): Fs {
    Fs(seq(20480, b requires 0 <= b < 20480 => Contents(own, b)), seq(200, j requires 0 <= j < 200 => InodeAt(own, j)))
  }

  ghost function Owner(own: bool): Owners {
    map b: nat | 0 <= b < 20480 && Taken(own, b) :: Holder(own, b)
  }

  lemma FullRefs(own: bool, j: nat, k: nat)
    requires j < 200 && k < NSLOTS
    ensures Ref(Full(own), j, k) == Link(own, j, k)
  {
    hide GetWord, WordBlock, BitBlock;
    if k > IND {
      var ind := Link(own, j, IND);
      assert Full(own).inodes[j].addrs[IND] == ind;
      if ind != 0 {
        LinkHeld(own, j, IND);
        var ws := seq(NINDIRECT, e requires 0 <= e < NINDIRECT => Link(own, j, 13 + e));
        assert Full(own).blocks[ind] == WordBlock(ws);
        WordAt(ws, k - 13);
      }
    }
  }

  lemma {:induction false} WordAt(ws: seq<Word>, e: nat)
    requires |ws| <= WPB && e < |ws|
    ensures GetWord(WordBlock(ws), e) == ws[e]
  {
  }

  lemma FullUsed(own: bool, b: nat)
    requires b < 20480
    ensures Used(Disk(own), Full(own).blocks, b) <==> InUse(own, b)
  {
    hide GetBit, WordBlock, BitBlock;
    var m := b / BPB;
    var bs := seq(BPB, i requires 0 <= i < BPB => InUse(own, BPB * m + i));
    assert Full(own).blocks[58 + m] == BitBlock(bs);
    BitAt(bs, b % BPB);
  }

  lemma {:induction false} BitAt(bs: seq<bool>, i: nat)
    requires |bs| <= BPB && i < |bs|
    ensures GetBit(BitBlock(bs), i) <==> bs[i]
  {
  }

  lemma FullOwn(own: bool)
    ensures Own(Disk(own), Full(own), Owner(own))
  {
    hide Contents, Used, Ref, Link, Holder;
    var sb, fs, owner := Disk(own), Full(own), Owner(own);
    forall j, k | 0 <= j < sb.ninodes && 0 <= k < NSLOTS
      ensures Ref(fs, j, k) == Link(own, j, k)
      ensures Ref(fs, j, k) != 0 ==> Ref(fs, j, k) in owner && owner[Ref(fs, j, k)] == (j, k)
    {
      FullRefs(own, j, k);
      if Link(own, j, k) != 0 {
        LinkHeld(own, j, k);
      }
    }
    forall b | b in owner
      ensures sb.nmeta <= b < sb.size && owner[b].0 < sb.ninodes && owner[b].1 < NSLOTS
        && Ref(fs, owner[b].0, owner[b].1) == b
    {
      HolderLinks(own, b);
    }
    forall b | 0 <= b < sb.size
      ensures Used(sb, fs.blocks, b) <==> b < sb.nmeta || b in owner
    {
      FullUsed(own, b);
    }
  }

  const SPARE: set<nat> := {4095, 8191, 12287, 16383, 20479}

  lemma SpareIs(own: bool, b: nat)
    ensures Disk(own).nmeta <= b < 20480 && !Taken(own, b) <==> b in SPARE
  {
  }

  lemma OwnerHas(own: bool, b: nat)
    ensures b in Owner(own) <==> b < 20480 && Taken(own, b)
  {
    hide Holder;
  }

  lemma FullFree(own: bool)
    ensures Shaped(Disk(own), Full(own)) && Free(Disk(own), Full(own).blocks) == SPARE
  {
    hide Own, Full, Free, Owner, Taken;
    FullOwn(own);
    OwnShaped(Disk(own), Full(own), Owner(own));
    FreeOwn(Disk(own), Full(own), Owner(own));
    forall b: nat
      ensures b in Free(Disk(own), Full(own).blocks) <==> b in SPARE
    {
      SpareIs(own, b);
      OwnerHas(own, b);
    }
  }

  lemma SpareMaps(sb: Super)
    requires sb.bmapstart == 58
    ensures MapsOf(sb, {4095, 8191, 12287, 16383}) == {58, 59, 60, 61} && MapsOf(sb, SPARE) == {58, 59, 60, 61, 62}
  {
    hide MapsOf;
    MapsOne(sb, 4095);
    MapsOne(sb, 8191);
    MapsOne(sb, 12287);
    MapsOne(sb, 16383);
    MapsOne(sb, 20479);
    MapsUnion(sb, {4095}, {8191});
    MapsUnion(sb, {4095} + {8191}, {12287});
    MapsUnion(sb, {4095} + {8191} + {12287}, {16383});
    MapsUnion(sb, {4095} + {8191} + {12287} + {16383}, {20479});
    assert {4095} + {8191} + {12287} + {16383} == {4095, 8191, 12287, 16383};
    assert {4095, 8191, 12287, 16383} + {20479} == SPARE;
  }

  /** All five, or all but the last, have their bits in different free-map blocks. */
  lemma SpareCount(own: bool)
    ensures Shaped(Disk(own), Full(own)) && |SPARE| == 5
    ensures MapCount(Disk(own), Full(own).blocks, 5) == 5 && MapCount(Disk(own), Full(own).blocks, 4) == 4
  {
    hide Full, Free, Lowest, MapsOf;
    FullFree(own);
    TakenLowest(SPARE, {}, 5);
    TakenLowest(SPARE, {20479}, 4);
    assert SPARE - {} == SPARE && SPARE - {20479} == {4095, 8191, 12287, 16383};
    SpareMaps(Disk(own));
  }

  /** The chunk at the end of file 0 reaches from file block 9 to file block 12. */
  lemma FullCost(own: bool)
    ensures Shaped(Disk(own), Full(own)) && NoHoles(Full(own), 0) == own
    ensures ChunkCost(Disk(own), Full(own), 0, 4609, MAXCHUNK) == if own then 10 else 11
    ensures Needed(Full(own), 0, 9, 13) == (if own then 4 else 5) && End(4609, MAXCHUNK) == 13
  {
    hide Own, Used, Contents, Free, MapCount, Nth;
    FullFree(own);
    SpareCount(own);
    var fs := Full(own);
    forall k | 0 <= k < NSLOTS
      ensures Ref(fs, 0, k) == Link(own, 0, k)
    {
      FullRefs(own, 0, k);
    }
    hide Ref, Full;
    HoleCount(fs, own);
    assert Ref(fs, 0, Slot(12)) == 0;
    assert !own ==> Ref(fs, 0, Slot(9)) == 0;
  }

  lemma {:induction false} HoleCount(fs: Fs, own: bool)
    requires 0 < |fs.inodes| && forall k :: 0 <= k < NSLOTS ==> Ref(fs, 0, k) == Link(own, 0, k)
    ensures Holes(fs, 0, 9, 13) == if own then 3 else 4
  {
    hide Ref;
    assert Holes(fs, 0, 9, 9) == 0;
    assert Holes(fs, 0, 9, 10) == if own then 0 else 1;
    assert Holes(fs, 0, 9, 11) == Holes(fs, 0, 9, 10) + 1;
    assert Holes(fs, 0, 9, 12) == Holes(fs, 0, 9, 10) + 2;
  }

  /** A chunk that logs as much as an operation may, and one that logs a block more. */
  method Most(own: bool) returns (fs: FileSystem, r: Io)
    ensures r == Written(MAXCHUNK)
      && |fs.logged| == if own then GroupCommit.MAXOPBLOCKS else GroupCommit.MAXOPBLOCKS + 1
  {
    hide Own, Used, Contents, Free, ChunkCost, Needed, NoHoles, Full, Owner;
    FullOwn(own);
    FullCost(own);
    FullFree(own);
    SpareCount(own);
    fs := new FileSystem(Disk(own), Full(own), Owner(own));
    FileZero(own);
    r := Chunk(fs, 0, seq(MAXCHUNK, i => 1), 4609);
  }

  lemma FileZero(own: bool)
    ensures |Full(own).inodes| == 200 && Full(own).inodes[0].size == 4609 && Full(own).inodes[0].typ == T_FILE
  {
  }
}
