/**
  What the blocks of the file system mean (fs.h, fs.c): the free map, the block
  references of the inodes, and who owns each data block.
 */
module FsState {
  import opened Blocks
  import opened Inodes

  const NINDIRECT: nat := 128
  const MAXFILE: nat := 140
  const MAXBYTES: nat := 71680   // MAXFILE * BSIZE

  // Block references per inode: 12 direct, the indirect block, its 128 entries.
  const NSLOTS: nat := 141
  const IND: nat := 12

  /** The superblock, and the number of metadata blocks that precede the data. */
  datatype Super = Super(size: nat, ninodes: nat, inodestart: nat, bmapstart: nat, nmeta: nat)

  predicate SuperOk(sb: Super) {
    && 2 <= sb.inodestart && sb.inodestart + sb.ninodes / IPB + 1 <= sb.bmapstart
    && sb.bmapstart + sb.size / BPB + 1 <= sb.nmeta <= sb.size < 0x1_0000_0000
  }

  /**
    blocks is what bread returns for each block; inodes is the current value of each
    inode: the in-core copy of a cached one, otherwise the one on the disk.
   */
  datatype Fs = Fs(blocks: seq<Block>, inodes: seq<Inode>)

  predicate Shaped(sb: Super, fs: Fs) {
    && SuperOk(sb) && |fs.blocks| == sb.size && |fs.inodes| == sb.ninodes
    && forall i :: 0 <= i < |fs.inodes| ==> fs.inodes[i].size <= MAXBYTES
  }

  function BBlock(sb: Super, b: nat): nat { sb.bmapstart + b / BPB }
  function IBlock(sb: Super, i: nat): nat { sb.inodestart + i / IPB }

  predicate Used(sb: Super, blocks: seq<Block>, b: nat)
    requires BBlock(sb, b) < |blocks|
  {
    GetBit(blocks[BBlock(sb, b)], b % BPB)
  }

  /** The inode on the disk. */
  function OnDisk(sb: Super, fs: Fs, i: nat): Inode
    requires Shaped(sb, fs) && i < sb.ninodes
  {
    ReadInode(fs.blocks[IBlock(sb, i)], i % IPB)
  }

  /** The free map has one bit to a block from bmapstart on, and there are 64 bytes to an inode from inodestart on. */
  lemma {:induction false} DiskLayout(sb: Super, fs: Fs, b: nat, i: nat)
    requires Shaped(sb, fs) && b < sb.size && i < sb.ninodes
    ensures sb.bmapstart + b / 4096 < |fs.blocks| && sb.inodestart + i / 8 < |fs.blocks|
    ensures Used(sb, fs.blocks, b) <==> fs.blocks[sb.bmapstart + b / 4096][b % 4096 / 8] / Pow2(b % 8) % 2 == 1
    ensures OnDisk(sb, fs, i) == ReadInode(fs.blocks[sb.inodestart + i / 8], i % 8)
  {
    hide ReadInode, GetBit, Pow2;
    MapBit(fs.blocks[BBlock(sb, b)], b);
  }

  lemma {:induction false} MapBit(m: Block, b: nat)
    ensures GetBit(m, b % BPB) <==> m[b % 4096 / 8] / Pow2(b % 8) % 2 == 1
  {
    hide GetBit, Pow2;
    GetBitIs(m, b % BPB);
    LowBits(b);
  }

  lemma LowBits(b: nat)
    ensures b % 4096 % 8 == b % 8
  {
    assert b == 8 * (512 * (b / 4096)) + b % 4096;
  }

  /** Entry e of an indirect block. */
  function Entry(blocks: seq<Block>, ind: Word, e: nat): (b: Word)
    requires e < NINDIRECT
  {
    if ind == 0 || ind >= |blocks| then 0 else GetWord(blocks[ind], e)
  }

  /** Block reference k of an inode; 0 means none. */
  function Ref(fs: Fs, i: nat, k: nat): (b: Word)
    requires i < |fs.inodes| && k < NSLOTS
  {
    if k <= IND then fs.inodes[i].addrs[k] else Entry(fs.blocks, fs.inodes[i].addrs[IND], k - 13)
  }

  /** The reference for file block bn. */
  function Slot(bn: nat): nat {
    if bn < NDIRECT then bn else bn + 1
  }

  type Owners = map<nat, (nat, nat)>

  /**
    Block ownership: every reference points at a data block that belongs to that
    one reference, and the free map marks the metadata and the owned blocks and no others.
   */
  ghost predicate Own(sb: Super, fs: Fs, owner: Owners) {
    && Shaped(sb, fs)
    && (forall i, k :: 0 <= i < sb.ninodes && 0 <= k < NSLOTS && Ref(fs, i, k) != 0 ==>
          Ref(fs, i, k) in owner && owner[Ref(fs, i, k)] == (i, k))
    && (forall b :: b in owner ==>
          && sb.nmeta <= b < sb.size && owner[b].0 < sb.ninodes && owner[b].1 < NSLOTS
          && Ref(fs, owner[b].0, owner[b].1) == b)
    && (forall b :: 0 <= b < sb.size ==> (Used(sb, fs.blocks, b) <==> b < sb.nmeta || b in owner))
  }

  function BlockAt(blocks: seq<Block>, a: Word): Block {
    if a == 0 || a >= |blocks| then Zero() else blocks[a]
  }

  /** File block bn; a hole reads as zeroes. */
  function FileBlock(fs: Fs, i: nat, bn: nat): Block
    requires i < |fs.inodes| && bn < MAXFILE
  {
    BlockAt(fs.blocks, Ref(fs, i, Slot(bn)))
  }

  function FileBlocks(fs: Fs, i: nat): (f: seq<Block>)
    requires i < |fs.inodes|
    ensures |f| == MAXFILE
  {
    seq(MAXFILE, bn requires 0 <= bn < MAXFILE => FileBlock(fs, i, bn))
  }

  /** The first MAXBYTES bytes of the file, past the end included. */
  function Flat(f: seq<Block>): (s: seq<Byte>)
    requires |f| == MAXFILE
    ensures |s| == MAXBYTES
  {
    seq(MAXBYTES, p requires 0 <= p < MAXBYTES => f[p / 512][p % 512])
  }

  /** The contents of a file. */
  function Content(fs: Fs, i: nat): (s: seq<Byte>)
    requires i < |fs.inodes| && fs.inodes[i].size <= MAXBYTES
    ensures |s| == fs.inodes[i].size
  {
    Flat(FileBlocks(fs, i))[..fs.inodes[i].size]
  }

  /** s with the bytes at off replaced by t. */
  function Splice<T>(s: seq<T>, off: nat, t: seq<T>): (r: seq<T>)
    requires off + |t| <= |s|
  {
    s[..off] + t + s[off + |t|..]
  }

  lemma SpliceTwice<T>(s: seq<T>, off: nat, t: seq<T>, u: seq<T>)
    requires off + |t| + |u| <= |s|
    ensures Splice(Splice(s, off, t), off + |t|, u) == Splice(s, off, t + u)
  {
  }

  /** Rewriting part of one block rewrites that part of the file. */
  lemma FlatSplice(f: seq<Block>, bn: nat, o: nat, t: seq<Byte>)
    requires |f| == MAXFILE && bn < MAXFILE && o + |t| <= 512
    ensures |Splice(f[bn], o, t)| == 512
    ensures Flat(f[bn := Splice(f[bn], o, t)]) == Splice(Flat(f), 512 * bn + o, t)
  {
    var g, off := f[bn := Splice(f[bn], o, t)], 512 * bn + o;
    forall p | 0 <= p < MAXBYTES
      ensures Flat(g)[p] == Splice(Flat(f), off, t)[p]
    {
      if p / 512 == bn {
        assert p == 512 * bn + p % 512;
      }
    }
  }

  /** Two states in which every file reads the same. */
  ghost predicate SameFiles(fs: Fs, fs': Fs) {
    && |fs.inodes| == |fs'.inodes|
    && forall i :: 0 <= i < |fs.inodes| ==> FileBlocks(fs', i) == FileBlocks(fs, i)
  }

  ghost predicate SameRefs(fs: Fs, fs': Fs) {
    && |fs.inodes| == |fs'.inodes|
    && forall i, k :: 0 <= i < |fs.inodes| && 0 <= k < NSLOTS ==> Ref(fs', i, k) == Ref(fs, i, k)
  }

  /** Writing a data block keeps every reference and the ownership of blocks. */
  lemma DataOwn(sb: Super, fs: Fs, owner: Owners, i: nat, bn: nat, blk: Block)
    requires Own(sb, fs, owner) && i < sb.ninodes && bn < MAXFILE && Ref(fs, i, Slot(bn)) != 0
    ensures Ref(fs, i, Slot(bn)) < sb.size
    ensures var fs' := fs.(blocks := fs.blocks[Ref(fs, i, Slot(bn)) := blk]);
      && Own(sb, fs', owner)
      && (forall j, k :: 0 <= j < sb.ninodes && 0 <= k < NSLOTS ==> Ref(fs', j, k) == Ref(fs, j, k))
  {
    hide GetWord, GetBit, Bit;
    var a := Ref(fs, i, Slot(bn));
    assert a in owner && owner[a] == (i, Slot(bn));
    var fs' := fs.(blocks := fs.blocks[a := blk]);
    forall j, k | 0 <= j < sb.ninodes && 0 <= k < NSLOTS
      ensures Ref(fs', j, k) == Ref(fs, j, k)
    {
      assert Ref(fs, j, IND) != a;
    }
    forall b | 0 <= b < sb.size
      ensures Used(sb, fs'.blocks, b) == Used(sb, fs.blocks, b)
    {
    }
  }

  /** It changes that block of that file and nothing else. */
  lemma DataWrite(sb: Super, fs: Fs, owner: Owners, i: nat, bn: nat, blk: Block)
    requires Own(sb, fs, owner) && i < sb.ninodes && bn < MAXFILE && Ref(fs, i, Slot(bn)) != 0
    ensures Ref(fs, i, Slot(bn)) < sb.size
    ensures var fs' := fs.(blocks := fs.blocks[Ref(fs, i, Slot(bn)) := blk]);
      && Own(sb, fs', owner)
      && (forall j, k :: 0 <= j < sb.ninodes && 0 <= k < NSLOTS ==> Ref(fs', j, k) == Ref(fs, j, k))
      && FileBlocks(fs', i) == FileBlocks(fs, i)[bn := blk]
      && (forall j :: 0 <= j < sb.ninodes && j != i ==> FileBlocks(fs', j) == FileBlocks(fs, j))
  {
    hide Used, Ref;
    DataOwn(sb, fs, owner, i, bn, blk);
    var a := Ref(fs, i, Slot(bn));
    var fs' := fs.(blocks := fs.blocks[a := blk]);
    forall j, n | 0 <= j < sb.ninodes && 0 <= n < MAXFILE
      ensures FileBlock(fs', j, n) == if j == i && n == bn then blk else FileBlock(fs, j, n)
    {
      assert Ref(fs, j, Slot(n)) == a ==> owner[a] == (j, Slot(n));
    }
    assert FileBlocks(fs', i) == FileBlocks(fs, i)[bn := blk];
  }

  /** The blocks after balloc has taken b: its bit set, its contents zeroed. */
  function Balloced(sb: Super, blocks: seq<Block>, b: nat): (r: seq<Block>)
    requires SuperOk(sb) && |blocks| == sb.size && b < sb.size && !Used(sb, blocks, b)
    ensures |r| == |blocks|
  {
    blocks[BBlock(sb, b) := SetBit(blocks[BBlock(sb, b)], b % BPB)][b := Zero()]
  }

  lemma BallocedUsed(sb: Super, blocks: seq<Block>, b: nat)
    requires SuperOk(sb) && |blocks| == sb.size && sb.nmeta <= b < sb.size && !Used(sb, blocks, b)
    ensures forall c :: 0 <= c < sb.size ==> (Used(sb, Balloced(sb, blocks, b), c) <==> c == b || Used(sb, blocks, c))
  {
    hide GetBit, SetBit;
    forall c | 0 <= c < sb.size
      ensures Used(sb, Balloced(sb, blocks, b), c) <==> c == b || Used(sb, blocks, c)
    {
      assert c == BPB * (c / BPB) + c % BPB && b == BPB * (b / BPB) + b % BPB;
    }
  }

  /** Writing a data block leaves the free map alone. */
  lemma UsedSame(sb: Super, blocks: seq<Block>, m: nat, blk: Block)
    requires SuperOk(sb) && |blocks| == sb.size && sb.nmeta <= m < sb.size
    ensures forall c :: 0 <= c < sb.size ==> (Used(sb, blocks[m := blk], c) <==> Used(sb, blocks, c))
  {
    hide GetBit;
  }

  /** fs' has one reference more than fs: number s of inode i, to block b. */
  ghost predicate OneMoreRef(sb: Super, fs: Fs, fs': Fs, i: nat, s: nat, b: nat) {
    && |fs.inodes| == |fs'.inodes| == sb.ninodes
    && forall j, k :: 0 <= j < sb.ninodes && 0 <= k < NSLOTS ==>
         Ref(fs', j, k) == if j == i && k == s then b else Ref(fs, j, k)
  }

  /** Everything before the free map, the inodes in particular, is as before. */
  ghost predicate MetaKept(sb: Super, blocks: seq<Block>, blocks': seq<Block>) {
    && sb.bmapstart <= |blocks| == |blocks'|
    && forall c :: 0 <= c < sb.bmapstart ==> blocks'[c] == blocks[c]
  }

  // A bread, the new contents of the block, log_write and brelse.
  datatype Put = Put(b: nat, data: Block)

  /** The blocks after these writes. */
  function Replayed(blocks: seq<Block>, ws: seq<Put>): (r: seq<Block>)
    ensures |r| == |blocks|
  {
    if ws == [] then blocks else
      var n := |ws| - 1;
      var r := Replayed(blocks, ws[..n]);
      if ws[n].b < |r| then r[ws[n].b := ws[n].data] else r
  }

  function Numbers(ws: seq<Put>): set<nat> {
    set k | 0 <= k < |ws| :: ws[k].b
  }

  /** These are the logged writes that lead from one state of the blocks to the other; none is to the log itself. */
  ghost predicate Writes(sb: Super, blocks: seq<Block>, blocks': seq<Block>, logged: set<nat>, logged': set<nat>,
                         ws: seq<Put>) {
    && blocks' == Replayed(blocks, ws) && logged' == logged + Numbers(ws)
    && forall k :: 0 <= k < |ws| ==> sb.inodestart <= ws[k].b < |blocks|
  }

  /** All changes are logged writes. */
  ghost predicate Logs(sb: Super, blocks: seq<Block>, blocks': seq<Block>, logged: set<nat>, logged': set<nat>) {
    exists ws :: Writes(sb, blocks, blocks', logged, logged', ws)
  }

  /** So what was logged covers every block that changed. */
  lemma LogsCover(sb: Super, blocks: seq<Block>, blocks': seq<Block>, logged: set<nat>, logged': set<nat>)
    requires Logs(sb, blocks, blocks', logged, logged')
    ensures |blocks'| == |blocks| && logged <= logged'
    ensures forall b :: b in logged' && b !in logged ==> sb.inodestart <= b < |blocks|
    ensures forall b :: 0 <= b < |blocks| && b !in logged' ==> blocks'[b] == blocks[b]
  {
    var ws: seq<Put> :| Writes(sb, blocks, blocks', logged, logged', ws);
    forall b | 0 <= b < |blocks| && b !in logged'
      ensures blocks'[b] == blocks[b]
    {
      assert forall k :: 0 <= k < |ws| ==> ws[k].b in logged';
      ReplayedAt(blocks, ws, b);
    }
  }

  lemma {:induction false} ReplayedAt(blocks: seq<Block>, ws: seq<Put>, b: nat)
    requires b < |blocks| && forall k :: 0 <= k < |ws| ==> ws[k].b != b
    ensures Replayed(blocks, ws)[b] == blocks[b]
  {
    if ws != [] {
      ReplayedAt(blocks, ws[..|ws| - 1], b);
    }
  }

  lemma {:induction false} ReplayedMore(blocks: seq<Block>, ws: seq<Put>, vs: seq<Put>)
    ensures Replayed(blocks, ws + vs) == Replayed(Replayed(blocks, ws), vs)
    decreases |vs|
  {
    if vs == [] {
      assert ws + vs == ws;
    } else {
      var n := |vs| - 1;
      assert (ws + vs)[..|ws| + n] == ws + vs[..n];
      ReplayedMore(blocks, ws, vs[..n]);
    }
  }

  lemma LogsNone(sb: Super, blocks: seq<Block>, logged: set<nat>)
    ensures Logs(sb, blocks, blocks, logged, logged)
  {
    assert Numbers([]) == {};
    assert Writes(sb, blocks, blocks, logged, logged, []);
  }

  lemma LogsOne(sb: Super, blocks: seq<Block>, logged: set<nat>, b: nat, blk: Block)
    requires sb.inodestart <= b < |blocks|
    ensures Logs(sb, blocks, blocks[b := blk], logged, logged + {b})
  {
    var ws := [Put(b, blk)];
    assert ws[..0] == [] && Replayed(blocks, []) == blocks;
    assert ws[0].b == b;
    assert Numbers(ws) == {b};
    assert Writes(sb, blocks, blocks[b := blk], logged, logged + {b}, ws);
  }

  lemma LogsTrans(sb: Super, b0: seq<Block>, b1: seq<Block>, b2: seq<Block>, l0: set<nat>, l1: set<nat>, l2: set<nat>)
    requires Logs(sb, b0, b1, l0, l1) && Logs(sb, b1, b2, l1, l2)
    ensures Logs(sb, b0, b2, l0, l2)
  {
    var ws: seq<Put> :| Writes(sb, b0, b1, l0, l1, ws);
    var vs: seq<Put> :| Writes(sb, b1, b2, l1, l2, vs);
    ReplayedMore(b0, ws, vs);
    NumbersMore(ws, vs);
    assert Writes(sb, b0, b2, l0, l2, ws + vs);
  }

  lemma NumbersMore(ws: seq<Put>, vs: seq<Put>)
    ensures Numbers(ws + vs) == Numbers(ws) + Numbers(vs)
  {
    var all := ws + vs;
    forall b | b in Numbers(ws) + Numbers(vs)
      ensures b in Numbers(all)
    {
      if b in Numbers(ws) {
        var k :| 0 <= k < |ws| && ws[k].b == b;
        assert all[k].b == b;
      } else {
        var k :| 0 <= k < |vs| && vs[k].b == b;
        assert all[|ws| + k].b == b;
      }
    }
  }

  /** Filling one empty reference with a fresh zeroed block: ownership is kept and no file reads differently. */
  lemma AllocSlot(sb: Super, fs: Fs, fs': Fs, owner: Owners, i: nat, s: nat, b: nat)
    requires Own(sb, fs, owner) && Shaped(sb, fs') && i < sb.ninodes && s < NSLOTS
    requires Ref(fs, i, s) == 0 && sb.nmeta <= b < sb.size && b !in owner
    requires OneMoreRef(sb, fs, fs', i, s, b)
    requires forall c :: 0 <= c < sb.size ==> (Used(sb, fs'.blocks, c) <==> c == b || Used(sb, fs.blocks, c))
    requires fs'.blocks[b] == Zero()
    requires forall c :: c in owner && owner[c].1 != IND ==> fs'.blocks[c] == fs.blocks[c]
    ensures Own(sb, fs', owner[b := (i, s)]) && SameFiles(fs, fs')
  {
    hide GetWord, GetBit, Bit, Ref, Entry, Used;
    forall j | 0 <= j < sb.ninodes
      ensures FileBlocks(fs', j) == FileBlocks(fs, j)
    {
      forall n | 0 <= n < MAXFILE
        ensures FileBlock(fs', j, n) == FileBlock(fs, j, n)
      {
        var a := Ref(fs, j, Slot(n));
        assert a != 0 ==> a in owner && owner[a] == (j, Slot(n));
      }
    }
  }

  /** bmap filling a direct reference, or the reference to the indirect block. */
  lemma AllocDirect(sb: Super, fs: Fs, owner: Owners, i: nat, s: nat, b: nat)
    requires Own(sb, fs, owner) && i < sb.ninodes && s <= IND && Ref(fs, i, s) == 0
    requires b < sb.size && !Used(sb, fs.blocks, b)
    ensures var fs' := Fs(Balloced(sb, fs.blocks, b),
                          fs.inodes[i := fs.inodes[i].(addrs := fs.inodes[i].addrs[s := b])]);
      && b >= sb.nmeta && Own(sb, fs', owner[b := (i, s)]) && SameFiles(fs, fs')
      && OneMoreRef(sb, fs, fs', i, s, b) && MetaKept(sb, fs.blocks, fs'.blocks)
  {
    hide GetWord, GetBit, Bit, SetBit, Used, SameFiles;
    var fs' := Fs(Balloced(sb, fs.blocks, b), fs.inodes[i := fs.inodes[i].(addrs := fs.inodes[i].addrs[s := b])]);
    BallocedUsed(sb, fs.blocks, b);
    ZeroWords();
    forall j, k | 0 <= j < sb.ninodes && 0 <= k < NSLOTS
      ensures Ref(fs', j, k) == if j == i && k == s then b else Ref(fs, j, k)
    {
      assert Ref(fs, j, IND) != 0 ==> Ref(fs, j, IND) in owner;
    }
    AllocSlot(sb, fs, fs', owner, i, s, b);
  }

  /** bmap filling an entry of the indirect block. */
  lemma AllocEntry(sb: Super, fs: Fs, owner: Owners, i: nat, e: nat, b: nat)
    requires Own(sb, fs, owner) && i < sb.ninodes && e < NINDIRECT && Ref(fs, i, IND) != 0 && Ref(fs, i, 13 + e) == 0
    requires b < sb.size && !Used(sb, fs.blocks, b)
    ensures Ref(fs, i, IND) < sb.size && Ref(fs, i, IND) != b
      && Balloced(sb, fs.blocks, b)[Ref(fs, i, IND)] == fs.blocks[Ref(fs, i, IND)]
    ensures var ind := Ref(fs, i, IND);
      var fs' := fs.(blocks := Balloced(sb, fs.blocks, b)[ind := PutWord(fs.blocks[ind], e, b)]);
      && b >= sb.nmeta && Own(sb, fs', owner[b := (i, 13 + e)]) && SameFiles(fs, fs')
      && OneMoreRef(sb, fs, fs', i, 13 + e, b) && MetaKept(sb, fs.blocks, fs'.blocks)
  {
    hide GetWord, GetBit, Bit, SetBit, PutWord, Used, SameFiles, OneMoreRef, Entry;
    var ind := Ref(fs, i, IND);
    assert ind in owner && owner[ind] == (i, IND);
    var fs' := fs.(blocks := Balloced(sb, fs.blocks, b)[ind := PutWord(fs.blocks[ind], e, b)]);
    BallocedUsed(sb, fs.blocks, b);
    UsedSame(sb, Balloced(sb, fs.blocks, b), ind, PutWord(fs.blocks[ind], e, b));
    EntryRefs(sb, fs, fs', owner, i, e, b);
    AllocSlot(sb, fs, fs', owner, i, 13 + e, b);
  }

  lemma EntryRefs(sb: Super, fs: Fs, fs': Fs, owner: Owners, i: nat, e: nat, b: nat)
    requires Own(sb, fs, owner) && i < sb.ninodes && e < NINDIRECT && Ref(fs, i, IND) in owner
    requires b !in owner && b < sb.size && |fs'.blocks| == sb.size && fs'.inodes == fs.inodes
    requires fs'.blocks[Ref(fs, i, IND)] == PutWord(fs.blocks[Ref(fs, i, IND)], e, b)
    requires forall c :: c in owner && c != Ref(fs, i, IND) ==> fs'.blocks[c] == fs.blocks[c]
    ensures OneMoreRef(sb, fs, fs', i, 13 + e, b)
  {
    hide GetWord, GetBit, Bit, PutWord, Used;
    forall j, k | 0 <= j < sb.ninodes && 0 <= k < NSLOTS
      ensures Ref(fs', j, k) == if j == i && k == 13 + e then b else Ref(fs, j, k)
    {
      var r := Ref(fs, j, IND);
      if r != 0 {
        assert r in owner && owner[r] == (j, IND);
        assert k > IND ==>
          Ref(fs, j, k) == GetWord(fs.blocks[r], k - 13) && Ref(fs', j, k) == GetWord(fs'.blocks[r], k - 13);
      }
    }
  }

  /** The blocks after iupdate has written inode i. */
  function Iupdated(sb: Super, fs: Fs, i: nat): (r: seq<Block>)
    requires Shaped(sb, fs) && i < sb.ninodes
  {
    fs.blocks[IBlock(sb, i) := WriteInode(fs.blocks[IBlock(sb, i)], i % IPB, fs.inodes[i])]
  }

  lemma IupdateKeeps(sb: Super, fs: Fs, owner: Owners, i: nat)
    requires Own(sb, fs, owner) && i < sb.ninodes
    ensures var fs' := fs.(blocks := Iupdated(sb, fs, i));
      && Own(sb, fs', owner) && SameFiles(fs, fs') && SameRefs(fs, fs')
      && OnDisk(sb, fs', i) == fs.inodes[i]
      && forall j :: 0 <= j < sb.ninodes && j != i ==> OnDisk(sb, fs', j) == OnDisk(sb, fs, j)
  {
    hide GetWord, GetBit, Bit, ReadInode, WriteInode;
    var fs' := fs.(blocks := Iupdated(sb, fs, i));
    WriteInodeReads(fs.blocks[IBlock(sb, i)], i % IPB, fs.inodes[i]);
    MetaWrite(sb, fs, owner, IBlock(sb, i), fs'.blocks[IBlock(sb, i)]);
    forall j | 0 <= j < sb.ninodes && j != i
      ensures OnDisk(sb, fs', j) == OnDisk(sb, fs, j)
    {
      assert j == IPB * (j / IPB) + j % IPB && i == IPB * (i / IPB) + i % IPB;
    }
  }

  /** Writing a metadata block outside the free map disturbs no reference and no file. */
  lemma MetaWrite(sb: Super, fs: Fs, owner: Owners, m: nat, blk: Block)
    requires Own(sb, fs, owner) && m < sb.bmapstart
    ensures var fs' := fs.(blocks := fs.blocks[m := blk]);
      Own(sb, fs', owner) && SameFiles(fs, fs') && SameRefs(fs, fs')
  {
    hide GetWord, GetBit, Bit;
    var fs' := fs.(blocks := fs.blocks[m := blk]);
    forall j, k | 0 <= j < sb.ninodes && 0 <= k < NSLOTS
      ensures Ref(fs', j, k) == Ref(fs, j, k)
    {
      assert Ref(fs, j, IND) != 0 ==> Ref(fs, j, IND) in owner;
    }
    forall b | 0 <= b < sb.size
      ensures Used(sb, fs'.blocks, b) == Used(sb, fs.blocks, b)
    {
    }
    forall j | 0 <= j < sb.ninodes
      ensures FileBlocks(fs', j) == FileBlocks(fs, j)
    {
      forall n | 0 <= n < MAXFILE
        ensures FileBlock(fs', j, n) == FileBlock(fs, j, n)
      {
        assert Ref(fs, j, Slot(n)) != 0 ==> Ref(fs, j, Slot(n)) in owner;
      }
    }
  }
}
