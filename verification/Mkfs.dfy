/**
  mkfs.c: the image it builds satisfies the ownership invariant that the kernel's
  file system keeps.  Blocks are handed out in order, so at every moment the free map
  that the final balloc would write describes the image.
 */
module Mkfs {
  import opened Blocks
  import opened Inodes
  import opened FsState
  import opened FileSys
  import RedoLog

  // FSSIZE, NINODES and the layout mkfs computes: boot block, superblock, 30 log
  // blocks, 26 inode blocks, 1 free-map block.
  const MKFS: Super := Super(1000, 200, 32, 58, 59)

  /** The bitmap built by mkfs's balloc: the first `used` bits. */
  function MapBlock(used: nat): (b: Block)
    requires used <= BPB
    ensures forall i :: 0 <= i < BPB ==> (GetBit(b, i) <==> i < used)
  {
    if used == 0 then
      ZeroBits();
      Zero()
    else SetBit(MapBlock(used - 1), used - 1)
  }

  lemma ZeroBits()
    ensures forall i :: 0 <= i < BPB ==> !GetBit(Zero(), i)
  {
    forall k: nat
      ensures !Bit(0, k)
    {
      NoBits(k);
    }
  }

  lemma {:induction false} NoBits(k: nat)
    ensures !Bit(0, k)
  {
    if k > 0 {
      NoBits(k - 1);
    }
  }

  /** The image as it will be once balloc(used) has written the free map. */
  function Mapped(sb: Super, image: seq<Block>, used: nat): seq<Block>
    requires sb.bmapstart < |image| && used <= BPB
  {
    image[sb.bmapstart := MapBlock(used)]
  }

  /** One free-map block, whose bits reach past the image: FSSIZE/BPB + 1 is 1. */
  predicate LayoutOk(sb: Super) {
    SuperOk(sb) && sb.bmapstart + 1 == sb.nmeta && sb.size < BPB
  }

  /** Handing out the next block is what the kernel's balloc would do. */
  lemma NextBlock(sb: Super, image: seq<Block>, used: nat)
    requires LayoutOk(sb) && |image| == sb.size && sb.nmeta <= used < sb.size && image[used] == Zero()
    ensures !Used(sb, Mapped(sb, image, used), used)
    ensures Balloced(sb, Mapped(sb, image, used), used) == Mapped(sb, image, used + 1)
  {
    hide GetBit, SetBit;
  }

  /** Exactly the blocks below the end of the file exist. */
  ghost predicate Exact(fs: Fs, i: nat)
    requires i < |fs.inodes|
  {
    forall bn :: 0 <= bn < MAXFILE ==> (Ref(fs, i, Slot(bn)) != 0 <==> 512 * bn < fs.inodes[i].size)
  }

  /** Nothing is written between the superblock and the inodes. */
  predicate LogClear(sb: Super, image: seq<Block>) {
    forall b :: 2 <= b < sb.inodestart && b < |image| ==> image[b] == Zero()
  }

  class Image {
    const sb: Super
    var image: seq<Block>
    var freeblock: nat
    var freeinode: nat

    // The inodes, with the one iappend is working on.
    ghost var inodes: seq<Inode>
    ghost var owner: Owners

    ghost function View(): Fs
      reads this
      requires sb.bmapstart < |image| && freeblock <= BPB
    {
      Fs(Mapped(sb, image, freeblock), inodes)
    }

    ghost predicate Valid()
      reads this
    {
      && LayoutOk(sb) && |image| == sb.size && |inodes| == sb.ninodes
      && sb.nmeta <= freeblock <= sb.size
      && Own(sb, View(), owner)
      && (forall b :: freeblock <= b < sb.size ==> image[b] == Zero())
      && LogClear(sb, image)
    }

    /** Every inode is on the disk as it should be. */
    ghost predicate Synced()
      reads this
      requires LayoutOk(sb) && |image| == sb.size && |inodes| == sb.ninodes
    {
      forall i :: 0 <= i < sb.ninodes ==> ReadInode(image[IBlock(sb, i)], i % IPB) == inodes[i]
    }

    /** The zeroed image with its superblock. */
    constructor (sb: Super, superblock: Block)
      requires LayoutOk(sb)
      ensures Valid() && Synced() && this.sb == sb && freeinode == 1 && freeblock == sb.nmeta
      ensures forall i :: 0 <= i < sb.ninodes ==> inodes[i] == Blank() && Exact(View(), i) && Content(View(), i) == []
    {
      this.sb := sb;
      image := seq(sb.size, b => Zero())[1 := superblock];
      freeblock, freeinode := sb.nmeta, 1;
      inodes := seq(sb.ninodes, i => Blank());
      owner := map[];
      new;
      BlankRefs(View());
      BlankReads();
      MapUsed(sb, image, freeblock);
    }

    /** The first half of iappend's loop: the sector for file block fbn, taking new blocks as needed. */
    method Place(inum: nat, din: Inode, fbn: nat) returns (ok: bool, din': Inode, x: nat)
      requires Valid() && inum < sb.ninodes && inodes[inum] == din && fbn < MAXFILE
      modifies this`image, this`freeblock, this`inodes, this`owner
      ensures Valid()
      ensures ok ==>
        && inodes == old(inodes)[inum := din'] && din' == din.(addrs := din'.addrs)
        && SameFiles(old(View()), View()) && MetaKept(sb, old(image), image)
        && x == Ref(View(), inum, Slot(fbn)) != 0
        && (forall j, n :: 0 <= j < sb.ninodes && 0 <= n < MAXFILE && !(j == inum && n == fbn) ==>
              Ref(View(), j, Slot(n)) == Ref(old(View()), j, Slot(n)))
      ensures !ok ==> freeblock == sb.size
    {
      hide GetWord, GetBit, Bit, Used, SameFiles, Own, OneMoreRef, Mapped, MapBlock;
      din' := din;
      FilesSame(View());
      if fbn < NDIRECT {
        if din.addrs[fbn] == 0 {
          ok := TakeField(inum, fbn);
          if !ok {
            return false, din, 0;
          }
          din' := din.(addrs := din.addrs[fbn := freeblock - 1]);
        }
        return true, din', din'.addrs[fbn];
      }
      if din.addrs[IND] == 0 {
        ok := TakeField(inum, IND);
        if !ok {
          return false, din, 0;
        }
        din' := din.(addrs := din.addrs[IND := freeblock - 1]);
      }
      label indirect:
      OwnShaped(sb, View(), owner);
      MappedAt(sb, image, freeblock);
      assert Ref(View(), inum, IND) == din'.addrs[IND];
      x := GetWord(image[din'.addrs[IND]], fbn - NDIRECT);
      assert x == Ref(View(), inum, 13 + fbn - NDIRECT);
      if x == 0 {
        ok := TakeEntry(inum, fbn - NDIRECT, din'.addrs[IND]);
        if !ok {
          return false, din, 0;
        }
        x := freeblock - 1;
        FilesTrans(old(View()), old@indirect(View()), View());
      }
      return true, din', x;
    }

    /** The next block goes into an address field of the inode. */
    method TakeField(inum: nat, s: nat) returns (ok: bool)
      requires Valid() && inum < sb.ninodes && s <= IND && inodes[inum].addrs[s] == 0
      modifies this`freeblock, this`inodes, this`owner
      ensures Valid()
      ensures !ok ==> freeblock == sb.size
      ensures ok ==>
        && freeblock == old(freeblock) + 1
        && inodes == old(inodes)[inum := old(inodes[inum]).(addrs := old(inodes[inum]).addrs[s := old(freeblock)])]
        && SameFiles(old(View()), View())
        && Ref(View(), inum, s) == old(freeblock)
        && (forall j, k :: 0 <= j < sb.ninodes && 0 <= k < NSLOTS && !(j == inum && k == s) ==>
              Ref(View(), j, k) == Ref(old(View()), j, k))
    {
      hide GetWord, GetBit, Bit, Used, SameFiles, Mapped, Balloced;
      // The read of the new block, past the end of the image, exits.
      if freeblock >= sb.size {
        return false;
      }
      NextBlock(sb, image, freeblock);
      AllocDirect(sb, View(), owner, inum, s, freeblock);
      inodes := inodes[inum := inodes[inum].(addrs := inodes[inum].addrs[s := freeblock])];
      owner := owner[freeblock := (inum, s)];
      freeblock := freeblock + 1;
      return true;
    }

    /** The next block goes into an entry of the indirect block, which is written. */
    method TakeEntry(inum: nat, e: nat, ind: nat) returns (ok: bool)
      requires Valid() && inum < sb.ninodes && e < NINDIRECT && ind != 0
      requires ind == Ref(View(), inum, IND) && Ref(View(), inum, 13 + e) == 0
      modifies this`image, this`freeblock, this`owner
      ensures Valid()
      ensures !ok ==> freeblock == sb.size
      ensures ok ==>
        && freeblock == old(freeblock) + 1
        && SameFiles(old(View()), View()) && MetaKept(sb, old(image), image)
        && Ref(View(), inum, 13 + e) == old(freeblock)
        && (forall j, k :: 0 <= j < sb.ninodes && 0 <= k < NSLOTS && !(j == inum && k == 13 + e) ==>
              Ref(View(), j, k) == Ref(old(View()), j, k))
    {
      hide GetWord, PutWord, GetBit, Bit, Used, SameFiles, Balloced, Entry, MapBlock, Own, Ref;
      if freeblock >= sb.size {
        return false;
      }
      NextBlock(sb, image, freeblock);
      AllocEntry(sb, View(), owner, inum, e, freeblock);
      OwnedBelow(sb, View(), owner, inum, IND, freeblock);
      image := image[ind := PutWord(image[ind], e, freeblock)];
      owner := owner[freeblock := (inum, 13 + e)];
      freeblock := freeblock + 1;
      assert View().blocks == Mapped(sb, old(image), freeblock)[ind := PutWord(old(image)[ind], e, old(freeblock))];
      return true;
    }

    /** winode: the inode goes to its place; nothing else changes. */
    method Winode(inum: nat, din: Inode)
      requires Valid() && inum < sb.ninodes && inodes[inum] == din
      modifies this`image
      ensures Valid() && SameFiles(old(View()), View()) && SameRefs(old(View()), View())
      ensures ReadInode(image[IBlock(sb, inum)], inum % IPB) == din
      ensures forall j :: 0 <= j < sb.ninodes && j != inum ==>
        ReadInode(image[IBlock(sb, j)], j % IPB) == ReadInode(old(image)[IBlock(sb, j)], j % IPB)
    {
      hide GetWord, GetBit, Bit, Used, SameFiles, SameRefs, ReadInode, WriteInode, MapBlock, Ref;
      IupdateKeeps(sb, View(), owner, inum);
      ghost var fs := View();
      var m := IBlock(sb, inum);
      image := image[m := WriteInode(image[m], inum % IPB, din)];
      assert View().blocks == Iupdated(sb, fs, inum);
      DiskInodes(sb, old(image), freeblock, inodes);
      DiskInodes(sb, image, freeblock, inodes);
    }

    /**
      ialloc.  It does not look at the number of inodes: one past it that still falls in the
      inode blocks or the free-map block (which the last step rewrites) leaves the file
      system sound but is lost; one past those overwrites a data block; and one past the
      image exits (false).
     */
    method Ialloc(typ: Half) returns (ok: bool, inum: nat)
      requires Valid() && Synced() && (freeinode < sb.ninodes ==> inodes[freeinode] == Blank())
      modifies this`image, this`freeinode, this`inodes
      ensures inum == old(freeinode) && freeinode == inum + 1
      ensures ok <==> IBlock(sb, inum) < sb.size
      ensures inum < sb.ninodes ==> inodes == old(inodes)[inum := Blank().(typ := typ, nlink := 1)]
      ensures inum >= sb.ninodes ==> inodes == old(inodes)
      ensures ok && IBlock(sb, inum) <= sb.bmapstart ==>
        Valid() && Synced() && SameFiles(old(View()), View()) && SameRefs(old(View()), View())
      ensures inum < sb.ninodes ==> ok && IBlock(sb, inum) < sb.bmapstart
      ensures ok && IBlock(sb, inum) > sb.bmapstart ==>
        image == old(image)[IBlock(sb, inum) := WriteInode(old(image)[IBlock(sb, inum)], inum % IPB,
                                                           Blank().(typ := typ, nlink := 1))]
      ensures !ok ==> image == old(image)
    {
      hide GetWord, GetBit, Bit, Used, SameFiles, ReadInode, WriteInode, MapBlock, Ref, Own, SameRefs;
      inum := freeinode;
      freeinode := freeinode + 1;
      var din := Blank().(typ := typ, nlink := 1);
      if inum < sb.ninodes {
        FieldsOnly(sb, View(), owner, inum, din);
        inodes := inodes[inum := din];
        label named:
        Winode(inum, din);
        FilesTrans(old(View()), old@named(View()), View());
        RefsTrans(old(View()), old@named(View()), View());
        return true, inum;
      }
      var m := IBlock(sb, inum);
      if m >= sb.size {
        return false, inum;
      }
      image := image[m := WriteInode(image[m], inum % IPB, din)];
      if m <= sb.bmapstart {
        StrayInode(sb, old(image), freeblock, inodes, owner, inum, din);
      }
      return true, inum;
    }

    /** One pass of iappend's loop. */
    method AppendPiece(inum: nat, din: Inode, off: nat, t: seq<Byte>) returns (ok: bool, din': Inode)
      requires Valid() && inum < sb.ninodes && inodes[inum] == din
      requires off + |t| <= MAXBYTES && |t| > 0 && off % 512 + |t| <= 512
      modifies this`image, this`freeblock, this`inodes, this`owner
      ensures Valid()
      ensures ok ==>
        && inodes == old(inodes)[inum := din'] && din' == din.(addrs := din'.addrs) && MetaKept(sb, old(image), image)
        && Flat(FileBlocks(View(), inum)) == Splice(Flat(FileBlocks(old(View()), inum)), off, t)
        && (forall j :: 0 <= j < sb.ninodes && j != inum ==> FileBlocks(View(), j) == FileBlocks(old(View()), j))
        && Ref(View(), inum, Slot(off / 512)) != 0
        && (forall j, n :: 0 <= j < sb.ninodes && 0 <= n < MAXFILE && !(j == inum && n == off / 512) ==>
              Ref(View(), j, Slot(n)) == Ref(old(View()), j, Slot(n)))
      ensures !ok ==> freeblock == sb.size
    {
      hide GetWord, GetBit, Bit, Used, Ref, MapBlock, Flat, FileBlocks, Entry;
      var fbn, o := off / 512, off % 512;
      var x;
      ok, din', x := Place(inum, din, fbn);
      if ok {
        ghost var fs := View();
        OwnedBelow(sb, fs, owner, inum, Slot(fbn), freeblock);
        FileBlockAt(fs, inum, fbn);
        var blk := Splice(image[x], o, t);
        FlatSplice(FileBlocks(fs, inum), fbn, o, t);
        DataWrite(sb, fs, owner, inum, fbn, blk);
        label placed:
        image := image[x := blk];
        assert View().blocks == fs.blocks[x := blk];
        assert off == 512 * fbn + o;
      }
    }

    /**
      iappend: the file grows by exactly p, its blocks stay without holes or spares, and
      the other files are untouched.  False is an exit: the file too long or the image full.
     */
    method Iappend(inum: nat, p: seq<Byte>) returns (ok: bool)
      requires Valid() && Synced() && inum < sb.ninodes && Exact(View(), inum)
      modifies this`image, this`freeblock, this`inodes, this`owner
      ensures Valid()
      ensures ok ==>
        && Synced() && Exact(View(), inum)
        && Content(View(), inum) == Content(old(View()), inum) + p
        && (forall j :: 0 <= j < sb.ninodes && j != inum ==>
              inodes[j] == old(inodes)[j] && FileBlocks(View(), j) == FileBlocks(old(View()), j)
              && (Exact(old(View()), j) ==> Exact(View(), j)))
        && inodes[inum] == old(inodes[inum]).(size := inodes[inum].size, addrs := inodes[inum].addrs)
      ensures !ok ==> freeblock == sb.size || old(inodes[inum]).size + |p| > MAXBYTES
    {
      hide GetWord, GetBit, Bit, Used, Ref, MapBlock, Flat, FileBlocks, Entry, Own, Mapped, ReadInode, Exact, Splice;
      OwnShaped(sb, View(), owner);
      ghost var fs := View();
      var din := ReadInode(image[IBlock(sb, inum)], inum % IPB);
      ghost var off0: nat := din.size;
      var off: nat := din.size;
      var tot := 0;
      SpliceNone(Flat(FileBlocks(fs, inum)), off0);
      GrownNone(fs, inum);
      while tot < |p|
        invariant 0 <= tot <= |p| && off == off0 + tot <= MAXBYTES
        invariant Valid() && |inodes| == sb.ninodes
        invariant inodes == old(inodes)[inum := din] && din == old(inodes[inum]).(addrs := din.addrs)
        invariant MetaKept(sb, old(image), image)
        invariant Flat(FileBlocks(View(), inum)) == Splice(Flat(FileBlocks(fs, inum)), off0, p[..tot])
        invariant forall j :: 0 <= j < sb.ninodes && j != inum ==> FileBlocks(View(), j) == FileBlocks(fs, j)
        invariant Grown(fs, View(), inum, off)
      {
        if off / 512 >= MAXFILE {
          return false;
        }
        var n1 := Piece(off, |p| - tot);
        PieceFits(off, n1);
        ghost var fs1 := View();
        ok, din := AppendPiece(inum, din, off, p[tot..tot + n1]);
        if !ok {
          return;
        }
        GrownMore(fs, fs1, View(), inum, off, n1);
        SpliceTwice(Flat(FileBlocks(fs, inum)), off0, p[..tot], p[tot..tot + n1]);
        assert p[..tot] + p[tot..tot + n1] == p[..tot + n1];
        tot := tot + n1;
        off := off + n1;
      }
      assert p[..tot] == p;
      din := din.(size := off);
      FieldsOnly(sb, View(), owner, inum, din);
      ghost var fs2 := View();
      inodes := inodes[inum := din];
      OwnShaped(sb, View(), owner);
      ghost var fs3 := View();
      Winode(inum, din);
      OwnShaped(sb, View(), owner);
      FilesTrans(fs2, fs3, View());
      GrownExact(fs, fs2, View(), inum, off);
      Appended(fs, View(), inum, p);
      return true;
    }

    /** mkfs's balloc: write the free map for the first `freeblock` blocks. */
    method WriteMap()
      requires Valid()
      modifies this`image
      ensures Valid() && image == Mapped(sb, old(image), freeblock) && View() == old(View())
    {
      hide GetBit, SetBit, Bit, Own, Ref;
      var buf := Zero();
      var i := 0;
      while i < freeblock
        invariant 0 <= i <= freeblock && buf == MapBlock(i)
      {
        buf := SetBit(buf, i);
        i := i + 1;
      }
      image := image[sb.bmapstart := buf];
      assert Mapped(sb, image, freeblock) == Mapped(sb, old(image), freeblock);
    }

    /** iappend, for what every inode reads as. */
    method Append(inum: nat, p: seq<Byte>, ghost cs: seq<seq<Byte>>) returns (ok: bool)
      requires Valid() && Synced() && inum < sb.ninodes && All(View(), cs)
      modifies this`image, this`freeblock, this`inodes, this`owner
      ensures Valid() && |inodes| == |old(inodes)| == |cs|
      ensures ok ==> Synced() && All(View(), cs[inum := cs[inum] + p]) && inodes[inum].typ == old(inodes)[inum].typ
      ensures ok ==> forall i :: 0 <= i < sb.ninodes && i != inum ==> inodes[i] == old(inodes)[i]
      ensures !ok ==> freeblock == sb.size || |cs[inum]| + |p| > MAXBYTES
    {
      hide Own, Exact, ReadInode, Ref, FileBlocks, GetBit, Used;
      ghost var fs := View();
      assert Has(fs, inum, cs[inum]);
      OwnShaped(sb, fs, owner);
      ok := Iappend(inum, p);
      OwnShaped(sb, View(), owner);
      if ok {
        assert Has(View(), inum, cs[inum] + p);
        AllAppended(fs, View(), cs, inum, p);
      }
    }

    /** The root directory with its first two entries. */
    method Start() returns (ok: bool)
      requires Valid() && Synced() && freeinode == ROOTINO && 2 <= sb.ninodes && All(View(), Nothing(sb.ninodes))
      requires forall i :: 0 <= i < sb.ninodes ==> inodes[i] == Blank()
      modifies this
      ensures Valid()
      ensures ok ==> Synced() && freeinode == 2 && All(View(), Contents([], sb.ninodes)) && inodes[ROOTINO].typ == T_DIR
      ensures ok ==> forall i :: 2 <= i < sb.ninodes ==> inodes[i] == Blank()
      ensures !ok ==> freeblock == sb.size
    {
      hide Own, Exact, ReadInode, Ref, FileBlocks, GetBit, Used, All, Dirent, Contents;
      ghost var fs, cs := View(), Nothing(sb.ninodes);
      var root;
      ok, root := Ialloc(T_DIR);
      OwnShaped(sb, View(), owner);
      AllSame(fs, View(), cs);
      ok := Append(root, Dirent(root, [46]), cs);
      if !ok {
        return;
      }
      cs := cs[root := cs[root] + Dirent(root, [46])];
      ok := Append(root, Dirent(root, [46, 46]), cs);
      RootFirst(sb.ninodes);
      assert cs[root := cs[root] + Dirent(root, [46, 46])] == Contents([], sb.ninodes);
    }

    /** One file: an inode, an entry for it in the root directory, and its bytes in pieces of a block. */
    method AddFile(ghost files: seq<Source>, f: Source) returns (ok: bool)
      requires Valid() && Synced() && freeinode == |files| + 2 < sb.ninodes && All(View(), Contents(files, sb.ninodes))
      requires 16 * sb.ninodes < MAXBYTES && forall i :: freeinode <= i < sb.ninodes ==> inodes[i] == Blank()
      modifies this
      ensures Valid()
      ensures ok ==> Synced() && freeinode == |files| + 3 && All(View(), Contents(files + [f], sb.ninodes))
      ensures ok ==> inodes[ROOTINO].typ == old(inodes)[ROOTINO].typ
      ensures ok ==> forall i :: freeinode <= i < sb.ninodes ==> inodes[i] == Blank()
      ensures !ok ==> freeblock == sb.size || |f.data| > MAXBYTES
    {
      hide Own, Exact, ReadInode, Ref, FileBlocks, GetBit, Used, All, Dirent, Root;
      ghost var fs, cs := View(), Contents(files, sb.ninodes);
      OneMoreFile(files, f, sb.ninodes);
      assert |cs[ROOTINO]| == 16 * (|files| + 2);
      var inum;
      ok, inum := Ialloc(T_FILE);
      OwnShaped(sb, View(), owner);
      AllSame(fs, View(), cs);
      ok := Append(ROOTINO, Dirent(inum, Bare(f.name)), cs);
      if !ok {
        return;
      }
      cs := cs[ROOTINO := cs[ROOTINO] + Dirent(inum, Bare(f.name))];
      ghost var done := cs;
      assert cs == done[inum := f.data[..0]];
      var off := 0;
      while off < |f.data|
        invariant 0 <= off <= |f.data| && Valid() && Synced() && |inodes| == sb.ninodes && freeinode == |files| + 3
        invariant cs == done[inum := f.data[..off]] && All(View(), cs)
          && inodes[ROOTINO].typ == old(inodes)[ROOTINO].typ
        invariant forall i :: freeinode <= i < sb.ninodes ==> inodes[i] == Blank()
        modifies this`image, this`freeblock, this`inodes, this`owner
      {
        var cc := if |f.data| - off < 512 then |f.data| - off else 512;
        ok := Append(inum, f.data[off..off + cc], cs);
        if !ok {
          return;
        }
        assert f.data[..off] + f.data[off..off + cc] == f.data[..off + cc];
        cs := cs[inum := cs[inum] + f.data[off..off + cc]];
        off := off + cc;
      }
      assert f.data[..off] == f.data;
      return true;
    }

    /** The loop over the arguments. */
    method AddFiles(files: seq<Source>) returns (ok: bool)
      requires Valid() && Synced() && freeinode == 2 && |files| + 2 <= sb.ninodes && 16 * sb.ninodes < MAXBYTES
      requires All(View(), Contents([], sb.ninodes)) && forall i :: 2 <= i < sb.ninodes ==> inodes[i] == Blank()
      modifies this
      ensures Valid()
      ensures ok ==>
        Synced() && All(View(), Contents(files, sb.ninodes)) && inodes[ROOTINO].typ == old(inodes)[ROOTINO].typ
      ensures !ok ==> freeblock == sb.size || exists k :: 0 <= k < |files| && |files[k].data| > MAXBYTES
    {
      hide Own, Exact, Content, Root, ReadInode, Ref, FileBlocks, GetBit, Used, All, Contents, Mapped;
      assert files[..0] == [];
      var k := 0;
      while k < |files|
        invariant 0 <= k <= |files| && Valid() && Synced() && freeinode == k + 2
        invariant All(View(), Contents(files[..k], sb.ninodes)) && inodes[ROOTINO].typ == old(inodes)[ROOTINO].typ
        invariant forall i :: k + 2 <= i < sb.ninodes ==> inodes[i] == Blank()
        modifies this
      {
        ok := AddFile(files[..k], files[k]);
        if !ok {
          return;
        }
        assert files[..k] + [files[k]] == files[..k + 1];
        k := k + 1;
      }
      assert files[..k] == files;
      return true;
    }

    /**
      The end of mkfs: round the root directory up and write the free map.  The result is
      a sound file system, and the rounding leaves a hole exactly when the directory ended
      on a block boundary.
     */
    method Finish(root: nat)
      requires Valid() && Synced() && root < sb.ninodes && Exact(View(), root) && inodes[root].size < MAXBYTES
      modifies this`image, this`inodes
      ensures Valid() && Synced()
      ensures inodes == old(inodes)[root := old(inodes[root]).(size := (old(inodes[root]).size / 512 + 1) * 512)]
      ensures NoHoles(View(), root) <==> old(inodes[root]).size % 512 != 0
      ensures SameFiles(old(View()), View()) && SameRefs(old(View()), View())
      ensures View() == Fs(image, inodes) && Own(sb, Fs(image, inodes), owner)
    {
      hide GetWord, GetBit, Bit, Used, Ref, MapBlock, FileBlocks;
      hide Entry, Mapped, ReadInode, Exact, NoHoles, Own, SameRefs;
      ghost var fs := View();
      var din := ReadInode(image[IBlock(sb, root)], root % IPB);
      var off := (din.size / 512 + 1) * 512;
      din := din.(size := off);
      FieldsOnly(sb, View(), owner, root, din);
      inodes := inodes[root := din];
      ghost var fs1 := View();
      Winode(root, din);
      ghost var fs2 := View();
      FilesTrans(fs, fs1, fs2);
      RefsTrans(fs, fs1, fs2);
      RootHole(fs, fs2, root);
      ghost var synced := image;
      WriteMap();
      MappedAt(sb, synced, freeblock);
    }
  }

  /** A record past the last inode disturbs no inode, and the free-map block is rewritten anyway. */
  lemma StrayInode(sb: Super, image: seq<Block>, used: nat, inodes: seq<Inode>, owner: Owners, inum: nat, din: Inode)
    requires LayoutOk(sb) && |image| == sb.size && used <= sb.size && |inodes| == sb.ninodes && sb.ninodes <= inum
    requires IBlock(sb, inum) <= sb.bmapstart && Own(sb, Fs(Mapped(sb, image, used), inodes), owner)
    ensures var m := IBlock(sb, inum);
      var image' := image[m := WriteInode(image[m], inum % IPB, din)];
      var fs, fs' := Fs(Mapped(sb, image, used), inodes), Fs(Mapped(sb, image', used), inodes);
      && Own(sb, fs', owner) && SameFiles(fs, fs') && SameRefs(fs, fs')
      && forall i :: 0 <= i < sb.ninodes ==>
        ReadInode(image'[IBlock(sb, i)], i % IPB) == ReadInode(image[IBlock(sb, i)], i % IPB)
  {
    hide GetWord, GetBit, Bit, Used, SameFiles, ReadInode, WriteInode, MapBlock, Ref, Own, SameRefs;
    var m := IBlock(sb, inum);
    var blk := WriteInode(image[m], inum % IPB, din);
    var image' := image[m := blk];
    var fs := Fs(Mapped(sb, image, used), inodes);
    WriteInodeReads(image[m], inum % IPB, din);
    if m < sb.bmapstart {
      MetaWrite(sb, fs, owner, m, blk);
      assert Mapped(sb, image', used) == fs.blocks[m := blk];
    } else {
      assert Mapped(sb, image', used) == Mapped(sb, image, used);
      FilesSame(fs);
      RefsSame(fs);
    }
  }

  lemma RefsSame(fs: Fs)
    ensures SameRefs(fs, fs)
  {
  }

  lemma RefsTrans(fs: Fs, fs1: Fs, fs2: Fs)
    requires SameRefs(fs, fs1) && SameRefs(fs1, fs2)
    ensures SameRefs(fs, fs2)
  {
    hide Ref;
  }

  /** Rounding up a file without spare blocks opens a hole only from a block boundary. */
  lemma RootHole(fs: Fs, fs': Fs, i: nat)
    requires i < |fs.inodes| && Exact(fs, i) && SameRefs(fs, fs') && fs.inodes[i].size < MAXBYTES
    requires fs'.inodes[i].size == (fs.inodes[i].size / 512 + 1) * 512
    ensures NoHoles(fs', i) <==> fs.inodes[i].size % 512 != 0
  {
    hide Ref;
    var bn := fs.inodes[i].size / 512;
    assert Ref(fs', i, Slot(bn)) == Ref(fs, i, Slot(bn));
    if fs.inodes[i].size % 512 != 0 {
      forall n | 0 <= n < MAXFILE && 512 * n < fs'.inodes[i].size
        ensures Ref(fs', i, Slot(n)) != 0
      {
        assert Ref(fs', i, Slot(n)) == Ref(fs, i, Slot(n));
      }
    }
  }

  /** The file blocks of inode i are exactly those below off, and other inodes' references are as before. */
  ghost predicate Grown(fs: Fs, fs': Fs, i: nat, off: nat) {
    && i < |fs.inodes| == |fs'.inodes|
    && (forall n :: 0 <= n < MAXFILE ==> (Ref(fs', i, Slot(n)) != 0 <==> 512 * n < off))
    && (forall j, n :: 0 <= j < |fs.inodes| && 0 <= n < MAXFILE && j != i ==>
      Ref(fs', j, Slot(n)) == Ref(fs, j, Slot(n)))
  }

  lemma GrownNone(fs: Fs, i: nat)
    requires i < |fs.inodes| && Exact(fs, i)
    ensures Grown(fs, fs, i, fs.inodes[i].size)
  {
    hide Ref;
  }

  lemma GrownMore(fs: Fs, fs1: Fs, fs2: Fs, i: nat, off: nat, n: nat)
    requires Grown(fs, fs1, i, off) && |fs2.inodes| == |fs.inodes| && off / 512 < MAXFILE && n > 0
      && off % 512 + n <= 512
    requires Ref(fs2, i, Slot(off / 512)) != 0
    requires forall j, m :: 0 <= j < |fs.inodes| && 0 <= m < MAXFILE && !(j == i && m == off / 512) ==>
      Ref(fs2, j, Slot(m)) == Ref(fs1, j, Slot(m))
    ensures Grown(fs, fs2, i, off + n)
  {
    hide Ref;
    forall m | 0 <= m < MAXFILE
      ensures Ref(fs2, i, Slot(m)) != 0 <==> 512 * m < off + n
    {
      assert m != off / 512 ==> Ref(fs2, i, Slot(m)) == Ref(fs1, i, Slot(m));
    }
  }

  lemma GrownExact(fs: Fs, fs1: Fs, fs2: Fs, i: nat, off: nat)
    requires Grown(fs, fs1, i, off) && |fs2.inodes| == |fs1.inodes| && fs2.inodes[i].size == off
    requires forall j, k :: 0 <= j < |fs1.inodes| && 0 <= k < NSLOTS ==> Ref(fs2, j, k) == Ref(fs1, j, k)
    requires forall j :: 0 <= j < |fs.inodes| && j != i ==> fs2.inodes[j] == fs.inodes[j]
    ensures Exact(fs2, i)
    ensures forall j :: 0 <= j < |fs.inodes| && j != i && Exact(fs, j) ==> Exact(fs2, j)
  {
    hide Ref;
  }

  lemma PieceFits(off: nat, n: nat)
    requires off / 512 < MAXFILE && off % 512 + n <= 512
    ensures off + n <= MAXBYTES
  {
  }

  lemma Appended(fs: Fs, fs': Fs, i: nat, p: seq<Byte>)
    requires i < |fs.inodes| == |fs'.inodes| && fs.inodes[i].size + |p| == fs'.inodes[i].size <= MAXBYTES
    requires Flat(FileBlocks(fs', i)) == Splice(Flat(FileBlocks(fs, i)), fs.inodes[i].size, p)
    ensures Content(fs', i) == Content(fs, i) + p
  {
    hide Flat, FileBlocks;
  }

  /** The inodes on the disk do not depend on the free map. */
  lemma DiskInodes(sb: Super, image: seq<Block>, used: nat, inodes: seq<Inode>)
    requires LayoutOk(sb) && |image| == sb.size && used <= sb.size && Shaped(sb, Fs(Mapped(sb, image, used), inodes))
    ensures forall i :: 0 <= i < sb.ninodes ==>
      OnDisk(sb, Fs(Mapped(sb, image, used), inodes), i) == ReadInode(image[IBlock(sb, i)], i % IPB)
  {
    hide ReadInode, MapBlock;
  }

  function Blank(): Inode {
    Inode(0, 0, 0, 0, 0, seq(13, k => 0))
  }

  lemma BlankReads()
    ensures forall s :: 0 <= s < IPB ==> ReadInode(Zero(), s) == Blank()
  {
    hide GetWord;
    ZeroWords();
  }

  lemma BlankRefs(fs: Fs)
    requires forall i :: 0 <= i < |fs.inodes| ==> fs.inodes[i] == Blank()
    ensures forall i, k :: 0 <= i < |fs.inodes| && 0 <= k < NSLOTS ==> Ref(fs, i, k) == 0
  {
  }

  lemma MapUsed(sb: Super, image: seq<Block>, used: nat)
    requires LayoutOk(sb) && |image| == sb.size && used <= sb.size
    ensures forall b :: 0 <= b < sb.size ==> (Used(sb, Mapped(sb, image, used), b) <==> b < used)
  {
    hide GetBit;
  }

  lemma MappedAt(sb: Super, image: seq<Block>, used: nat)
    requires LayoutOk(sb) && |image| == sb.size && used <= sb.size
    ensures forall b :: 0 <= b < sb.size && b != sb.bmapstart ==> Mapped(sb, image, used)[b] == image[b]
  {
  }

  /** Referenced blocks have been handed out. */
  lemma {:induction false} OwnedBelow(sb: Super, fs: Fs, owner: Owners, i: nat, k: nat, used: nat)
    requires LayoutOk(sb) && Own(sb, fs, owner) && i < sb.ninodes && k < NSLOTS && Ref(fs, i, k) != 0
    requires used <= sb.size && fs.blocks[sb.bmapstart] == MapBlock(used)
    ensures sb.nmeta <= Ref(fs, i, k) < used
  {
    hide GetBit, Bit, MapBlock;
    var b := Ref(fs, i, k);
    assert b in owner && Used(sb, fs.blocks, b);
  }

  // ---- The whole program.

  const ROOTINO: nat := 1
  const T_DIR: Half := 1
  const T_FILE: Half := 2

  datatype Source = Source(name: seq<Byte>, data: seq<Byte>)

  /** A directory entry: the inode number and the name, cut or padded to DIRSIZ bytes. */
  function Dirent(inum: nat, name: seq<Byte>): (d: seq<Byte>)
    ensures |d| == 16
  {
    [inum % 256, inum / 256 % 256] + seq(14, k requires 0 <= k => if k < |name| then name[k] else 0)
  }

  const UNDERSCORE: Byte := 95

  /** A file's name without the underscore that may stand in front. */
  function Bare(name: seq<Byte>): seq<Byte> {
    if name != [] && name[0] == UNDERSCORE then name[1..] else name
  }

  /** d is the entry of this inode under this name, as the kernel reads it. */
  ghost predicate Names(d: seq<Byte>, inum: nat, name: seq<Byte>) {
    && |d| == 16 && d[0] as int + 256 * d[1] as int == inum
    && forall k :: 0 <= k < 14 ==> d[2 + k] == if k < |name| then name[k] else 0
  }

  /** The entries of the root directory: itself twice, and the files in order. */
  function Root(files: seq<Source>): (d: seq<Byte>)
    ensures |d| == 16 * (|files| + 2)
  {
    if files == [] then Dirent(ROOTINO, [46]) + Dirent(ROOTINO, [46, 46])
    else Root(files[..|files| - 1]) + Dirent(|files| + 1, Bare(files[|files| - 1].name))
  }

  lemma DirentNames(inum: nat, name: seq<Byte>)
    requires inum < 0x1_0000
    ensures Names(Dirent(inum, name), inum, name)
  {
    assert inum / 256 % 256 == inum / 256;
  }

  /** A directory of itself under two names, and then file k under its name as inode k + 2. */
  ghost predicate Rooted(d: seq<Byte>, files: seq<Source>) {
    && |d| >= 16 * (|files| + 2) && Names(d[0..16], ROOTINO, [46]) && Names(d[16..32], ROOTINO, [46, 46])
    && forall k :: 0 <= k < |files| ==> Names(d[16 * (k + 2)..16 * (k + 3)], k + 2, Bare(files[k].name))
  }

  lemma {:induction false} RootNames(files: seq<Source>)
    requires |files| + 1 < 0x1_0000
    ensures Rooted(Root(files), files)
  {
    hide Dirent, Names, Bare;
    if files == [] {
      DirentNames(ROOTINO, [46]);
      DirentNames(ROOTINO, [46, 46]);
      assert Root(files)[0..16] == Dirent(ROOTINO, [46]) && Root(files)[16..32] == Dirent(ROOTINO, [46, 46]);
    } else {
      var n := |files| - 1;
      var r, d := Root(files[..n]), Dirent(n + 2, Bare(files[n].name));
      RootNames(files[..n]);
      DirentNames(n + 2, Bare(files[n].name));
      assert Root(files) == r + d && |r| == 16 * (n + 2);
      assert Root(files)[0..16] == r[0..16] && Root(files)[16..32] == r[16..32];
      forall k | 0 <= k < |files|
        ensures Names(Root(files)[16 * (k + 2)..16 * (k + 3)], k + 2, Bare(files[k].name))
      {
        if k < n {
          assert Root(files)[16 * (k + 2)..16 * (k + 3)] == r[16 * (k + 2)..16 * (k + 3)];
        } else {
          assert Root(files)[16 * (k + 2)..16 * (k + 3)] == d;
        }
      }
    }
  }

  lemma {:induction false} RootedBy(d: seq<Byte>, files: seq<Source>)
    requires Root(files) <= d && |files| + 1 < 0x1_0000
    ensures Rooted(d, files)
  {
    hide Root, Names, Bare;
    RootNames(files);
    var r := Root(files);
    assert d[0..16] == r[0..16] && d[16..32] == r[16..32];
    forall k | 0 <= k < |files|
      ensures Names(d[16 * (k + 2)..16 * (k + 3)], k + 2, Bare(files[k].name))
    {
      assert d[16 * (k + 2)..16 * (k + 3)] == r[16 * (k + 2)..16 * (k + 3)];
    }
  }

  function Nothing(n: nat): (cs: seq<seq<Byte>>)
    ensures |cs| == n && forall i :: 0 <= i < n ==> cs[i] == []
  {
    seq(n, i => [])
  }

  /** What inode i reads as: the root directory, a file, or nothing. */
  function ContentOf(files: seq<Source>, i: nat): seq<Byte> {
    if i == ROOTINO then Root(files) else if 2 <= i < |files| + 2 then files[i - 2].data else []
  }

  function Contents(files: seq<Source>, n: nat): (cs: seq<seq<Byte>>)
    ensures |cs| == n && forall i :: 0 <= i < n ==> cs[i] == ContentOf(files, i)
  {
    seq(n, i requires 0 <= i => ContentOf(files, i))
  }

  /**
    mkfs: the image is a sound file system in which the root directory names the given
    files and each file reads as given.  It exits only if the image or a file gets too big.
   */
  method Build(superblock: Block, files: seq<Source>) returns (ok: bool, img: Image)
    requires |files| + 2 <= MKFS.ninodes
    ensures fresh(img) && img.sb == MKFS
    ensures ok ==>
      img.Valid() && img.View() == Fs(img.image, img.inodes) && Own(MKFS, img.View(), img.owner) && img.Synced()
    ensures ok ==> RedoLog.Recoverable(RedoLog.Layout(2, 30), img.image)
    ensures ok ==> Root(files) <= Content(img.View(), ROOTINO) && img.inodes[ROOTINO].typ == T_DIR
    ensures ok ==> Rooted(Content(img.View(), ROOTINO), files)
    ensures ok ==> forall k :: 0 <= k < |files| ==> Stored(img.View(), k + 2, files[k].data)
    ensures ok ==> (NoHoles(img.View(), ROOTINO) <==> |files| % 32 != 30)
    ensures !ok ==> img.freeblock == MKFS.size || exists k :: 0 <= k < |files| && |files[k].data| > MAXBYTES
  {
    hide Own, Exact, Content, Root, Rooted, NoHoles, ReadInode, Ref, FileBlocks;
    hide GetBit, Used, All, Contents, Stored, SameFiles;
    hide SameRefs, Mapped, RedoLog.Recoverable, LogClear, MapBlock, Names;
    img := new Image(MKFS, superblock);
    BlankContents(img.View(), MKFS.ninodes);
    ok := img.Start();
    if !ok {
      return;
    }
    ok := img.AddFiles(files);
    if !ok {
      return;
    }
    ghost var fs := img.View();
    RootIs(fs, files, MKFS.ninodes);
    img.Finish(ROOTINO);
    Finished(fs, img.View(), files, MKFS.ninodes);
    EmptyLog(MKFS, img.image);
    RootedBy(Content(img.View(), ROOTINO), files);
    return true, img;
  }

  /** The file reads as given and has no holes. */
  ghost predicate Stored(fs: Fs, i: nat, data: seq<Byte>) {
    i < |fs.inodes| && fs.inodes[i].size <= MAXBYTES && Content(fs, i) == data && NoHoles(fs, i)
  }

  ghost predicate Has(fs: Fs, i: nat, c: seq<Byte>)
    requires i < |fs.inodes|
  {
    fs.inodes[i].size <= MAXBYTES && Exact(fs, i) && Content(fs, i) == c
  }

  /** Every inode reads as listed, without holes or spare blocks. */
  ghost predicate All(fs: Fs, cs: seq<seq<Byte>>) {
    |cs| == |fs.inodes| && forall i :: 0 <= i < |cs| ==> Has(fs, i, cs[i])
  }

  /** A first boot finds an empty log. */
  lemma EmptyLog(sb: Super, image: seq<Block>)
    requires SuperOk(sb) && |image| == sb.size && sb.inodestart == 32 && LogClear(sb, image)
    ensures RedoLog.Recoverable(RedoLog.Layout(2, 30), image)
  {
    hide GetWord;
    ZeroWords();
    assert image[2] == Zero();
    assert RedoLog.Entries(image[2]) == [];
  }

  lemma AllSame(fs: Fs, fs': Fs, cs: seq<seq<Byte>>)
    requires All(fs, cs) && SameFiles(fs, fs') && SameRefs(fs, fs')
    requires |fs'.inodes| == |fs.inodes| && forall i :: 0 <= i < |cs| ==> fs'.inodes[i].size == fs.inodes[i].size
    ensures All(fs', cs)
  {
    hide Ref, FileBlocks;
    forall i | 0 <= i < |cs|
      ensures Has(fs', i, cs[i])
    {
      assert Has(fs, i, cs[i]);
    }
  }

  lemma AllAppended(fs: Fs, fs': Fs, cs: seq<seq<Byte>>, i: nat, p: seq<Byte>)
    requires All(fs, cs) && i < |cs| && |fs'.inodes| == |fs.inodes| && Has(fs', i, cs[i] + p)
    requires forall j :: 0 <= j < |cs| && j != i ==>
      fs'.inodes[j] == fs.inodes[j] && FileBlocks(fs', j) == FileBlocks(fs, j) && (Exact(fs, j) ==> Exact(fs', j))
    ensures All(fs', cs[i := cs[i] + p])
  {
    hide Ref, FileBlocks, Exact;
    var cs' := cs[i := cs[i] + p];
    forall j | 0 <= j < |cs'|
      ensures Has(fs', j, cs'[j])
    {
      assert Has(fs, j, cs[j]);
    }
  }

  lemma BlankContents(fs: Fs, n: nat)
    requires |fs.inodes| == n
      && forall i :: 0 <= i < n ==> fs.inodes[i] == Blank() && Exact(fs, i) && Content(fs, i) == []
    ensures All(fs, Nothing(n))
  {
    hide Ref, FileBlocks, Exact, Content;
  }

  lemma {:induction false} RootIs(fs: Fs, files: seq<Source>, n: nat)
    requires All(fs, Contents(files, n)) && 2 <= n
    ensures Exact(fs, ROOTINO) && fs.inodes[ROOTINO].size <= MAXBYTES && Content(fs, ROOTINO) == Root(files)
    ensures fs.inodes[ROOTINO].size == 16 * (|files| + 2)
  {
    hide Ref, FileBlocks, Exact, Root, Content, Contents;
    assert Has(fs, ROOTINO, Contents(files, n)[ROOTINO]);
    assert |Content(fs, ROOTINO)| == |Root(files)|;
  }

  /** The rounded root still begins with its entries, and the files have not changed. */
  lemma {:induction false} Finished(fs: Fs, fs': Fs, files: seq<Source>, n: nat)
    requires All(fs, Contents(files, n)) && |files| + 2 <= n && SameFiles(fs, fs') && SameRefs(fs, fs')
    requires |fs'.inodes| == n && fs'.inodes[ROOTINO].size <= MAXBYTES
      && fs.inodes[ROOTINO].size <= fs'.inodes[ROOTINO].size
    requires forall i :: 0 <= i < n && i != ROOTINO ==> fs'.inodes[i] == fs.inodes[i]
    ensures Root(files) <= Content(fs', ROOTINO)
    ensures forall k :: 0 <= k < |files| ==> Stored(fs', k + 2, files[k].data)
  {
    hide Ref, FileBlocks, Root, Exact, NoHoles, Content, SameRefs, SameFiles, Contents, All;
    RootIs(fs, files, n);
    SameLength(fs, fs');
    ContentGrown(fs, fs', ROOTINO);
    forall k | 0 <= k < |files|
      ensures Stored(fs', k + 2, files[k].data)
    {
      FileIs(fs, files, n, k);
      ContentGrown(fs, fs', k + 2);
      ExactNoHoles(fs, fs', k + 2);
    }
  }

  lemma SameLength(fs: Fs, fs': Fs)
    requires SameFiles(fs, fs')
    ensures |fs'.inodes| == |fs.inodes|
  {
  }

  lemma FileIs(fs: Fs, files: seq<Source>, n: nat, k: nat)
    requires All(fs, Contents(files, n)) && k < |files| && |files| + 2 <= n
    ensures k + 2 < |fs.inodes| && Exact(fs, k + 2) && fs.inodes[k + 2].size <= MAXBYTES
      && Content(fs, k + 2) == files[k].data
  {
    hide Ref, FileBlocks, Exact, Root, Content;
    assert Has(fs, k + 2, Contents(files, n)[k + 2]);
  }

  lemma ContentGrown(fs: Fs, fs': Fs, i: nat)
    requires i < |fs.inodes| && SameFiles(fs, fs') && fs.inodes[i].size <= fs'.inodes[i].size <= MAXBYTES
    ensures Content(fs, i) <= Content(fs', i)
    ensures fs'.inodes[i].size == fs.inodes[i].size ==> Content(fs', i) == Content(fs, i)
  {
    hide FileBlocks;
  }

  lemma ExactNoHoles(fs: Fs, fs': Fs, i: nat)
    requires i < |fs.inodes| && SameRefs(fs, fs') && Exact(fs, i) && fs'.inodes[i].size == fs.inodes[i].size
    ensures NoHoles(fs', i)
  {
    hide Ref;
    forall bn | 0 <= bn < MAXFILE && 512 * bn < fs'.inodes[i].size
      ensures Ref(fs', i, Slot(bn)) != 0
    {
      assert Ref(fs', i, Slot(bn)) == Ref(fs, i, Slot(bn));
    }
  }

  lemma RootFirst(n: nat)
    requires n >= 2
    ensures Nothing(n)[ROOTINO := [] + Dirent(ROOTINO, [46]) + Dirent(ROOTINO, [46, 46])] == Contents([], n)
  {
    hide Dirent;
    var cs := Nothing(n)[ROOTINO := [] + Dirent(ROOTINO, [46]) + Dirent(ROOTINO, [46, 46])];
    assert [] + Dirent(ROOTINO, [46]) == Dirent(ROOTINO, [46]);
    forall i | 0 <= i < n
      ensures cs[i] == Contents([], n)[i]
    {
    }
  }

  lemma OneMoreFile(files: seq<Source>, f: Source, n: nat)
    requires |files| + 2 < n
    ensures var cs := Contents(files, n);
      cs[|files| + 2] == [] && cs[ROOTINO := cs[ROOTINO] + Dirent(|files| + 2, Bare(f.name))][|files| + 2 := f.data]
        == Contents(files + [f], n)
  {
    hide Dirent;
    assert (files + [f])[..|files|] == files;
    var cs := Contents(files, n);
    var cs' := cs[ROOTINO := cs[ROOTINO] + Dirent(|files| + 2, Bare(f.name))][|files| + 2 := f.data];
    forall i | 0 <= i < n
      ensures cs'[i] == Contents(files + [f], n)[i]
    {
    }
  }
}
