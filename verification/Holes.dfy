/** Files with holes: the inputs on which writei leaves a stale inode and readi panics. */
module HoleCases {
  import opened Blocks
  import opened Inodes
  import opened FsState
  import opened FreeBlocks
  import opened FileSys
  import opened FileCrash
  import Mkfs

  const T_FILE: Half := 2

  /** A blank file system in which file 2 has one block of length but no block. */
  function Sparse(): Fs {
    var image := seq(Mkfs.MKFS.size, b => Zero());
    var inodes := seq(Mkfs.MKFS.ninodes, i => Mkfs.Blank());
    Fs(Mkfs.Mapped(Mkfs.MKFS, image, Mkfs.MKFS.nmeta),
       inodes[2 := Mkfs.Blank().(typ := T_FILE, nlink := 1, size := 512)])
  }

  lemma SparseOwn()
    ensures Own(Mkfs.MKFS, Sparse(), map[])
  {
    hide GetBit;
    var sb, fs := Mkfs.MKFS, Sparse();
    var image := seq(sb.size, b => Zero());
    Mkfs.MapUsed(sb, image, sb.nmeta);
    forall i, k | 0 <= i < sb.ninodes && 0 <= k < NSLOTS
      ensures Ref(fs, i, k) == 0
    {
    }
  }

  /** Somebody has a free block. */
  lemma SomeLeft(fs: Fs)
    requires Own(Mkfs.MKFS, fs, map[])
    ensures |Free(Mkfs.MKFS, fs.blocks)| >= 1
  {
    hide Own, Used;
    FreeOwn(Mkfs.MKFS, fs, map[]);
    OwnShaped(Mkfs.MKFS, fs, map[]);
    assert 59 in Free(Mkfs.MKFS, fs.blocks);
    SomeFree(Mkfs.MKFS, fs.blocks);
  }

  /** That file system, with its inodes on the disk. */
  method Hollow() returns (fs: FileSystem)
    ensures fresh(fs) && fs.Valid() && fs.sb == Mkfs.MKFS && fs.owner == map[] && Shaped(fs.sb, fs.State())
    ensures fs.inodes == Sparse().inodes && OnDisk(fs.sb, fs.State(), 2) == fs.inodes[2]
  {
    hide Own, ReadInode;
    SparseOwn();
    fs := new FileSystem(Mkfs.MKFS, Sparse(), map[]);
    OwnShaped(fs.sb, fs.State(), fs.owner);
    fs.Iupdate(2);
    OwnShaped(fs.sb, fs.State(), fs.owner);
  }

  /** Writing one byte into the hole succeeds and leaves the inode on the disk behind. */
  method StaleInode() returns (fs: FileSystem, r: Io)
    ensures r == Written(1) && Shaped(fs.sb, fs.State()) && fs.sb.ninodes > 2
    ensures OnDisk(fs.sb, fs.State(), 2) != fs.inodes[2]
  {
    hide Own, ReadInode, Free, Needed, OnDisk, Filed, Logs, NoHoles;
    fs := Hollow();
    SomeLeft(fs.State());
    NeededOne(fs.State(), 2, 0);
    r := fs.WriteI(2, [1], 0);
    OwnShaped(fs.sb, fs.State(), fs.owner);
    assert Field(0) == 0 && End(0, 1) == 1;
  }

  /** Reading one byte of it with no operation open panics. */
  method ReadPanics() returns (r: Io)
    ensures r.Panic?
  {
    hide Own, ReadInode, Free, Needed, OnDisk;
    var fs := Hollow();
    NeededOne(fs.State(), 2, 0);
    r := fs.ReadI(2, 0, 1, false);
    assert End(0, 1) == 1;
  }

  /** So does reading the root directory of any image that mkfs makes of 30 files modulo 32. */
  method RootPanics(superblock: Block, files: seq<Mkfs.Source>) returns (built: bool, r: Io)
    requires |files| + 2 <= Mkfs.MKFS.ninodes && |files| % 32 == 30
    ensures built ==> r.Panic?
    ensures !built ==> r.Refused?
  {
    hide Own, ReadInode, Free, Needed, OnDisk, NoHoles, Content, Mkfs.Root, Mkfs.Rooted, Mkfs.Stored;
    var img;
    built, img := Mkfs.Build(superblock, files);
    if !built {
      return false, Refused;
    }
    ghost var view := img.View();
    MountedInodes(img.image, img.inodes);
    var fs := new FileSystem(Mkfs.MKFS, Mounted(Mkfs.MKFS, img.image), img.owner);
    OwnShaped(fs.sb, fs.State(), fs.owner);
    var size := fs.inodes[Mkfs.ROOTINO].size;
    HoleInside(fs.State(), Mkfs.ROOTINO);
    r := fs.ReadI(Mkfs.ROOTINO, 0, size, false);
  }

  lemma MountedInodes(image: seq<Block>, inodes: seq<Inode>)
    requires SuperOk(Mkfs.MKFS) && |image| == Mkfs.MKFS.size && |inodes| == Mkfs.MKFS.ninodes
    requires forall i :: 0 <= i < Mkfs.MKFS.ninodes ==> ReadInode(image[IBlock(Mkfs.MKFS, i)], i % IPB) == inodes[i]
    ensures Mounted(Mkfs.MKFS, image) == Fs(image, inodes)
  {
    hide ReadInode;
  }

  lemma HoleInside(fs: Fs, i: nat)
    requires i < |fs.inodes| && fs.inodes[i].size <= MAXBYTES && !NoHoles(fs, i)
    ensures var hi := End(0, fs.inodes[i].size); hi <= MAXFILE && Needed(fs, i, 0, hi) > 0
  {
    hide Ref, Needed;
    EndFits(0, fs.inodes[i].size);
    var bn :| 0 <= bn < MAXFILE && 512 * bn < fs.inodes[i].size && Ref(fs, i, Slot(bn)) == 0;
    NeededNone(fs, i, 0, End(0, fs.inodes[i].size));
    assert 0 <= bn < End(0, fs.inodes[i].size);
  }
}
