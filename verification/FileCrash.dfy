/**
  The file system on top of the log: a crash at any moment of a filewrite, and any number of
  crashes while recovering, leave a sound file system in which the file has the bytes of
  exactly the chunks that were committed.
 */
module FileCrash {
  import opened Blocks
  import opened Inodes
  import opened FsState
  import opened File
  import opened RedoLog

  /** The file system that a boot finds: its inodes are the ones on the disk. */
  function Mounted(sb: Super, d: Image): Fs
    requires SuperOk(sb) && |d| == sb.size
  {
    Fs(d, seq(sb.ninodes, j requires 0 <= j < sb.ninodes => ReadInode(d[IBlock(sb, j)], j % IPB)))
  }

  ghost predicate Current(sb: Super, fs: Fs) {
    Shaped(sb, fs) && forall j :: 0 <= j < sb.ninodes ==> OnDisk(sb, fs, j) == fs.inodes[j]
  }

  /** The log area lies between the superblock and the inodes. */
  predicate LogBelow(sb: Super, l: Layout) {
    l.start + l.size <= sb.inodestart
  }

  lemma MountedIs(sb: Super, l: Layout, fs: Fs, d: Image)
    requires Current(sb, fs) && LogBelow(sb, l) && SameHome(l, d, fs.blocks)
    ensures |d| == sb.size && Mounted(sb, d) == Fs(d, fs.inodes)
  {
    hide ReadInode;
    forall j | 0 <= j < sb.ninodes
      ensures Mounted(sb, d).inodes[j] == fs.inodes[j]
    {
      assert OnDisk(sb, fs, j) == fs.inodes[j];
    }
  }

  /** What the log area holds does not matter to the file system. */
  lemma HomeRefs(sb: Super, l: Layout, fs: Fs, d: Image, owner: Owners, i: nat, k: nat)
    requires Own(sb, fs, owner) && LogBelow(sb, l) && SameHome(l, d, fs.blocks) && i < sb.ninodes && k < NSLOTS
    ensures Ref(Fs(d, fs.inodes), i, k) == Ref(fs, i, k)
    ensures BlockAt(d, Ref(fs, i, k)) == BlockAt(fs.blocks, Ref(fs, i, k))
  {
    hide GetWord, Used;
    assert fs.inodes[i].addrs[IND] == Ref(fs, i, IND);
  }

  lemma HomeOwn(sb: Super, l: Layout, fs: Fs, d: Image, owner: Owners)
    requires Own(sb, fs, owner) && LogBelow(sb, l) && SameHome(l, d, fs.blocks)
    ensures Own(sb, Fs(d, fs.inodes), owner) && SameFiles(fs, Fs(d, fs.inodes))
  {
    hide Ref, GetBit;
    var fs' := Fs(d, fs.inodes);
    forall i, k | 0 <= i < sb.ninodes && 0 <= k < NSLOTS
      ensures Ref(fs', i, k) == Ref(fs, i, k) && BlockAt(d, Ref(fs, i, k)) == BlockAt(fs.blocks, Ref(fs, i, k))
    {
      HomeRefs(sb, l, fs, d, owner, i, k);
    }
    forall b | 0 <= b < sb.size
      ensures Used(sb, d, b) == Used(sb, fs.blocks, b)
    {
    }
    forall i | 0 <= i < sb.ninodes
      ensures FileBlocks(fs', i) == FileBlocks(fs, i)
    {
      assert forall bn :: 0 <= bn < MAXFILE ==> FileBlock(fs', i, bn) == FileBlock(fs, i, bn);
    }
  }

  /** The transaction commits these blocks as the file system has them. */
  ghost predicate Commits(t: Txn, logged: set<nat>, blocks: Image) {
    && |t.data| == |t.blocks| && (forall b :: b in t.blocks <==> b in logged)
    && forall m :: 0 <= m < |t.blocks| ==> t.blocks[m] < |blocks| && t.data[m] == blocks[t.blocks[m]]
  }

  lemma ApplyIs(sb: Super, l: Layout, d: Image, t: Txn, b0: Image, b1: Image, logged: set<nat>)
    requires SameHome(l, d, b0) && Logs(sb, b0, b1, {}, logged) && Commits(t, logged, b1)
    ensures |t.data| == |t.blocks| && SameHome(l, Apply(d, t), b1)
  {
    hide Logs;
    LogsCover(sb, b0, b1, {}, logged);
    forall x | 0 <= x < |d| && !InLog(l, x)
      ensures Apply(d, t)[x] == b1[x]
    {
      assert Find(t.blocks, x) < 0 ==> x !in logged;
    }
  }

  /** Transaction k takes state k to state k + 1. */
  ghost predicate Chain(sb: Super, bs: seq<Image>, logs: seq<set<nat>>, ts: seq<Txn>) {
    && |bs| == |logs| + 1 == |ts| + 1
    && forall k :: 0 <= k < |ts| ==> Logs(sb, bs[k], bs[k + 1], {}, logs[k]) && Commits(ts[k], logs[k], bs[k + 1])
  }

  lemma {:induction false} ApplyAllIs(sb: Super, l: Layout, d: Image, bs: seq<Image>, logs: seq<set<nat>>,
                                      ts: seq<Txn>, j: nat)
    requires Chain(sb, bs, logs, ts) && RunOk(l, ts, |d|) && SameHome(l, d, bs[0]) && j <= |ts|
    ensures RunOk(l, ts[..j], |d|) && SameHome(l, ApplyAll(d, ts[..j], l), bs[j])
    decreases j
  {
    hide Logs, Commits, Apply, TxnOk, SameHome;
    if j > 0 {
      ApplyIs(sb, l, d, ts[0], bs[0], bs[1], logs[0]);
      ApplyAllIs(sb, l, Apply(d, ts[0]), bs[1..], logs[1..], ts[1..], j - 1);
      assert ts[..j][1..] == ts[1..][..j - 1] && ts[..j][0] == ts[0];
    }
  }

  function Images(fss: seq<Fs>): (bs: seq<Image>)
    ensures |bs| == |fss| && forall k :: 0 <= k < |fss| ==> bs[k] == fss[k].blocks
  {
    seq(|fss|, k requires 0 <= k < |fss| => fss[k].blocks)
  }

  /** While the file is ready and the other files keep theirs, every inode on the disk is current. */
  lemma AllCurrent(sb: Super, fs0: Fs, fs: Fs, i: nat)
    requires Current(sb, fs0) && OthersSame(sb, fs0, fs, i) && Ready(sb, fs, i)
    ensures Current(sb, fs)
  {
    hide OnDisk, FileBlocks;
    assert forall j :: 0 <= j < sb.ninodes ==> OnDisk(sb, fs0, j) == fs0.inodes[j];
  }

  lemma DisksSame(sb: Super, l: Layout, fs: Fs, d: Image, i: nat)
    requires Shaped(sb, fs) && LogBelow(sb, l) && SameHome(l, d, fs.blocks) && SameFiles(fs, Fs(d, fs.inodes))
    ensures OthersSame(sb, fs, Fs(d, fs.inodes), i)
  {
    hide FileBlocks, ReadInode;
  }

  lemma ChunkedSame(sb: Super, fs0: Fs, fs: Fs, fs': Fs, i: nat, off: nat, src: seq<Byte>, j: nat)
    requires Chunked(sb, fs0, fs, i, off, src, j) && OthersSame(sb, fs, fs', i) && SameFiles(fs, fs')
      && fs'.inodes == fs.inodes
    ensures Chunked(sb, fs0, fs', i, off, src, j)
  {
    hide OthersSame, FileBlocks, Flat, After;
    OthersTrans(sb, fs0, fs, fs', i);
    OthersShaped(sb, fs0, fs, i);
    OthersShaped(sb, fs, fs', i);
    assert FileBlocks(fs', i) == FileBlocks(fs, i);
  }

  lemma OthersShaped(sb: Super, fs: Fs, fs': Fs, i: nat)
    requires OthersSame(sb, fs, fs', i)
    ensures Shaped(sb, fs) && Shaped(sb, fs')
  {
  }

  /** A disk with the home blocks of a state of the write mounts as that state. */
  lemma MountChunked(sb: Super, l: Layout, fs0: Fs, fs: Fs, d: Image, i: nat, off: nat, src: seq<Byte>, j: nat)
    requires Chunked(sb, fs0, fs, i, off, src, j) && Owned(sb, fs) && Current(sb, fs)
    requires LogBelow(sb, l) && SameHome(l, d, fs.blocks)
    ensures |d| == sb.size && Shaped(sb, fs) && Owned(sb, Mounted(sb, d))
      && Chunked(sb, fs0, Mounted(sb, d), i, off, src, j)
  {
    hide Own, Current, Chunked, OthersSame, SameFiles, SameHome, Mounted, LogBelow;
    CurrentShaped(sb, fs);
    var owner :| Own(sb, fs, owner);
    MountedIs(sb, l, fs, d);
    HomeOwn(sb, l, fs, d, owner);
    OwnedBy(sb, Fs(d, fs.inodes), owner);
    DisksSame(sb, l, fs, d, i);
    ChunkedSame(sb, fs0, fs, Fs(d, fs.inodes), i, off, src, j);
  }

  /**
    Crash safety of filewrite.  The disk's images are those of the log's commits, one per
    chunk.  Stop at any of them, recover with any number of crashes on the way, and mount:
    ownership holds, the file has the bytes of the committed chunks and no others, and no
    other file or inode has changed.
   */
  lemma {:induction false} WriteCrash(sb: Super, l: Layout, i: nat, off: nat, src: seq<Byte>, fss: seq<Fs>,
                                      logs: seq<set<nat>>,
                   base: nat, d: Image, ts: seq<Txn>, disk: Image, trace: seq<Image>, m: nat, boots: seq<Image>)
    requires History(sb, i, off, src, fss, logs) && AllOwned(sb, fss) && AllReady(sb, fss, i) && Current(sb, fss[0])
    requires LogBelow(sb, l) && SameHome(l, d, fss[0].blocks)
    requires |ts| == |logs| && forall k :: 0 <= k < |ts| ==> Commits(ts[k], logs[k], fss[k + 1].blocks)
    requires Recorded(l, base, d, ts, disk, trace) && base <= m < |trace|
    requires |boots| >= 1 && boots[0] == trace[m] && CrashedBoots(l, boots)
    ensures Recoverable(l, boots[|boots| - 1]) && |boots[|boots| - 1]| == sb.size
    ensures var j, fs := CommittedBy(ts, m - base), Mounted(sb, Recover(l, boots[|boots| - 1]));
      Owned(sb, fs) && Chunked(sb, fss[0], fs, i, off, src, j)
  {
    hide Recoverable, Recover, Logs, Commits, Chunked, SameHome, CrashedBoots, RunTrace;
    hide CommittedBy, ApplyAll, Owned, Ready, Current, RunOk, Mounted, FinalAll;
    var k, j, bs := m - base, CommittedBy(ts, m - base), Images(fss);
    assert trace[base..][k] == trace[m];
    CrashSafety(l, d, ts, k, boots);
    assert Chain(sb, bs, logs, ts);
    ApplyAllIs(sb, l, d, bs, logs, ts, j);
    var r := Recover(l, boots[|boots| - 1]);
    SameHomeTrans(l, r, ApplyAll(d, ts[..j], l), fss[j].blocks);
    StateCurrent(sb, i, off, src, fss, logs, j);
    MountChunked(sb, l, fss[0], fss[j], r, i, off, src, j);
  }

  lemma SameHomeTrans(l: Layout, a: Image, b: Image, c: Image)
    requires SameHome(l, a, b) && SameHome(l, b, c)
    ensures SameHome(l, a, c)
  {
  }

  lemma StateCurrent(sb: Super, i: nat, off: nat, src: seq<Byte>, fss: seq<Fs>, logs: seq<set<nat>>, j: nat)
    requires History(sb, i, off, src, fss, logs) && AllReady(sb, fss, i) && Current(sb, fss[0]) && j < |fss|
    ensures Current(sb, fss[j]) && Chunked(sb, fss[0], fss[j], i, off, src, j) && SuperOk(sb)
  {
    hide Current, OthersSame, Ready;
    assert Chunked(sb, fss[0], fss[j], i, off, src, j);
    AllCurrent(sb, fss[0], fss[j], i);
    CurrentShaped(sb, fss[0]);
  }

  lemma CurrentShaped(sb: Super, fs: Fs)
    requires Current(sb, fs)
    ensures Shaped(sb, fs)
  {
  }
}
