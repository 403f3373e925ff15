/** filewrite of file.c: a long write as a series of transactions that each fit the log. */
module File {
  import opened Blocks
  import opened Inodes
  import opened FsState
  import opened FreeBlocks
  import opened FileSys
  import GroupCommit

  const MAXCHUNK: nat := 1536

  /**
    What fits an operation, by filewrite's reckoning: an inode, an indirect block, two map blocks for
    each data block.
   */
  lemma ChunkIs()
    ensures MAXCHUNK == (GroupCommit.MAXOPBLOCKS - 1 - 1 - 2) / 2 * 512
  {
  }

  /** The blocks a chunk of n bytes at off logs. */
  ghost function ChunkCost(sb: Super, fs: Fs, i: nat, off: nat, n: nat): nat
    requires Shaped(sb, fs) && i < sb.ninodes && off + n <= MAXBYTES
  {
    EndFits(off, n);
    LogCost(sb, fs, i, off / 512, End(off, n), Grows(fs, i, off, n))
  }

  /**
    The chunk grows the file, touches four file blocks that are all missing and reach into an
    indirect range that has no indirect block, and the five lowest free blocks have their
    bits in five different blocks of the free map.
   */
  ghost predicate Overflows(sb: Super, fs: Fs, i: nat, off: nat, n: nat)
    requires Shaped(sb, fs) && i < sb.ninodes && off + n <= MAXBYTES
  {
    EndFits(off, n);
    var lo, hi := off / 512, End(off, n);
    && Grows(fs, i, off, n) && hi == lo + 4 && NeedsInd(fs, i, lo, hi) && Holes(fs, i, lo, hi) == 4
    && MapCount(sb, fs.blocks, 5) == 5
  }

  /**
    A chunk logs more than an operation may exactly when it overflows in that way, and then it
    logs one block more.  It needs a hole below the end of the file and five free-map blocks.
   */
  lemma ChunkBudget(sb: Super, fs: Fs, i: nat, off: nat, n: nat)
    requires Shaped(sb, fs) && i < sb.ninodes && off <= fs.inodes[i].size && n <= MAXCHUNK && off + n <= MAXBYTES
    ensures ChunkCost(sb, fs, i, off, n) > GroupCommit.MAXOPBLOCKS <==> Overflows(sb, fs, i, off, n)
    ensures ChunkCost(sb, fs, i, off, n) <= GroupCommit.MAXOPBLOCKS + 1
    ensures ChunkCost(sb, fs, i, off, n) <= 6 + sb.nmeta - sb.bmapstart
    ensures NoHoles(fs, i) || sb.nmeta - sb.bmapstart < 5 ==> !Overflows(sb, fs, i, off, n)
  {
    hide Ref, Holes, LateHole, MapCount;
    EndFits(off, n);
    var lo, hi := off / 512, End(off, n);
    assert hi <= lo + 4;
    MapCountBound(sb, fs.blocks, Needed(fs, i, lo, hi));
    MapCountBound(sb, fs.blocks, 5);
    if NeedsInd(fs, i, lo, hi) {
      LastLate(fs, i, lo, hi);
    }
    if hi == lo + 4 {
      assert off % 512 != 0 && 512 * lo < fs.inodes[i].size;
      FourHoles(fs, i, lo);
    }
  }

  lemma LastLate(fs: Fs, i: nat, lo: nat, hi: nat)
    requires i < |fs.inodes| && hi <= MAXFILE && NeedsInd(fs, i, lo, hi)
    ensures LateHole(fs, i, lo, hi)
  {
    assert Ref(fs, i, Slot(hi - 1)) == 0;
  }

  lemma FourHoles(fs: Fs, i: nat, lo: nat)
    requires i < |fs.inodes| && lo + 4 <= MAXFILE && 512 * lo < fs.inodes[i].size
    ensures Holes(fs, i, lo, lo + 4) == 4 ==> !NoHoles(fs, i)
  {
    hide Ref;
    HolesSplit(fs, i, lo, lo + 1, lo + 4);
    HolesNone(fs, i, lo, lo + 1);
    if Holes(fs, i, lo, lo + 4) == 4 {
      assert Ref(fs, i, Slot(lo)) == 0;
    }
  }

  /** Without holes, a write that does not grow the file finds every field of the inode it needs. */
  lemma FieldsPresent(fs: Fs, i: nat, off: nat, n: nat)
    requires i < |fs.inodes| && NoHoles(fs, i) && off + n <= fs.inodes[i].size <= MAXBYTES
    ensures forall bn :: off / 512 <= bn < End(off, n) ==> fs.inodes[i].addrs[Field(bn)] != 0
  {
    forall bn | off / 512 <= bn < End(off, n)
      ensures fs.inodes[i].addrs[Field(bn)] != 0
    {
      assert Ref(fs, i, Slot(bn)) != 0;
    }
  }

  lemma OverwriteTwice(s: seq<Byte>, off: nat, t: seq<Byte>, u: seq<Byte>)
    requires off <= |s|
    ensures off + |t| <= |Overwrite(s, off, t)|
    ensures Overwrite(Overwrite(s, off, t), off + |t|, u) == Overwrite(s, off, t + u)
  {
  }

  /** The contents once the first k bytes of src are written. */
  function After(c: seq<Byte>, off: nat, src: seq<Byte>, k: nat): seq<Byte>
    requires k <= |src| && (k > 0 ==> off <= |c|)
  {
    if k == 0 then c else Overwrite(c, off, src[..k])
  }

  lemma AfterNone(c: seq<Byte>, off: nat, src: seq<Byte>)
    ensures After(c, off, src, 0) == c
  {
  }

  lemma AfterMore(c: seq<Byte>, off: nat, src: seq<Byte>, k: nat, m: nat)
    requires k + m <= |src| && m > 0 && (k > 0 ==> off <= |c|) && off + k <= |After(c, off, src, k)|
    ensures off <= |c| && off + k + m <= |After(c, off, src, k + m)|
    ensures Overwrite(After(c, off, src, k), off + k, src[k..k + m]) == After(c, off, src, k + m)
  {
    assert src[..k] + src[k..k + m] == src[..k + m];
    if k > 0 {
      OverwriteTwice(c, off, src[..k], src[k..k + m]);
    }
  }

  /** Between calls: the inode has no holes and is current on the disk. */
  ghost predicate Ready(sb: Super, fs: Fs, i: nat) {
    Shaped(sb, fs) && i < sb.ninodes && NoHoles(fs, i) && OnDisk(sb, fs, i) == fs.inodes[i]
  }

  /** Every file but i is as it was, in memory and on the disk. */
  ghost predicate OthersSame(sb: Super, fs: Fs, fs': Fs, i: nat) {
    && Shaped(sb, fs) && Shaped(sb, fs')
    && forall j :: 0 <= j < sb.ninodes && j != i ==>
         fs'.inodes[j] == fs.inodes[j] && FileBlocks(fs', j) == FileBlocks(fs, j)
           && OnDisk(sb, fs', j) == OnDisk(sb, fs, j)
  }

  lemma OthersTrans(sb: Super, fs: Fs, fs1: Fs, fs2: Fs, i: nat)
    requires OthersSame(sb, fs, fs1, i) && OthersSame(sb, fs1, fs2, i)
    ensures OthersSame(sb, fs, fs2, i)
  {
    hide FileBlocks, OnDisk;
  }

  lemma OthersRefl(sb: Super, fs: Fs, i: nat)
    requires Shaped(sb, fs)
    ensures OthersSame(sb, fs, fs, i)
  {
  }

  /**
    One transaction of filewrite: begin_op, writei, end_op.  It panics exactly if it needs
    more blocks than are free, and logs exactly the blocks of ChunkCost.
   */
  method Chunk(fs: FileSystem, i: nat, src: seq<Byte>, off: nat) returns (r: Io)
    requires fs.Valid() && i < fs.sb.ninodes && fs.inodes[i].typ != T_DEV && off + |src| < 0x1_0000_0000
      && |src| <= MAXCHUNK
    modifies fs
    ensures fs.Valid() && Shaped(fs.sb, fs.State()) && Shaped(fs.sb, old(fs.State()))
    ensures !r.Device? && !r.Read?
    ensures r.Refused? <==> off > old(fs.inodes[i]).size || off + |src| > MAXBYTES
    ensures r.Refused? ==> fs.State() == old(fs.State())
    ensures !r.Refused? ==>
      && End(off, |src|) <= MAXFILE
      && (r.Written? <==> Needed(old(fs.State()), i, off / 512, End(off, |src|)) <= |Free(fs.sb, old(fs.blocks))|)
    ensures r.Written? ==> r.n == |src| && off <= old(fs.inodes[i]).size && fs.inodes[i].typ == old(fs.inodes[i]).typ
    ensures r.Written? ==> Content(fs.State(), i) == Overwrite(old(Content(fs.State(), i)), off, src)
    ensures r.Written? ==> OthersSame(fs.sb, old(fs.State()), fs.State(), i)
    ensures r.Written? ==> Mapped(old(fs.State()), fs.State(), i, off / 512, End(off, |src|))
    ensures r.Written? ==>
      Takes(fs.sb, old(fs.blocks), fs.blocks, Needed(old(fs.State()), i, off / 512, End(off, |src|)))
    ensures r.Written? ==> Logs(fs.sb, old(fs.blocks), fs.blocks, {}, fs.logged)
    ensures r.Written? ==> |fs.logged| == ChunkCost(fs.sb, old(fs.State()), i, off, |src|)
    ensures r.Written? && Ready(fs.sb, old(fs.State()), i) ==> Ready(fs.sb, fs.State(), i)
  {
    hide Own, Ref, FileBlocks, Flat, Used, ReadInode, Content, NoHoles, SameFiles, OnDisk;
    hide Overwrite, Logs, Mapped, Takes, Needed, Free, LogCost, End, Field, Filed;
    OwnShaped(fs.sb, fs.State(), fs.owner);
    fs.logged := {};
    ghost var fs0 := fs.State();
    if off + |src| <= fs.inodes[i].size && NoHoles(fs.State(), i) {
      FieldsPresent(fs.State(), i, off, |src|);
    }
    r := fs.WriteI(i, src, off);
    OwnShaped(fs.sb, fs.State(), fs.owner);
    if r.Written? {
      LogCount(fs.sb, fs0, fs.State(), fs.owner, i, off / 512, End(off, |src|), Grows(fs0, i, off, |src|), fs.logged);
      FiledFacts(fs.sb, fs0, fs.State(), i, off / 512, End(off, |src|), Grows(fs0, i, off, |src|), fs.logged);
    }
  }

  lemma FiledFacts(sb: Super, fs: Fs, fs': Fs, i: nat, lo: nat, hi: nat, grew: bool, l: set<nat>)
    requires i < |fs.inodes| && hi <= MAXFILE && Filed(sb, fs, fs', i, lo, hi, grew, {}, l)
    ensures Mapped(fs, fs', i, lo, hi) && Takes(sb, fs.blocks, fs'.blocks, Needed(fs, i, lo, hi))
  {
    hide Mapped, Takes, Needed;
  }

  datatype Outcome = Halted | Returned(r: int, off: nat)

  /** The bytes written by the first k chunks of n. */
  function Bytes(k: nat, n: nat): nat {
    if MAXCHUNK * k < n then MAXCHUNK * k else n
  }

  /** fs is what k chunks make of fs0: the file has their bytes, and nothing else has changed. */
  ghost predicate Chunked(sb: Super, fs0: Fs, fs: Fs, i: nat, off: nat, src: seq<Byte>, k: nat) {
    && OthersSame(sb, fs0, fs, i) && i < sb.ninodes && (Bytes(k, |src|) > 0 ==> off <= fs0.inodes[i].size)
    && Content(fs, i) == After(Content(fs0, i), off, src, Bytes(k, |src|))
  }

  /** One chunk, from fs to fs': what it logged covers every change, and is as much as ChunkCost says. */
  ghost predicate Step(sb: Super, i: nat, off: nat, n: nat, fs: Fs, fs': Fs, logged: set<nat>) {
    && Logs(sb, fs.blocks, fs'.blocks, {}, logged)
    && Shaped(sb, fs) && i < sb.ninodes && off + n <= MAXBYTES && |logged| == ChunkCost(sb, fs, i, off, n)
  }

  /** The states between the transactions of a filewrite, and what each of them logged. */
  ghost predicate History(sb: Super, i: nat, off: nat, src: seq<Byte>, fss: seq<Fs>, logs: seq<set<nat>>) {
    && |fss| == |logs| + 1
    && (forall k :: 0 <= k < |fss| ==> Chunked(sb, fss[0], fss[k], i, off, src, k))
    && (forall k :: 0 <= k < |logs| ==>
          Step(sb, i, off + MAXCHUNK * k, ChunkSize(k, |src|), fss[k], fss[k + 1], logs[k]))
  }

  /** The bytes in chunk k of n bytes. */
  function ChunkSize(k: nat, n: nat): nat {
    Bytes(k + 1, n) - Bytes(k, n)
  }

  lemma HistoryStart(sb: Super, fs: Fs, i: nat, off: nat, src: seq<Byte>)
    requires Shaped(sb, fs) && i < sb.ninodes
    ensures History(sb, i, off, src, [fs], [])
  {
    hide FileBlocks, OnDisk, Content, After;
    OthersRefl(sb, fs, i);
    AfterNone(Content(fs, i), off, src);
  }

  lemma HistoryMore(sb: Super, i: nat, off: nat, src: seq<Byte>, fss: seq<Fs>, logs: seq<set<nat>>, fs: Fs,
                    logged: set<nat>)
    requires History(sb, i, off, src, fss, logs)
    requires Step(sb, i, off + MAXCHUNK * |logs|, ChunkSize(|logs|, |src|), fss[|logs|], fs, logged)
    requires Chunked(sb, fss[0], fs, i, off, src, |logs| + 1)
    ensures History(sb, i, off, src, fss + [fs], logs + [logged])
  {
    hide Chunked, Step;
  }

  /** No chunk logged more than n blocks. */
  ghost predicate Within(logs: seq<set<nat>>, n: nat) {
    forall k :: 0 <= k < |logs| ==> |logs[k]| <= n
  }

  /** The file is ready in every state. */
  ghost predicate AllReady(sb: Super, fss: seq<Fs>, i: nat) {
    forall k :: 0 <= k < |fss| ==> Ready(sb, fss[k], i)
  }

  ghost predicate AllOwned(sb: Super, fss: seq<Fs>) {
    forall k :: 0 <= k < |fss| ==> Owned(sb, fss[k])
  }

  ghost predicate Owned(sb: Super, fs: Fs) {
    exists owner :: Own(sb, fs, owner)
  }

  /** The bytes filewrite gets to write if blocks never run out: all, or the whole chunks below the longest file. */
  function Reach(size: nat, off: nat, n: nat): nat {
    if off > size || off > MAXBYTES then 0
    else if off + n <= MAXBYTES then n
    else MAXCHUNK * ((MAXBYTES - off) / MAXCHUNK)
  }

  /** A chunk is refused exactly where that ends. */
  lemma ReachStep(size: nat, size': nat, off: nat, n: nat, j: nat)
    requires MAXCHUNK * j < n && (j == 0 ==> size' == size) && (j > 0 ==> off <= size && off + MAXCHUNK * j <= size')
      && size' <= MAXBYTES
    ensures var k, m := MAXCHUNK * j, if n - MAXCHUNK * j > MAXCHUNK then MAXCHUNK else n - MAXCHUNK * j;
      if off + k > size' || off + k + m > MAXBYTES then k == Reach(size, off, n) else k + m <= Reach(size, off, n)
  {
    var k := MAXCHUNK * j;
    if off <= size && off + n > MAXBYTES {
      var q := (MAXBYTES - off) / MAXCHUNK;
      assert MAXCHUNK * q <= MAXBYTES - off < MAXCHUNK * (q + 1);
      if j < q {
        assert MAXCHUNK * (j + 1) <= MAXCHUNK * q;
      }
    }
  }

  lemma ReachFits(size: nat, off: nat, n: nat)
    ensures Reach(size, off, n) <= n
      && (Reach(size, off, n) > 0 ==> off <= size && off + Reach(size, off, n) <= MAXBYTES)
  {
  }

  /** The free blocks a whole filewrite needs. */
  ghost function WriteNeeds(fs: Fs, i: nat, off: nat, n: nat): nat
    requires i < |fs.inodes|
  {
    var m := Reach(fs.inodes[i].size, off, n);
    ReachFits(fs.inodes[i].size, off, n);
    if m == 0 then 0 else EndFits(off, m); Needed(fs, i, off / 512, End(off, m))
  }

  /** k bytes have been written: the blocks they need are mapped and taken. */
  ghost predicate Written(sb: Super, fs0: Fs, fs: Fs, i: nat, off: nat, k: nat) {
    && Shaped(sb, fs0) && Shaped(sb, fs) && i < sb.ninodes
    && (if k == 0 then fs == fs0 else
          && off + k <= MAXBYTES && End(off, k) <= MAXFILE && Mapped(fs0, fs, i, off / 512, End(off, k))
          && Takes(sb, fs0.blocks, fs.blocks, Needed(fs0, i, off / 512, End(off, k))))
  }

  lemma WrittenMore(sb: Super, fs0: Fs, fs1: Fs, fs2: Fs, i: nat, off: nat, k: nat, m: nat)
    requires Written(sb, fs0, fs1, i, off, k) && Shaped(sb, fs2) && m > 0 && off + k + m <= MAXBYTES
      && End(off + k, m) <= MAXFILE
    requires Mapped(fs1, fs2, i, (off + k) / 512, End(off + k, m))
    requires Takes(sb, fs1.blocks, fs2.blocks, Needed(fs1, i, (off + k) / 512, End(off + k, m)))
    ensures Written(sb, fs0, fs2, i, off, k + m)
  {
    hide Mapped, Takes, Needed;
    if k > 0 {
      EndJoin(off, k, m);
      var lo, p, mid, hi := off / 512, (off + k) / 512, End(off, k), End(off, k + m);
      MappedMore(fs0, fs1, fs2, i, lo, p, mid, hi);
      NeededMore(fs0, fs1, i, lo, p, mid, hi);
      TakesMore(sb, fs0.blocks, fs1.blocks, fs2.blocks, Needed(fs0, i, lo, mid), Needed(fs1, i, p, hi));
    }
  }

  /** If the next chunk finds too few free blocks, the whole write needs more than there were. */
  lemma WrittenStuck(sb: Super, fs0: Fs, fs1: Fs, i: nat, off: nat, k: nat, m: nat, n: nat)
    requires Written(sb, fs0, fs1, i, off, k) && m > 0 && off + k + m <= MAXBYTES && End(off + k, m) <= MAXFILE
    requires Needed(fs1, i, (off + k) / 512, End(off + k, m)) > |Free(sb, fs1.blocks)|
    requires k + m <= Reach(fs0.inodes[i].size, off, n)
    ensures WriteNeeds(fs0, i, off, n) > |Free(sb, fs0.blocks)|
  {
    hide Needed, Free, Mapped;
    var r := Reach(fs0.inodes[i].size, off, n);
    ReachFits(fs0.inodes[i].size, off, n);
    EndFits(off, r);
    EndsGrow(off, k + m, r);
    NeededGrows(fs0, i, off / 512, End(off, k + m), End(off, r));
    if k > 0 {
      EndJoin(off, k, m);
      NeededMore(fs0, fs1, i, off / 512, (off + k) / 512, End(off, k), End(off, k + m));
    }
  }

  lemma EndsGrow(off: nat, a: nat, b: nat)
    requires 0 < a <= b && off + b <= MAXBYTES
    ensures off / 512 <= End(off, a) <= End(off, b) <= MAXFILE
  {
  }

  /** A write that has come to its end found the blocks it needed. */
  lemma WrittenAll(sb: Super, fs0: Fs, fs: Fs, i: nat, off: nat, n: nat)
    requires i < |fs0.inodes| && Written(sb, fs0, fs, i, off, Reach(fs0.inodes[i].size, off, n))
    ensures WriteNeeds(fs0, i, off, n) <= |Free(sb, fs0.blocks)|
  {
    hide Needed, Free, Mapped, Reach;
  }

  /** Its history, every state of it owned, with the bounds on what was logged. */
  ghost predicate Record(sb: Super, i: nat, off: nat, src: seq<Byte>, fss: seq<Fs>, logs: seq<set<nat>>) {
    && History(sb, i, off, src, fss, logs) && AllOwned(sb, fss) && Within(logs, GroupCommit.MAXOPBLOCKS + 1)
    && (Ready(sb, fss[0], i) ==> Within(logs, GroupCommit.MAXOPBLOCKS) && AllReady(sb, fss, i))
  }

  lemma RecordStart(sb: Super, fs: Fs, i: nat, off: nat, src: seq<Byte>)
    requires Shaped(sb, fs) && i < sb.ninodes && Owned(sb, fs)
    ensures Record(sb, i, off, src, [fs], [])
  {
    hide History, Ready, Owned;
    HistoryStart(sb, fs, i, off, src);
  }

  lemma RecordMore(sb: Super, i: nat, off: nat, src: seq<Byte>, fss: seq<Fs>, logs: seq<set<nat>>, fs: Fs,
                   logged: set<nat>)
    requires Record(sb, i, off, src, fss, logs) && |fss| == |logs| + 1 && Owned(sb, fs)
    requires Step(sb, i, off + MAXCHUNK * |logs|, ChunkSize(|logs|, |src|), fss[|logs|], fs, logged)
    requires Chunked(sb, fss[0], fs, i, off, src, |logs| + 1) && |logged| <= GroupCommit.MAXOPBLOCKS + 1
    requires Ready(sb, fss[|logs|], i) ==> Ready(sb, fs, i) && |logged| <= GroupCommit.MAXOPBLOCKS
    ensures Record(sb, i, off, src, fss + [fs], logs + [logged])
  {
    hide History, Ready, Owned, Step, Chunked;
    HistoryMore(sb, i, off, src, fss, logs, fs, logged);
  }

  /**
    filewrite on an inode that is not a device.  It halts the kernel exactly if it needs more
    blocks than are free; otherwise it writes all of src, or the whole chunks that fit the
    longest file.  After each chunk the file has the bytes of the chunks so far.  Without
    holes and with a current inode, the inode on the disk is current after every chunk and no
    chunk logs more than begin_op reserves.
   */
  method FileWrite(fs: FileSystem, i: nat, off: nat, src: seq<Byte>)
    returns (o: Outcome, ghost done: nat, ghost fss: seq<Fs>, ghost logs: seq<set<nat>>)
    requires fs.Valid() && i < fs.sb.ninodes && fs.inodes[i].typ != T_DEV && off + |src| < 0x1_0000_0000
    modifies fs
    ensures fs.Valid() && Shaped(fs.sb, old(fs.State()))
    ensures o.Halted? <==> WriteNeeds(old(fs.State()), i, off, |src|) > |Free(fs.sb, old(fs.blocks))|
    ensures |fss| == |logs| + 1 && fss[0] == old(fs.State()) && done == Bytes(|logs|, |src|)
    ensures Record(fs.sb, i, off, src, fss, logs)
    ensures o.Returned? ==> fs.State() == fss[|logs|] && done == Reach(old(fs.inodes[i]).size, off, |src|)
    ensures o.Returned? ==> o.off == off + done && o.r == if done == |src| then |src| else -1
  {
    hide Own, Ref, FileBlocks, Flat, Used, ReadInode, Content, NoHoles, SameFiles;
    hide OnDisk, Overwrite, After, Logs, Record, OthersSame, Ready, Owned;
    hide Mapped, Takes, Needed, Free, Written, Reach, WriteNeeds, Overflows, ChunkCost;
    done := 0;
    ghost var fs0 := fs.State();
    OwnShaped(fs.sb, fs0, fs.owner);
    ghost var c := Content(fs0, i);
    AfterNone(c, off, src);
    OthersRefl(fs.sb, fs0, i);
    OwnedBy(fs.sb, fs0, fs.owner);
    RecordStart(fs.sb, fs0, i, off, src);
    WrittenNone(fs.sb, fs0, i, off, |src|);
    fss, logs := [fs0], [];
    var k := 0;
    while k < |src|
      invariant k <= |src| && done == k == Bytes(|logs|, |src|) && (k < |src| ==> k == MAXCHUNK * |logs|)
      invariant fs.Valid() && Shaped(fs.sb, fs.State()) && fs.inodes[i].typ != T_DEV
      invariant |fss| == |logs| + 1 && fss[0] == fs0 && fss[|logs|] == fs.State()
        && Record(fs.sb, i, off, src, fss, logs)
      invariant k > 0 ==> off <= |c| && off + k <= fs.inodes[i].size
      invariant Content(fs.State(), i) == After(c, off, src, k) && OthersSame(fs.sb, fs0, fs.State(), i)
      invariant Written(fs.sb, fs0, fs.State(), i, off, k) && k <= Reach(fs0.inodes[i].size, off, |src|)
      invariant k == 0 ==> fs.State() == fs0
    {
      var n1 := |src| - k;
      if n1 > MAXCHUNK {
        n1 := MAXCHUNK;
      }
      ghost var fs1 := fs.State();
      ReachStep(fs0.inodes[i].size, fs1.inodes[i].size, off, |src|, |logs|);
      var r := Chunk(fs, i, src[k..k + n1], off + k);
      if r.Panic? {
        WrittenStuck(fs.sb, fs0, fs1, i, off, k, n1, |src|);
        return Halted, done, fss, logs;
      }
      if r.Refused? {
        break;
      }
      AfterMore(c, off, src, k, n1);
      OthersTrans(fs.sb, fs0, fs1, fs.State(), i);
      WrittenMore(fs.sb, fs0, fs1, fs.State(), i, off, k, n1);
      k := k + n1;
      done := k;
      ChunkFits(fs.sb, fs1, i, off + k - n1, n1);
      OwnedBy(fs.sb, fs.State(), fs.owner);
      RecordMore(fs.sb, i, off, src, fss, logs, fs.State(), fs.logged);
      fss, logs := fss + [fs.State()], logs + [fs.logged];
    }
    ReachFits(fs0.inodes[i].size, off, |src|);
    WrittenAll(fs.sb, fs0, fs.State(), i, off, |src|);
    return Returned(if k == |src| then |src| else -1, off + k), done, fss, logs;
  }

  lemma WrittenNone(sb: Super, fs: Fs, i: nat, off: nat, n: nat)
    requires Shaped(sb, fs) && i < sb.ninodes
    ensures Written(sb, fs, fs, i, off, 0)
  {
  }

  lemma ChunkFits(sb: Super, fs: Fs, i: nat, off: nat, n: nat)
    requires Shaped(sb, fs) && i < sb.ninodes && off <= fs.inodes[i].size && n <= MAXCHUNK && off + n <= MAXBYTES
    ensures ChunkCost(sb, fs, i, off, n) <= GroupCommit.MAXOPBLOCKS + 1
    ensures Ready(sb, fs, i) ==> ChunkCost(sb, fs, i, off, n) <= GroupCommit.MAXOPBLOCKS
  {
    hide ChunkCost, Overflows, NoHoles, OnDisk;
    ChunkBudget(sb, fs, i, off, n);
  }

  lemma OwnedBy(sb: Super, fs: Fs, owner: Owners)
    requires Own(sb, fs, owner)
    ensures Owned(sb, fs)
  {
  }

  // ---- Reading.

  /** fileread on an inode: the bytes, and the offset they leave. */
  method FileRead(fs: FileSystem, i: nat, off: nat, n: nat, open: bool) returns (r: Io, off': nat)
    requires fs.Valid() && i < fs.sb.ninodes && fs.inodes[i].typ != T_DEV
    requires off < 0x1_0000_0000 && n < 0x1_0000_0000
    modifies fs
    ensures fs.Valid() && Shaped(fs.sb, old(fs.State())) && SameFiles(old(fs.State()), fs.State())
    ensures fs.inodes == old(fs.inodes)[i := old(fs.inodes[i]).(addrs := fs.inodes[i].addrs)]
    ensures !r.Device? && !r.Written?
    ensures r.Refused? <==> off > old(fs.inodes[i]).size || off + n >= 0x1_0000_0000
    ensures !r.Read? ==> off' == off
    ensures r.Panic? ==> !NoHoles(old(fs.State()), i)
    ensures r.Read? ==>
      && off <= off' <= old(fs.inodes[i]).size && off' - off == |r.data|
        && r.data == Content(old(fs.State()), i)[off..off']
      && (off' == off + n || off' == old(fs.inodes[i]).size)
    ensures r.Read? && !open ==> Present(old(fs.State()), i, off, off')
    ensures !open || NoHoles(old(fs.State()), i) ==> fs.State() == old(fs.State())
  {
    hide Own, Ref, FileBlocks, Flat, SameFiles, Content, Free, Needed, NoHoles, Present;
    OwnShaped(fs.sb, fs.State(), fs.owner);
    ghost var fs0 := fs.State();
    r := fs.ReadI(i, off, n, open);
    off' := off;
    if r.Refused? {
      return;
    }
    ghost var m := if n < fs0.inodes[i].size - off then n else fs0.inodes[i].size - off;
    PresentNeeded(fs0, i, off, off + m);
    if r.Read? {
      off' := off + |r.data|;
    }
  }

  /** No byte of a..b-1 lies in a hole. */
  ghost predicate Present(fs: Fs, i: nat, a: nat, b: nat)
    requires i < |fs.inodes|
  {
    forall p :: a <= p < b && p / 512 < MAXFILE ==> Ref(fs, i, Slot(p / 512)) != 0
  }

  lemma PresentNeeded(fs: Fs, i: nat, a: nat, b: nat)
    requires i < |fs.inodes| && a <= b <= fs.inodes[i].size <= MAXBYTES
    ensures End(a, b - a) <= MAXFILE && (Needed(fs, i, a / 512, End(a, b - a)) == 0 <==> Present(fs, i, a, b))
    ensures NoHoles(fs, i) ==> Present(fs, i, a, b)
  {
    hide Ref, Needed;
    var lo, hi := a / 512, End(a, b - a);
    NeededNone(fs, i, lo, hi);
    if Present(fs, i, a, b) {
      forall bn | lo <= bn < hi
        ensures Ref(fs, i, Slot(bn)) != 0
      {
        var p := if bn == lo then a else 512 * bn;
        assert a <= p < b && p / 512 == bn;
      }
    }
    forall p | a <= p < b && p / 512 < MAXFILE
      ensures lo <= p / 512 < hi && 512 * (p / 512) < fs.inodes[i].size
    {
    }
  }

  lemma PresentAll(fs: Fs, i: nat)
    requires i < |fs.inodes| && Present(fs, i, 0, fs.inodes[i].size)
    ensures NoHoles(fs, i)
  {
    hide Ref;
    forall bn | 0 <= bn < MAXFILE && 512 * bn < fs.inodes[i].size
      ensures Ref(fs, i, Slot(bn)) != 0
    {
      assert 512 * bn / 512 == bn;
    }
  }

  /**
    Reading a file from the start in pieces of n bytes until one is empty gives the whole file.
    With no operation open it panics exactly if the file has a hole.
   */
  method ReadAll(fs: FileSystem, i: nat, n: nat, open: bool) returns (r: Io)
    requires fs.Valid() && i < fs.sb.ninodes && fs.inodes[i].typ != T_DEV && 0 < n < 0x1_0000_0000 - MAXBYTES
    modifies fs
    ensures fs.Valid() && Shaped(fs.sb, old(fs.State())) && SameFiles(old(fs.State()), fs.State())
    ensures r.Read? || r.Panic?
    ensures r.Read? ==> r.data == Content(old(fs.State()), i)
    ensures r.Panic? ==> !NoHoles(old(fs.State()), i)
    ensures !open ==> (r.Panic? <==> !NoHoles(old(fs.State()), i)) && fs.State() == old(fs.State())
  {
    hide Own, Ref, FileBlocks, Flat, SameFiles, Content, NoHoles, Present;
    OwnShaped(fs.sb, fs.State(), fs.owner);
    FilesSame(fs.State());
    ghost var fs0, c := fs.State(), Content(fs.State(), i);
    var off, data := 0, [];
    PresentNone(fs0, i);
    while true
      invariant fs.Valid() && Shaped(fs.sb, fs.State()) && off <= fs0.inodes[i].size == |c| && data == c[..off]
      invariant SameFiles(fs0, fs.State()) && fs.inodes[i].typ != T_DEV && fs.inodes[i].size == |c|
      invariant !open || NoHoles(fs0, i) ==> fs.State() == fs0
      invariant !open ==> Present(fs0, i, 0, off)
      decreases |c| - off
    {
      ghost var fs1 := fs.State();
      SameContent(fs0, fs1, i);
      var more;
      r, more := FileRead(fs, i, off, n, open);
      FilesTrans(fs0, fs1, fs.State());
      if r.Panic? {
        return;
      }
      if !open {
        PresentMore(fs0, i, off, more);
      }
      if r.data == [] {
        assert off == more == |c|;
        if !open {
          PresentAll(fs0, i);
        }
        return Read(data);
      }
      assert c[..off] + c[off..more] == c[..more];
      data, off := data + r.data, more;
      OwnShaped(fs.sb, fs.State(), fs.owner);
    }
  }

  lemma PresentNone(fs: Fs, i: nat)
    requires i < |fs.inodes|
    ensures Present(fs, i, 0, 0)
  {
  }

  lemma PresentMore(fs: Fs, i: nat, a: nat, b: nat)
    requires i < |fs.inodes| && Present(fs, i, 0, a) && Present(fs, i, a, b)
    ensures Present(fs, i, 0, b)
  {
    hide Ref;
  }

  lemma SameContent(fs: Fs, fs': Fs, i: nat)
    requires SameFiles(fs, fs') && i < |fs.inodes| == |fs'.inodes|
      && fs'.inodes[i].size == fs.inodes[i].size <= MAXBYTES
    ensures Content(fs', i) == Content(fs, i)
  {
    hide FileBlocks, Flat;
  }
}
