/**
  The block allocator, block map and inode I/O of fs.c.  The blocks are those the
  buffer cache shows its callers (Bio.Bcache.view), and `logged` collects the block
  numbers given to log_write since the operation began.
 */
module FileSys {
  import opened Blocks
  import opened Options
  import opened Inodes
  import opened FsState
  import opened FreeBlocks

  const T_DEV: Half := 3

  /** Outcome of readi and writei; Panic is "out of blocks", Device a device inode's own routine. */
  datatype Io = Panic | Refused | Device | Read(data: seq<Byte>) | Written(n: nat)

  /** The inode field bmap may fill for file block bn. */
  function Field(bn: nat): nat {
    if bn < NDIRECT then bn else IND
  }

  /** No file block below the end of the file is missing. */
  predicate NoHoles(fs: Fs, i: nat)
    requires i < |fs.inodes|
  {
    forall bn :: 0 <= bn < MAXFILE && 512 * bn < fs.inodes[i].size ==> Ref(fs, i, Slot(bn)) != 0
  }

  class FileSystem {
    const sb: Super
    var blocks: seq<Block>
    var inodes: seq<Inode>
    var logged: set<nat>
    ghost var owner: Owners

    constructor (sb: Super, fs: Fs, ghost owner: Owners)
      requires Own(sb, fs, owner)
      ensures Valid() && State() == fs && this.sb == sb && logged == {} && this.owner == owner
    {
      this.sb, blocks, inodes, logged, this.owner := sb, fs.blocks, fs.inodes, {}, owner;
    }

    function State(): Fs
      reads this
    {
      Fs(blocks, inodes)
    }

    ghost predicate Valid()
      reads this
    {
      Own(sb, State(), owner)
    }

    /**
      balloc: the lowest free block, zeroed.  None is the panic "out of blocks" or, with no
      operation open, the one of log_write.
     */
    method Balloc(open: bool) returns (r: Option<nat>)
      requires Valid()
      modifies this`blocks, this`logged
      ensures r.None? ==> blocks == old(blocks) && logged == old(logged)
      ensures r.None? ==> !open || forall c :: 0 <= c < sb.size ==> Used(sb, blocks, c)
      ensures r.Some? ==>
        && open && r.value < sb.size && !Used(sb, old(blocks), r.value)
        && (forall c :: 0 <= c < r.value ==> Used(sb, old(blocks), c))
        && blocks == Balloced(sb, old(blocks), r.value)
        && logged == old(logged) + {BBlock(sb, r.value), r.value}
      ensures Logs(sb, old(blocks), blocks, old(logged), logged)
    {
      hide GetWord, GetBit, Bit, SetBit, Ref, Logs, Own;
      OwnShaped(sb, State(), owner);
      LogsNone(sb, blocks, logged);
      var b := 0;
      while b < sb.size
        invariant b % BPB == 0 && blocks == old(blocks) && logged == old(logged)
        invariant forall c :: 0 <= c < b && c < sb.size ==> Used(sb, blocks, c)
      {
        var bi := 0;
        while bi < BPB && b + bi < sb.size
          invariant 0 <= bi <= BPB && blocks == old(blocks) && logged == old(logged)
          invariant forall c :: 0 <= c < b + bi && c < sb.size ==> Used(sb, blocks, c)
        {
          SameMapBlock(sb, b, bi);
          if !GetBit(blocks[BBlock(sb, b)], bi) {
            Unowned(sb, State(), owner, b + bi);
            if !open {
              return None;
            }
            LogsAlloc(sb, blocks, logged, b, bi, SetBit(blocks[BBlock(sb, b)], bi));
            blocks := blocks[BBlock(sb, b) := SetBit(blocks[BBlock(sb, b)], bi)];
            logged := logged + {BBlock(sb, b)};
            blocks := blocks[b + bi := Zero()];
            logged := logged + {b + bi};
            return Some(b + bi);
          }
          bi := bi + 1;
        }
        b := b + BPB;
      }
      return None;
    }

    static lemma SameMapBlock(sb: Super, b: nat, bi: nat)
      requires b % BPB == 0 && bi < BPB
      ensures BBlock(sb, b) == BBlock(sb, b + bi) && (b + bi) % BPB == bi
    {
    }

    static lemma LogsAlloc(sb: Super, blocks: seq<Block>, logged: set<nat>, b: nat, bi: nat, m: Block)
      requires SuperOk(sb) && |blocks| == sb.size && b % BPB == 0 && bi < BPB && sb.nmeta <= b + bi < sb.size
      ensures Logs(sb, blocks, blocks[BBlock(sb, b) := m][b + bi := Zero()], logged,
                   logged + {BBlock(sb, b)} + {b + bi})
    {
      hide Logs;
      SameMapBlock(sb, b, bi);
      var map1 := blocks[BBlock(sb, b) := m];
      LogsOne(sb, blocks, logged, BBlock(sb, b), m);
      LogsOne(sb, map1, logged + {BBlock(sb, b)}, b + bi, Zero());
      LogsTrans(sb, blocks, map1, map1[b + bi := Zero()], logged, logged + {BBlock(sb, b)},
                logged + {BBlock(sb, b)} + {b + bi});
    }

    /** bmap filling an empty address field of the inode. */
    method FillField(i: nat, s: nat, open: bool) returns (r: Option<nat>)
      requires Valid() && i < sb.ninodes && s <= IND && inodes[i].addrs[s] == 0
      modifies this
      ensures Valid() && SameFiles(old(State()), State()) && MetaKept(sb, old(blocks), blocks)
      ensures |blocks| == |old(blocks)| && SuperOk(sb) && (r.Some? <==> open && Free(sb, old(blocks)) != {})
      ensures r.None? ==> State() == old(State()) && logged == old(logged)
      ensures r.Some? ==> Takes(sb, old(blocks), blocks, 1) && Free(sb, old(blocks)) - Free(sb, blocks) == {r.value}
      ensures r.Some? ==>
        && sb.nmeta <= r.value < sb.size && OneMoreRef(sb, old(State()), State(), i, s, r.value)
        && inodes == old(inodes)[i := old(inodes[i]).(addrs := old(inodes[i]).addrs[s := r.value])]
        && logged == old(logged) + {BBlock(sb, r.value), r.value}
      ensures Logs(sb, old(blocks), blocks, old(logged), logged)
    {
      hide GetWord, GetBit, Bit, SetBit, Entry, SameFiles, OneMoreRef, Balloced, Used, Logs, Takes, Own, Free;
      OwnShaped(sb, State(), owner);
      r := Balloc(open);
      FreeExists(sb, old(blocks));
      if r.Some? {
        Unowned(sb, old(State()), owner, r.value);
        AllocDirect(sb, old(State()), owner, i, s, r.value);
        inodes := inodes[i := inodes[i].(addrs := inodes[i].addrs[s := r.value])];
        TakesOne(sb, old(State()), State(), owner, r.value, (i, s));
        owner := owner[r.value := (i, s)];
      } else {
        FilesSame(State());
      }
    }

    /** bmap filling an empty entry of the indirect block, which it logs. */
    method FillEntry(i: nat, e: nat, open: bool) returns (r: Option<nat>)
      requires Valid() && i < sb.ninodes && e < NINDIRECT && inodes[i].addrs[IND] != 0 && Ref(State(), i, 13 + e) == 0
      modifies this
      ensures Valid() && SameFiles(old(State()), State()) && MetaKept(sb, old(blocks), blocks)
      ensures |blocks| == |old(blocks)| && SuperOk(sb) && (r.Some? <==> open && Free(sb, old(blocks)) != {})
      ensures r.None? ==> State() == old(State()) && logged == old(logged)
      ensures r.Some? ==> Takes(sb, old(blocks), blocks, 1) && Free(sb, old(blocks)) - Free(sb, blocks) == {r.value}
      ensures r.Some? ==>
        && sb.nmeta <= r.value < sb.size && OneMoreRef(sb, old(State()), State(), i, 13 + e, r.value)
        && inodes == old(inodes)
        && logged == old(logged) + {BBlock(sb, r.value), r.value, inodes[i].addrs[IND]}
      ensures Logs(sb, old(blocks), blocks, old(logged), logged)
    {
      hide GetWord, GetBit, Bit, SetBit, PutWord, Entry, SameFiles, OneMoreRef, Balloced, Used, Logs, Takes, Own, Free;
      OwnShaped(sb, State(), owner);
      r := Balloc(open);
      FreeExists(sb, old(blocks));
      if r.Some? {
        Unowned(sb, old(State()), owner, r.value);
        RefInData(sb, old(State()), owner, i, IND);
        AllocEntry(sb, old(State()), owner, i, e, r.value);
        var ind := inodes[i].addrs[IND];
        assert ind == Ref(old(State()), i, IND);
        LogsOne(sb, blocks, logged, ind, PutWord(blocks[ind], e, r.value));
        LogsTrans(sb, old(blocks), blocks, blocks[ind := PutWord(blocks[ind], e, r.value)], old(logged), logged,
                  logged + {ind as nat});
        blocks := blocks[ind := PutWord(blocks[ind], e, r.value)];
        logged := logged + {ind};
        TakesOne(sb, old(State()), State(), owner, r.value, (i, 13 + e));
        owner := owner[r.value := (i, 13 + e)];
      } else {
        FilesSame(State());
      }
    }

    /**
      bmap: the block for file block bn, allocated if missing.  It succeeds exactly if the
      free blocks it needs are there and an operation is open if it needs any.  It never
      changes what any file reads, touches no other inode, and fills at most one field of
      this one.
     */
    method Bmap(i: nat, bn: nat, open: bool) returns (r: Option<nat>)
      requires Valid() && i < sb.ninodes
      modifies this
      ensures Valid() && Shaped(sb, old(State())) && SameFiles(old(State()), State())
        && MetaKept(sb, old(blocks), blocks)
      ensures inodes == old(inodes)[i := old(inodes[i]).(addrs := inodes[i].addrs)]
      ensures r.Some? <==> bn < MAXFILE && Affordable(sb, old(State()), i, bn, bn + 1, open)
      ensures r.Some? ==> r.value == Ref(State(), i, Slot(bn)) != 0 && inodes[i].addrs[Field(bn)] != 0
      ensures r.Some? ==> Got(sb, old(State()), State(), i, bn, old(logged), logged)
      ensures forall k :: 0 <= k <= IND && k != Field(bn) ==> inodes[i].addrs[k] == old(inodes[i]).addrs[k]
      ensures forall k :: 0 <= k <= IND && old(inodes[i]).addrs[k] != 0 ==>
        inodes[i].addrs[k] == old(inodes[i]).addrs[k]
      ensures forall k :: 0 <= k < NSLOTS && Ref(old(State()), i, k) != 0 ==>
        Ref(State(), i, k) == Ref(old(State()), i, k)
      ensures !open || (bn < MAXFILE && Ref(old(State()), i, Slot(bn)) != 0) ==>
        State() == old(State()) && logged == old(logged)
      ensures Logs(sb, old(blocks), blocks, old(logged), logged)
    {
      hide GetWord, GetBit, Bit, Used, SameFiles, Own, OneMoreRef, Logs, Got, Needed, Takes, Free;
      LogsNone(sb, blocks, logged);
      FilesSame(State());
      OwnShaped(sb, State(), owner);
      if bn < MAXFILE {
        NeededOne(State(), i, bn);
      }
      if bn < NDIRECT {
        if inodes[i].addrs[bn] == 0 {
          r := FillField(i, bn, open);
          SomeFree(sb, old(blocks));
          if r.Some? {
            NewRef(sb, old(State()), State(), i, bn, r.value);
            GotDirect(sb, old(State()), State(), i, bn, r.value, old(logged));
          }
          return;
        }
        GotSame(sb, State(), i, bn, logged);
        return Some(inodes[i].addrs[bn]);
      }
      if bn - NDIRECT < NINDIRECT {
        r := BmapIndirect(i, bn - NDIRECT, open);
        return;
      }
      return None;
    }

    /** The second half of bmap: load the indirect block, allocating it and the entry as needed. */
    method BmapIndirect(i: nat, e: nat, open: bool) returns (r: Option<nat>)
      requires Valid() && i < sb.ninodes && e < NINDIRECT
      modifies this
      ensures Valid() && Shaped(sb, old(State())) && SameFiles(old(State()), State())
        && MetaKept(sb, old(blocks), blocks)
      ensures inodes == old(inodes)[i := old(inodes[i]).(addrs := inodes[i].addrs)]
      ensures r.Some? <==> Affordable(sb, old(State()), i, NDIRECT + e, NDIRECT + e + 1, open)
      ensures r.Some? ==> r.value == Ref(State(), i, 13 + e) != 0 && inodes[i].addrs[IND] != 0
      ensures r.Some? ==> Got(sb, old(State()), State(), i, NDIRECT + e, old(logged), logged)
      ensures forall k :: 0 <= k < IND ==> inodes[i].addrs[k] == old(inodes[i]).addrs[k]
      ensures old(inodes[i]).addrs[IND] != 0 ==> inodes[i].addrs[IND] == old(inodes[i]).addrs[IND]
      ensures forall k :: 0 <= k < NSLOTS && Ref(old(State()), i, k) != 0 ==>
        Ref(State(), i, k) == Ref(old(State()), i, k)
      ensures !open || Ref(old(State()), i, 13 + e) != 0 ==> State() == old(State()) && logged == old(logged)
      ensures Logs(sb, old(blocks), blocks, old(logged), logged)
    {
      hide GetWord, GetBit, Bit, Used, SameFiles, Own, OneMoreRef, Logs, Got, Needed, Takes, Free;
      LogsNone(sb, blocks, logged);
      FilesSame(State());
      OwnShaped(sb, State(), owner);
      ghost var fs0, had := State(), inodes[i].addrs[IND] != 0;
      NeededOne(fs0, i, NDIRECT + e);
      SomeFree(sb, blocks);
      if inodes[i].addrs[IND] == 0 {
        r := FillField(i, IND, open);
        if r.None? {
          return;
        }
        NewRef(sb, old(State()), State(), i, IND, r.value);
        OneLess(sb, old(blocks), blocks);
      }
      label indirect:
      ghost var ind := inodes[i].addrs[IND] as nat;
      OwnShaped(sb, State(), owner);
      SomeFree(sb, blocks);
      r := Some(Ref(State(), i, 13 + e));
      if r.value == 0 {
        r := FillEntry(i, e, open);
        if r.Some? {
          NewRef(sb, old@indirect(State()), State(), i, 13 + e, r.value);
          if had {
            GotEntry(sb, fs0, State(), i, NDIRECT + e, r.value, old(logged));
          } else {
            GotBoth(sb, fs0, old@indirect(State()), State(), i, NDIRECT + e, ind, r.value, old(logged));
          }
        }
        FilesTrans(old(State()), old@indirect(State()), State());
        LogsTrans(sb, old(blocks), old@indirect(blocks), blocks, old(logged), old@indirect(logged), logged);
      } else {
        GotSame(sb, fs0, i, NDIRECT + e, logged);
      }
    }

    /** bread, memmove and log_write of one data block. */
    method PutBytes(i: nat, bn: nat, o: nat, t: seq<Byte>)
      requires Valid() && i < sb.ninodes && bn < MAXFILE && o + |t| <= 512 && Ref(State(), i, Slot(bn)) != 0
      modifies this`blocks, this`logged
      ensures Valid() && MetaKept(sb, old(blocks), blocks)
      ensures Flat(FileBlocks(State(), i)) == Splice(Flat(FileBlocks(old(State()), i)), 512 * bn + o, t)
      ensures forall j :: 0 <= j < sb.ninodes && j != i ==> FileBlocks(State(), j) == FileBlocks(old(State()), j)
      ensures forall k :: 0 <= k < NSLOTS ==> Ref(State(), i, k) == Ref(old(State()), i, k)
      ensures logged == old(logged) + {Ref(State(), i, Slot(bn)) as nat} && SuperOk(sb) && |old(blocks)| == sb.size
      ensures Takes(sb, old(blocks), blocks, 0) && Free(sb, blocks) == Free(sb, old(blocks))
      ensures Logs(sb, old(blocks), blocks, old(logged), logged)
    {
      hide GetWord, GetBit, Bit, Used, Entry, Ref, Flat, FileBlocks, Own, Logs, Takes, Free;
      OwnShaped(sb, State(), owner);
      var a := Ref(State(), i, Slot(bn));
      var blk := Splice(blocks[a], o, t);
      FlatSplice(FileBlocks(State(), i), bn, o, t);
      FileBlockAt(State(), i, bn);
      DataWrite(sb, State(), owner, i, bn, blk);
      RefInData(sb, State(), owner, i, Slot(bn));
      LogsOne(sb, blocks, logged, a, blk);
      TakesSame(sb, State(), State().(blocks := blocks[a := blk]), owner);
      blocks := blocks[a := blk];
      logged := logged + {a};
    }

    /** One pass of writei's loop: t goes to position p, within one block. */
    method WriteBlock(i: nat, p: nat, t: seq<Byte>) returns (ok: bool)
      requires Valid() && i < sb.ninodes && p + |t| <= MAXBYTES && |t| > 0 && p % 512 + |t| <= 512
      modifies this
      ensures Valid() && Shaped(sb, State()) && Shaped(sb, old(State()))
      ensures ok <==> Affordable(sb, old(State()), i, p / 512, p / 512 + 1, true)
      ensures !ok ==> Kept(sb, old(State()), State(), i)
      ensures ok ==> Wrote(sb, old(State()), State(), i, p, t)
      ensures ok ==> Extended(sb, old(State()), State(), i, p / 512, p / 512 + 1, old(logged), logged)
      ensures Logs(sb, old(blocks), blocks, old(logged), logged)
    {
      hide GetWord, GetBit, Bit, Used, Entry, Ref, Flat, FileBlocks;
      hide Own, Splice, Logs, Got, Takes, Free, Needed, Extended;
      OwnShaped(sb, State(), owner);
      ghost var fs0 := State();
      var bn, o := p / 512, p % 512;
      var r := Bmap(i, bn, true);
      ok := r.Some?;
      ghost var fs1, logged1 := State(), logged;
      if ok {
        PutBytes(i, bn, o, t);
        LogsTrans(sb, fs0.blocks, fs1.blocks, blocks, old(logged), logged1, logged);
        GotWritten(sb, fs0, fs1, State(), i, bn, old(logged), logged1);
        assert p == 512 * bn + o;
        OneBlock(p, |t|);
        assert Kept(sb, fs0, State(), i);
        assert FileBlocks(fs1, i) == FileBlocks(fs0, i);
        assert Flat(FileBlocks(State(), i)) == Splice(Flat(FileBlocks(fs0, i)), p, t);
        assert Filled(fs0.inodes[i].addrs, inodes[i].addrs, p, |t|);
      }
      OwnShaped(sb, State(), owner);
    }

    /**
      The loop of writei.  Afterwards the bytes from off on are src, no other byte of
      any file differs, and every block touched exists.  It fails exactly if there are
      fewer free blocks than the range needs.
     */
    method WriteLoop(i: nat, src: seq<Byte>, off: nat) returns (ok: bool)
      requires Valid() && i < sb.ninodes && off + |src| <= MAXBYTES
      modifies this
      ensures Valid() && Shaped(sb, old(State())) && End(off, |src|) <= MAXFILE
      ensures ok <==> Affordable(sb, old(State()), i, off / 512, End(off, |src|), true)
      ensures !ok ==> Kept(sb, old(State()), State(), i)
      ensures ok ==> Wrote(sb, old(State()), State(), i, off, src)
      ensures ok ==> Extended(sb, old(State()), State(), i, off / 512, End(off, |src|), old(logged), logged)
      ensures Logs(sb, old(blocks), blocks, old(logged), logged)
    {
      hide GetWord, GetBit, Bit, Used, Entry, Ref, Flat, FileBlocks;
      hide Own, Splice, Wrote, Kept, End, Piece, Logs, Aligned;
      hide Extended, Affordable;
      LogsNone(sb, blocks, logged);
      OwnShaped(sb, State(), owner);
      ghost var fs0, lo, hi := State(), off / 512, End(off, |src|);
      WroteNothing(sb, fs0, i, off);
      EndFits(off, |src|);
      ExtendedNone(sb, fs0, i, lo, logged);
      var tot := 0;
      while tot < |src|
        invariant 0 <= tot <= |src| && Aligned(off, tot, |src|) && Valid() && Shaped(sb, State())
          && lo <= End(off, tot) <= hi
        invariant Wrote(sb, fs0, State(), i, off, src[..tot]) && Logs(sb, fs0.blocks, blocks, old(logged), logged)
        invariant Extended(sb, fs0, State(), i, lo, End(off, tot), old(logged), logged)
      {
        var p := off + tot;
        var m := Piece(p, |src| - tot);
        EndStep(off, tot, |src|);
        ghost var fs1, logged1 := State(), logged;
        var done := WriteBlock(i, p, src[tot..tot + m]);
        LogsTrans(sb, fs0.blocks, fs1.blocks, blocks, old(logged), logged1, logged);
        if !done {
          WroteKept(sb, fs0, fs1, State(), i, off, src[..tot]);
          StuckAt(sb, fs0, fs1, i, lo, p / 512, hi, old(logged), logged1);
          return false;
        }
        WroteMore(sb, fs0, fs1, State(), i, off, src[..tot], src[tot..tot + m]);
        ExtendedMore(sb, fs0, fs1, State(), i, lo, p / 512, p / 512 + 1, old(logged), logged1, logged);
        assert src[..tot] + src[tot..tot + m] == src[..tot + m];
        tot := tot + m;
      }
      assert src[..tot] == src;
      ExtendedPaid(sb, fs0, State(), i, lo, hi, old(logged), logged);
      return true;
    }

    /** iupdate: the in-core inode goes to its place on the disk. */
    method Iupdate(i: nat)
      requires Valid() && i < sb.ninodes
      modifies this`blocks, this`logged
      ensures Valid() && SameFiles(old(State()), State()) && SameRefs(old(State()), State())
      ensures OnDisk(sb, State(), i) == inodes[i]
      ensures forall j :: 0 <= j < sb.ninodes && j != i ==> OnDisk(sb, State(), j) == OnDisk(sb, old(State()), j)
      ensures logged == old(logged) + {IBlock(sb, i)}
      ensures Logs(sb, old(blocks), blocks, old(logged), logged)
    {
      hide GetWord, GetBit, Bit, Used, Ref, ReadInode, WriteInode, FileBlocks, Logs;
      LogsOne(sb, blocks, logged, IBlock(sb, i), WriteInode(blocks[IBlock(sb, i)], i % IPB, inodes[i]));
      IupdateKeeps(sb, State(), owner, i);
      blocks := blocks[IBlock(sb, i) := WriteInode(blocks[IBlock(sb, i)], i % IPB, inodes[i])];
      logged := logged + {IBlock(sb, i)};
    }

    /** The end of writei: record the new size and write the inode. */
    method GrowTo(i: nat, size: nat)
      requires Valid() && i < sb.ninodes && size <= MAXBYTES
      modifies this`blocks, this`inodes, this`logged
      ensures Valid() && SameFiles(old(State()), State()) && SameRefs(old(State()), State())
      ensures inodes == old(inodes)[i := old(inodes[i]).(size := size)] && OnDisk(sb, State(), i) == inodes[i]
      ensures forall j :: 0 <= j < sb.ninodes && j != i ==> OnDisk(sb, State(), j) == OnDisk(sb, old(State()), j)
      ensures logged == old(logged) + {IBlock(sb, i)} && SuperOk(sb) && |old(blocks)| == |blocks| == sb.size
      ensures Takes(sb, old(blocks), blocks, 0) && Free(sb, blocks) == Free(sb, old(blocks))
      ensures Logs(sb, old(blocks), blocks, old(logged), logged)
    {
      hide GetWord, GetBit, Bit, Used, Entry, Ref, FileBlocks, ReadInode, Logs, Takes, Free;
      FieldsOnly(sb, State(), owner, i, inodes[i].(size := size));
      inodes := inodes[i := inodes[i].(size := size)];
      label sized:
      Iupdate(i);
      FilesTrans(old(State()), old@sized(State()), State());
      TakesSame(sb, old(State()), State(), owner);
    }

    /**
      writei.  A request within the limits succeeds exactly if there are as many free blocks
      as it needs.  The file becomes the old one with src at off; every other file and inode
      is as it was; and the inode on the disk is current unless bmap filled a field of it
      without the file growing.  The lowest free blocks are taken, and what is logged is
      known exactly.
     */
    method WriteI(i: nat, src: seq<Byte>, off: nat) returns (r: Io)
      requires Valid() && i < sb.ninodes && off < 0x1_0000_0000 && |src| < 0x1_0000_0000
      modifies this
      ensures Valid() && Shaped(sb, old(State()))
      ensures r.Device? <==> old(inodes[i]).typ == T_DEV
      ensures r.Refused? <==> old(inodes[i]).typ != T_DEV && (off > old(inodes[i]).size || off + |src| > MAXBYTES)
      ensures r.Device? || r.Refused? ==> State() == old(State()) && logged == old(logged)
      ensures !r.Read?
      ensures !r.Device? && !r.Refused? ==>
        && End(off, |src|) <= MAXFILE
        && (r.Written? <==> Needed(old(State()), i, off / 512, End(off, |src|)) <= |Free(sb, old(blocks))|)
      ensures r.Written? ==> r.n == |src| && off <= old(inodes[i]).size
      ensures r.Written? ==> Content(State(), i) == Overwrite(Content(old(State()), i), off, src)
      ensures r.Written? ==> forall j :: 0 <= j < sb.ninodes && j != i ==>
        && inodes[j] == old(inodes)[j] && FileBlocks(State(), j) == FileBlocks(old(State()), j)
        && OnDisk(sb, State(), j) == OnDisk(sb, old(State()), j)
      ensures r.Written? ==> inodes[i] == old(inodes[i]).(addrs := inodes[i].addrs, size := inodes[i].size)
      ensures r.Written? && NoHoles(old(State()), i) ==> NoHoles(State(), i)
      ensures r.Written? && OnDisk(sb, old(State()), i) == old(inodes[i]) ==>
        (OnDisk(sb, State(), i) == inodes[i] <==>
         || off + |src| > old(inodes[i]).size
         || forall bn :: off / 512 <= bn < End(off, |src|) ==> old(inodes[i]).addrs[Field(bn)] != 0)
      ensures r.Written? ==>
        Filed(sb, old(State()), State(), i, off / 512, End(off, |src|), Grows(old(State()), i, off, |src|),
              old(logged), logged)
      ensures Logs(sb, old(blocks), blocks, old(logged), logged)
    {
      hide GetWord, GetBit, Bit, Used, Entry, Ref, Flat, FileBlocks, Own, Splice, ReadInode, Logs, End, NoHoles;
      hide Extended, Filed, Needed, Free, Takes;
      OwnShaped(sb, State(), owner);
      LogsNone(sb, blocks, logged);
      ghost var fs0 := State();
      if inodes[i].typ == T_DEV {
        return Device;
      }
      var n := |src|;
      if off > inodes[i].size || (off + n) % 0x1_0000_0000 < off || off + n > MAXBYTES {
        return Refused;
      }
      var ok := WriteLoop(i, src, off);
      if !ok {
        return Panic;
      }
      OwnShaped(sb, State(), owner);
      ghost var fs1, logged1 := State(), logged;
      if n > 0 && off + n > inodes[i].size {
        GrowTo(i, off + n);
        LogsTrans(sb, fs0.blocks, fs1.blocks, blocks, old(logged), logged1, logged);
        FiledGrew(sb, fs0, fs1, State(), i, off / 512, End(off, n), old(logged), logged1);
      } else {
        FiledSame(sb, fs0, fs1, i, off / 512, End(off, n), old(logged), logged1);
      }
      NewContent(sb, fs0, fs1, State(), i, off, src);
      if NoHoles(fs0, i) {
        HolesFilled(sb, fs0, fs1, State(), i, off, src);
      }
      return Written(n);
    }

    /**
      readi.  `open` says whether some operation is open.  A hole then reads as zeroes and is
      filled, as long as there are free blocks; otherwise log_write panics over it.  No file's
      contents change, and without holes in the range nothing changes at all.
     */
    method ReadI(i: nat, off: nat, n: nat, open: bool) returns (r: Io)
      requires Valid() && i < sb.ninodes && off < 0x1_0000_0000 && n < 0x1_0000_0000
      modifies this
      ensures Valid() && Shaped(sb, old(State())) && SameFiles(old(State()), State())
      ensures r.Device? <==> old(inodes[i]).typ == T_DEV
      ensures r.Refused? <==> old(inodes[i]).typ != T_DEV && (off > old(inodes[i]).size || off + n >= 0x1_0000_0000)
      ensures !r.Written?
      ensures !r.Device? && !r.Refused? ==>
        off <= old(inodes[i]).size
        && var hi := End(off, if n < old(inodes[i]).size - off then n else old(inodes[i]).size - off);
        && hi <= MAXFILE && (r.Read? <==> Affordable(sb, old(State()), i, off / 512, hi, open))
        && (!open || Needed(old(State()), i, off / 512, hi) == 0 ==> State() == old(State()) && logged == old(logged))
      ensures r.Read? ==>
        && off + |r.data| <= old(inodes[i]).size && |r.data| <= n
        && (|r.data| == n || off + |r.data| == old(inodes[i]).size)
        && r.data == Content(old(State()), i)[off..off + |r.data|]
      ensures r.Device? || r.Refused? ==> State() == old(State()) && logged == old(logged)
      ensures inodes == old(inodes)[i := old(inodes[i]).(addrs := inodes[i].addrs)]
    {
      hide GetWord, GetBit, Bit, Used, Entry, Ref, Flat, FileBlocks, Own, Piece, Slot, End, Aligned;
      hide Mapped, Takes, Affordable, Needed, Free, SameFiles;
      OwnShaped(sb, State(), owner);
      FilesSame(State());
      ghost var fs0 := State();
      if inodes[i].typ == T_DEV {
        return Device;
      }
      if off > inodes[i].size || (off + n) % 0x1_0000_0000 < off {
        return Refused;
      }
      var end := off + n;
      if off + n > inodes[i].size {
        end := inodes[i].size;
      }
      EndFits(off, end - off);
      var ok, data := ReadLoop(i, off, end, open);
      if !ok {
        return Panic;
      }
      SliceOfPrefix(Flat(FileBlocks(fs0, i)), inodes[i].size, off, end);
      return Read(data);
    }

    /** The loop of readi, up to position end. */
    method ReadLoop(i: nat, off: nat, end: nat, open: bool) returns (ok: bool, data: seq<Byte>)
      requires Valid() && i < sb.ninodes && off <= end <= MAXBYTES
      modifies this
      ensures Valid() && Shaped(sb, old(State())) && SameFiles(old(State()), State()) && End(off, end - off) <= MAXFILE
      ensures ok <==> Affordable(sb, old(State()), i, off / 512, End(off, end - off), open)
      ensures !open || Needed(old(State()), i, off / 512, End(off, end - off)) == 0 ==>
        State() == old(State()) && logged == old(logged)
      ensures ok ==> data == Flat(FileBlocks(old(State()), i))[off..end]
      ensures inodes == old(inodes)[i := old(inodes[i]).(addrs := inodes[i].addrs)]
    {
      hide GetWord, GetBit, Bit, Used, Entry, Ref, Flat, FileBlocks, Own, Piece, Slot, End, Aligned;
      hide Mapped, Takes, Affordable, Needed, Free, SameFiles, Traversed;
      OwnShaped(sb, State(), owner);
      FilesSame(State());
      data := [];
      ghost var fs0, lo, hi := State(), off / 512, End(off, end - off);
      EndFits(off, end - off);
      ReadNone(sb, fs0, i, lo, open, logged);
      while off + |data| < end
        invariant off + |data| <= end && Aligned(off, |data|, end - off) && Valid() && Shaped(sb, State())
        invariant lo <= End(off, |data|) <= hi && SameFiles(fs0, State())
        invariant inodes == old(inodes)[i := old(inodes[i]).(addrs := inodes[i].addrs)]
        invariant data == Flat(FileBlocks(fs0, i))[off..off + |data|]
        invariant Traversed(sb, fs0, State(), i, lo, End(off, |data|), open, old(logged), logged)
        decreases end - |data|
      {
        var p := off + |data|;
        ghost var fs1, logged1 := State(), logged;
        var m := Piece(p, end - p);
        EndStep(off, |data|, end - off);
        var piece;
        ok, piece := ReadBlock(i, p, m, open);
        FilesTrans(fs0, fs1, State());
        FileSame(fs0, fs1, i);
        if !ok {
          ReadStuck(sb, fs0, fs1, State(), i, lo, p / 512, hi, open, old(logged), logged1, logged);
          return;
        }
        ReadMore(sb, fs0, fs1, State(), i, lo, p / 512, open, old(logged), logged1, logged);
        SliceMore(Flat(FileBlocks(fs0, i)), off, p, p + m);
        data := data + piece;
      }
      Paid(sb, fs0, State(), i, lo, hi, open, old(logged), logged);
      return true, data;
    }

    /** One pass of readi's loop: m bytes at position p, within one block. */
    method ReadBlock(i: nat, p: nat, m: nat, open: bool) returns (ok: bool, data: seq<Byte>)
      requires Valid() && i < sb.ninodes && p + m <= MAXBYTES && m > 0 && p % 512 + m <= 512
      modifies this
      ensures Valid() && Shaped(sb, State()) && Shaped(sb, old(State())) && SameFiles(old(State()), State())
      ensures inodes == old(inodes)[i := old(inodes[i]).(addrs := inodes[i].addrs)]
      ensures ok <==> Affordable(sb, old(State()), i, p / 512, p / 512 + 1, open)
      ensures ok ==> Traversed(sb, old(State()), State(), i, p / 512, p / 512 + 1, open, old(logged), logged)
      ensures !open || Needed(old(State()), i, p / 512, p / 512 + 1) == 0 ==>
        State() == old(State()) && logged == old(logged)
      ensures ok ==> data == Flat(FileBlocks(old(State()), i))[p..p + m]
    {
      hide GetWord, GetBit, Bit, Used, Entry, Ref, Flat, FileBlocks, Own, Mapped, Takes, Needed, Free;
      OwnShaped(sb, State(), owner);
      NeededOne(State(), i, p / 512);
      var b := Bmap(i, p / 512, open);
      OwnShaped(sb, State(), owner);
      if b.None? {
        return false, [];
      }
      FileBlockAt(State(), i, p / 512);
      FlatSlice(FileBlocks(State(), i), p, m);
      return true, blocks[b.value][p % 512..p % 512 + m];
    }

    /** bfree; false is the panic "freeing free block". */
    method Bfree(b: nat) returns (ok: bool)
      requires SuperOk(sb) && |blocks| == sb.size && b < sb.size
      modifies this`blocks, this`logged
      ensures ok <==> Used(sb, old(blocks), b)
      ensures !ok ==> blocks == old(blocks)
      ensures ok ==> OnlyMap(sb, old(blocks), blocks) && logged == old(logged) + {BBlock(sb, b)}
      ensures ok ==> forall c :: 0 <= c < sb.size ==> (Used(sb, blocks, c) <==> c != b && Used(sb, old(blocks), c))
    {
      hide GetBit, ClearBit, Bit;
      if !GetBit(blocks[BBlock(sb, b)], b % BPB) {
        return false;
      }
      blocks := blocks[BBlock(sb, b) := ClearBit(blocks[BBlock(sb, b)], b % BPB)];
      logged := logged + {BBlock(sb, b)};
      forall c | 0 <= c < sb.size
        ensures Used(sb, blocks, c) <==> c != b && Used(sb, old(blocks), c)
      {
        assert c == BPB * (c / BPB) + c % BPB && b == BPB * (b / BPB) + b % BPB;
      }
      return true;
    }

    /** Free the block of reference k, if there is one; the panic cannot happen. */
    method FreeRef(ghost fs: Fs, i: nat, ghost k: nat, b: Word, ghost p: Progress, ghost p': Progress)
      requires Own(sb, fs, owner) && i < sb.ninodes && k < NSLOTS && b == Ref(fs, i, k)
      requires Freeing(sb, fs, owner, blocks, i, p) && !Freed(k, p)
      requires forall s :: 0 <= s < NSLOTS ==> (Freed(s, p') <==> s == k || Freed(s, p))
      modifies this`blocks, this`logged
      ensures Freeing(sb, fs, owner, blocks, i, p')
    {
      hide GetBit, ClearBit, Bit, GetWord, Used, Freed;
      if b != 0 {
        assert b in owner && owner[b] == (i, k);
        var ok := Bfree(b);
        assert ok;
      }
    }

    /**
      itrunc: every block of the inode is freed once, the panic "freeing free block" is
      never reached, and no other inode's block is touched.
     */
    method Itrunc(i: nat)
      requires Valid() && i < sb.ninodes
      modifies this
      ensures Valid()
      ensures owner == Without(old(owner), i)
      ensures forall b :: 0 <= b < sb.size ==>
        (Used(sb, blocks, b) <==> Used(sb, old(blocks), b) && !(b in old(owner) && old(owner)[b].0 == i))
      ensures inodes == old(inodes)[i := old(inodes[i]).(size := 0, addrs := seq(13, k => 0))]
      ensures Content(State(), i) == [] && OnDisk(sb, State(), i) == inodes[i]
      ensures forall j :: 0 <= j < sb.ninodes && j != i ==>
        FileBlocks(State(), j) == FileBlocks(old(State()), j) && OnDisk(sb, State(), j) == OnDisk(sb, old(State()), j)
    {
      hide GetWord, GetBit, Bit, Used, Entry, Ref, FileBlocks, ReadInode, Own, Freeing;
      OwnShaped(sb, State(), owner);
      ghost var fs := State();
      FreeingNone(sb, fs, owner, i);
      var k := 0;
      while k < NDIRECT
        invariant 0 <= k <= NDIRECT && Freeing(sb, fs, owner, blocks, i, Progress(k, 0, false))
        invariant |inodes| == sb.ninodes && inodes == fs.inodes[i := fs.inodes[i].(addrs := inodes[i].addrs)]
        invariant forall j :: 0 <= j <= IND ==> inodes[i].addrs[j] == if j < k then 0 else fs.inodes[i].addrs[j]
        modifies this`blocks, this`logged, this`inodes
      {
        FieldRef(fs, i, k);
        FreeRef(fs, i, k, inodes[i].addrs[k], Progress(k, 0, false), Progress(k + 1, 0, false));
        inodes := inodes[i := inodes[i].(addrs := inodes[i].addrs[k := 0])];
        k := k + 1;
      }
      FieldRef(fs, i, IND);
      if inodes[i].addrs[IND] != 0 {
        var j := 0;
        while j < NINDIRECT
          invariant 0 <= j <= NINDIRECT && Freeing(sb, fs, owner, blocks, i, Progress(NDIRECT, j, false))
          modifies this`blocks, this`logged
        {
          EntryRef(sb, fs, owner, blocks, i, j, Progress(NDIRECT, j, false));
          FreeRef(fs, i, 13 + j, GetWord(blocks[inodes[i].addrs[IND]], j), Progress(NDIRECT, j, false),
                  Progress(NDIRECT, j + 1, false));
          j := j + 1;
        }
        FreeRef(fs, i, IND, inodes[i].addrs[IND], Progress(NDIRECT, NINDIRECT, false),
                Progress(NDIRECT, NINDIRECT, true));
        inodes := inodes[i := inodes[i].(addrs := inodes[i].addrs[IND := 0])];
      } else {
        FreeingNoIndirect(sb, fs, owner, blocks, i);
      }
      inodes := inodes[i := inodes[i].(size := 0)];
      assert inodes[i].addrs == seq(13, k => 0);
      TruncOwn(sb, fs, owner, State(), i);
      owner := Without(owner, i);
      Iupdate(i);
      OwnUsed(sb, fs, old(owner));
      OwnUsed(sb, State(), owner);
    }
  }

  lemma OwnUsed(sb: Super, fs: Fs, owner: Owners)
    requires Own(sb, fs, owner)
    ensures Shaped(sb, fs)
    ensures forall b :: 0 <= b < sb.size ==> (Used(sb, fs.blocks, b) <==> b < sb.nmeta || b in owner)
    ensures forall b :: b in owner ==> sb.nmeta <= b
  {
    hide Used, Ref;
  }

  ghost function Without(owner: Owners, i: nat): Owners {
    map b | b in owner && owner[b].0 != i :: owner[b]
  }

  // How far itrunc has come: direct references, entries of the indirect block, the indirect block itself.
  datatype Progress = Progress(direct: nat, entries: nat, ind: bool)

  /** itrunc has dealt with reference s. */
  ghost predicate Freed(s: nat, p: Progress) {
    if s < IND then s < p.direct else if s == IND then p.ind else s - 13 < p.entries
  }

  /** itrunc is under way: the freed blocks are exactly those of the references dealt with. */
  ghost predicate Freeing(sb: Super, fs: Fs, owner: Owners, blocks: seq<Block>, i: nat, p: Progress) {
    && SuperOk(sb) && OnlyMap(sb, fs.blocks, blocks)
    && forall b :: 0 <= b < sb.size ==>
         (Used(sb, blocks, b) <==> Used(sb, fs.blocks, b) && !(b in owner && owner[b].0 == i && Freed(owner[b].1, p)))
  }

  lemma FreeingNone(sb: Super, fs: Fs, owner: Owners, i: nat)
    requires Own(sb, fs, owner)
    ensures Freeing(sb, fs, owner, fs.blocks, i, Progress(0, 0, false))
  {
    hide Used, Ref;
  }

  lemma FieldRef(fs: Fs, i: nat, k: nat)
    requires i < |fs.inodes| && k <= IND
    ensures Ref(fs, i, k) == fs.inodes[i].addrs[k]
  {
  }

  /** The entries itrunc reads are still those of the original indirect block. */
  lemma EntryRef(sb: Super, fs: Fs, owner: Owners, blocks: seq<Block>, i: nat, e: nat, p: Progress)
    requires Own(sb, fs, owner) && i < sb.ninodes && e < NINDIRECT && Ref(fs, i, IND) != 0
    requires Freeing(sb, fs, owner, blocks, i, p)
    ensures fs.inodes[i].addrs[IND] < |blocks| && Ref(fs, i, 13 + e) == GetWord(blocks[fs.inodes[i].addrs[IND]], e)
  {
    hide GetWord, GetBit, Bit, Used;
    assert Ref(fs, i, IND) in owner;
  }

  lemma FreeingNoIndirect(sb: Super, fs: Fs, owner: Owners, blocks: seq<Block>, i: nat)
    requires Own(sb, fs, owner) && i < sb.ninodes && Ref(fs, i, IND) == 0
    requires Freeing(sb, fs, owner, blocks, i, Progress(NDIRECT, 0, false))
    ensures Freeing(sb, fs, owner, blocks, i, Progress(NDIRECT, NINDIRECT, true))
  {
    hide GetWord, GetBit, Bit, Used;
  }

  lemma TruncOwn(sb: Super, fs: Fs, owner: Owners, fs': Fs, i: nat)
    requires Own(sb, fs, owner) && i < sb.ninodes
      && Freeing(sb, fs, owner, fs'.blocks, i, Progress(NDIRECT, NINDIRECT, true))
    requires fs'.inodes == fs.inodes[i := fs.inodes[i].(size := 0, addrs := seq(13, k => 0))]
    ensures Own(sb, fs', Without(owner, i))
    ensures forall j :: 0 <= j < sb.ninodes && j != i ==> FileBlocks(fs', j) == FileBlocks(fs, j)
    ensures MetaKept(sb, fs.blocks, fs'.blocks)
  {
    hide Used, Ref, FileBlocks;
    TruncRefs(sb, fs, owner, fs', i);
    forall j | 0 <= j < sb.ninodes && j != i
      ensures FileBlocks(fs', j) == FileBlocks(fs, j)
    {
      TruncFile(sb, fs, owner, fs', i, j);
    }
  }

  lemma TruncFile(sb: Super, fs: Fs, owner: Owners, fs': Fs, i: nat, j: nat)
    requires Own(sb, fs, owner) && i < sb.ninodes
      && Freeing(sb, fs, owner, fs'.blocks, i, Progress(NDIRECT, NINDIRECT, true))
    requires |fs'.inodes| == sb.ninodes && j < sb.ninodes && j != i
    requires forall k :: 0 <= k < NSLOTS ==> Ref(fs', j, k) == Ref(fs, j, k)
    ensures FileBlocks(fs', j) == FileBlocks(fs, j)
  {
    hide Used, Ref;
    forall n | 0 <= n < MAXFILE
      ensures FileBlock(fs', j, n) == FileBlock(fs, j, n)
    {
      var r := Ref(fs, j, Slot(n));
      assert r != 0 ==> r in owner && owner[r] == (j, Slot(n));
    }
  }

  lemma TruncRefs(sb: Super, fs: Fs, owner: Owners, fs': Fs, i: nat)
    requires Own(sb, fs, owner) && i < sb.ninodes
      && Freeing(sb, fs, owner, fs'.blocks, i, Progress(NDIRECT, NINDIRECT, true))
    requires fs'.inodes == fs.inodes[i := fs.inodes[i].(size := 0, addrs := seq(13, k => 0))]
    ensures forall j, k :: 0 <= j < sb.ninodes && 0 <= k < NSLOTS ==>
      Ref(fs', j, k) == if j == i then 0 else Ref(fs, j, k)
  {
    hide GetWord, GetBit, Bit, Used;
    forall j, k | 0 <= j < sb.ninodes && 0 <= k < NSLOTS
      ensures Ref(fs', j, k) == if j == i then 0 else Ref(fs, j, k)
    {
      assert Ref(fs, j, IND) != 0 ==> Ref(fs, j, IND) in owner;
    }
  }

  /** Only the free map differs. */
  ghost predicate OnlyMap(sb: Super, blocks: seq<Block>, blocks': seq<Block>) {
    && |blocks| == |blocks'| == sb.size
    && forall c :: 0 <= c < sb.size && !(sb.bmapstart <= c < sb.nmeta) ==> blocks'[c] == blocks[c]
  }

  lemma SliceOfPrefix<T>(s: seq<T>, n: nat, a: nat, b: nat)
    requires a <= b <= n <= |s|
    ensures s[..n][a..b] == s[a..b]
  {
  }

  lemma SliceMore<T>(s: seq<T>, a: nat, b: nat, c: nat)
    requires a <= b <= c <= |s|
    ensures s[a..b] + s[b..c] == s[a..c]
  {
  }

  lemma Unowned(sb: Super, fs: Fs, owner: Owners, b: nat)
    requires Own(sb, fs, owner) && b < sb.size && !Used(sb, fs.blocks, b)
    ensures sb.nmeta <= b && b !in owner
  {
    hide Used, Ref;
  }

  lemma FreeExists(sb: Super, blocks: seq<Block>)
    requires SuperOk(sb) && |blocks| == sb.size
    ensures Free(sb, blocks) != {} <==> exists c :: 0 <= c < sb.size && !Used(sb, blocks, c)
  {
    hide Used;
    if Free(sb, blocks) != {} {
      var c :| c in Free(sb, blocks);
    }
  }

  lemma SomeFree(sb: Super, blocks: seq<Block>)
    requires SuperOk(sb) && |blocks| == sb.size
    ensures Free(sb, blocks) != {} <==> |Free(sb, blocks)| >= 1
  {
    hide Free;
    if Free(sb, blocks) != {} {
      var c :| c in Free(sb, blocks);
      assert Free(sb, blocks) == {c} + (Free(sb, blocks) - {c});
    }
  }

  lemma OneLess(sb: Super, blocks: seq<Block>, blocks': seq<Block>)
    requires Takes(sb, blocks, blocks', 1)
    ensures |Free(sb, blocks')| == |Free(sb, blocks)| - 1
  {
    hide Free;
  }

  lemma RefInData(sb: Super, fs: Fs, owner: Owners, i: nat, k: nat)
    requires Own(sb, fs, owner) && i < sb.ninodes && k < NSLOTS && Ref(fs, i, k) != 0
    ensures sb.inodestart <= sb.nmeta <= Ref(fs, i, k) < sb.size == |fs.blocks|
  {
    hide Ref, Used;
  }

  lemma FlatSlice(f: seq<Block>, p: nat, m: nat)
    requires |f| == MAXFILE && p + m <= MAXBYTES && p % 512 + m <= 512 && m > 0
    ensures p / 512 < MAXFILE
    ensures Flat(f)[p..p + m] == f[p / 512][p % 512..p % 512 + m]
  {
    var a, b := Flat(f)[p..p + m], f[p / 512][p % 512..p % 512 + m];
    forall q | 0 <= q < |a|
      ensures a[q] == b[q]
    {
      assert (p + q) / 512 == p / 512 && (p + q) % 512 == p % 512 + q;
      assert a[q] == Flat(f)[p + q] && b[q] == f[p / 512][p % 512 + q];
    }
  }

  /** s with t written at off, extended if t reaches past the end. */
  function Overwrite(s: seq<Byte>, off: nat, t: seq<Byte>): (r: seq<Byte>)
    requires off <= |s|
  {
    s[..off] + t + if off + |t| < |s| then s[off + |t|..] else []
  }

  /** Changing other fields of an inode changes no reference. */
  lemma FieldsOnly(sb: Super, fs: Fs, owner: Owners, i: nat, ip: Inode)
    requires Own(sb, fs, owner) && i < sb.ninodes && ip.size <= MAXBYTES && ip.addrs == fs.inodes[i].addrs
    ensures var fs' := fs.(inodes := fs.inodes[i := ip]);
      Own(sb, fs', owner) && SameFiles(fs, fs') && SameRefs(fs, fs')
  {
    hide GetWord, GetBit, Bit, Used;
    var fs' := fs.(inodes := fs.inodes[i := ip]);
    assert forall j, k :: 0 <= j < sb.ninodes && 0 <= k < NSLOTS ==> Ref(fs', j, k) == Ref(fs, j, k);
    forall j | 0 <= j < sb.ninodes
      ensures FileBlocks(fs', j) == FileBlocks(fs, j)
    {
      assert forall n :: 0 <= n < MAXFILE ==> FileBlock(fs', j, n) == FileBlock(fs, j, n);
    }
  }

  /** Writing without leaving a gap leaves no hole. */
  lemma HolesFilled(sb: Super, fs: Fs, fs1: Fs, fs2: Fs, i: nat, off: nat, t: seq<Byte>)
    requires Wrote(sb, fs, fs1, i, off, t) && off <= fs.inodes[i].size && NoHoles(fs, i) && SameRefs(fs1, fs2)
    requires fs2.inodes[i].size == if |t| > 0 && off + |t| > fs.inodes[i].size then off + |t| else fs.inodes[i].size
    ensures NoHoles(fs2, i)
  {
    hide Flat, FileBlocks, Ref, Splice;
    forall bn | 0 <= bn < MAXFILE && 512 * bn < fs2.inodes[i].size
      ensures Ref(fs2, i, Slot(bn)) != 0
    {
      if 512 * bn < fs.inodes[i].size {
        assert Ref(fs, i, Slot(bn)) != 0;
      } else {
        assert Ref(fs1, i, Slot(bn)) != 0;
      }
    }
  }

  /** Does the write reach past the end of the file? */
  predicate Grows(fs: Fs, i: nat, off: nat, n: nat)
    requires i < |fs.inodes|
  {
    n > 0 && off + n > fs.inodes[i].size
  }

  lemma NewContent(sb: Super, fs: Fs, fs1: Fs, fs2: Fs, i: nat, off: nat, t: seq<Byte>)
    requires Wrote(sb, fs, fs1, i, off, t) && off <= fs.inodes[i].size <= MAXBYTES && |fs2.inodes| == sb.ninodes
    requires FileBlocks(fs2, i) == FileBlocks(fs1, i)
    requires fs2.inodes[i].size == if |t| > 0 && off + |t| > fs.inodes[i].size then off + |t| else fs.inodes[i].size
    ensures Content(fs2, i) == Overwrite(Content(fs, i), off, t)
  {
    hide Flat, FileBlocks, Ref;
  }

  /** If the next block cannot be had, neither can the whole range. */
  lemma StuckAt(sb: Super, fs0: Fs, fs1: Fs, i: nat, lo: nat, mid: nat, hi: nat, l: set<nat>, l1: set<nat>)
    requires Shaped(sb, fs0) && Shaped(sb, fs1) && i < sb.ninodes && mid < hi <= MAXFILE
    requires Extended(sb, fs0, fs1, i, lo, mid, l, l1) && !Affordable(sb, fs1, i, mid, mid + 1, true)
    ensures !Affordable(sb, fs0, i, lo, hi, true)
  {
    hide Mapped, Takes, Needed, Noted, Affordable;
    AffordMore(sb, fs0, fs1, i, lo, mid, mid, hi, true);
    if Affordable(sb, fs1, i, mid, hi, true) {
      AffordFirst(sb, fs1, i, mid, mid + 1, hi, true);
    }
  }

  lemma ExtendedPaid(sb: Super, fs0: Fs, fs1: Fs, i: nat, lo: nat, hi: nat, l: set<nat>, l1: set<nat>)
    requires Shaped(sb, fs0) && i < sb.ninodes && Extended(sb, fs0, fs1, i, lo, hi, l, l1)
    ensures Affordable(sb, fs0, i, lo, hi, true)
  {
    hide Needed, Free, Mapped, Noted;
  }

  /** A read has come from block lo to block mid, filling what was missing. */
  ghost predicate Traversed(sb: Super, fs0: Fs, fs: Fs, i: nat, lo: nat, mid: nat, open: bool, l0: set<nat>,
                            l: set<nat>) {
    && mid <= MAXFILE && Mapped(fs0, fs, i, lo, mid) && Takes(sb, fs0.blocks, fs.blocks, Needed(fs0, i, lo, mid))
    && (open || Needed(fs0, i, lo, mid) == 0) && (Needed(fs0, i, lo, mid) == 0 ==> fs == fs0 && l == l0)
  }

  /** What has been taken was there. */
  lemma Paid(sb: Super, fs0: Fs, fs1: Fs, i: nat, lo: nat, hi: nat, open: bool, l0: set<nat>, l: set<nat>)
    requires Shaped(sb, fs0) && i < sb.ninodes && Traversed(sb, fs0, fs1, i, lo, hi, open, l0, l)
    ensures Affordable(sb, fs0, i, lo, hi, open)
    ensures !open || Needed(fs0, i, lo, hi) == 0 ==> fs1 == fs0 && l == l0
  {
    hide Needed, Free, Mapped;
  }

  lemma ReadNone(sb: Super, fs: Fs, i: nat, lo: nat, open: bool, l: set<nat>)
    requires Shaped(sb, fs) && i < sb.ninodes && lo <= MAXFILE
    ensures Traversed(sb, fs, fs, i, lo, lo, open, l, l)
  {
    MappedNone(fs, i, lo);
    TakesNone(sb, fs.blocks);
  }

  /** If the next block cannot be had, neither can the range, and it is not without holes. */
  lemma ReadStuck(sb: Super, fs0: Fs, fs1: Fs, fs2: Fs, i: nat, lo: nat, mid: nat, hi: nat, open: bool,
                  l0: set<nat>, l1: set<nat>, l2: set<nat>)
    requires Shaped(sb, fs0) && Shaped(sb, fs1) && i < sb.ninodes && lo <= mid < hi <= MAXFILE
    requires Traversed(sb, fs0, fs1, i, lo, mid, open, l0, l1) && !Affordable(sb, fs1, i, mid, mid + 1, open)
    requires !open ==> fs2 == fs1 && l2 == l1
    ensures !Affordable(sb, fs0, i, lo, hi, open) && Needed(fs0, i, lo, hi) > 0
    ensures !open ==> fs2 == fs0 && l2 == l0
  {
    AffordMore(sb, fs0, fs1, i, lo, mid, mid, hi, open);
    hide Mapped, Takes, Needed, Free;
    if Affordable(sb, fs1, i, mid, hi, open) {
      AffordFirst(sb, fs1, i, mid, mid + 1, hi, open);
    }
  }

  lemma ReadMore(sb: Super, fs0: Fs, fs1: Fs, fs2: Fs, i: nat, lo: nat, mid: nat, open: bool,
                 l0: set<nat>, l1: set<nat>, l2: set<nat>)
    requires i < |fs0.inodes| && i < |fs1.inodes| && lo <= mid < MAXFILE
    requires Traversed(sb, fs0, fs1, i, lo, mid, open, l0, l1) && Traversed(sb, fs1, fs2, i, mid, mid + 1, open, l1, l2)
    ensures Traversed(sb, fs0, fs2, i, lo, mid + 1, open, l0, l2)
  {
    hide Mapped, Takes, Needed;
    NeededMore(fs0, fs1, i, lo, mid, mid, mid + 1);
    TakesMore(sb, fs0.blocks, fs1.blocks, fs2.blocks, Needed(fs0, i, lo, mid), Needed(fs1, i, mid, mid + 1));
    MappedMore(fs0, fs1, fs2, i, lo, mid, mid, mid + 1);
  }

  lemma FileSame(fs: Fs, fs': Fs, i: nat)
    requires SameFiles(fs, fs') && i < |fs.inodes|
    ensures |fs'.inodes| == |fs.inodes| && FileBlocks(fs', i) == FileBlocks(fs, i)
  {
  }

  /** Nothing but fields and missing references of inode i may differ; no file reads differently except i. */
  ghost predicate Kept(sb: Super, fs: Fs, fs': Fs, i: nat) {
    && |fs.inodes| == |fs'.inodes| == sb.ninodes && i < sb.ninodes
    && MetaKept(sb, fs.blocks, fs'.blocks)
    && fs'.inodes == fs.inodes[i := fs.inodes[i].(addrs := fs'.inodes[i].addrs)]
    && (forall j :: 0 <= j < sb.ninodes && j != i ==> FileBlocks(fs', j) == FileBlocks(fs, j))
    && (forall k :: 0 <= k < NSLOTS && Ref(fs, i, k) != 0 ==> Ref(fs', i, k) == Ref(fs, i, k))
  }

  /** The effect of writing t at off: those bytes, their blocks, and the fields bmap filled. */
  ghost predicate Wrote(sb: Super, fs: Fs, fs': Fs, i: nat, off: nat, t: seq<Byte>) {
    && Kept(sb, fs, fs', i) && off + |t| <= MAXBYTES
    && Flat(FileBlocks(fs', i)) == Splice(Flat(FileBlocks(fs, i)), off, t)
    && (forall bn :: off / 512 <= bn < End(off, |t|) ==> Ref(fs', i, Slot(bn)) != 0)
    && Filled(fs.inodes[i].addrs, fs'.inodes[i].addrs, off, |t|)
  }

  ghost predicate Filled(a: Addrs, a': Addrs, off: nat, n: nat) {
    && (forall k :: 0 <= k <= IND && a[k] != 0 ==> a'[k] == a[k])
    && (forall bn :: off / 512 <= bn < End(off, n) ==> a'[Field(bn)] != 0)
    && ((forall bn :: off / 512 <= bn < End(off, n) ==> a[Field(bn)] != 0) ==> a' == a)
  }

  lemma WroteNothing(sb: Super, fs: Fs, i: nat, off: nat)
    requires Shaped(sb, fs) && i < sb.ninodes && off <= MAXBYTES
    ensures Wrote(sb, fs, fs, i, off, [])
  {
    hide Ref, Flat, FileBlocks;
    SpliceNone(Flat(FileBlocks(fs, i)), off);
  }

  lemma WroteKept(sb: Super, fs: Fs, fs1: Fs, fs2: Fs, i: nat, off: nat, t: seq<Byte>)
    requires Wrote(sb, fs, fs1, i, off, t) && Kept(sb, fs1, fs2, i)
    ensures Kept(sb, fs, fs2, i)
  {
    hide Ref, Flat, FileBlocks, Splice;
  }

  /** Writes of adjoining pieces compose. */
  lemma WroteMore(sb: Super, fs: Fs, fs1: Fs, fs2: Fs, i: nat, off: nat, t: seq<Byte>, u: seq<Byte>)
    requires Wrote(sb, fs, fs1, i, off, t) && |u| > 0 && Wrote(sb, fs1, fs2, i, off + |t|, u)
    ensures Wrote(sb, fs, fs2, i, off, t + u)
  {
    hide Ref, Flat, FileBlocks, Splice;
    SpliceTwice(Flat(FileBlocks(fs, i)), off, t, u);
    EndJoin(off, |t|, |u|);
    forall bn | off / 512 <= bn < End(off, |t| + |u|)
      ensures Ref(fs2, i, Slot(bn)) != 0 && fs2.inodes[i].addrs[Field(bn)] != 0
    {
      if bn < End(off, |t|) {
        assert Ref(fs1, i, Slot(bn)) != 0;
      }
    }
  }

  lemma EndJoin(off: nat, n: nat, m: nat)
    requires m > 0
    ensures End(off, n + m) == End(off + n, m)
    ensures off / 512 <= (off + n) / 512 <= End(off, n) <= End(off, n + m)
  {
  }

  /** A piece that stays within one block touches only that block. */
  lemma OneBlock(p: nat, n: nat)
    requires n > 0 && p % 512 + n <= 512
    ensures End(p, n) == p / 512 + 1
  {
  }

  /** One past the last file block that n bytes at off touch. */
  function End(off: nat, n: nat): nat {
    if n == 0 then off / 512 else (off + n - 1) / 512 + 1
  }

  /** How many of the remaining bytes go to the block that holds position p. */
  function Piece(p: nat, left: nat): (m: nat)
    ensures m <= left && p % 512 + m <= 512 && (left > 0 ==> m > 0)
  {
    if left < 512 - p % 512 then left else 512 - p % 512
  }

  /** Between two passes of the loop the position is at the start of a block. */
  ghost predicate Aligned(off: nat, tot: nat, n: nat) {
    0 < tot < n ==> (off + tot) % 512 == 0
  }

  lemma EndStep(off: nat, tot: nat, n: nat)
    requires tot < n && off + n <= MAXBYTES && Aligned(off, tot, n)
    ensures End(off, tot) == (off + tot) / 512 < MAXFILE && off / 512 <= End(off, tot) < End(off, n)
    ensures var m := Piece(off + tot, n - tot);
      End(off, tot + m) == End(off, tot) + 1 && Aligned(off, tot + m, n)
  {
  }

  lemma EndFits(off: nat, n: nat)
    requires off + n <= MAXBYTES
    ensures off / 512 <= End(off, n) <= MAXFILE && End(off, 0) == off / 512 && Aligned(off, 0, n)
  {
  }

  lemma SpliceNone<T>(s: seq<T>, off: nat)
    requires off <= |s|
    ensures Splice(s, off, []) == s
  {
  }

  lemma FileBlockAt(fs: Fs, i: nat, bn: nat)
    requires i < |fs.inodes| && bn < MAXFILE && 0 < Ref(fs, i, Slot(bn)) < |fs.blocks|
    ensures FileBlocks(fs, i)[bn] == fs.blocks[Ref(fs, i, Slot(bn))]
  {
  }

  lemma NewRef(sb: Super, fs: Fs, fs': Fs, i: nat, s: nat, b: nat)
    requires OneMoreRef(sb, fs, fs', i, s, b) && i < sb.ninodes && s < NSLOTS && Ref(fs, i, s) == 0
    ensures Ref(fs', i, s) == b
    ensures forall k :: 0 <= k < NSLOTS && k != s ==> Ref(fs', i, k) == Ref(fs, i, k)
  {
  }

  lemma FilesTrans(fs: Fs, fs1: Fs, fs2: Fs)
    requires SameFiles(fs, fs1) && SameFiles(fs1, fs2)
    ensures SameFiles(fs, fs2)
  {
  }

  lemma OwnShaped(sb: Super, fs: Fs, owner: Owners)
    requires Own(sb, fs, owner)
    ensures Shaped(sb, fs)
    ensures forall i, k :: 0 <= i < sb.ninodes && 0 <= k < NSLOTS && Ref(fs, i, k) != 0 ==>
      sb.nmeta <= Ref(fs, i, k) < sb.size
  {
    hide GetWord, GetBit, Bit, Entry, Used;
  }

  lemma FilesSame(fs: Fs)
    ensures SameFiles(fs, fs)
  {
  }
}
