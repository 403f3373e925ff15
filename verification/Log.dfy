/**
  log.c over the buffer cache: commit and recovery as the code runs them, proved
  to leave on the disk exactly the images of RedoLog.CommitTrace and
  RedoLog.RecoverTrace.  `false` is the panic "bget: no buffers".
 */
module Log {
  import opened Blocks
  import opened Bio
  import opened RedoLog
  import GroupCommit
  import opened Counting

  /** Fewer logged blocks than buffers: some buffer is clean. */
  lemma SomeClean(bufs: seq<Buf>, bs: seq<Word>) returns (k: nat)
    requires |bufs| == NBUF && Unique(bufs) && |bs| < NBUF
    requires forall i :: 0 <= i < NBUF && bufs[i].dirty ==> bufs[i].dev == 1 && bufs[i].blockno in bs
    ensures k < NBUF && !bufs[k].dirty
  {
    if forall i :: 0 <= i < NBUF ==> bufs[i].dirty {
      var s: seq<int> := seq(NBUF, i requires 0 <= i < NBUF => bufs[i].blockno);
      assert Distinct(s);
      SetOfSeq(bs);
      DistinctFit(s, set x | x in bs);
      assert false;
    }
    k :| 0 <= k < NBUF && !bufs[k].dirty;
  }

  ghost predicate PinnedAt(bufs: seq<Buf>, b: Word) {
    exists i :: 0 <= i < |bufs| && bufs[i].dirty && Match(bufs[i], 1, b)
  }

  /** Every one of these logged blocks is pinned in the cache. */
  ghost predicate Pinned(bufs: seq<Buf>, bs: seq<Word>) {
    forall j :: 0 <= j < |bs| ==> PinnedAt(bufs, bs[j])
  }

  /** As many logged blocks as buffers: every buffer is dirty. */
  lemma AllDirty(bufs: seq<Buf>, bs: seq<Word>)
    requires |bufs| == NBUF && |bs| == NBUF && Distinct(bs)
    requires Pinned(bufs, bs)
    ensures forall i :: 0 <= i < NBUF ==> bufs[i].dirty
  {
    if k :| 0 <= k < NBUF && !bufs[k].dirty {
      var s := Holders(bufs, bs, NBUF);
      DistinctFit(s, Range(NBUF) - {k});
      assert false;
    }
  }

  lemma {:induction false} Holders(bufs: seq<Buf>, bs: seq<Word>, n: nat) returns (s: seq<int>)
    requires n <= |bs| && Distinct(bs)
    requires Pinned(bufs, bs)
    ensures |s| == n && Distinct(s)
    ensures forall j :: 0 <= j < n ==> 0 <= s[j] < |bufs| && bufs[s[j]].dirty && bufs[s[j]].blockno == bs[j]
  {
    s := [];
    if n > 0 {
      s := Holders(bufs, bs, n - 1);
      assert PinnedAt(bufs, bs[n - 1]);
      var i :| 0 <= i < |bufs| && bufs[i].dirty && Match(bufs[i], 1, bs[n - 1]);
      s := s + [i];
    }
  }

  /** Every dirty buffer is one of these logged blocks. */
  ghost predicate DirtyIn(bufs: seq<Buf>, bs: seq<Word>) {
    forall i :: 0 <= i < |bufs| && bufs[i].dirty ==> bufs[i].blockno in bs
  }

  /** A buffer that bget can take. */
  ghost predicate Spare(bufs: seq<Buf>) {
    exists i :: 0 <= i < |bufs| && Recyclable(bufs[i])
  }

  /** Nobody uses the log area, and nobody holds one of these blocks; other blocks may be held. */
  ghost predicate Quiet(l: Layout, bufs: seq<Buf>, locked: seq<bool>, bs: seq<Word>) {
    && |bufs| == |locked| == NBUF
    && (forall i :: 0 <= i < NBUF && bufs[i].dev == 1 && InLog(l, bufs[i].blockno) ==>
      bufs[i].refcnt == 0 && !locked[i])
    && (forall i :: 0 <= i < NBUF && bufs[i].dev == 1 && bufs[i].blockno in bs ==> !locked[i])
  }

  ghost predicate NotInLog(l: Layout, bufs: seq<Buf>) {
    forall i :: 0 <= i < |bufs| && bufs[i].dirty ==> !InLog(l, bufs[i].blockno)
  }

  /** Reference counts stay, buffers in use stay with their blocks, and those that are held do not change at all. */
  ghost predicate Kept(bufs: seq<Buf>, locked: seq<bool>, bufs': seq<Buf>, locked': seq<bool>) {
    && |bufs| == |bufs'| == |locked| == NBUF && locked' == locked
    && (forall i :: 0 <= i < NBUF ==> bufs'[i].refcnt == bufs[i].refcnt)
    && (forall i :: 0 <= i < NBUF && bufs[i].refcnt > 0 ==>
      bufs'[i].dev == bufs[i].dev && bufs'[i].blockno == bufs[i].blockno)
    && (forall i :: 0 <= i < NBUF && locked[i] ==> bufs'[i] == bufs[i])
  }

  class Log {
    const bc: Bcache
    const l: Layout
    var n: nat
    var block: seq<Word>

    // How many FS system calls are executing, and whether the last one is committing.
    var outstanding: nat
    var committing: bool

    // Since recovery: the disk it left, where its trace stood, and the transactions committed.
    ghost var start: Image
    ghost var base: nat
    ghost var txns: seq<Txn>

    // The run of begin_op, log_write and end_op so far, as GroupCommit sees it.
    ghost var g: GroupCommit.State

    ghost predicate Shape()
      reads this, bc
    {
      && bc.Valid() && |block| == LOGSIZE && n <= LOGSIZE
      && Targets(l, block[..n], |bc.disk|)
    }

    /** The dirty buffers are exactly the logged blocks. */
    ghost predicate Valid()
      reads this, bc
    {
      Shape() && DirtyIn(bc.bufs, block[..n]) && Pinned(bc.bufs, block[..n])
    }

    /** The disk shows the committed transactions and nothing else. */
    ghost predicate Durable()
      reads this, bc
    {
      Recorded(l, base, start, txns, bc.disk, bc.trace)
    }

    /** The fields are those of a state that the GroupCommit machine reaches. */
    ghost predicate Tracks()
      reads this
    {
      && n <= |block| && GroupCommit.Reaches(g, l.size)
      && g.outstanding == outstanding && g.committing == committing && g.lh == block[..n]
    }

    /** What that run says about every operation: the reservation holds. */
    lemma Reserved()
      requires Tracks()
      ensures GroupCommit.Inv(g) && n + GroupCommit.Unused(g.ops) <= LOGSIZE
    {
      hide GroupCommit.Inv;
      var ss :| GroupCommit.Run(ss, l.size) && ss[|ss| - 1] == g;
      GroupCommit.RunKeeps(ss, l.size);
      assert GroupCommit.Inv(g);
      GroupCommit.Budget(g);
    }

    constructor (bc: Bcache, l: Layout)
      requires bc.Valid() && 1 <= l.size && l.start + l.size <= |bc.disk|
      ensures Shape() && Tracks() && this.bc == bc && this.l == l && n == 0 && outstanding == 0 && !committing
    {
      this.bc, this.l := bc, l;
      n, block, outstanding, committing := 0, seq(LOGSIZE, i => 0), 0, false;
      start, base, txns := [], 0, [];
      g := GroupCommit.INIT;
      new;
      GroupCommit.ReachInit(l.size);
    }

    /** The two breads of a copy: the log block, then the home block. */
    method ReadPair(logb: Word, home: Word) returns (ok: bool, a: nat, b: nat)
      requires bc.Valid() && logb != home && logb < |bc.disk| && home < |bc.disk|
      requires forall i :: 0 <= i < NBUF && Match(bc.bufs[i], 1, logb) ==> Recyclable(bc.bufs[i]) && !bc.locked[i]
      requires forall i :: 0 <= i < NBUF && Match(bc.bufs[i], 1, home) ==> !bc.locked[i]
      modifies bc
      ensures bc.Valid() && bc.disk == old(bc.disk) && bc.view == old(bc.view) && bc.trace == old(bc.trace)
      ensures a < NBUF && b < NBUF
      ensures ok ==>
        && a != b && bc.bufs[a].valid && bc.bufs[b].valid
        && Match(bc.bufs[a], 1, logb) && Match(bc.bufs[b], 1, home)
        && bc.bufs[a].data == bc.view[logb] && bc.bufs[b].data == bc.view[home]
        && bc.view[logb] == bc.disk[logb] && (!bc.bufs[b].dirty ==> bc.view[home] == bc.disk[home])
        && Recyclable(old(bc.bufs)[a]) && bc.bufs[a].refcnt == 1
        && (Match(old(bc.bufs)[b], 1, home) || Recyclable(old(bc.bufs)[b]))
          && bc.bufs[b].refcnt == old(bc.bufs)[b].refcnt + 1
        && !old(bc.locked)[a] && !old(bc.locked)[b] && bc.locked == old(bc.locked)[a := true][b := true]
        && (forall i :: 0 <= i < NBUF && i != a && i != b ==> bc.bufs[i] == old(bc.bufs)[i])
        && (forall i :: 0 <= i < NBUF ==> bc.bufs[i].dirty == old(bc.bufs)[i].dirty)
        && (forall i :: 0 <= i < NBUF && bc.bufs[i].dirty ==> bc.bufs[i].blockno == old(bc.bufs)[i].blockno)
      // A pinned home block needs one buffer; with all buffers free there are always two.
      ensures PinnedAt(old(bc.bufs), home) ==> (ok <==> Spare(old(bc.bufs)))
      ensures (forall i :: 0 <= i < NBUF ==> Recyclable(old(bc.bufs)[i])) ==> ok
    {
      hide RingOk, Recency, Unique, Agrees;
      a, b := 0, 0;
      ghost var free := Recyclable(bc.bufs[0]);
      var r := bc.Bread(1, logb);
      if r.None? {
        return false, 0, 0;
      }
      a := r.value;
      assert Recyclable(old(bc.bufs)[a]);
      ghost var other := if a == 0 then 1 else 0;
      assert Recyclable(old(bc.bufs)[other]) ==> Recyclable(bc.bufs[other]);
      assert forall i :: 0 <= i < NBUF && Match(old(bc.bufs)[i], 1, home) && old(bc.bufs)[i].dirty ==>
          Match(bc.bufs[i], 1, home);
      r := bc.Bread(1, home);
      if r.None? {
        return false, 0, 0;
      }
      ok, b := true, r.value;
    }

    /** memmove from one held buffer to another, bwrite of that, and brelse of both. */
    method Transfer(from: nat, to: nat)
      requires bc.Valid() && from < NBUF && to < NBUF && from != to && bc.locked[from] && bc.locked[to]
      requires bc.bufs[from].valid && bc.bufs[to].valid && bc.bufs[from].blockno < |bc.disk|
        && bc.bufs[from].blockno != bc.bufs[to].blockno
      requires !bc.bufs[from].dirty ==> bc.bufs[from].data == bc.disk[bc.bufs[from].blockno]
      modifies bc
      ensures bc.Valid() && bc.bufs[to].blockno < |old(bc.disk)|
        && bc.locked == old(bc.locked)[from := false][to := false]
      ensures bc.bufs == old(bc.bufs)[from := old(bc.bufs)[from].(refcnt := old(bc.bufs)[from].refcnt - 1)]
        [to := old(bc.bufs)[to].(refcnt := old(bc.bufs)[to].refcnt - 1, dirty := false,
                                 data := old(bc.bufs)[from].data)]
      ensures bc.disk == old(bc.disk)[bc.bufs[to].blockno := old(bc.bufs)[from].data]
      ensures bc.view == old(bc.view)[bc.bufs[to].blockno := old(bc.bufs)[from].data]
        && bc.trace == old(bc.trace) + [bc.disk]
    {
      hide RingOk, Recency, Unique, Agrees;
      bc.HeldBlock(from);
      bc.WriteThrough(to, bc.bufs[from].data);
      bc.Brelse(from);
      bc.Brelse(to);
    }

    /** Copy a block through the cache, the body of both copy loops. */
    method CopyBlock(logb: Word, home: Word, intoLog: bool, ghost bs: seq<Word>) returns (ok: bool)
      requires bc.Valid() && logb < |bc.disk| && home < |bc.disk| && InLog(l, logb) && !InLog(l, home) && home in bs
      requires Quiet(l, bc.bufs, bc.locked, bs) && NotInLog(l, bc.bufs)
      modifies bc
      ensures bc.Valid() && |bc.disk| == old(|bc.disk|)
      ensures !ok ==> bc.disk == old(bc.disk) && bc.trace == old(bc.trace)
      ensures ok ==> Quiet(l, bc.bufs, bc.locked, bs) && NotInLog(l, bc.bufs) && Spare(bc.bufs)
      ensures ok ==> Kept(old(bc.bufs), old(bc.locked), bc.bufs, bc.locked)
      ensures ok ==>
        var (from, to) := if intoLog then (home, logb) else (logb, home);
        && bc.disk == old(bc.disk)[to := old(bc.view)[from]]
        && bc.view == old(bc.view)[to := old(bc.view)[from]]
        && bc.trace == old(bc.trace) + [bc.disk]
        && (forall i :: 0 <= i < NBUF && old(bc.bufs)[i].dirty && old(bc.bufs)[i].blockno != to ==>
              bc.bufs[i].dirty && Match(bc.bufs[i], 1, old(bc.bufs)[i].blockno))
        && (forall i :: 0 <= i < NBUF && bc.bufs[i].dirty ==> old(bc.bufs)[i].dirty && bc.bufs[i].blockno != to
                                                              && bc.bufs[i].blockno == old(bc.bufs)[i].blockno)
      ensures PinnedAt(old(bc.bufs), home) ==> (ok <==> Spare(old(bc.bufs)))
      ensures (forall i :: 0 <= i < NBUF ==> Recyclable(old(bc.bufs)[i])) ==>
        ok && forall i :: 0 <= i < NBUF ==> Recyclable(bc.bufs[i])
    {
      hide RingOk, Recency, Unique, Agrees, Quiet, NotInLog, Kept, Spare, PinnedAt;
      LogFree(l, bc.bufs, bc.locked, bs, logb, home);
      var a, b;
      ok, a, b := ReadPair(logb, home);
      if ok {
        var from, to := if intoLog then b else a, if intoLog then a else b;
        Transfer(from, to);
        bc.OtherDirty(to);
        assert bc.locked == old(bc.locked);
        Released(l, old(bc.bufs), bc.bufs, bc.locked, bs, a, b, logb, home);
      }
    }

    /** read_head */
    method ReadHead()
      requires Shape() && bc.Idle() && (forall i :: 0 <= i < NBUF ==> !bc.bufs[i].dirty)
      requires Recoverable(l, bc.view)
      modifies bc, this`n, this`block
      ensures Shape() && bc.Idle() && forall i :: 0 <= i < NBUF ==> !bc.bufs[i].dirty
      ensures bc.disk == old(bc.disk) && bc.view == old(bc.view) && bc.trace == old(bc.trace)
      ensures block[..n] == Entries(bc.view[l.start])
    {
      hide RingOk, Recency, Unique, Agrees, PutWord, GetWord;
      assert Recyclable(bc.bufs[0]);
      var r := bc.Bread(1, l.start);
      var h := bc.bufs[r.value].data;
      n := GetWord(h, 0);
      var i := 0;
      while i < n
        invariant 0 <= i <= n && n == GetWord(h, 0) <= |block| == LOGSIZE
        invariant block[..i] == Entries(h)[..i]
        modifies this`block
      {
        block := block[i := GetWord(h, i + 1)];
        i := i + 1;
      }
      assert block[..n] == Entries(h);
      bc.Brelse(r.value);
    }

    /** write_head: the count and the entries go into the header block in one disk write. */
    method WriteHead(ghost bs: seq<Word>) returns (ok: bool)
      requires Shape() && Quiet(l, bc.bufs, bc.locked, bs) && NotInLog(l, bc.bufs)
      modifies bc
      ensures Shape()
      ensures ok <==> Spare(old(bc.bufs))
      ensures !ok ==> bc.disk == old(bc.disk) && bc.trace == old(bc.trace)
      ensures ok ==> Quiet(l, bc.bufs, bc.locked, bs) && NotInLog(l, bc.bufs) && Spare(bc.bufs)
      ensures ok ==> Kept(old(bc.bufs), old(bc.locked), bc.bufs, bc.locked)
      ensures ok ==>
        && bc.disk == old(bc.disk)[l.start := HeadBlock(old(bc.disk)[l.start], block[..n])]
        && bc.view == old(bc.view)[l.start := bc.disk[l.start]]
        && bc.trace == old(bc.trace) + [bc.disk]
        && (forall i :: 0 <= i < NBUF && old(bc.bufs)[i].dirty && old(bc.bufs)[i].blockno != l.start ==>
              bc.bufs[i].dirty && Match(bc.bufs[i], 1, old(bc.bufs)[i].blockno))
        && (forall i :: 0 <= i < NBUF && bc.bufs[i].dirty ==> old(bc.bufs)[i].dirty
                                                              && bc.bufs[i].blockno == old(bc.bufs)[i].blockno)
      ensures ok && (forall i :: 0 <= i < NBUF ==> Recyclable(old(bc.bufs)[i])) ==>
        forall i :: 0 <= i < NBUF ==> Recyclable(bc.bufs[i])
    {
      hide RingOk, Recency, Unique, Agrees, PutWord, GetWord, Quiet, NotInLog, Kept, Spare;
      HeadFree(l, bc.bufs, bc.locked, bs);
      var r := bc.Bread(1, l.start);
      if r.None? {
        return false;
      }
      var b := r.value;
      var h := PutWord(bc.bufs[b].data, 0, n);
      ghost var h0 := h;
      var i := 0;
      while i < n
        invariant 0 <= i <= n && h == PutEntries(h0, block[..i])
      {
        h := PutWord(h, i + 1, block[i]);
        i := i + 1;
        assert block[..i][..i - 1] == block[..i - 1];
      }
      bc.WriteThrough(b, h);
      bc.Brelse(b);
      bc.OtherDirty(b);
      assert bc.locked == old(bc.locked);
      ReleasedOne(l, old(bc.bufs), bc.bufs, bc.locked, bs, b);
      return true;
    }

    /** What the transaction in progress will write. */
    ghost function Current(): (t: Txn)
      reads this, bc
      requires Shape()
      ensures TxnOk(l, t, |bc.disk|) && t.blocks == block[..n]
    {
      TxnOf(block[..n], bc.view)
    }

    /** write_log; it runs out of buffers exactly when there is none to take. */
    method WriteLog() returns (ok: bool)
      requires Valid() && Quiet(l, bc.bufs, bc.locked, block[..n]) && n > 0
      modifies bc
      ensures Shape() && |bc.disk| == old(|bc.disk|)
      ensures ok <==> Spare(old(bc.bufs))
      ensures !ok ==> bc.disk == old(bc.disk) && bc.trace == old(bc.trace)
      ensures ok ==> Quiet(l, bc.bufs, bc.locked, block[..n]) && Spare(bc.bufs)
      ensures ok ==> Kept(old(bc.bufs), old(bc.locked), bc.bufs, bc.locked)
      ensures ok ==>
        && Valid()
        && bc.disk == LogCopy(l, old(bc.disk), old(Current()), n)
        && bc.trace == old(bc.trace) + LogCopies(l, old(bc.disk), old(Current()), n)
        && SameHome(l, bc.view, old(bc.view))
    {
      hide RingOk, Recency, Unique, Agrees, PutWord, GetWord, LogCopies;
      hide LogCopy, Pinned, DirtyIn, Quiet, Kept, Spare, Recorded;
      ghost var d, t, bs := bc.disk, Current(), block[..n];
      LogCopyNone(l, d, t);
      KeptNone(bc.bufs, bc.locked);
      var tail := 0;
      while tail < n
        invariant 0 <= tail <= n && (tail > 0 ==> Spare(old(bc.bufs)) && Spare(bc.bufs))
          && (tail == 0 ==> bc.bufs == old(bc.bufs))
        invariant Valid() && Quiet(l, bc.bufs, bc.locked, bs) && block[..n] == bs && |bc.disk| == |d|
        invariant Kept(old(bc.bufs), old(bc.locked), bc.bufs, bc.locked)
        invariant SameHome(l, bc.view, old(bc.view))
        invariant bc.disk == LogCopy(l, d, t, tail)
        invariant bc.trace == old(bc.trace) + LogCopies(l, d, t, tail)
        modifies bc
      {
        PinnedHome(l, bc.bufs, bs, tail, |bc.disk|);
        LogCopyStep(l, d, t, tail);
        label before:
        ok := CopyBlock(l.start + tail + 1, block[tail], true, bs);
        if !ok {
          return;
        }
        KeptTrans(old(bc.bufs), old(bc.locked), old@before(bc.bufs), old@before(bc.locked), bc.bufs, bc.locked);
        PinsKept(old@before(bc.bufs), bc.bufs, bs, bs, l.start + tail + 1);
        assert t.data[tail] == old@before(bc.view)[block[tail]];
        tail := tail + 1;
      }
      return true;
    }

    /**
      install_trans, in commit (the remaining blocks pinned, and a buffer to take) and in
      recovery (every buffer free).  Afterwards nothing is dirty.
     */
    method InstallTrans()
      requires Shape() && Quiet(l, bc.bufs, bc.locked, block[..n]) && DirtyIn(bc.bufs, block[..n])
      requires Ready(bc.bufs, block[..n])
      modifies bc
      ensures Shape() && (forall i :: 0 <= i < NBUF ==> !bc.bufs[i].dirty)
      ensures Quiet(l, bc.bufs, bc.locked, block[..n]) && Spare(bc.bufs)
      ensures Kept(old(bc.bufs), old(bc.locked), bc.bufs, bc.locked)
      ensures (forall i :: 0 <= i < NBUF ==> Recyclable(old(bc.bufs)[i])) ==>
        forall i :: 0 <= i < NBUF ==> Recyclable(bc.bufs[i])
      ensures bc.disk == Install(l, old(bc.disk), block[..n], n)
      ensures bc.trace == old(bc.trace) + Installs(l, old(bc.disk), block[..n], n)
    {
      hide RingOk, Recency, Unique, Agrees, PutWord, GetWord, Install;
      hide Installs, Targets, DirtyIn, Pinned, Quiet, Kept, Spare;
      ghost var d, bs, all := bc.disk, block[..n], forall i :: 0 <= i < NBUF ==> Recyclable(bc.bufs[i]);
      InstallNone(l, d, bs);
      KeptNone(bc.bufs, bc.locked);
      SpareOf(bc.bufs);
      assert bs[0..] == bs;
      var tail := 0;
      while tail < n
        invariant 0 <= tail <= n
        invariant Shape() && Quiet(l, bc.bufs, bc.locked, bs) && block[..n] == bs && |bc.disk| == |d|
        invariant Kept(old(bc.bufs), old(bc.locked), bc.bufs, bc.locked)
        invariant DirtyIn(bc.bufs, bs[tail..]) && Spare(bc.bufs)
        invariant !all ==> Pinned(bc.bufs, bs[tail..])
        invariant all ==> forall i :: 0 <= i < NBUF ==> Recyclable(bc.bufs[i])
        invariant bc.disk == Install(l, d, bs, tail)
        invariant bc.trace == old(bc.trace) + Installs(l, d, bs, tail)
        modifies bc
      {
        CanInstall(bc, l, bs, tail, !all);
        InstallStep(l, d, bs, tail);
        label before:
        var ok := CopyBlock(l.start + tail + 1, block[tail], false, bs);
        assert ok;
        KeptTrans(old(bc.bufs), old(bc.locked), old@before(bc.bufs), old@before(bc.locked), bc.bufs, bc.locked);
        InstallPins(old@before(bc.bufs), bc.bufs, bs, tail, !all);
        tail := tail + 1;
      }
      NoneDirty(bc.bufs, bs[n..]);
    }

    /** The last three steps of both commit and recovery. */
    method InstallAndClear()
      requires Shape() && Quiet(l, bc.bufs, bc.locked, block[..n]) && DirtyIn(bc.bufs, block[..n])
      requires Ready(bc.bufs, block[..n])
      requires Recoverable(l, bc.disk) && Entries(bc.disk[l.start]) == block[..n]
      modifies bc, this`n
      ensures Valid() && n == 0 && (forall i :: 0 <= i < NBUF ==> !bc.bufs[i].dirty)
      ensures Quiet(l, bc.bufs, bc.locked, old(block[..n]))
      ensures Kept(old(bc.bufs), old(bc.locked), bc.bufs, bc.locked)
      ensures (forall i :: 0 <= i < NBUF ==> Recyclable(old(bc.bufs)[i])) ==>
        forall i :: 0 <= i < NBUF ==> Recyclable(bc.bufs[i])
      ensures bc.disk == Recover(l, old(bc.disk))
      ensures bc.trace == old(bc.trace) + RecoverTrace(l, old(bc.disk))
    {
      hide RingOk, Recency, Unique, Agrees, PutWord, GetWord, HeadBlock, Kept;
      ghost var d, bs := bc.disk, block[..n];
      InstallTrans();
      label installed:
      n := 0;
      assert block[..0] == [];
      var ok := WriteHead(bs);
      KeptTrans(old(bc.bufs), old(bc.locked), old@installed(bc.bufs), old@installed(bc.locked), bc.bufs, bc.locked);
      assert Install(l, d, bs, |bs|)[l.start] == d[l.start];
    }

    /**
      commit, while any blocks but those of the transaction and the log may be held by
      readers.  The disk goes through exactly the images of CommitTrace, the cache ends
      clean, readers notice nothing, and every block that nobody holds has at home what
      readers see.  It fails exactly when there is something to commit and no buffer to take.
     */
    method Commit() returns (ok: bool)
      requires Valid() && Quiet(l, bc.bufs, bc.locked, block[..n]) && GetWord(bc.disk[l.start], 0) == 0
      modifies bc, this`n
      ensures ok <==> old(n) == 0 || Spare(old(bc.bufs))
      ensures !ok ==> bc.disk == old(bc.disk) && bc.trace == old(bc.trace)
      ensures ok ==> Kept(old(bc.bufs), old(bc.locked), bc.bufs, bc.locked)
      ensures ok ==>
        && Valid() && n == 0 && (forall i :: 0 <= i < NBUF ==> !bc.bufs[i].dirty)
        && bc.trace == old(bc.trace) + CommitTrace(l, old(bc.disk), old(Current()))
        && bc.disk == Final(l, old(bc.disk), old(Current()))
        && AtHome(l, bc.bufs, bc.locked, bc.disk, old(bc.view)) && SameHome(l, bc.view, old(bc.view))
    {
      hide RingOk, Recency, Unique, Agrees, PutWord, GetWord, CommitTrace, Final;
      hide Kept, Spare, AtHome, Quiet, SameHome, Pinned, DirtyIn, Apply;
      ghost var d, t := bc.disk, Current();
      HomesCurrent(bc, l, block[..n]);
      ok := true;
      if n > 0 {
        ok := CommitBlocks();
        if !ok {
          return;
        }
      } else {
        KeptNone(bc.bufs, bc.locked);
        NothingToCommit(l, d, t);
        NoneDirty(bc.bufs, block[..n]);
      }
      HomesKept(l, old(bc.bufs), old(bc.locked), bc.bufs, bc.locked, Apply(d, t), bc.disk, old(bc.view));
      ReadersKept(bc, l, old(bc.bufs), old(bc.locked), d, old(bc.view), t);
    }

    /** The body of commit when there is something to commit. */
    method CommitBlocks() returns (ok: bool)
      requires Valid() && Quiet(l, bc.bufs, bc.locked, block[..n]) && n > 0
      modifies bc, this`n
      ensures ok <==> Spare(old(bc.bufs))
      ensures !ok ==> bc.disk == old(bc.disk) && bc.trace == old(bc.trace)
      ensures ok ==> Kept(old(bc.bufs), old(bc.locked), bc.bufs, bc.locked)
      ensures ok ==>
        && Valid() && n == 0 && (forall i :: 0 <= i < NBUF ==> !bc.bufs[i].dirty)
        && bc.trace == old(bc.trace) + CommitTrace(l, old(bc.disk), old(Current()))
        && bc.disk == Final(l, old(bc.disk), old(Current()))
        && SameHome(l, bc.disk, Apply(old(bc.disk), old(Current())))
    {
      hide RingOk, Recency, Unique, Agrees, HeadBlock, LogCopies, Recover, RecoverTrace, Recoverable, Entries, DirtyIn;
      hide CommitTrace, Committed, Final, Kept, Spare, Quiet, SameHome, Apply;
      ghost var d, t := bc.disk, Current();
      CommitParts(l, d, t);
      ok := CommitPoint();
      if !ok {
        return;
      }
      label written:
      InstallAndClear();
      KeptTrans(old(bc.bufs), old(bc.locked), old@written(bc.bufs), old@written(bc.locked), bc.bufs, bc.locked);
      CommittedRecovers(l, d, t);
    }

    /** The first two steps of commit: the blocks into the log, and the header. */
    method CommitPoint() returns (ok: bool)
      requires Valid() && Quiet(l, bc.bufs, bc.locked, block[..n]) && n > 0
      modifies bc
      ensures ok <==> Spare(old(bc.bufs))
      ensures !ok ==> bc.disk == old(bc.disk) && bc.trace == old(bc.trace)
      ensures ok ==> Shape() && Kept(old(bc.bufs), old(bc.locked), bc.bufs, bc.locked)
      ensures ok ==>
        Quiet(l, bc.bufs, bc.locked, block[..n]) && DirtyIn(bc.bufs, block[..n]) && Ready(bc.bufs, block[..n])
      ensures ok ==>
        var d, t := old(bc.disk), old(Current());
        bc.disk == Committed(l, d, t) && bc.trace == old(bc.trace) + LogCopies(l, d, t, n) + [bc.disk]
    {
      hide RingOk, Recency, Unique, Agrees, HeadBlock, LogCopy, LogCopies;
      hide Recoverable, Committed, Kept, Spare, Quiet, SameHome;
      ghost var d, t, bs := bc.disk, Current(), block[..n];
      CommitParts(l, d, t);
      ok := WriteLog();
      if !ok {
        return;
      }
      label head:
      PinnedHome(l, bc.bufs, bs, 0, |bc.disk|);
      ok := WriteHead(bs);
      KeptTrans(old(bc.bufs), old(bc.locked), old@head(bc.bufs), old@head(bc.locked), bc.bufs, bc.locked);
      PinsKept(old@head(bc.bufs), bc.bufs, bs, bs, l.start);
    }

    /** recover_from_log on a freshly booted cache. */
    method RecoverFromLog()
      requires Shape() && bc.Idle() && (forall i :: 0 <= i < NBUF ==> !bc.bufs[i].dirty)
      requires Recoverable(l, bc.disk)
      modifies bc, this`n, this`block, this`start, this`base, this`txns, this`g
      ensures Valid() && bc.Idle() && n == 0 && (forall i :: 0 <= i < NBUF ==> !bc.bufs[i].dirty)
      ensures Durable() && start == bc.disk && txns == []
      ensures outstanding == 0 && !committing ==> Tracks()
      ensures bc.disk == Recover(l, old(bc.disk))
      ensures bc.trace == old(bc.trace) + RecoverTrace(l, old(bc.disk))
    {
      hide RingOk, Recency, Unique, Agrees, PutWord, GetWord, Recover;
      hide RecoverTrace, Recoverable, Recorded, Kept, Quiet, GroupCommit.Reaches;
      ghost var d := bc.disk;
      BootView(bc);
      ReadHead();
      BootReady(bc, l, block[..n]);
      label booted:
      InstallAndClear();
      BootKept(bc, old@booted(bc.bufs), old@booted(bc.locked));
      RecordedStart(l, d, bc.trace);
      start, base, txns := bc.disk, |bc.trace|, [];
      g := GroupCommit.INIT;
      GroupCommit.ReachInit(l.size);
    }

    /**
      log_write on a held buffer, by operation op: absorb or append the block number and
      pin the buffer.  False is either panic.  An operation within its budget does not meet
      one with a new block, if the log area is longer than LOGSIZE.
     */
    method LogWrite(b: nat, ghost op: nat) returns (ok: bool)
      requires Valid() && b < NBUF && bc.locked[b] && bc.bufs[b].valid
      modifies bc`bufs, this`n, this`block, this`g
      ensures ok <==> GroupCommit.Fits(old(n), l.size) && outstanding >= 1
      ensures ok ==> bc.Valid() && bc.bufs == old(bc.bufs)[b := old(bc.bufs)[b].(dirty := true)]
      ensures ok && !InLog(l, bc.bufs[b].blockno) ==> Valid()
      ensures ok ==> n <= |block| && block[..n] == Absorb(old(block[..n]), bc.bufs[b].blockno)
      ensures !ok ==> n == old(n) && block == old(block) && bc.bufs == old(bc.bufs)
      ensures Durable() == old(Durable())
      ensures old(Tracks()) && GroupCommit.Enabled(old(g), GroupCommit.LogWrite(op, bc.bufs[b].blockno)) ==>
        && (ok ==> Tracks() && g == GroupCommit.Do(old(g), GroupCommit.LogWrite(op, bc.bufs[b].blockno)))
        && (l.size > LOGSIZE && bc.bufs[b].blockno !in old(block[..n]) ==> ok)
    {
      hide RingOk, Recency, Unique, Agrees, Targets, DirtyIn;
      hide Pinned, Recorded, GroupCommit.Do, GroupCommit.Reaches, GroupCommit.Enabled;
      var c := bc.bufs[b].blockno;
      ghost var ev := GroupCommit.LogWrite(op, c);
      ghost var follows := Tracks() && GroupCommit.Enabled(g, ev);
      if follows {
        NoPanic(op, c);
      }
      ok := Absorbs(b);
      if ok && follows {
        GroupCommit.ReachStep(g, ev, l.size);
        GroupCommit.DoLogWrite(g, op, c);
        g := GroupCommit.Do(g, ev);
      }
    }

    /** log_write itself: the panics, the list of blocks, and the dirty flag. */
    method Absorbs(b: nat) returns (ok: bool)
      requires Valid() && b < NBUF && bc.locked[b] && bc.bufs[b].valid
      modifies bc`bufs, this`n, this`block
      ensures ok <==> GroupCommit.Fits(old(n), l.size) && outstanding >= 1
      ensures ok ==> bc.Valid() && bc.bufs == old(bc.bufs)[b := old(bc.bufs)[b].(dirty := true)]
      ensures ok && !InLog(l, bc.bufs[b].blockno) ==> Valid()
      ensures ok ==> n <= |block| && block[..n] == Absorb(old(block[..n]), bc.bufs[b].blockno)
      ensures !ok ==> n == old(n) && block == old(block) && bc.bufs == old(bc.bufs)
    {
      hide RingOk, Recency, Unique, Agrees, Targets, DirtyIn, Pinned, Recorded;
      var c := bc.bufs[b].blockno;
      if n >= LOGSIZE || n >= l.size - 1 || outstanding < 1 {
        return false;
      }
      ghost var bs := block[..n];
      bc.HeldBlock(b);
      List(c);
      bc.MarkDirty(b);
      PinsGrow(old(bc.bufs), bc.bufs, bs, block[..n], b);
      if !InLog(l, c) {
        TargetsGrow(l, bs, c, |bc.disk|);
      }
      return true;
    }

    /** The header lists the block, once. */
    method List(c: Word)
      requires n < |block|
      modifies this`n, this`block
      ensures n <= |block| == |old(block)| && old(n) <= n <= old(n) + 1 && block[..n] == Absorb(old(block[..n]), c)
    {
      ghost var bs := block[..n];
      var i := 0;
      while i < n && block[i] != c
        invariant 0 <= i <= n && c !in bs[..i]
      {
        i := i + 1;
      }
      block := block[i := c];
      if i == n {
        n := n + 1;
        assert block[..n] == bs + [c];
      } else {
        assert block[..n] == bs;
      }
    }

    lemma NoPanic(op: nat, c: Word)
      requires Tracks() && GroupCommit.Enabled(g, GroupCommit.LogWrite(op, c))
      ensures GroupCommit.Fits(n, l.size) && outstanding >= 1 ==>
        !GroupCommit.Panics(g, GroupCommit.LogWrite(op, c), l.size)
      ensures l.size > LOGSIZE && c !in block[..n] ==> GroupCommit.Fits(n, l.size) && outstanding >= 1
    {
      var ss :| GroupCommit.Run(ss, l.size) && ss[|ss| - 1] == g;
      if c !in block[..n] {
        GroupCommit.RoomForNewBlocks(ss, l.size, op, c);
      }
    }

    /**
      One pass of begin_op's loop; false is a sleep until the next wakeup.  An admitted
      operation is a new one of the run, and the log has room for everything that it and
      all other running operations may still log.
     */
    method BeginOp() returns (admitted: bool, ghost op: nat)
      requires Tracks()
      modifies this`outstanding, this`g
      ensures Tracks() && n + GroupCommit.Unused(g.ops) <= LOGSIZE
      ensures op == |old(g).ops|
        && (admitted ==> GroupCommit.Active(g, op) && g.ops[op].used == 0 && outstanding == old(outstanding) + 1)
      ensures admitted ==> g == old(g).(ops := g.ops, outstanding := outstanding) && g.ops[..op] == old(g).ops
      ensures !admitted ==> g == old(g) && outstanding == old(outstanding)
      ensures !admitted ==> committing || n + (outstanding + 1) * GroupCommit.MAXOPBLOCKS > LOGSIZE
    {
      hide GroupCommit.Reaches;
      op := |g.ops|;
      admitted := !committing && n + (outstanding + 1) * GroupCommit.MAXOPBLOCKS <= LOGSIZE;
      if admitted {
        GroupCommit.ReachStep(g, GroupCommit.Begin, l.size);
        g := GroupCommit.Do(g, GroupCommit.Begin);
        outstanding := outstanding + 1;
      }
      Reserved();
    }

    /**
      end_op by running operation op: the last one commits everything logged since the last
      commit, the others leave the disk alone.  It never finds a commit in progress.
     */
    method EndOp(ghost op: nat) returns (ok: bool)
      requires Valid() && Durable() && Tracks() && GroupCommit.Active(g, op)
      requires outstanding == 1 ==> Quiet(l, bc.bufs, bc.locked, block[..n])
      modifies bc, this`n, this`outstanding, this`committing, this`txns, this`g
      ensures old(outstanding) >= 1 && !old(committing)
      ensures outstanding == old(outstanding) - 1 && Durable()
      ensures ok ==> Valid() && Tracks() && !GroupCommit.Active(g, op) && !committing
      ensures outstanding > 0 ==> ok && n == old(n) && txns == old(txns) && bc.disk == old(bc.disk)
      ensures outstanding == 0 ==> (ok <==> old(n) == 0 || Spare(old(bc.bufs)))
      ensures outstanding == 0 && ok ==>
        && n == 0 && Kept(old(bc.bufs), old(bc.locked), bc.bufs, bc.locked)
        && txns == old(txns) + [old(Current())]
        && AtHome(l, bc.bufs, bc.locked, bc.disk, old(bc.view)) && SameHome(l, bc.view, old(bc.view))
    {
      hide RingOk, Recency, Unique, Agrees, GetWord, CommitTrace, Final, FinalAll, RunTrace, TxnOk;
      hide Quiet, Kept, AtHome, Spare, SameHome, DirtyIn, Pinned, GroupCommit.Reaches, GroupCommit.Do;
      ghost var g0 := g;
      Ends(op);
      g := GroupCommit.Do(g, GroupCommit.End(op));
      outstanding := outstanding - 1;
      ok := true;
      if outstanding == 0 {
        committing := true;
        ghost var t, d, tr := Current(), bc.disk, bc.trace;
        FinalAllHead(l, start, txns);
        RecordedMore(l, base, start, txns, d, tr, t);
        ok := Commit();
        if ok {
          txns := txns + [t];
          committing := false;
          GroupCommit.CommitSteps(g, l.size);
          g := GroupCommit.AfterCommit(g);
        }
      }
    }

    /** end_op is the next step of the run, and not a panic. */
    lemma Ends(op: nat)
      requires Tracks() && GroupCommit.Active(g, op)
      ensures outstanding >= 1 && !committing && GroupCommit.Enabled(g, GroupCommit.End(op))
      ensures var g' := GroupCommit.Do(g, GroupCommit.End(op));
        && GroupCommit.Reaches(g', l.size) && g'.outstanding == outstanding - 1 && g'.lh == g.lh
        && g'.committing == (outstanding == 1) && !GroupCommit.Active(g', op)
    {
      Reserved();
      GroupCommit.StepKeeps(g, GroupCommit.End(op), l.size);
      GroupCommit.SumsAt(g.ops, op, g.ops[op].(active := false));
      GroupCommit.ReachStep(g, GroupCommit.End(op), l.size);
    }

    /**
      Crash safety of the running system: whichever of its images the disk is left with,
      and however often recovery then crashes, the recovery that completes yields the
      effect of the first so many committed transactions, whole.
     */
    lemma CrashAnywhere(k: nat, boots: seq<Image>) returns (j: nat)
      requires Durable() && base + k < |bc.trace|
      requires |boots| >= 1 && boots[0] == bc.trace[base + k] && CrashedBoots(l, boots)
      ensures j == CommittedBy(txns, k) <= |txns| && RunOk(l, txns[..j], |start|)
      ensures Recoverable(l, boots[|boots| - 1])
      ensures SameHome(l, Recover(l, boots[|boots| - 1]), ApplyAll(start, txns[..j], l))
    {
      hide CommittedBy, RunTrace, FinalAll, GetWord, Recover, Recoverable, CrashedBoots, ApplyAll, TxnOk;
      j := CommittedBy(txns, k);
      assert bc.trace[base..][k] == bc.trace[base + k];
      CrashSafety(l, start, txns, k, boots);
    }
  }

  /** A freshly booted cache reads as the disk. */
  lemma BootView(bc: Bcache)
    requires bc.Valid() && bc.Idle() && forall i :: 0 <= i < NBUF ==> !bc.bufs[i].dirty
    ensures bc.view == bc.disk
  {
    hide RingOk, Recency, Unique, Agrees;
    forall b | 0 <= b < |bc.disk|
      ensures bc.view[b] == bc.disk[b]
    {
      bc.CleanView(b);
    }
  }

  lemma BootReady(bc: Bcache, l: Layout, bs: seq<Word>)
    requires bc.Valid() && bc.Idle() && forall i :: 0 <= i < NBUF ==> !bc.bufs[i].dirty
    ensures forall i :: 0 <= i < NBUF ==> Recyclable(bc.bufs[i])
    ensures Quiet(l, bc.bufs, bc.locked, bs) && DirtyIn(bc.bufs, bs) && Ready(bc.bufs, bs)
  {
  }

  lemma BootKept(bc: Bcache, bufs: seq<Buf>, locked: seq<bool>)
    requires |bc.bufs| == NBUF && Kept(bufs, locked, bc.bufs, bc.locked) && forall i :: 0 <= i < NBUF ==> !locked[i]
    requires forall i :: 0 <= i < NBUF ==> Recyclable(bc.bufs[i])
    ensures bc.Idle()
  {
  }

  lemma NothingToCommit(l: Layout, d: Image, t: Txn)
    requires TxnOk(l, t, |d|) && t.blocks == []
    ensures CommitTrace(l, d, t) == [] && Final(l, d, t) == d && SameHome(l, d, Apply(d, t))
  {
  }

  lemma CommitParts(l: Layout, d: Image, t: Txn)
    requires TxnOk(l, t, |d|) && t.blocks != []
    ensures |LogCopy(l, d, t, |t.blocks|)| == |d| && Entries(Committed(l, d, t)[l.start]) == t.blocks
    ensures Committed(l, d, t)
      == LogCopy(l, d, t, |t.blocks|)[l.start := HeadBlock(LogCopy(l, d, t, |t.blocks|)[l.start], t.blocks)]
    ensures CommitTrace(l, d, t) == LogCopies(l, d, t, |t.blocks|) + [Committed(l, d, t)]
      + RecoverTrace(l, Committed(l, d, t))
    ensures Final(l, d, t) == Recover(l, Committed(l, d, t))
  {
    hide GetWord, PutWord, HeadBlock, Install, Installs, LogCopies;
    EntriesOfHead(d[l.start], t.blocks);
  }

  lemma LogFree(l: Layout, bufs: seq<Buf>, locked: seq<bool>, bs: seq<Word>, logb: Word, home: Word)
    requires Quiet(l, bufs, locked, bs) && NotInLog(l, bufs) && InLog(l, logb) && home in bs
    ensures forall i :: 0 <= i < NBUF && Match(bufs[i], 1, logb) ==> Recyclable(bufs[i]) && !locked[i]
    ensures forall i :: 0 <= i < NBUF && Match(bufs[i], 1, home) ==> !locked[i]
  {
  }

  /** The header's buffer is free if there is one, so it can be read exactly if some buffer is free. */
  lemma HeadFree(l: Layout, bufs: seq<Buf>, locked: seq<bool>, bs: seq<Word>)
    requires Quiet(l, bufs, locked, bs) && NotInLog(l, bufs) && 1 <= l.size
    ensures forall i :: 0 <= i < NBUF && Match(bufs[i], 1, l.start) ==> Recyclable(bufs[i]) && !locked[i]
    ensures Spare(bufs) <==> exists i :: 0 <= i < NBUF && (Match(bufs[i], 1, l.start) || Recyclable(bufs[i]))
  {
  }

  lemma ReleasedOne(l: Layout, bufs: seq<Buf>, bufs': seq<Buf>, locked: seq<bool>, bs: seq<Word>, a: nat)
    requires Quiet(l, bufs, locked, bs) && NotInLog(l, bufs) && |bufs'| == NBUF && a < NBUF && !locked[a]
    requires Recyclable(bufs[a]) && Recyclable(bufs'[a]) && bufs' == bufs[a := bufs'[a]]
    ensures Quiet(l, bufs', locked, bs) && NotInLog(l, bufs') && Spare(bufs') && Kept(bufs, locked, bufs', locked)
  {
  }

  /** After a copy both buffers are released, and the one of the log block can be taken again. */
  lemma Released(l: Layout, bufs: seq<Buf>, bufs': seq<Buf>, locked: seq<bool>, bs: seq<Word>, a: nat, b: nat,
                 logb: Word, home: Word)
    requires Quiet(l, bufs, locked, bs) && NotInLog(l, bufs) && |bufs'| == NBUF && a < NBUF && b < NBUF && !locked[a]
      && !locked[b]
    requires InLog(l, logb) && !InLog(l, home) && Match(bufs'[a], 1, logb) && Match(bufs'[b], 1, home)
    requires Recyclable(bufs[a]) && Recyclable(bufs'[a])
    requires (Match(bufs[b], 1, home) || Recyclable(bufs[b])) && bufs'[b].refcnt == bufs[b].refcnt
    requires forall i :: 0 <= i < NBUF && i != a && i != b ==> bufs'[i] == bufs[i]
    ensures Quiet(l, bufs', locked, bs) && NotInLog(l, bufs') && Spare(bufs') && Kept(bufs, locked, bufs', locked)
  {
  }

  /** install_trans has the buffers it needs: one to take beside the pinned blocks, or all. */
  ghost predicate Ready(bufs: seq<Buf>, bs: seq<Word>) {
    (Spare(bufs) && Pinned(bufs, bs)) || forall i :: 0 <= i < NBUF && i < |bufs| ==> Recyclable(bufs[i])
  }

  lemma SpareOf(bufs: seq<Buf>)
    requires |bufs| == NBUF
    ensures (forall i :: 0 <= i < NBUF ==> Recyclable(bufs[i])) ==> Spare(bufs)
  {
    assert Recyclable(bufs[0]) ==> Spare(bufs);
  }

  lemma KeptNone(bufs: seq<Buf>, locked: seq<bool>)
    requires |bufs| == |locked| == NBUF
    ensures Kept(bufs, locked, bufs, locked)
  {
  }

  lemma KeptTrans(b0: seq<Buf>, l0: seq<bool>, b1: seq<Buf>, l1: seq<bool>, b2: seq<Buf>, l2: seq<bool>)
    requires Kept(b0, l0, b1, l1) && Kept(b1, l1, b2, l2)
    ensures Kept(b0, l0, b2, l2)
  {
  }

  ghost predicate Unheld(bufs: seq<Buf>, locked: seq<bool>, b: nat)
    requires |bufs| == |locked|
  {
    forall i :: 0 <= i < |bufs| && Match(bufs[i], 1, b) ==> !locked[i]
  }

  /** The home blocks that nobody holds are on the disk as readers see them. */
  ghost predicate AtHome(l: Layout, bufs: seq<Buf>, locked: seq<bool>, disk: Image, view: Image) {
    |bufs| == |locked| && |disk| == |view|
      && forall b :: 0 <= b < |disk| && !InLog(l, b) && Unheld(bufs, locked, b) ==> disk[b] == view[b]
  }

  /** Committing these blocks will put what readers see in its place. */
  lemma HomesCurrent(bc: Bcache, l: Layout, bs: seq<Word>)
    requires bc.Valid() && DirtyIn(bc.bufs, bs) && Targets(l, bs, |bc.disk|)
    ensures AtHome(l, bc.bufs, bc.locked, Apply(bc.disk, TxnOf(bs, bc.view)), bc.view)
  {
    hide RingOk, Recency, Unique, Agrees;
    forall b | 0 <= b < |bc.disk| && Find(bs, b) < 0 && Unheld(bc.bufs, bc.locked, b)
      ensures bc.view[b] == bc.disk[b]
    {
      bc.CleanView(b);
    }
  }

  lemma HomesKept(l: Layout, b0: seq<Buf>, l0: seq<bool>, b1: seq<Buf>, l1: seq<bool>, target: Image, disk: Image,
                  view: Image)
    requires AtHome(l, b0, l0, target, view) && Kept(b0, l0, b1, l1) && SameHome(l, disk, target)
    ensures AtHome(l, b1, l1, disk, view)
  {
    forall b | 0 <= b < |disk| && !InLog(l, b) && Unheld(b1, l1, b)
      ensures disk[b] == view[b]
    {
      assert Unheld(b0, l0, b);
    }
  }

  /** A commit changes nothing that readers see. */
  lemma ReadersKept(bc: Bcache, l: Layout, bufs: seq<Buf>, locked: seq<bool>, disk: Image, view: Image, t: Txn)
    requires bc.Valid() && (forall i :: 0 <= i < NBUF ==> !bc.bufs[i].dirty) && |t.data| == |t.blocks|
    requires Kept(bufs, locked, bc.bufs, bc.locked) && Agrees(bufs, locked, disk, view) && Unique(bufs)
    requires Quiet(l, bufs, locked, t.blocks) && SameHome(l, bc.disk, Apply(disk, t))
    requires AtHome(l, bc.bufs, bc.locked, bc.disk, view)
    ensures SameHome(l, bc.view, view)
  {
    hide RingOk, Recency;
    forall b | 0 <= b < |disk| && !InLog(l, b)
      ensures bc.view[b] == view[b]
    {
      if Unheld(bc.bufs, bc.locked, b) {
        bc.CleanView(b);
      } else {
        var i :| 0 <= i < NBUF && Match(bc.bufs[i], 1, b) && bc.locked[i];
        HeldReads(bufs, locked, disk, view, i);
        HeldReads(bc.bufs, bc.locked, bc.disk, bc.view, i);
        assert Find(t.blocks, b) < 0;
      }
    }
  }

  /** What a held buffer's block reads as. */
  lemma HeldReads(bufs: seq<Buf>, locked: seq<bool>, disk: Image, view: Image, i: nat)
    requires Agrees(bufs, locked, disk, view) && Unique(bufs) && i < NBUF && bufs[i].dev == 1
      && bufs[i].blockno < |disk|
    ensures view[bufs[i].blockno] == if bufs[i].valid then bufs[i].data else disk[bufs[i].blockno]
  {
  }

  /** With no buffer in use, there is one to take exactly if the transaction does not fill the cache. */
  lemma IdleSpare(bc: Bcache, l: Layout, bs: seq<Word>)
    requires bc.Valid() && bc.Idle() && DirtyIn(bc.bufs, bs) && Pinned(bc.bufs, bs) && Targets(l, bs, |bc.disk|)
    ensures Spare(bc.bufs) <==> |bs| < NBUF
  {
    if |bs| < NBUF {
      var k := SomeClean(bc.bufs, bs);
      assert Recyclable(bc.bufs[k]);
    } else {
      AllDirty(bc.bufs, bs);
    }
  }

  /** Log absorption: a block is listed once. */
  function Absorb(bs: seq<Word>, b: Word): seq<Word> {
    if b in bs then bs else bs + [b]
  }

  /** The home block that write_log copies is pinned, and it is not in the log. */
  lemma PinnedHome(l: Layout, bufs: seq<Buf>, bs: seq<Word>, tail: nat, disksize: nat)
    requires tail < |bs| && Targets(l, bs, disksize) && DirtyIn(bufs, bs) && Pinned(bufs, bs)
    ensures PinnedAt(bufs, bs[tail]) && bs[tail] < disksize && !InLog(l, bs[tail]) && NotInLog(l, bufs)
    ensures InLog(l, l.start + tail + 1) && l.start + tail + 1 < disksize
  {
  }

  /** Before copying block `tail`: the log block is as on the disk, and there are buffers for the copy. */
  lemma CanInstall(bc: Bcache, l: Layout, bs: seq<Word>, tail: nat, pinned: bool)
    requires bc.Valid() && Quiet(l, bc.bufs, bc.locked, bs) && tail < |bs| && Targets(l, bs, |bc.disk|)
      && DirtyIn(bc.bufs, bs[tail..])
    requires pinned ==> Pinned(bc.bufs, bs[tail..])
    ensures Distinct(bs) && l.start + tail + 1 < |bc.disk| && bs[tail] < |bc.disk|
    ensures InLog(l, l.start + tail + 1) && !InLog(l, bs[tail]) && NotInLog(l, bc.bufs)
    ensures bc.view[l.start + tail + 1] == bc.disk[l.start + tail + 1]
    ensures pinned ==> PinnedAt(bc.bufs, bs[tail])
  {
    bc.CleanView(l.start + tail + 1);
    if pinned {
      assert PinnedAt(bc.bufs, bs[tail..][0]);
    }
  }

  lemma InstallPins(bufs: seq<Buf>, bufs': seq<Buf>, bs: seq<Word>, tail: nat, pinned: bool)
    requires |bufs| == |bufs'| == NBUF && tail < |bs| && Distinct(bs) && DirtyIn(bufs, bs[tail..])
    requires pinned ==> Pinned(bufs, bs[tail..])
    requires forall i :: 0 <= i < NBUF && bufs[i].dirty && bufs[i].blockno != bs[tail] ==>
                           bufs'[i].dirty && Match(bufs'[i], 1, bufs[i].blockno)
    requires forall i :: 0 <= i < NBUF && bufs'[i].dirty ==> bufs[i].dirty && bufs'[i].blockno != bs[tail]
                                                              && bufs'[i].blockno == bufs[i].blockno
    ensures DirtyIn(bufs', bs[tail + 1..])
    ensures pinned ==> Pinned(bufs', bs[tail + 1..])
  {
    assert bs[tail..] == [bs[tail]] + bs[tail + 1..];
    if pinned {
      var rest := bs[tail + 1..];
      forall j | 0 <= j < |rest|
        ensures PinnedAt(bufs, rest[j])
      {
        assert PinnedAt(bufs, bs[tail..][j + 1]);
      }
      PinsKept(bufs, bufs', bs[tail..], bs[tail + 1..], bs[tail]);
    }
  }

  lemma NoneDirty(bufs: seq<Buf>, bs: seq<Word>)
    requires DirtyIn(bufs, bs) && bs == []
    ensures forall i :: 0 <= i < |bufs| ==> !bufs[i].dirty
  {
  }

  lemma TargetsGrow(l: Layout, bs: seq<Word>, b: Word, disksize: nat)
    requires Targets(l, bs, disksize) && b < disksize && !InLog(l, b)
    requires |bs| < LOGSIZE && |bs| < l.size - 1
    ensures Targets(l, Absorb(bs, b), disksize)
  {
  }

  lemma PinsGrow(bufs: seq<Buf>, bufs': seq<Buf>, bs: seq<Word>, bs': seq<Word>, b: nat)
    requires b < |bufs| && bufs[b].dev == 1 && bufs' == bufs[b := bufs[b].(dirty := true)]
    requires DirtyIn(bufs, bs) && Pinned(bufs, bs)
    requires bs' == if bufs[b].blockno in bs then bs else bs + [bufs[b].blockno]
    ensures DirtyIn(bufs', bs') && Pinned(bufs', bs')
  {
    forall j | 0 <= j < |bs'|
      ensures PinnedAt(bufs', bs'[j])
    {
      if j < |bs| {
        assert PinnedAt(bufs, bs[j]);
        var i :| 0 <= i < |bufs| && bufs[i].dirty && Match(bufs[i], 1, bs[j]);
        assert bufs'[i].dirty && Match(bufs'[i], 1, bs'[j]);
      } else {
        assert bufs'[b].dirty && Match(bufs'[b], 1, bs'[j]);
      }
    }
  }

  /** Buffers that keep their block and their dirty flag keep the log's list right. */
  lemma PinsSame(bufs: seq<Buf>, bufs': seq<Buf>, bs: seq<Word>)
    requires |bufs'| == |bufs| && DirtyIn(bufs, bs) && Pinned(bufs, bs)
    requires forall i :: 0 <= i < |bufs| ==> bufs'[i].dirty == bufs[i].dirty
    requires forall i :: 0 <= i < |bufs| && bufs[i].dirty ==>
      bufs'[i].dev == bufs[i].dev && bufs'[i].blockno == bufs[i].blockno
    ensures DirtyIn(bufs', bs) && Pinned(bufs', bs)
  {
    forall j | 0 <= j < |bs|
      ensures PinnedAt(bufs', bs[j])
    {
      assert PinnedAt(bufs, bs[j]);
      var i :| 0 <= i < |bufs| && bufs[i].dirty && Match(bufs[i], 1, bs[j]);
      assert bufs'[i].dirty && Match(bufs'[i], 1, bs[j]);
    }
  }

  /** The copy of a block into `to` leaves the other logged blocks pinned. */
  lemma PinsKept(bufs: seq<Buf>, bufs': seq<Buf>, bs: seq<Word>, rest: seq<Word>, to: Word)
    requires |bufs| == |bufs'| == NBUF && DirtyIn(bufs, bs) && Pinned(bufs, rest) && to !in rest
    requires forall b :: b in bs ==> b == to || b in rest
    requires forall i :: 0 <= i < NBUF && bufs[i].dirty && bufs[i].blockno != to ==>
                           bufs'[i].dirty && Match(bufs'[i], 1, bufs[i].blockno)
    requires forall i :: 0 <= i < NBUF && bufs'[i].dirty ==> bufs[i].dirty && bufs'[i].blockno != to
                                                              && bufs'[i].blockno == bufs[i].blockno
    ensures DirtyIn(bufs', rest) && Pinned(bufs', rest)
  {
    forall j | 0 <= j < |rest|
      ensures PinnedAt(bufs', rest[j])
    {
      assert PinnedAt(bufs, rest[j]);
      var i :| 0 <= i < |bufs| && bufs[i].dirty && Match(bufs[i], 1, rest[j]);
      assert bufs'[i].dirty && Match(bufs'[i], 1, rest[j]);
    }
  }
}
