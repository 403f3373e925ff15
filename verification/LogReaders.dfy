/**
  A commit with readers at work between its disk writes.  Readers take and release blocks
  outside the log area, those of the transaction too; commit sleeps on a block that is held.
 */
module LogReaders {
  import opened Blocks
  import opened Bio
  import opened RedoLog
  import opened Log

  /** What a reader does: bread of a block, or brelse of a buffer that it holds. */
  datatype Reading = Read(b: Word) | Release(i: nat)

  /** How far commit got: to its end, asleep on a block that a reader holds, or the panic "bget: no buffers". */
  datatype Outcome = Done | Asleep | NoBuffers

  /** What readers hold is what the disk holds. */
  ghost predicate HeldClean(bufs: seq<Buf>, locked: seq<bool>, disk: Image) {
    && |bufs| == |locked| == NBUF
    && forall i :: 0 <= i < NBUF && locked[i] && bufs[i].valid && !bufs[i].dirty ==>
         bufs[i].blockno < |disk| && bufs[i].data == disk[bufs[i].blockno]
  }

  /** Nobody but commit uses the log area, and readers change nothing that they hold. */
  ghost predicate Calm(log: Log)
    reads log, log.bc
  {
    Quiet(log.l, log.bc.bufs, log.bc.locked, []) && HeldClean(log.bc.bufs, log.bc.locked, log.bc.disk)
  }

  /** Exactly these logged blocks are still to be installed. */
  ghost predicate Waits(log: Log, rest: seq<Word>)
    reads log, log.bc
  {
    log.Shape() && Calm(log) && DirtyIn(log.bc.bufs, rest) && Pinned(log.bc.bufs, rest)
  }

  predicate Held(bufs: seq<Buf>, locked: seq<bool>, b: Word)
    requires |bufs| == |locked| == NBUF
  {
    exists i :: 0 <= i < NBUF && Match(bufs[i], 1, b) && locked[i]
  }

  /** One step of a reader; a block that is held makes it sleep instead. */
  method Reader(log: Log, a: Reading, ghost rest: seq<Word>) returns (ok: bool)
    requires Waits(log, rest)
    modifies log.bc
    ensures ok ==> Waits(log, rest)
    ensures log.bc.disk == old(log.bc.disk) && log.bc.view == old(log.bc.view) && log.bc.trace == old(log.bc.trace)
  {
    hide RingOk, Recency, Unique, Agrees, Targets, DirtyIn, Pinned;
    ok := true;
    match a
    case Read(b) =>
      if b < |log.bc.disk| && !InLog(log.l, b) && !Held(log.bc.bufs, log.bc.locked, b) {
        var r := log.bc.Bread(1, b);
        if r.None? {
          return false;
        }
        PinsSame(old(log.bc.bufs), log.bc.bufs, rest);
      }
    case Release(i) =>
      if i < NBUF && log.bc.locked[i] {
        log.bc.Brelse(i);
        PinsSame(old(log.bc.bufs), log.bc.bufs, rest);
      }
  }

  method Readers(log: Log, acts: seq<Reading>, ghost rest: seq<Word>) returns (ok: bool)
    requires Waits(log, rest)
    modifies log.bc
    ensures ok ==> Waits(log, rest)
    ensures log.bc.disk == old(log.bc.disk) && log.bc.view == old(log.bc.view) && log.bc.trace == old(log.bc.trace)
  {
    hide Waits;
    var k := 0;
    ok := true;
    while k < |acts|
      invariant 0 <= k <= |acts| && Waits(log, rest)
      invariant log.bc.disk == old(log.bc.disk) && log.bc.view == old(log.bc.view) && log.bc.trace == old(log.bc.trace)
      modifies log.bc
    {
      ok := Reader(log, acts[k], rest);
      if !ok {
        return;
      }
      k := k + 1;
    }
  }

  /** The disk after p writes of the commit. */
  ghost function After(l: Layout, d: Image, t: Txn, p: nat): (r: Image)
    requires TxnOk(l, t, |d|) && p <= |CommitTrace(l, d, t)|
  {
    if p == 0 then d else CommitTrace(l, d, t)[p - 1]
  }

  /** The logged blocks that are not installed after p writes. */
  function Rest(bs: seq<Word>, p: nat): seq<Word>
    requires p <= 2 * |bs| + 2
  {
    if p <= |bs| then bs else if p <= 2 * |bs| + 1 then bs[p - |bs| - 1..] else []
  }

  lemma LogPart(l: Layout, d: Image, t: Txn, p: nat)
    requires TxnOk(l, t, |d|) && p <= |t.blocks| && t.blocks != []
    ensures After(l, d, t, p) == LogCopy(l, d, t, p)
    ensures After(l, d, t, |t.blocks| + 1) == Committed(l, d, t)
  {
    hide GetWord, PutWord, HeadBlock, Install;
    if p > 0 {
      assert CommitTrace(l, d, t)[p - 1] == LogCopies(l, d, t, |t.blocks|)[p - 1];
    } else {
      LogCopyNone(l, d, t);
    }
  }

  lemma InstallPart(l: Layout, d: Image, t: Txn, k: nat)
    requires TxnOk(l, t, |d|) && k <= |t.blocks| && t.blocks != []
    ensures After(l, d, t, |t.blocks| + 1 + k) == Install(l, Committed(l, d, t), t.blocks, k)
    ensures After(l, d, t, 2 * |t.blocks| + 2) == Recover(l, Committed(l, d, t))
    ensures Entries(Committed(l, d, t)[l.start]) == t.blocks
  {
    hide GetWord, PutWord, HeadBlock, Install;
    var n := |t.blocks|;
    EntriesOfHead(d[l.start], t.blocks);
    var c := Committed(l, d, t);
    if k > 0 {
      assert CommitTrace(l, d, t)[n + k] == RecoverTrace(l, c)[k - 1] == Installs(l, c, t.blocks, n)[k - 1];
    } else {
      InstallNone(l, c, t.blocks);
    }
  }

  /** Write p of the commit: a copy into the log, the header, a copy to its home, or the cleared header. */
  lemma Steps(l: Layout, d: Image, t: Txn, p: nat)
    requires TxnOk(l, t, |d|) && p < 2 * |t.blocks| + 2 && t.blocks != []
    ensures |After(l, d, t, p)| == |d|
    ensures p < |t.blocks| ==> After(l, d, t, p + 1) == After(l, d, t, p)[l.start + p + 1 := t.data[p]]
    ensures p == |t.blocks| ==>
      After(l, d, t, p + 1) == After(l, d, t, p)[l.start := HeadBlock(After(l, d, t, p)[l.start], t.blocks)]
    ensures |t.blocks| < p <= 2 * |t.blocks| ==>
      var k := p - |t.blocks| - 1;
      && After(l, d, t, p)[l.start + k + 1] == t.data[k]
      && After(l, d, t, p + 1) == After(l, d, t, p)[t.blocks[k] := t.data[k]]
    ensures p == 2 * |t.blocks| + 1 ==>
      After(l, d, t, p + 1) == After(l, d, t, p)[l.start := HeadBlock(After(l, d, t, p)[l.start], [])]
  {
    hide GetWord, PutWord, HeadBlock, CommitTrace, After, Install, Recoverable, Recover;
    var n := |t.blocks|;
    if p < n {
      LogPart(l, d, t, p);
      LogPart(l, d, t, p + 1);
      LogCopyStep(l, d, t, p);
    } else if p == n {
      LogPart(l, d, t, p);
    } else if p <= 2 * n {
      var k := p - n - 1;
      InstallPart(l, d, t, k);
      InstallPart(l, d, t, k + 1);
      InstallStep(l, Committed(l, d, t), t.blocks, k);
    } else {
      InstallPart(l, d, t, n);
      Cleared(l, Committed(l, d, t), t.blocks);
    }
  }

  lemma Cleared(l: Layout, c: Image, bs: seq<Word>)
    requires Recoverable(l, c) && Entries(c[l.start]) == bs
    ensures Recover(l, c) == Install(l, c, bs, |bs|)[l.start := HeadBlock(Install(l, c, bs, |bs|)[l.start], [])]
  {
    hide GetWord, PutWord, HeadBlock;
    assert Install(l, c, bs, |bs|)[l.start] == c[l.start];
  }

  /** A write to a block that nobody holds leaves what is held as on the disk. */
  lemma HeldKept(bufs: seq<Buf>, locked: seq<bool>, disk: Image, bufs': seq<Buf>, locked': seq<bool>, disk': Image,
                 to: nat)
    requires HeldClean(bufs, locked, disk) && Kept(bufs, locked, bufs', locked') && to < |disk| == |disk'|
      && disk' == disk[to := disk'[to]]
    requires forall i :: 0 <= i < NBUF && locked[i] && bufs[i].valid ==> bufs[i].blockno != to
    ensures HeldClean(bufs', locked', disk')
  {
  }

  lemma NotHeld(bc: Bcache, l: Layout, home: Word, to: Word)
    requires bc.Valid() && Quiet(l, bc.bufs, bc.locked, []) && !Held(bc.bufs, bc.locked, home)
      && (InLog(l, to) || to == home)
    ensures forall i :: 0 <= i < NBUF && bc.locked[i] && bc.bufs[i].valid ==> bc.bufs[i].blockno != to
    ensures Quiet(l, bc.bufs, bc.locked, [home])
  {
    hide RingOk, Recency, Unique;
  }

  /** Blocks of the transaction are outside the log area, so no buffer of the log area is dirty. */
  lemma Outside(l: Layout, bufs: seq<Buf>, bs: seq<Word>, rest: seq<Word>, disksize: nat)
    requires Targets(l, bs, disksize) && DirtyIn(bufs, rest) && forall b :: b in rest ==> b in bs
    ensures NotInLog(l, bufs) && forall b :: b in rest ==> !InLog(l, b)
  {
  }

  lemma QuietLess(l: Layout, bufs: seq<Buf>, locked: seq<bool>, bs: seq<Word>)
    requires Quiet(l, bufs, locked, bs)
    ensures Quiet(l, bufs, locked, [])
  {
  }

  /** One copy between the log and a home block that is not held. */
  method Copy(log: Log, tail: nat, intoLog: bool, ghost rest: seq<Word>) returns (ok: bool)
    requires Waits(log, rest) && tail < log.n && !Held(log.bc.bufs, log.bc.locked, log.block[tail])
    requires rest == if intoLog then log.block[..log.n] else log.block[tail..log.n]
    modifies log.bc
    ensures |log.bc.disk| == old(|log.bc.disk|) && log.l.start + tail + 1 < |log.bc.disk|
      && log.block[tail] < |log.bc.disk|
    ensures !ok ==> log.bc.disk == old(log.bc.disk) && log.bc.trace == old(log.bc.trace)
    ensures ok ==>
      var logb, home := log.l.start + tail + 1, log.block[tail];
      var to := if intoLog then logb else home;
      var data := if intoLog then old(log.bc.view)[home] else old(log.bc.disk)[logb];
      && Waits(log, if intoLog then rest else rest[1..]) && log.bc.disk == old(log.bc.disk)[to := data]
        && log.bc.view == old(log.bc.view)[to := data]
      && log.bc.trace == old(log.bc.trace) + [log.bc.disk]
  {
    hide RingOk, Recency, Unique, Agrees, DirtyIn, Pinned, HeldClean, Kept, Spare, Quiet, NotInLog, Held, PinnedAt;
    var logb, home := log.l.start + tail + 1, log.block[tail];
    ghost var to := if intoLog then logb else home;
    assert home in log.block[..log.n];
    Outside(log.l, log.bc.bufs, log.block[..log.n], rest, |log.bc.disk|);
    NotHeld(log.bc, log.l, home, to);
    LogReads(log.bc, log.l, logb);
    ok := log.CopyBlock(logb, home, intoLog, [home]);
    if ok {
      HeldKept(old(log.bc.bufs), old(log.bc.locked), old(log.bc.disk), log.bc.bufs, log.bc.locked, log.bc.disk, to);
      QuietLess(log.l, log.bc.bufs, log.bc.locked, [home]);
      if intoLog {
        PinsKept(old(log.bc.bufs), log.bc.bufs, rest, rest, to);
      } else {
        InstallPins(old(log.bc.bufs), log.bc.bufs, log.block[..log.n], tail, true);
        assert log.block[..log.n][tail..] == rest && log.block[..log.n][tail + 1..] == rest[1..];
      }
    }
  }

  lemma LogReads(bc: Bcache, l: Layout, logb: Word)
    requires bc.Valid() && Quiet(l, bc.bufs, bc.locked, []) && NotInLog(l, bc.bufs) && InLog(l, logb)
      && logb < |bc.disk|
    ensures bc.view[logb] == bc.disk[logb]
  {
    bc.CleanView(logb);
  }

  /** A write of the header. */
  method Head(log: Log, ghost rest: seq<Word>, ghost bs: seq<Word>) returns (ok: bool)
    requires Waits(log, rest) && Targets(log.l, bs, |log.bc.disk|) && forall b :: b in rest ==> b in bs
    modifies log.bc
    ensures |log.bc.disk| == old(|log.bc.disk|) && log.l.start < |log.bc.disk|
    ensures !ok ==> log.bc.disk == old(log.bc.disk) && log.bc.trace == old(log.bc.trace)
    ensures ok ==>
      && Waits(log, rest)
      && log.bc.disk == old(log.bc.disk)[log.l.start := HeadBlock(old(log.bc.disk)[log.l.start], log.block[..log.n])]
      && log.bc.view == old(log.bc.view)[log.l.start := log.bc.disk[log.l.start]]
      && log.bc.trace == old(log.bc.trace) + [log.bc.disk]
  {
    hide RingOk, Recency, Unique, Agrees, DirtyIn, Pinned, HeldClean, Kept, Spare, Quiet, NotInLog, HeadBlock;
    Outside(log.l, log.bc.bufs, bs, rest, |log.bc.disk|);
    HeadHeld(log.bc, log.l);
    ok := log.WriteHead([]);
    if ok {
      HeldKept(old(log.bc.bufs), old(log.bc.locked), old(log.bc.disk), log.bc.bufs, log.bc.locked, log.bc.disk,
               log.l.start);
      assert forall i :: 0 <= i < NBUF && log.bc.bufs[i].dirty ==> log.bc.bufs[i].blockno != log.l.start by {
        NoLogDirty(log.l, old(log.bc.bufs));
      }
      PinsKept(old(log.bc.bufs), log.bc.bufs, rest, rest, log.l.start);
    }
  }

  lemma NoLogDirty(l: Layout, bufs: seq<Buf>)
    requires NotInLog(l, bufs)
    ensures forall i :: 0 <= i < |bufs| && bufs[i].dirty ==> !InLog(l, bufs[i].blockno)
  {
  }

  lemma HeadHeld(bc: Bcache, l: Layout)
    requires bc.Valid() && Quiet(l, bc.bufs, bc.locked, []) && 1 <= l.size
    ensures forall i :: 0 <= i < NBUF && bc.locked[i] && bc.bufs[i].valid ==> bc.bufs[i].blockno != l.start
  {
    hide RingOk, Recency, Unique;
  }

  /** Commit of transaction t, begun on disk d, stands after p writes; readers see what they saw. */
  ghost predicate Stands(log: Log, d: Image, view: Image, t: Txn, p: nat)
    reads log, log.bc
  {
    && TxnOk(log.l, t, |d|) && t.blocks != [] && p <= 2 * |t.blocks| + 2 && |d| == |view| && t == TxnOf(t.blocks, view)
    && Waits(log, Rest(t.blocks, p)) && log.bc.disk == After(log.l, d, t, p) && SameHome(log.l, log.bc.view, view)
    && log.block[..log.n] == (if p < 2 * |t.blocks| + 2 then t.blocks else [])
  }

  /** A copy, into the log before the header is written and to its home afterwards. */
  method WriteCopy(log: Log, p: nat, ghost d: Image, ghost view: Image, ghost t: Txn) returns (out: Outcome)
    requires Stands(log, d, view, t, p) && p < 2 * |t.blocks| + 1 && p != |t.blocks|
    modifies log.bc
    ensures out.Done? ==>
      Stands(log, d, view, t, p + 1) && log.bc.trace == old(log.bc.trace) + [After(log.l, d, t, p + 1)]
    ensures !out.Done? ==> log.bc.disk == old(log.bc.disk) && log.bc.trace == old(log.bc.trace)
  {
    hide Stands, Waits, After, CommitTrace, Held, SameHome, TxnOk, TxnOf, Rest;
    BeforeCopy(log, d, view, t, p);
    CopyPlan(log.l, log.block, log.n, log.bc.view, d, view, t, p);
    var n := log.n;
    var tail := if p < n then p else p - n - 1;
    if Held(log.bc.bufs, log.bc.locked, log.block[tail]) {
      return Asleep;
    }
    var ok := Copy(log, tail, p < n, Rest(t.blocks, p));
    if !ok {
      return NoBuffers;
    }
    AfterCopy(log, d, view, t, p);
    return Done;
  }

  lemma BeforeCopy(log: Log, d: Image, view: Image, t: Txn, p: nat)
    requires Stands(log, d, view, t, p) && p < 2 * |t.blocks| + 1 && p != |t.blocks|
    ensures TxnOk(log.l, t, |d|) && t.blocks != [] && |d| == |view| && t == TxnOf(t.blocks, view)
    ensures log.n == |t.blocks| <= |log.block| && log.block[..log.n] == t.blocks && Waits(log, Rest(t.blocks, p))
    ensures |log.bc.bufs| == |log.bc.locked| == NBUF && p < |CommitTrace(log.l, d, t)|
    ensures log.bc.disk == After(log.l, d, t, p) && SameHome(log.l, log.bc.view, view)
  {
    hide RingOk, Recency, Unique, Agrees, DirtyIn, Pinned, Calm, After, CommitTrace, Targets, SameHome, Rest;
  }

  /** What the copy will do, with v the view and n the number of blocks. */
  lemma CopyPlan(l: Layout, block: seq<Word>, n: nat, v: Image, d: Image, view: Image, t: Txn, p: nat)
    requires TxnOk(l, t, |d|) && |d| == |view| && t == TxnOf(t.blocks, view) && SameHome(l, v, view)
    requires n == |t.blocks| <= |block| && block[..n] == t.blocks && p < 2 * n + 1 && p != n
    requires p < |CommitTrace(l, d, t)|
    ensures |v| == |d| == |After(l, d, t, p)| && |t.data| == n
    ensures var tail := if p < n then p else p - n - 1;
      var logb, home := l.start + tail + 1, block[tail];
      && home < |d| && logb < |d|
      && Rest(t.blocks, p) == (if p < n then block[..n] else block[tail..n])
      && Rest(t.blocks, p + 1) == (if p < n then Rest(t.blocks, p) else Rest(t.blocks, p)[1..])
      && v[home] == t.data[tail] && (p > n ==> After(l, d, t, p)[logb] == t.data[tail])
      && After(l, d, t, p + 1) == After(l, d, t, p)[if p < n then logb else home := t.data[tail]]
      && SameHome(l, v[if p < n then logb else home := t.data[tail]], view)
  {
    hide After, CommitTrace, Targets, SameHome, Rest;
    CopyStep(l, d, t, p);
    RestStep(t.blocks, p);
    var tail := if p < n then p else p - n - 1;
    assert block[tail] == t.blocks[tail] && block[tail..n] == t.blocks[tail..];
    TargetAt(l, t.blocks, tail, |d|);
    SameView(l, v, view, t.blocks[tail], if p < n then l.start + tail + 1 else t.blocks[tail]);
  }

  lemma AfterCopy(log: Log, d: Image, view: Image, t: Txn, p: nat)
    requires TxnOk(log.l, t, |d|) && t.blocks != [] && |d| == |view| && t == TxnOf(t.blocks, view)
    requires p < 2 * |t.blocks| + 1 && log.n <= |log.block| && log.block[..log.n] == t.blocks
    requires Waits(log, Rest(t.blocks, p + 1)) && log.bc.disk == After(log.l, d, t, p + 1)
    requires SameHome(log.l, log.bc.view, view)
    ensures Stands(log, d, view, t, p + 1)
  {
    hide Waits, After, CommitTrace, SameHome, TxnOk, TxnOf, Rest;
  }

  /** The write that a copy is. */
  lemma CopyStep(l: Layout, d: Image, t: Txn, p: nat)
    requires TxnOk(l, t, |d|) && p < 2 * |t.blocks| + 1 && p != |t.blocks|
    ensures |After(l, d, t, p)| == |d|
    ensures var tail := if p < |t.blocks| then p else p - |t.blocks| - 1;
      && l.start + tail + 1 < |d| && t.blocks[tail] < |d|
      && (p > |t.blocks| ==> After(l, d, t, p)[l.start + tail + 1] == t.data[tail])
      && After(l, d, t, p + 1) ==
         After(l, d, t, p)[if p < |t.blocks| then l.start + tail + 1 else t.blocks[tail] := t.data[tail]]
  {
    hide After, CommitTrace, HeadBlock;
    Steps(l, d, t, p);
  }

  lemma RestStep(bs: seq<Word>, p: nat)
    requires p < 2 * |bs| + 1 && p != |bs|
    ensures p < |bs| ==> Rest(bs, p) == bs && Rest(bs, p + 1) == bs
    ensures p > |bs| ==> Rest(bs, p) == bs[p - |bs| - 1..] && Rest(bs, p + 1) == Rest(bs, p)[1..]
  {
  }

  lemma TargetAt(l: Layout, bs: seq<Word>, k: nat, disksize: nat)
    requires Targets(l, bs, disksize) && k < |bs|
    ensures bs[k] < disksize && !InLog(l, bs[k]) && l.start + k + 1 < disksize && InLog(l, l.start + k + 1)
  {
  }

  lemma SameView(l: Layout, v: Image, view: Image, home: nat, to: nat)
    requires SameHome(l, v, view) && home < |view| && !InLog(l, home) && to < |view| && (InLog(l, to) || to == home)
    ensures |v| == |view| && v[home] == view[home]
    ensures SameHome(l, v[to := view[home]], view)
  {
  }

  lemma SameViewLog(l: Layout, v: Image, view: Image, data: Block)
    requires SameHome(l, v, view) && l.start < |view| && 1 <= l.size
    ensures |v| == |view| && SameHome(l, v[l.start := data], view)
  {
  }

  /** The commit point, and the end. */
  method WriteHeader(log: Log, p: nat, ghost d: Image, ghost view: Image, ghost t: Txn) returns (ok: bool)
    requires Stands(log, d, view, t, p) && (p == |t.blocks| || p == 2 * |t.blocks| + 1)
    modifies log.bc, log`n
    ensures ok ==> Stands(log, d, view, t, p + 1) && log.bc.trace == old(log.bc.trace) + [After(log.l, d, t, p + 1)]
    ensures !ok ==> log.bc.disk == old(log.bc.disk) && log.bc.trace == old(log.bc.trace)
  {
    hide Stands, Waits, After, CommitTrace, SameHome, TxnOk, TxnOf, Rest, HeadBlock, Targets;
    hide RingOk, Recency, Unique, Agrees, DirtyIn, Pinned, Quiet, HeldClean;
    BeforeHead(log, d, view, t, p);
    WaitsParts(log, Rest(t.blocks, p));
    if p != log.n {
      log.n := 0;
      WaitsEmpty(log, Rest(t.blocks, p));
    }
    ok := Head(log, Rest(t.blocks, p), t.blocks);
    if ok {
      SameViewLog(log.l, old(log.bc.view), view, log.bc.disk[log.l.start]);
      AfterHead(log, d, view, t, p);
    }
  }

  lemma BeforeHead(log: Log, d: Image, view: Image, t: Txn, p: nat)
    requires Stands(log, d, view, t, p) && (p == |t.blocks| || p == 2 * |t.blocks| + 1)
    ensures TxnOk(log.l, t, |d|) && t.blocks != [] && |d| == |view| && t == TxnOf(t.blocks, view)
    ensures log.n == |t.blocks| <= |log.block| && log.block[..log.n] == t.blocks && Waits(log, Rest(t.blocks, p))
    ensures Targets(log.l, t.blocks, |log.bc.disk|) && SameHome(log.l, log.bc.view, view)
    ensures |log.bc.view| == |log.bc.disk| == |d| && log.l.start < |d| && 1 <= log.l.size
    ensures Rest(t.blocks, p + 1) == Rest(t.blocks, p) && forall b :: b in Rest(t.blocks, p) ==> b in t.blocks
    ensures p + 1 <= |CommitTrace(log.l, d, t)|
    ensures After(log.l, d, t, p + 1) ==
      log.bc.disk[log.l.start := HeadBlock(log.bc.disk[log.l.start], if p == |t.blocks| then t.blocks else [])]
  {
    hide RingOk, Recency, Unique, Agrees, DirtyIn, Pinned, Calm, After, CommitTrace, SameHome, HeadBlock;
    Steps(log.l, d, t, p);
    assert t.blocks[|t.blocks|..] == [] && t.blocks[0..] == t.blocks;
  }

  lemma WaitsParts(log: Log, rest: seq<Word>)
    requires Waits(log, rest)
    ensures log.bc.Valid() && |log.block| == LOGSIZE && 1 <= log.l.size && log.l.start + log.l.size <= |log.bc.disk|
    ensures Quiet(log.l, log.bc.bufs, log.bc.locked, []) && HeldClean(log.bc.bufs, log.bc.locked, log.bc.disk)
    ensures DirtyIn(log.bc.bufs, rest) && Pinned(log.bc.bufs, rest)
  {
    hide RingOk, Recency, Unique, Agrees, DirtyIn, Pinned, Quiet, HeldClean;
  }

  /** The same with nothing listed in memory. */
  lemma WaitsEmpty(log: Log, rest: seq<Word>)
    requires log.bc.Valid() && |log.block| == LOGSIZE && 1 <= log.l.size && log.l.start + log.l.size <= |log.bc.disk|
    requires Quiet(log.l, log.bc.bufs, log.bc.locked, []) && HeldClean(log.bc.bufs, log.bc.locked, log.bc.disk)
    requires DirtyIn(log.bc.bufs, rest) && Pinned(log.bc.bufs, rest) && log.n == 0
    ensures Waits(log, rest) && log.block[..log.n] == []
  {
    hide RingOk, Recency, Unique, Agrees, DirtyIn, Pinned, Quiet, HeldClean;
    assert log.block[..0] == [];
  }

  lemma AfterHead(log: Log, d: Image, view: Image, t: Txn, p: nat)
    requires TxnOk(log.l, t, |d|) && t.blocks != [] && |d| == |view| && t == TxnOf(t.blocks, view)
    requires (p == |t.blocks| || p == 2 * |t.blocks| + 1) && log.n <= |log.block|
    requires log.block[..log.n] == if p == |t.blocks| then t.blocks else []
    requires Waits(log, Rest(t.blocks, p + 1)) && log.bc.disk == After(log.l, d, t, p + 1)
    requires SameHome(log.l, log.bc.view, view)
    ensures Stands(log, d, view, t, p + 1)
  {
    hide Waits, After, CommitTrace, SameHome, TxnOk, TxnOf, Rest;
  }

  lemma Length(log: Log, d: Image, view: Image, t: Txn, p: nat)
    requires Stands(log, d, view, t, p) && p < 2 * |t.blocks| + 2
    ensures log.n == |t.blocks|
  {
    hide Calm, DirtyIn, Pinned, RingOk, Recency, Unique, Agrees;
  }

  /** Readers move, and then the next write is done unless commit has to sleep. */
  method Next(log: Log, p: nat, acts: seq<Reading>, ghost d: Image, ghost view: Image, ghost t: Txn)
    returns (out: Outcome)
    requires Stands(log, d, view, t, p) && p < 2 * |t.blocks| + 2
    modifies log.bc, log`n
    ensures out.Done? ==>
      Stands(log, d, view, t, p + 1) && log.bc.trace == old(log.bc.trace) + [After(log.l, d, t, p + 1)]
    ensures !out.Done? ==> log.bc.trace == old(log.bc.trace)
  {
    hide Waits, After, SameHome, TxnOk;
    var n := log.n;
    Length(log, d, view, t, p);
    var ok := Readers(log, acts, Rest(t.blocks, p));
    if !ok {
      return NoBuffers;
    }
    if p == n || p == 2 * n + 1 {
      ok := WriteHeader(log, p, d, view, t);
      return if ok then Done else NoBuffers;
    }
    out := WriteCopy(log, p, d, view, t);
  }

  /**
    commit with readers at work before each of its writes.  However they move, the disk goes
    through a prefix of the images of CommitTrace, all of them when commit comes to its end.
   */
  method CommitAmong(log: Log, acts: seq<seq<Reading>>) returns (out: Outcome, ghost m: nat)
    requires log.Valid() && Calm(log) && log.n > 0
    modifies log.bc, log`n
    ensures m <= |CommitTrace(log.l, old(log.bc.disk), old(log.Current()))|
    ensures log.bc.trace == old(log.bc.trace) + CommitTrace(log.l, old(log.bc.disk), old(log.Current()))[..m]
    ensures out.Done? ==>
      && m == |CommitTrace(log.l, old(log.bc.disk), old(log.Current()))|
      && log.Valid() && log.n == 0 && (forall i :: 0 <= i < NBUF ==> !log.bc.bufs[i].dirty)
      && log.bc.disk == Final(log.l, old(log.bc.disk), old(log.Current()))
        && SameHome(log.l, log.bc.view, old(log.bc.view))
  {
    hide Stands, After, CommitTrace, SameHome, TxnOk, Final;
    ghost var d, view, t := log.bc.disk, log.bc.view, log.Current();
    Begins(log);
    var p, n := 0, log.n;
    m := 0;
    while p < 2 * n + 2
      invariant 0 <= p == m <= 2 * n + 2 == |CommitTrace(log.l, d, t)| && n == |t.blocks| && Stands(log, d, view, t, p)
      invariant log.bc.trace == old(log.bc.trace) + CommitTrace(log.l, d, t)[..p]
      modifies log.bc, log`n
    {
      out := Next(log, p, if p < |acts| then acts[p] else [], d, view, t);
      if !out.Done? {
        return;
      }
      AfterMore(log.l, d, t, p);
      p := p + 1;
      m := p;
    }
    Ends(log, d, view, t);
    out := Done;
  }

  lemma Begins(log: Log)
    requires log.Valid() && Calm(log) && log.n > 0
    ensures Stands(log, log.bc.disk, log.bc.view, log.Current(), 0)
    ensures |CommitTrace(log.l, log.bc.disk, log.Current())| == 2 * log.n + 2
  {
    hide CommitTrace;
  }

  lemma Ends(log: Log, d: Image, view: Image, t: Txn)
    requires Stands(log, d, view, t, 2 * |t.blocks| + 2)
    ensures log.Valid() && log.n == 0 && (forall i :: 0 <= i < NBUF ==> !log.bc.bufs[i].dirty)
    ensures log.bc.disk == Final(log.l, d, t) && SameHome(log.l, log.bc.view, view)
  {
    hide CommitTrace, RingOk, Recency, Unique, Agrees;
    InstallPart(log.l, d, t, 0);
  }

  lemma AfterMore(l: Layout, d: Image, t: Txn, p: nat)
    requires TxnOk(l, t, |d|) && p < |CommitTrace(l, d, t)|
    ensures CommitTrace(l, d, t)[..p + 1] == CommitTrace(l, d, t)[..p] + [After(l, d, t, p + 1)]
  {
    hide CommitTrace;
  }
}
