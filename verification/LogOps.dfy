/**
  A file-system operation by itself on the log: begin_op, each block it changes read, changed,
  logged and released, and end_op, which commits.  What it commits is what it changed.
 */
module LogOps {
  import opened Blocks
  import opened Bio
  import opened RedoLog
  import opened FsState
  import opened Log
  import opened FileCrash
  import opened File
  import GroupCommit

  /** Nothing runs and nothing is waiting to be committed. */
  ghost predicate Resting(log: Log)
    reads log, log.bc
  {
    && log.Valid() && log.Durable() && log.Tracks() && log.bc.Idle()
    && log.n == 0 && log.outstanding == 0 && !log.committing && GroupCommit.MAXOPBLOCKS < log.l.size - 1
  }

  /** Operation op runs alone, and all listed blocks are its own. */
  ghost predicate Alone(log: Log, op: nat)
    reads log, log.bc
  {
    && log.Valid() && log.Durable() && log.Tracks() && log.bc.Idle() && log.outstanding == 1
    && GroupCommit.Active(log.g, op) && log.g.ops[op].used == log.n <= GroupCommit.MAXOPBLOCKS < log.l.size - 1
  }

  /** bread of block b for operation op; there is a buffer for it. */
  method Fetch(log: Log, b: Word, ghost op: nat) returns (r: nat)
    requires Alone(log, op) && b < |log.bc.disk| && log.n <= GroupCommit.MAXOPBLOCKS
    modifies log.bc
    ensures log.Valid() && log.bc.disk == old(log.bc.disk) && log.bc.view == old(log.bc.view)
      && log.bc.trace == old(log.bc.trace)
    ensures r < NBUF && Match(log.bc.bufs[r], 1, b) && log.bc.bufs[r].valid && log.bc.bufs[r].refcnt == 1
    ensures log.bc.locked == old(log.bc.locked)[r := true]
    ensures forall i :: 0 <= i < NBUF && i != r ==> log.bc.bufs[i].refcnt == 0 && !log.bc.locked[i]
  {
    hide RingOk, Recency, Unique, Agrees, Targets, DirtyIn, Pinned, Recorded, GroupCommit.Reaches;
    Room(log);
    var o := log.bc.Bread(1, b);
    r := o.value;
    PinsSame(old(log.bc.bufs), log.bc.bufs, log.block[..log.n]);
  }

  /** With nothing held and few blocks logged there is a buffer to take. */
  lemma Room(log: Log)
    requires log.Valid() && log.bc.Idle() && log.n < NBUF
    ensures exists i :: 0 <= i < NBUF && Recyclable(log.bc.bufs[i])
  {
    hide RingOk, Recency, Agrees;
    AllHome(log);
    var k := SomeClean(log.bc.bufs, log.block[..log.n]);
    assert Recyclable(log.bc.bufs[k]);
  }

  lemma AllHome(log: Log)
    requires log.Valid()
    ensures forall i :: 0 <= i < NBUF && log.bc.bufs[i].dirty ==>
      log.bc.bufs[i].dev == 1 && log.bc.bufs[i].blockno in log.block[..log.n]
  {
    hide RingOk, Recency, Unique, Pinned;
  }

  /** One logged write of operation op. */
  method PutBlock(log: Log, w: Put, ghost op: nat)
    requires Alone(log, op) && w.b < |log.bc.disk| && w.b < 0x1_0000_0000 && !InLog(log.l, w.b)
    requires w.b in log.block[..log.n] || log.n < GroupCommit.MAXOPBLOCKS
    modifies log.bc, log`n, log`block, log`g
    ensures Alone(log, op) && log.bc.disk == old(log.bc.disk) && log.bc.trace == old(log.bc.trace)
    ensures log.bc.view == old(log.bc.view)[w.b := w.data]
    ensures log.block[..log.n] == Absorb(old(log.block[..log.n]), w.b)
  {
    hide RingOk, Recency, Unique, Agrees, Targets, DirtyIn, Pinned, Recorded, GroupCommit.Reaches;
    var b := Fetch(log, w.b, op);
    label fetched:
    log.bc.Modify(b, w.data);
    PinsSame(old@fetched(log.bc.bufs), log.bc.bufs, log.block[..log.n]);
    var ok := log.LogWrite(b, op);
    label logged:
    log.bc.Brelse(b);
    PinsSame(old@logged(log.bc.bufs), log.bc.bufs, log.block[..log.n]);
  }

  /** The list of blocks has no repetitions and holds exactly these numbers. */
  ghost predicate Lists(bs: seq<Word>, s: set<nat>) {
    (forall b :: b in bs <==> b in s) && |bs| == |s|
  }

  lemma ListsMore(bs: seq<Word>, s: set<nat>, b: Word)
    requires Lists(bs, s)
    ensures Lists(Absorb(bs, b), s + {b as nat})
  {
    if b in bs {
      assert s + {b as nat} == s;
    }
  }

  lemma NumbersStep(ws: seq<Put>, k: nat)
    requires k < |ws|
    ensures Numbers(ws[..k + 1]) == Numbers(ws[..k]) + {ws[k].b} && Numbers(ws[..k + 1]) <= Numbers(ws)
  {
    NumbersMore(ws[..k], [ws[k]]);
    assert ws[..k] + [ws[k]] == ws[..k + 1];
    assert [ws[k]][0].b == ws[k].b;
    assert Numbers([ws[k]]) == {ws[k].b};
    NumbersMore(ws[..k + 1], ws[k + 1..]);
    assert ws[..k + 1] + ws[k + 1..] == ws;
  }

  lemma {:induction false} ReplayedStep(blocks: seq<Block>, ws: seq<Put>, k: nat)
    requires k < |ws| && ws[k].b < |blocks|
    ensures Replayed(blocks, ws[..k + 1]) == Replayed(blocks, ws[..k])[ws[k].b := ws[k].data]
  {
    assert ws[..k + 1][..k] == ws[..k];
  }

  /** The writes of an operation fit its budget one by one. */
  lemma InBudget(bs: seq<Word>, ws: seq<Put>, k: nat)
    requires k < |ws| && Lists(bs, Numbers(ws[..k])) && |Numbers(ws)| <= GroupCommit.MAXOPBLOCKS
    ensures ws[k].b in bs || |bs| < GroupCommit.MAXOPBLOCKS
  {
    hide Numbers;
    NumbersStep(ws, k);
    if ws[k].b !in bs {
      var s, t := Numbers(ws[..k]), Numbers(ws);
      assert t == s + (t - s) && ws[k].b in t - s;
    }
  }

  /** Writes that an operation can make: to home blocks of the disk, within its budget. */
  ghost predicate Allowed(l: Layout, ws: seq<Put>, disksize: nat) {
    && |Numbers(ws)| <= GroupCommit.MAXOPBLOCKS && disksize <= 0x1_0000_0000
    && forall k :: 0 <= k < |ws| ==> ws[k].b < disksize && !InLog(l, ws[k].b)
  }

  /** The writes of an operation, one after the other. */
  method PutAll(log: Log, ws: seq<Put>, ghost op: nat)
    requires Alone(log, op) && log.n == 0 && Allowed(log.l, ws, |log.bc.disk|)
    modifies log.bc, log`n, log`block, log`g
    ensures Alone(log, op) && log.bc.disk == old(log.bc.disk) && log.bc.trace == old(log.bc.trace)
    ensures log.bc.view == Replayed(old(log.bc.view), ws) && Lists(log.block[..log.n], Numbers(ws))
  {
    hide Alone, Numbers, Lists, Replayed;
    AloneFacts(log, op);
    ghost var view := log.bc.view;
    Empty(view, ws);
    assert log.block[..0] == [];
    var k := 0;
    while k < |ws|
      invariant 0 <= k <= |ws| && Alone(log, op) && log.bc.disk == old(log.bc.disk) && log.bc.trace == old(log.bc.trace)
      invariant log.n <= |log.block| && |log.bc.view| == |log.bc.disk|
      invariant log.bc.view == Replayed(view, ws[..k]) && Lists(log.block[..log.n], Numbers(ws[..k]))
    {
      ghost var bs := log.block[..log.n];
      InBudget(bs, ws, k);
      NumbersStep(ws, k);
      ReplayedStep(view, ws, k);
      ListsMore(bs, Numbers(ws[..k]), ws[k].b);
      PutBlock(log, ws[k], op);
      AloneFacts(log, op);
      k := k + 1;
    }
    assert ws[..k] == ws;
  }

  lemma AloneFacts(log: Log, op: nat)
    requires Alone(log, op)
    ensures log.n <= |log.block| && |log.bc.view| == |log.bc.disk|
  {
  }

  lemma {:induction false} Empty(view: seq<Block>, ws: seq<Put>)
    ensures ws[..0] == [] && Replayed(view, []) == view && Lists([], Numbers([]))
  {
    assert Numbers([]) == {};
  }

  /** An operation from begin_op to end_op.  The log then has one transaction more: its blocks, as it left them. */
  method RunOp(log: Log, ws: seq<Put>)
    requires Resting(log) && Allowed(log.l, ws, |log.bc.disk|)
    modifies log.bc, log
    ensures Resting(log) && |log.bc.disk| == |old(log.bc.disk)|
      && SameHome(log.l, log.bc.view, Replayed(old(log.bc.view), ws))
    ensures |log.txns| == |old(log.txns)| + 1 && log.txns[..|old(log.txns)|] == old(log.txns)
    ensures log.start == old(log.start) && log.base == old(log.base)
    ensures Commits(log.txns[|old(log.txns)|], Numbers(ws), Replayed(old(log.bc.view), ws))
  {
    hide RingOk, Recency, Unique, Agrees, Targets, DirtyIn, Pinned, Recorded;
    hide GroupCommit.Reaches, Lists, Numbers, Replayed, Quiet, Kept, AtHome, SameHome;
    var admitted;
    ghost var op;
    admitted, op := log.BeginOp();
    PutAll(log, ws, op);
    IdleQuiet(log);
    ghost var t := log.Current();
    IdleSpare(log.bc, log.l, log.block[..log.n]);
    CurrentIs(log);
    ListedCommits(t, log.bc.view, ws);
    DurableSize(log);
    label ending:
    var ok := log.EndOp(op);
    StillIdle(log.bc, old@ending(log.bc.bufs), old@ending(log.bc.locked));
    DurableSize(log);
  }

  lemma CurrentIs(log: Log)
    requires log.Valid()
    ensures var t := log.Current();
      |t.data| == |t.blocks| && forall m :: 0 <= m < |t.blocks| ==>
        t.blocks[m] < |log.bc.view| && t.data[m] == log.bc.view[t.blocks[m]]
  {
    hide RingOk, Recency, Unique, Agrees, DirtyIn, Pinned;
  }

  lemma DurableSize(log: Log)
    requires log.Durable()
    ensures |log.bc.disk| == |log.start|
  {
    hide GetWord, RunTrace;
  }

  lemma StillIdle(bc: Bcache, bufs: seq<Buf>, locked: seq<bool>)
    requires |bc.bufs| == |bc.locked| == NBUF && Kept(bufs, locked, bc.bufs, bc.locked)
    requires forall i :: 0 <= i < NBUF ==> !locked[i] && bufs[i].refcnt == 0
    ensures bc.Idle()
  {
  }

  lemma IdleQuiet(log: Log)
    requires log.Valid() && log.bc.Idle()
    ensures Quiet(log.l, log.bc.bufs, log.bc.locked, log.block[..log.n])
  {
    hide RingOk, Recency, Unique, Agrees, DirtyIn, Pinned, Targets;
  }

  lemma ListedCommits(t: Txn, view: Image, ws: seq<Put>)
    requires Lists(t.blocks, Numbers(ws)) && |t.data| == |t.blocks|
    requires forall m :: 0 <= m < |t.blocks| ==> t.blocks[m] < |view| && t.data[m] == view[t.blocks[m]]
    ensures Commits(t, Numbers(ws), view)
  {
    hide Numbers;
  }

  /** The same writes on blocks that agree at home end in blocks that do. */
  lemma {:induction false} ReplayHome(l: Layout, a: Image, b: Image, ws: seq<Put>)
    requires SameHome(l, a, b)
    ensures SameHome(l, Replayed(a, ws), Replayed(b, ws))
  {
    if ws != [] {
      ReplayHome(l, a, b, ws[..|ws| - 1]);
    }
  }

  lemma CommitsHome(l: Layout, t: Txn, s: set<nat>, a: Image, b: Image)
    requires Commits(t, s, a) && SameHome(l, a, b) && forall x :: x in s ==> !InLog(l, x)
    ensures Commits(t, s, b)
  {
    forall m | 0 <= m < |t.blocks|
      ensures t.blocks[m] < |b| && t.data[m] == b[t.blocks[m]]
    {
      assert t.blocks[m] in t.blocks;
    }
  }

  /** Operation k takes the blocks from bss[k] to bss[k + 1] by the writes wss[k], and logs logs[k]. */
  ghost predicate Script(sb: Super, l: Layout, bss: seq<Image>, logs: seq<set<nat>>, wss: seq<seq<Put>>) {
    && |bss| == |wss| + 1 == |logs| + 1 && LogBelow(sb, l) && |bss[0]| <= 0x1_0000_0000
    && forall k :: 0 <= k < |wss| ==>
         |bss[k]| == |bss[0]| && |logs[k]| <= GroupCommit.MAXOPBLOCKS
           && Writes(sb, bss[k], bss[k + 1], {}, logs[k], wss[k])
  }

  lemma ScriptStep(sb: Super, l: Layout, bss: seq<Image>, logs: seq<set<nat>>, wss: seq<seq<Put>>, k: nat)
    requires Script(sb, l, bss, logs, wss) && k < |wss|
    ensures Allowed(l, wss[k], |bss[0]|) && logs[k] == Numbers(wss[k]) && bss[k + 1] == Replayed(bss[k], wss[k])
    ensures |bss[k]| == |bss[0]| && forall x :: x in logs[k] ==> !InLog(l, x)
  {
    hide Replayed;
    assert Writes(sb, bss[k], bss[k + 1], {}, logs[k], wss[k]);
    assert {} + Numbers(wss[k]) == Numbers(wss[k]);
  }

  /** These transactions commit these operations, in order. */
  ghost predicate InOrder(ts: seq<Txn>, logs: seq<set<nat>>, bss: seq<Image>) {
    |ts| <= |logs| < |bss| && forall k :: 0 <= k < |ts| ==> Commits(ts[k], logs[k], bss[k + 1])
  }

  /**
    Operations one after the other.  The log records, from where it stood, one transaction
    per operation that commits exactly what the operation changed.
   */
  method RunOps(log: Log, wss: seq<seq<Put>>, ghost sb: Super, ghost bss: seq<Image>, ghost logs: seq<set<nat>>)
    returns (ghost ts: seq<Txn>)
    requires Resting(log) && Script(sb, log.l, bss, logs, wss) && SameHome(log.l, log.bc.view, bss[0])
    modifies log.bc, log
    ensures Resting(log) && SameHome(log.l, log.bc.view, bss[|wss|]) && SameHome(log.l, old(log.bc.disk), bss[0])
    ensures |ts| == |wss| && InOrder(ts, logs, bss) && log.txns == old(log.txns) + ts
    ensures Recorded(log.l, |old(log.bc.trace)|, old(log.bc.disk), ts, log.bc.disk, log.bc.trace)
  {
    hide Resting, Recorded, SameHome, Commits, Script, Allowed, Replayed, Numbers, Writes;
    RestFacts(log);
    ScriptSize(sb, log.l, bss, logs, wss);
    HomeSize(log.l, log.bc.view, bss[0]);
    ts := [];
    var k := 0;
    while k < |wss|
      invariant 0 <= k <= |wss| && Resting(log) && |log.bc.disk| == |bss[0]| && |bss| == |wss| + 1 == |logs| + 1
      invariant SameHome(log.l, log.bc.view, bss[k])
      invariant |ts| == k && InOrder(ts, logs, bss) && log.txns == old(log.txns) + ts
      invariant log.start == old(log.start) && log.base == old(log.base)
      modifies log.bc, log
    {
      ScriptStep(sb, log.l, bss, logs, wss, k);
      ReplayHome(log.l, log.bc.view, bss[k], wss[k]);
      ghost var view := log.bc.view;
      RunOp(log, wss[k]);
      HomeTrans(log.l, log.bc.view, Replayed(view, wss[k]), bss[k + 1]);
      ghost var t := log.txns[|log.txns| - 1];
      CommitsHome(log.l, t, logs[k], Replayed(view, wss[k]), bss[k + 1]);
      ts := ts + [t];
      k := k + 1;
    }
    RestFacts(log);
    RecordedSince(log.l, log.base, log.start, old(log.txns), ts, old(log.bc.disk), old(log.bc.trace), log.bc.disk,
                  log.bc.trace);
  }

  /** At rest the disk shows what readers see. */
  lemma RestFacts(log: Log)
    requires Resting(log)
    ensures log.bc.view == log.bc.disk && Recorded(log.l, log.base, log.start, log.txns, log.bc.disk, log.bc.trace)
  {
    hide RingOk, Recency, Unique, Agrees, Pinned, Targets, Recorded;
    assert log.block[..0] == [];
    NoneDirty(log.bc.bufs, log.block[..log.n]);
    BootView(log.bc);
  }

  lemma ScriptSize(sb: Super, l: Layout, bss: seq<Image>, logs: seq<set<nat>>, wss: seq<seq<Put>>)
    requires Script(sb, l, bss, logs, wss)
    ensures |bss| == |wss| + 1 == |logs| + 1
  {
  }

  lemma HomeSize(l: Layout, a: Image, b: Image)
    requires SameHome(l, a, b)
    ensures |a| == |b|
  {
  }

  lemma HomeTrans(l: Layout, a: Image, b: Image, c: Image)
    requires SameHome(l, a, b) && SameHome(l, b, c)
    ensures SameHome(l, a, c)
  {
  }

  /** A filewrite's transactions, from its record: there are writes for each, and they follow the script. */
  lemma WriteScript(sb: Super, l: Layout, i: nat, off: nat, src: seq<Byte>, fss: seq<Fs>, logs: seq<set<nat>>)
    returns (wss: seq<seq<Put>>)
    requires Record(sb, i, off, src, fss, logs) && File.Ready(sb, fss[0], i) && LogBelow(sb, l)
    ensures Script(sb, l, Images(fss), logs, wss)
  {
    hide Chunked, File.Ready, Owned, ChunkCost;
    var k := 0;
    wss := [];
    StepSizes(sb, i, off, src, fss, logs);
    while k < |logs|
      invariant 0 <= k <= |logs| && |wss| == k
      invariant forall j :: 0 <= j < k ==> Writes(sb, fss[j].blocks, fss[j + 1].blocks, {}, logs[j], wss[j])
    {
      assert Logs(sb, fss[k].blocks, fss[k + 1].blocks, {}, logs[k]);
      var ws: seq<Put> :| Writes(sb, fss[k].blocks, fss[k + 1].blocks, {}, logs[k], ws);
      wss := wss + [ws];
      k := k + 1;
    }
  }

  lemma StepSizes(sb: Super, i: nat, off: nat, src: seq<Byte>, fss: seq<Fs>, logs: seq<set<nat>>)
    requires History(sb, i, off, src, fss, logs)
    ensures forall k :: 0 <= k < |fss| ==> |fss[k].blocks| == sb.size < 0x1_0000_0000
    ensures forall k :: 0 <= k < |logs| ==> Logs(sb, fss[k].blocks, fss[k + 1].blocks, {}, logs[k])
  {
    hide Chunked, Step;
    forall k | 0 <= k < |fss|
      ensures |fss[k].blocks| == sb.size < 0x1_0000_0000
    {
      ChunkedSize(sb, fss[0], fss[k], i, off, src, k);
    }
    forall k | 0 <= k < |logs|
      ensures Logs(sb, fss[k].blocks, fss[k + 1].blocks, {}, logs[k])
    {
      StepLogs(sb, i, off + MAXCHUNK * k, ChunkSize(k, |src|), fss[k], fss[k + 1], logs[k]);
    }
  }

  lemma ChunkedSize(sb: Super, fs0: Fs, fs: Fs, i: nat, off: nat, src: seq<Byte>, k: nat)
    requires Chunked(sb, fs0, fs, i, off, src, k)
    ensures |fs.blocks| == sb.size < 0x1_0000_0000
  {
  }

  lemma StepLogs(sb: Super, i: nat, off: nat, n: nat, fs: Fs, fs': Fs, logged: set<nat>)
    requires Step(sb, i, off, n, fs, fs', logged)
    ensures Logs(sb, fs.blocks, fs'.blocks, {}, logged)
  {
    hide ChunkCost, Logs;
  }

  /**
    Crash safety of filewrite on the log itself: whichever image of its operations the disk is
    left with, and however often recovery crashes, the file system that is mounted afterwards
    is owned, has the bytes of the committed chunks, and nothing else has changed.
   */
  lemma {:induction false} WriteSurvives(log: Log, sb: Super, i: nat, off: nat, src: seq<Byte>, fss: seq<Fs>,
                                         logs: seq<set<nat>>,
                      ts: seq<Txn>, base: nat, d: Image, m: nat, boots: seq<Image>)
    requires Record(sb, i, off, src, fss, logs) && File.Ready(sb, fss[0], i) && Current(sb, fss[0])
      && LogBelow(sb, log.l)
    requires SameHome(log.l, d, fss[0].blocks) && |ts| == |logs| && InOrder(ts, logs, Images(fss))
    requires Recorded(log.l, base, d, ts, log.bc.disk, log.bc.trace) && base <= m < |log.bc.trace|
    requires |boots| >= 1 && boots[0] == log.bc.trace[m] && CrashedBoots(log.l, boots)
    ensures Recoverable(log.l, boots[|boots| - 1]) && |boots[|boots| - 1]| == sb.size && SuperOk(sb)
    ensures var fs := Mounted(sb, Recover(log.l, boots[|boots| - 1]));
      Owned(sb, fs) && Chunked(sb, fss[0], fs, i, off, src, CommittedBy(ts, m - base))
  {
    hide Recorded, History, File.Ready, Owned, Chunked, Current;
    hide SameHome, CrashedBoots, Commits, Recoverable, Recover, CommittedBy;
    CurrentShaped(sb, fss[0]);
    forall k | 0 <= k < |ts|
      ensures Commits(ts[k], logs[k], fss[k + 1].blocks)
    {
      assert Images(fss)[k + 1] == fss[k + 1].blocks;
    }
    WriteCrash(sb, log.l, i, off, src, fss, logs, base, d, ts, log.bc.disk, log.bc.trace, m, boots);
  }
}
