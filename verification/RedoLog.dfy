/**
  The on-disk redo log of log.c as a function from disk images to disk images:
  what commit and recovery write, block by block, and why stopping between any
  two of those writes loses or tears nothing.
 */
module RedoLog {
  import opened Blocks

  const LOGSIZE: nat := 30

  type Image = seq<Block>

  // log.start and log.size
  datatype Layout = Layout(start: nat, size: nat)

  // What one commit writes: block numbers and their new contents.
  datatype Txn = Txn(blocks: seq<Word>, data: seq<Block>)

  predicate InLog(l: Layout, b: int) {
    l.start <= b < l.start + l.size
  }

  /** Distinct home blocks that fit the header and the log area. */
  predicate Targets(l: Layout, bs: seq<Word>, disksize: nat) {
    && 1 <= l.size && l.start + l.size <= disksize
    && |bs| <= LOGSIZE && |bs| <= l.size - 1
    && (forall i :: 0 <= i < |bs| ==> bs[i] < disksize && !InLog(l, bs[i]))
    && (forall i, j :: 0 <= i < j < |bs| ==> bs[i] != bs[j])
  }

  predicate TxnOk(l: Layout, t: Txn, disksize: nat) {
    Targets(l, t.blocks, disksize) && |t.data| == |t.blocks|
  }

  /** The transaction that writes these blocks as the cache now has them. */
  function TxnOf(bs: seq<Word>, view: Image): (t: Txn)
    requires forall i :: 0 <= i < |bs| ==> bs[i] < |view|
    ensures t.blocks == bs && |t.data| == |bs|
  {
    Txn(bs, seq(|bs|, i requires 0 <= i < |bs| => view[bs[i]]))
  }

  predicate SameHome(l: Layout, a: Image, b: Image) {
    |a| == |b| && forall x :: 0 <= x < |a| && !InLog(l, x) ==> a[x] == b[x]
  }

  /** write_head on a header block: the count and that many entries; the rest is kept. */
  function HeadBlock(h: Block, bs: seq<Word>): (r: Block)
    requires |bs| <= LOGSIZE
    ensures GetWord(r, 0) == |bs|
    ensures forall i :: 0 <= i < |bs| ==> GetWord(r, i + 1) == bs[i]
  {
    PutEntries(PutWord(h, 0, |bs|), bs)
  }

  function PutEntries(h: Block, bs: seq<Word>): (r: Block)
    requires |bs| <= LOGSIZE
    ensures GetWord(r, 0) == GetWord(h, 0)
    ensures forall i :: 0 <= i < |bs| ==> GetWord(r, i + 1) == bs[i]
  {
    if bs == [] then h else PutWord(PutEntries(h, bs[..|bs| - 1]), |bs|, bs[|bs| - 1])
  }

  /** read_head: the block numbers the header lists. */
  function Entries(h: Block): (bs: seq<Word>)
    requires GetWord(h, 0) <= LOGSIZE
  {
    seq(GetWord(h, 0), i requires 0 <= i < GetWord(h, 0) => GetWord(h, i + 1))
  }

  lemma EntriesOfHead(h: Block, bs: seq<Word>)
    requires |bs| <= LOGSIZE
    ensures Entries(HeadBlock(h, bs)) == bs
  {
  }

  predicate Recoverable(l: Layout, d: Image) {
    && 1 <= l.size && l.start + l.size <= |d|
    && GetWord(d[l.start], 0) <= LOGSIZE
    && Targets(l, Entries(d[l.start]), |d|)
  }

  /** Where b is listed, or -1. */
  function Find(bs: seq<Word>, b: int): (i: int)
    ensures -1 <= i < |bs|
    ensures i >= 0 ==> bs[i] == b
    ensures i < 0 ==> b !in bs
  {
    if bs == [] then -1
    else if bs[|bs| - 1] == b then |bs| - 1
    else
      assert bs == bs[..|bs| - 1] + [bs[|bs| - 1]];
      Find(bs[..|bs| - 1], b)
  }

  lemma {:induction false} FindAt(bs: seq<Word>, i: nat)
    requires i < |bs| && forall i, j :: 0 <= i < j < |bs| ==> bs[i] != bs[j]
    ensures Find(bs, bs[i]) == i
  {
  }

  /** The image after install_trans has copied k log blocks to their homes. */
  function Install(l: Layout, d: Image, bs: seq<Word>, k: nat): (r: Image)
    requires Targets(l, bs, |d|) && k <= |bs|
    ensures |r| == |d|
  {
    seq(|d|, b requires 0 <= b < |d| => if 0 <= Find(bs, b) < k then d[l.start + 1 + Find(bs, b)] else d[b])
  }

  /** Each copy is one block write. */
  lemma InstallStep(l: Layout, d: Image, bs: seq<Word>, k: nat)
    requires Targets(l, bs, |d|) && k < |bs|
    ensures Install(l, d, bs, k)[l.start + k + 1] == d[l.start + k + 1]
    ensures Install(l, d, bs, k + 1) == Install(l, d, bs, k)[bs[k] := d[l.start + k + 1]]
    ensures Installs(l, d, bs, k + 1) == Installs(l, d, bs, k) + [Install(l, d, bs, k + 1)]
  {
    var r, r' := Install(l, d, bs, k), Install(l, d, bs, k + 1);
    FindAt(bs, k);
    forall b | 0 <= b < |d|
      ensures r'[b] == r[bs[k] := d[l.start + k + 1]][b]
    {
    }
  }

  function Installs(l: Layout, d: Image, bs: seq<Word>, k: nat): (r: seq<Image>)
    requires Targets(l, bs, |d|) && k <= |bs|
  {
    seq(k, i requires 0 <= i < k => Install(l, d, bs, i + 1))
  }

  lemma InstallNone(l: Layout, d: Image, bs: seq<Word>)
    requires Targets(l, bs, |d|)
    ensures Install(l, d, bs, 0) == d && Installs(l, d, bs, 0) == []
  {
  }

  /** recover_from_log: install everything the header lists, then clear the header. */
  function Recover(l: Layout, d: Image): (r: Image)
    requires Recoverable(l, d)
    ensures |r| == |d|
  {
    var bs := Entries(d[l.start]);
    Install(l, d, bs, |bs|)[l.start := HeadBlock(d[l.start], [])]
  }

  /** The images recovery leaves on the disk, one per block write. */
  function RecoverTrace(l: Layout, d: Image): (t: seq<Image>)
    requires Recoverable(l, d)
    ensures |t| == GetWord(d[l.start], 0) + 1 && t[|t| - 1] == Recover(l, d)
  {
    var bs := Entries(d[l.start]);
    Installs(l, d, bs, |bs|) + [Recover(l, d)]
  }

  /** The image after write_log has copied k cache blocks into the log area. */
  function LogCopy(l: Layout, d: Image, t: Txn, k: nat): (r: Image)
    requires TxnOk(l, t, |d|) && k <= |t.blocks|
  {
    seq(|d|, b requires 0 <= b < |d| => if l.start < b <= l.start + k then t.data[b - l.start - 1] else d[b])
  }

  function LogCopies(l: Layout, d: Image, t: Txn, k: nat): (r: seq<Image>)
    requires TxnOk(l, t, |d|) && k <= |t.blocks|
  {
    seq(k, i requires 0 <= i < k => LogCopy(l, d, t, i + 1))
  }

  lemma LogCopyNone(l: Layout, d: Image, t: Txn)
    requires TxnOk(l, t, |d|)
    ensures LogCopy(l, d, t, 0) == d && LogCopies(l, d, t, 0) == []
  {
  }

  lemma LogCopyStep(l: Layout, d: Image, t: Txn, k: nat)
    requires TxnOk(l, t, |d|) && k < |t.blocks|
    ensures LogCopy(l, d, t, k + 1) == LogCopy(l, d, t, k)[l.start + k + 1 := t.data[k]]
    ensures LogCopies(l, d, t, k + 1) == LogCopies(l, d, t, k) + [LogCopy(l, d, t, k + 1)]
  {
  }

  /** The commit point: the log is full and its header has just been written. */
  function Committed(l: Layout, d: Image, t: Txn): (r: Image)
    requires TxnOk(l, t, |d|)
    ensures Recoverable(l, r) && |r| == |d|
  {
    EntriesOfHead(d[l.start], t.blocks);
    LogCopy(l, d, t, |t.blocks|)[l.start := HeadBlock(d[l.start], t.blocks)]
  }

  /** The images commit leaves on the disk, one per block write. */
  function CommitTrace(l: Layout, d: Image, t: Txn): (r: seq<Image>)
    requires TxnOk(l, t, |d|)
    ensures |r| == if t.blocks == [] then 0 else 2 * |t.blocks| + 2
  {
    if t.blocks == [] then [] else
      EntriesOfHead(d[l.start], t.blocks);
      LogCopies(l, d, t, |t.blocks|) + [Committed(l, d, t)] + RecoverTrace(l, Committed(l, d, t))
  }

  /** What the transaction is meant to do to the home blocks. */
  function Apply(d: Image, t: Txn): (r: Image)
    requires |t.blocks| == |t.data|
    ensures |r| == |d|
  {
    seq(|d|, b requires 0 <= b < |d| => if Find(t.blocks, b) >= 0 then t.data[Find(t.blocks, b)] else d[b])
  }

  /** A recovery cut short anywhere can be redone: the result is the same. */
  lemma RecoverAgain(l: Layout, d: Image, k: nat)
    requires Recoverable(l, d) && k < |RecoverTrace(l, d)|
    ensures Recoverable(l, RecoverTrace(l, d)[k])
    ensures SameHome(l, Recover(l, RecoverTrace(l, d)[k]), Recover(l, d))
  {
    hide GetWord, PutWord, HeadBlock;
    var bs, e := Entries(d[l.start]), RecoverTrace(l, d)[k];
    if k == |bs| {
      EntriesOfHead(d[l.start], []);
    } else {
      assert e == Install(l, d, bs, k + 1) && e[l.start] == d[l.start];
    }
  }

  /** Successive boots, each crashing during recovery: ds[i + 1] is what attempt i left. */
  ghost predicate CrashedBoots(l: Layout, ds: seq<Image>) {
    forall i :: 0 <= i < |ds| - 1 ==>
      Recoverable(l, ds[i]) && (ds[i + 1] == ds[i] || ds[i + 1] in RecoverTrace(l, ds[i]))
  }

  lemma {:induction false} AnyNumberOfCrashes(l: Layout, ds: seq<Image>)
    requires |ds| >= 1 && Recoverable(l, ds[0]) && CrashedBoots(l, ds)
    ensures Recoverable(l, ds[|ds| - 1])
    ensures SameHome(l, Recover(l, ds[|ds| - 1]), Recover(l, ds[0]))
  {
    if |ds| > 1 {
      if ds[1] != ds[0] {
        var k :| 0 <= k < |RecoverTrace(l, ds[0])| && RecoverTrace(l, ds[0])[k] == ds[1];
        RecoverAgain(l, ds[0], k);
      }
      AnyNumberOfCrashes(l, ds[1..]);
    }
  }

  /**
    Crash atomicity of one commit.  Whatever write the crash follows, recovery
    yields all of the transaction or none of it, and the header write decides.
   */
  lemma CommitCrash(l: Layout, d: Image, t: Txn, k: nat)
    requires TxnOk(l, t, |d|) && GetWord(d[l.start], 0) == 0
    requires k < |CommitTrace(l, d, t)|
    ensures var c := CommitTrace(l, d, t)[k];
      Recoverable(l, c) && SameHome(l, Recover(l, c), if k < |t.blocks| then d else Apply(d, t))
  {
    hide GetWord, PutWord, HeadBlock, Install, Apply, Find, Targets;
    var c, n := CommitTrace(l, d, t)[k], |t.blocks|;
    if k < n {
      LogCopyCrash(l, d, t, k + 1);
    } else {
      CommittedRecovers(l, d, t);
      var m := Committed(l, d, t);
      if k > n {
        assert c == RecoverTrace(l, m)[k - n - 1];
        RecoverAgain(l, m, k - n - 1);
      }
    }
  }

  /** Until its header is written a transaction leaves no mark on the home blocks. */
  lemma LogCopyCrash(l: Layout, d: Image, t: Txn, k: nat)
    requires TxnOk(l, t, |d|) && GetWord(d[l.start], 0) == 0 && k <= |t.blocks|
    ensures Recoverable(l, LogCopy(l, d, t, k)) && SameHome(l, Recover(l, LogCopy(l, d, t, k)), d)
  {
    hide GetWord, PutWord, HeadBlock;
    assert Entries(LogCopy(l, d, t, k)[l.start]) == [];
  }

  lemma CommittedRecovers(l: Layout, d: Image, t: Txn)
    requires TxnOk(l, t, |d|)
    ensures SameHome(l, Recover(l, Committed(l, d, t)), Apply(d, t))
  {
    hide GetWord, PutWord, HeadBlock;
    EntriesOfHead(d[l.start], t.blocks);
  }

  // ---- Whole runs: any sequence of transactions, a crash after any disk write,
  // ---- and any number of further crashes during recovery.

  ghost predicate RunOk(l: Layout, ts: seq<Txn>, disksize: nat) {
    forall i :: 0 <= i < |ts| ==> TxnOk(l, ts[i], disksize)
  }

  ghost function Final(l: Layout, d: Image, t: Txn): (r: Image)
    requires TxnOk(l, t, |d|)
    ensures |r| == |d|
  {
    if t.blocks == [] then d else Recover(l, Committed(l, d, t))
  }

  /** Every image the disk holds during the run. */
  ghost function RunTrace(l: Layout, d: Image, ts: seq<Txn>): (r: seq<Image>)
    requires RunOk(l, ts, |d|)
    decreases |ts|
  {
    if ts == [] then [] else CommitTrace(l, d, ts[0]) + RunTrace(l, Final(l, d, ts[0]), ts[1..])
  }

  /** The disk when the run is over. */
  ghost function FinalAll(l: Layout, d: Image, ts: seq<Txn>): (r: Image)
    requires RunOk(l, ts, |d|)
    ensures |r| == |d|
    decreases |ts|
  {
    if ts == [] then d else FinalAll(l, Final(l, d, ts[0]), ts[1..])
  }

  lemma {:induction false} OneMoreCommit(l: Layout, d: Image, ts: seq<Txn>, t: Txn)
    requires RunOk(l, ts, |d|) && TxnOk(l, t, |d|)
    ensures RunTrace(l, d, ts + [t]) == RunTrace(l, d, ts) + CommitTrace(l, FinalAll(l, d, ts), t)
    ensures FinalAll(l, d, ts + [t]) == Final(l, FinalAll(l, d, ts), t)
    decreases |ts|
  {
    hide CommitTrace, Final, TxnOk;
    if ts == [] {
      assert [] + [t] == [t] && [t][1..] == [];
      assert RunTrace(l, Final(l, d, t), []) == [] && FinalAll(l, Final(l, d, t), []) == Final(l, d, t);
    } else {
      assert (ts + [t])[1..] == ts[1..] + [t];
      OneMoreCommit(l, Final(l, d, ts[0]), ts[1..], t);
    }
  }

  lemma {:induction false} FinalAllHead(l: Layout, d: Image, ts: seq<Txn>)
    requires RunOk(l, ts, |d|) && 1 <= l.size && l.start + l.size <= |d| && GetWord(d[l.start], 0) == 0
    ensures GetWord(FinalAll(l, d, ts)[l.start], 0) == 0
    decreases |ts|
  {
    hide GetWord, Final, TxnOk;
    if ts != [] {
      FinalHome(l, d, ts[0]);
      FinalAllHead(l, Final(l, d, ts[0]), ts[1..]);
    }
  }

  /** The disk has gone through exactly these transactions since image number `base` of its trace. */
  ghost predicate Recorded(l: Layout, base: nat, d: Image, ts: seq<Txn>, disk: Image, trace: seq<Image>) {
    && 1 <= l.size && l.start + l.size <= |d| && GetWord(d[l.start], 0) == 0 && RunOk(l, ts, |d|)
    && disk == FinalAll(l, d, ts) && base <= |trace| && trace[base..] == RunTrace(l, d, ts)
  }

  lemma {:induction false} RunsJoin(l: Layout, d: Image, ts: seq<Txn>, us: seq<Txn>)
    requires RunOk(l, ts + us, |d|)
    ensures RunOk(l, ts, |d|) && RunOk(l, us, |d|)
    ensures RunTrace(l, d, ts + us) == RunTrace(l, d, ts) + RunTrace(l, FinalAll(l, d, ts), us)
    ensures FinalAll(l, d, ts + us) == FinalAll(l, FinalAll(l, d, ts), us)
    decreases |us|
  {
    hide CommitTrace, Final, TxnOk, RunTrace, FinalAll;
    RunsOk(l, ts, us, |d|);
    if us == [] {
      assert ts + us == ts;
      NoRun(l, FinalAll(l, d, ts));
    } else {
      var k := |us| - 1;
      assert ts + us == (ts + us[..k]) + [us[k]] && us == us[..k] + [us[k]];
      RunsOk(l, ts + us[..k], [us[k]], |d|);
      RunsJoin(l, d, ts, us[..k]);
      assert TxnOk(l, us[k], |d|);
      OneMoreCommit(l, d, ts + us[..k], us[k]);
      OneMoreCommit(l, FinalAll(l, d, ts), us[..k], us[k]);
    }
  }

  lemma {:induction false} NoRun(l: Layout, d: Image)
    ensures RunTrace(l, d, []) == [] && FinalAll(l, d, []) == d
  {
  }

  lemma RunsOk(l: Layout, ts: seq<Txn>, us: seq<Txn>, disksize: nat)
    requires RunOk(l, ts + us, disksize)
    ensures RunOk(l, ts, disksize) && RunOk(l, us, disksize)
  {
    hide TxnOk;
    forall i | 0 <= i < |ts|
      ensures TxnOk(l, ts[i], disksize)
    {
      assert (ts + us)[i] == ts[i];
    }
    forall i | 0 <= i < |us|
      ensures TxnOk(l, us[i], disksize)
    {
      assert (ts + us)[|ts| + i] == us[i];
    }
  }

  /** The record of what has been added since. */
  lemma RecordedSince(l: Layout, base: nat, d: Image, ts: seq<Txn>, us: seq<Txn>, disk: Image, trace: seq<Image>,
                      disk': Image, trace': seq<Image>)
    requires Recorded(l, base, d, ts, disk, trace) && Recorded(l, base, d, ts + us, disk', trace')
    ensures Recorded(l, |trace|, disk, us, disk', trace')
  {
    hide GetWord, RunTrace, FinalAll, TxnOk, RunOk;
    RunsJoin(l, d, ts, us);
    FinalAllHead(l, d, ts);
    var n := |RunTrace(l, d, ts)|;
    assert |trace| == base + n;
    assert trace'[|trace|..] == trace'[base..][n..];
  }

  /** A completed recovery starts a new record. */
  lemma RecordedStart(l: Layout, d: Image, trace: seq<Image>)
    requires Recoverable(l, d)
    ensures Recorded(l, |trace|, Recover(l, d), [], Recover(l, d), trace)
  {
    hide PutWord, GetWord;
    assert GetWord(Recover(l, d)[l.start], 0) == 0;
  }

  lemma RecordedMore(l: Layout, base: nat, d: Image, ts: seq<Txn>, disk: Image, trace: seq<Image>, t: Txn)
    requires Recorded(l, base, d, ts, disk, trace) && TxnOk(l, t, |disk|)
    ensures Recorded(l, base, d, ts + [t], Final(l, disk, t), trace + CommitTrace(l, disk, t))
  {
    hide CommitTrace, Final, TxnOk, RunTrace, FinalAll, GetWord;
    OneMoreCommit(l, d, ts, t);
    assert (trace + CommitTrace(l, disk, t))[base..] == trace[base..] + CommitTrace(l, disk, t);
  }

  /** How many transactions have passed their commit point once write k is done. */
  ghost function CommittedBy(ts: seq<Txn>, k: nat): (j: nat)
    ensures j <= |ts|
    decreases |ts|
  {
    if ts == [] then 0 else
      var n := |ts[0].blocks|;
      if n > 0 && k < n then 0
      else if n > 0 && k < 2 * n + 2 then 1
      else 1 + CommittedBy(ts[1..], if n == 0 then k else k - (2 * n + 2))
  }

  ghost function ApplyAll(d: Image, ts: seq<Txn>, l: Layout): (r: Image)
    requires RunOk(l, ts, |d|)
    ensures |r| == |d|
    decreases |ts|
  {
    if ts == [] then d else ApplyAll(Apply(d, ts[0]), ts[1..], l)
  }

  lemma {:induction false} ApplyAllHome(d: Image, d': Image, ts: seq<Txn>, l: Layout)
    requires RunOk(l, ts, |d|) && SameHome(l, d, d')
    ensures SameHome(l, ApplyAll(d, ts, l), ApplyAll(d', ts, l))
    decreases |ts|
  {
    if ts != [] {
      ApplyAllHome(Apply(d, ts[0]), Apply(d', ts[0]), ts[1..], l);
    }
  }

  lemma FinalHome(l: Layout, d: Image, t: Txn)
    requires TxnOk(l, t, |d|) && GetWord(d[l.start], 0) == 0
    ensures GetWord(Final(l, d, t)[l.start], 0) == 0
    ensures SameHome(l, Final(l, d, t), Apply(d, t))
  {
    if t.blocks != [] {
      CommittedRecovers(l, d, t);
    }
  }

  /** A crash during the first of the transactions. */
  lemma {:induction false} FirstCrash(l: Layout, d: Image, ts: seq<Txn>, k: nat)
    requires RunOk(l, ts, |d|) && 1 <= l.size && l.start + l.size <= |d| && GetWord(d[l.start], 0) == 0
    requires |ts| > 0 && k < |CommitTrace(l, d, ts[0])|
    ensures k < |RunTrace(l, d, ts)|
    ensures var c := RunTrace(l, d, ts)[k];
      Recoverable(l, c) && SameHome(l, Recover(l, c), ApplyAll(d, ts[..CommittedBy(ts, k)], l))
  {
    hide GetWord, PutWord, HeadBlock, Install, LogCopy, Apply, Committed, Recover, CommitTrace, Recoverable, Targets;
    var t := ts[0];
    CommitCrash(l, d, t, k);
    if k >= |t.blocks| {
      assert ts[..1] == [t] && [t][1..] == [];
      assert ApplyAll(d, [t], l) == Apply(d, t);
    }
  }

  lemma {:induction false} RunCrash(l: Layout, d: Image, ts: seq<Txn>, k: nat)
    requires RunOk(l, ts, |d|) && 1 <= l.size && l.start + l.size <= |d| && GetWord(d[l.start], 0) == 0
    requires k < |RunTrace(l, d, ts)|
    ensures var c := RunTrace(l, d, ts)[k];
      Recoverable(l, c) && SameHome(l, Recover(l, c), ApplyAll(d, ts[..CommittedBy(ts, k)], l))
    decreases |ts|
  {
    hide GetWord, PutWord, HeadBlock, Install, LogCopy, Apply, Committed, Recover, CommitTrace, Recoverable, Targets;
    var t, n := ts[0], |CommitTrace(l, d, ts[0])|;
    if k < n {
      FirstCrash(l, d, ts, k);
    } else {
      var d', j := Final(l, d, t), CommittedBy(ts[1..], k - n);
      FinalHome(l, d, t);
      RunCrash(l, d', ts[1..], k - n);
      assert ts[..j + 1][1..] == ts[1..][..j] && ts[..j + 1][0] == t;
      ApplyAllHome(d', Apply(d, t), ts[1..][..j], l);
    }
  }

  /**
    Crash safety of whole runs: start from an empty log, run any transactions,
    crash after any disk write, crash any number of times while recovering.  The
    recovery that completes yields exactly the transactions whose header was written.
   */
  lemma {:induction false} CrashSafety(l: Layout, d: Image, ts: seq<Txn>, k: nat, boots: seq<Image>)
    requires RunOk(l, ts, |d|) && 1 <= l.size && l.start + l.size <= |d| && GetWord(d[l.start], 0) == 0
    requires k < |RunTrace(l, d, ts)|
    requires |boots| >= 1 && boots[0] == RunTrace(l, d, ts)[k] && CrashedBoots(l, boots)
    ensures Recoverable(l, boots[|boots| - 1])
    ensures SameHome(l, Recover(l, boots[|boots| - 1]), ApplyAll(d, ts[..CommittedBy(ts, k)], l))
  {
    RunCrash(l, d, ts, k);
    AnyNumberOfCrashes(l, boots);
  }
}
