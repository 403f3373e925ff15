/**
  begin_op, log_write and end_op of log.c as a state machine over any number of
  file-system operations: the space reservation, log absorption, and group commit.
 */
module GroupCommit {
  import opened RedoLog

  const MAXOPBLOCKS: nat := 10

  // used counts the blocks this operation was the first to log.
  datatype Op = Op(active: bool, used: nat)

  // A log_write that was let through, with the number of commits before it.
  datatype Write = Write(op: nat, block: nat, batch: nat)

  /**
    outstanding, committing and lh are log.c's fields.  Operations are numbered in
    the order of their begin_op; batch and writes record the history.
   */
  datatype State = State(outstanding: nat, committing: bool, lh: seq<nat>,
                         ops: seq<Op>, batch: nat, writes: seq<Write>)

  datatype Event = Begin | LogWrite(op: nat, block: nat) | End(op: nat) | Commit | Committed

  const INIT := State(0, false, [], [], 0, [])

  /** begin_op goes ahead instead of sleeping. */
  predicate Admits(outstanding: nat, committing: bool, n: nat) {
    !committing && n + (outstanding + 1) * MAXOPBLOCKS <= LOGSIZE
  }

  /** log_write does not panic "too big a transaction". */
  predicate Fits(n: nat, size: nat) {
    n < LOGSIZE && n < size - 1
  }

  predicate Active(s: State, op: nat) {
    op < |s.ops| && s.ops[op].active
  }

  /** The event can happen: a running operation acts, within its budget of new blocks. */
  predicate Enabled(s: State, e: Event) {
    match e
    case Begin => Admits(s.outstanding, s.committing, |s.lh|)
    case LogWrite(op, b) => Active(s, op) && (b in s.lh || s.ops[op].used < MAXOPBLOCKS)
    case End(op) => Active(s, op)
    case Commit => s.committing && s.lh != []
    case Committed => s.committing && s.lh == []
  }

  /** One event of the code, for a log area of the given size; the panics are excluded by Panics. */
  function Do(s: State, e: Event): (t: State)
    requires Enabled(s, e)
  {
    match e
    case Begin => s.(outstanding := s.outstanding + 1, ops := s.ops + [Op(true, 0)])
    case LogWrite(op, b) =>
      var s' := s.(writes := s.writes + [Write(op, b, s.batch)]);
      if b in s.lh then s'
      else s'.(lh := s.lh + [b], ops := s.ops[op := s.ops[op].(used := s.ops[op].used + 1)])
    case End(op) =>
      var m := if s.outstanding == 0 then 0 else s.outstanding - 1;
      s.(outstanding := m, ops := s.ops[op := s.ops[op].(active := false)], committing := m == 0)
    case Commit => s.(lh := [], batch := s.batch + 1)
    case Committed => s.(committing := false)
  }

  /** The event runs into a panic of log.c. */
  predicate Panics(s: State, e: Event, size: nat) {
    match e
    case LogWrite(_, _) => !Fits(|s.lh|, size) || s.outstanding < 1
    case End(_) => s.committing
    case _ => false
  }

  ghost predicate Next(s: State, t: State, size: nat) {
    exists e :: Enabled(s, e) && !Panics(s, e, size) && t == Do(s, e)
  }

  ghost predicate Run(ss: seq<State>, size: nat) {
    |ss| > 0 && ss[0] == INIT && forall i :: 0 <= i < |ss| - 1 ==> Next(ss[i], ss[i + 1], size)
  }

  /** Blocks that running operations may still log. */
  function Unused(ops: seq<Op>): (n: int) {
    if ops == [] then 0 else
      Unused(ops[..|ops| - 1]) + if ops[|ops| - 1].active then MAXOPBLOCKS - ops[|ops| - 1].used else 0
  }

  function Running(ops: seq<Op>): (n: nat) {
    if ops == [] then 0 else Running(ops[..|ops| - 1]) + if ops[|ops| - 1].active then 1 else 0
  }

  ghost predicate Inv(s: State) {
    && s.outstanding == Running(s.ops)
    && (s.committing ==> s.outstanding == 0)
    && (s.lh != [] ==> s.outstanding > 0 || s.committing)
    && |s.lh| + Unused(s.ops) <= LOGSIZE
    && (forall i :: 0 <= i < |s.ops| ==> s.ops[i].used <= MAXOPBLOCKS)
    && (forall i, j :: 0 <= i < j < |s.lh| ==> s.lh[i] != s.lh[j])
    && (forall i :: 0 <= i < |s.writes| ==> WriteOk(s, s.writes[i]))
    && (forall i, j :: 0 <= i < |s.writes| && 0 <= j < |s.writes| && s.writes[i].op == s.writes[j].op
                       ==> s.writes[i].batch == s.writes[j].batch)
  }

  /** A write is in the batch being collected, and then listed, or committed with its operation over. */
  ghost predicate WriteOk(s: State, w: Write) {
    && w.op < |s.ops| && w.batch <= s.batch
    && (w.batch == s.batch ==> w.block in s.lh)
    && (w.batch < s.batch ==> !s.ops[w.op].active)
  }

  lemma {:induction false} SumsAt(ops: seq<Op>, k: nat, o: Op)
    requires k < |ops|
    ensures Unused(ops[k := o]) == Unused(ops) - (if ops[k].active then MAXOPBLOCKS - ops[k].used else 0)
                                   + (if o.active then MAXOPBLOCKS - o.used else 0)
    ensures Running(ops[k := o]) == Running(ops) - (if ops[k].active then 1 else 0) + (if o.active then 1 else 0)
  {
    var n := |ops| - 1;
    if k < n {
      SumsAt(ops[..n], k, o);
      assert ops[k := o][..n] == ops[..n][k := o];
    } else {
      assert ops[k := o][..n] == ops[..n];
    }
  }

  lemma {:induction false} SumsBound(ops: seq<Op>)
    requires forall i :: 0 <= i < |ops| ==> ops[i].used <= MAXOPBLOCKS
    ensures Unused(ops) >= 0
    ensures Unused(ops) <= MAXOPBLOCKS * Running(ops)
    ensures Running(ops) == 0 ==> forall i :: 0 <= i < |ops| ==> !ops[i].active
    ensures forall i :: 0 <= i < |ops| && ops[i].active ==> Unused(ops) >= MAXOPBLOCKS - ops[i].used
  {
    if ops != [] {
      var n := |ops| - 1;
      SumsBound(ops[..n]);
      assert ops == ops[..n] + [ops[n]];
    }
  }

  /** Every event keeps the invariant, and end_op never finds a commit in progress. */
  lemma StepKeeps(s: State, e: Event, size: nat)
    requires Inv(s) && Enabled(s, e)
    ensures e.End? ==> !Panics(s, e, size)
    ensures !Panics(s, e, size) ==> Inv(Do(s, e))
  {
    SumsBound(s.ops);
    match e
    case Begin =>
      var t := Do(s, e);
      assert t.ops[..|s.ops|] == s.ops;
      assert forall i :: 0 <= i < |t.writes| ==> WriteOk(s, t.writes[i]);
    case LogWrite(op, b) =>
      if !Panics(s, e, size) {
        WriteKeeps(s, op, b);
      }
    case End(op) =>
      SumsAt(s.ops, op, s.ops[op].(active := false));
      var t := Do(s, e);
      assert forall i :: 0 <= i < |t.writes| ==> WriteOk(s, t.writes[i]);
    case Commit =>
      var t := Do(s, e);
      assert forall i :: 0 <= i < |t.writes| ==> WriteOk(s, t.writes[i]);
    case Committed =>
      var t := Do(s, e);
      assert forall i :: 0 <= i < |t.writes| ==> WriteOk(s, t.writes[i]);
  }

  lemma WriteKeeps(s: State, op: nat, b: nat)
    requires Inv(s) && Enabled(s, LogWrite(op, b))
    ensures Inv(Do(s, LogWrite(op, b)))
  {
    var t := Do(s, LogWrite(op, b));
    SumsAt(s.ops, op, s.ops[op].(used := s.ops[op].used + 1));
    SumsBound(s.ops);
    forall i | 0 <= i < |t.writes|
      ensures WriteOk(t, t.writes[i])
      ensures t.writes[i].op == op ==> t.writes[i].batch == t.batch
    {
      if i < |s.writes| {
        assert WriteOk(s, s.writes[i]);
      }
    }
  }

  lemma {:induction false} RunKeeps(ss: seq<State>, size: nat)
    requires Run(ss, size)
    ensures Inv(ss[|ss| - 1])
  {
    var n := |ss| - 1;
    if n > 0 {
      RunKeeps(ss[..n], size);
      assert Next(ss[n - 1], ss[n], size);
      var e :| Enabled(ss[n - 1], e) && !Panics(ss[n - 1], e, size) && ss[n] == Do(ss[n - 1], e);
      StepKeeps(ss[n - 1], e, size);
    }
  }

  /**
    The reservation works: in every run, an operation within its budget that logs a
    new block finds room in the header, and end_op never panics.
   */
  lemma RoomForNewBlocks(ss: seq<State>, size: nat, op: nat, b: nat)
    requires Run(ss, size) && Enabled(ss[|ss| - 1], LogWrite(op, b)) && b !in ss[|ss| - 1].lh
    ensures |ss[|ss| - 1].lh| < LOGSIZE
    ensures size > LOGSIZE ==> !Panics(ss[|ss| - 1], LogWrite(op, b), size)
  {
    RunKeeps(ss, size);
    SumsBound(ss[|ss| - 1].ops);
  }

  /**
    A commit takes whole operations: all log_writes of an operation carry the same
    batch, and once that batch is committed the operation has ended.
   */
  lemma WholeOperations(ss: seq<State>, size: nat, i: nat, j: nat)
    requires Run(ss, size)
    requires var s := ss[|ss| - 1]; i < |s.writes| && j < |s.writes| && s.writes[i].op == s.writes[j].op
    ensures var s := ss[|ss| - 1];
      && s.writes[i].batch == s.writes[j].batch
      && (s.writes[i].batch < s.batch ==> !Active(s, s.writes[i].op))
      && (s.writes[i].batch == s.batch ==> s.writes[i].block in s.lh)
  {
    RunKeeps(ss, size);
    assert WriteOk(ss[|ss| - 1], ss[|ss| - 1].writes[i]);
  }

  // ---- Tightness.  mkfs makes the log area LOGSIZE blocks long, header included,
  // ---- so the second half of log_write's guard is one block too strict.

  ghost predicate Reaches(s: State, size: nat) {
    exists ss :: Run(ss, size) && ss[|ss| - 1] == s
  }

  lemma ReachInit(size: nat)
    ensures Reaches(INIT, size)
  {
    assert Run([INIT], size);
  }

  lemma Budget(s: State)
    requires Inv(s)
    ensures |s.lh| + Unused(s.ops) <= LOGSIZE
  {
  }

  lemma DoLogWrite(s: State, op: nat, b: nat)
    requires Enabled(s, LogWrite(op, b))
    ensures var t := Do(s, LogWrite(op, b));
      t.outstanding == s.outstanding && t.committing == s.committing && t.lh == if b in s.lh then s.lh else s.lh + [b]
  {
  }

  /** The state once a commit, if there was anything to commit, is over. */
  function AfterCommit(s: State): (t: State)
    requires s.committing
    ensures t.lh == [] && !t.committing && t.outstanding == s.outstanding && t.ops == s.ops
  {
    if s.lh == [] then Do(s, Committed) else Do(Do(s, Commit), Committed)
  }

  lemma CommitSteps(s: State, size: nat)
    requires Reaches(s, size) && s.committing
    ensures Reaches(AfterCommit(s), size)
  {
    if s.lh != [] {
      ReachStep(s, Commit, size);
      ReachStep(Do(s, Commit), Committed, size);
    } else {
      ReachStep(s, Committed, size);
    }
  }

  lemma ReachStep(s: State, e: Event, size: nat)
    requires Reaches(s, size) && Enabled(s, e) && !Panics(s, e, size)
    ensures Reaches(Do(s, e), size)
  {
    var ss :| Run(ss, size) && ss[|ss| - 1] == s;
    var t := ss + [Do(s, e)];
    forall i | 0 <= i < |t| - 1
      ensures Next(t[i], t[i + 1], size)
    {
      if i == |ss| - 1 {
        assert Next(s, Do(s, e), size);
      } else {
        assert Next(ss[i], ss[i + 1], size);
      }
    }
    assert Run(t, size);
  }

  /** Three operations started together can fill the log to any m <= 30 that the area allows. */
  lemma {:induction false} FillTo(m: nat, size: nat) returns (s: State)
    requires m <= LOGSIZE && m <= size - 1
    ensures Reaches(s, size) && |s.lh| == m && s.outstanding == 3 && |s.ops| == 3
    ensures forall i :: 0 <= i < 3 ==>
      s.ops[i].active && s.ops[i].used == if m <= 10 * i then 0 else if m <= 10 * i + 10 then m - 10 * i else 10
    ensures forall b :: b in s.lh ==> b < m
  {
    if m == 0 {
      assert Run([INIT], size) && [INIT][|[INIT]| - 1] == INIT;
      var s1, s2 := Do(INIT, Begin), Do(Do(INIT, Begin), Begin);
      ReachStep(INIT, Begin, size);
      ReachStep(s1, Begin, size);
      ReachStep(s2, Begin, size);
      s := Do(s2, Begin);
    } else {
      var r := FillTo(m - 1, size);
      var e := LogWrite((m - 1) / 10, m - 1);
      ReachStep(r, e, size);
      s := Do(r, e);
    }
  }

  /**
    In all runs no operation within its budget panics when it logs a new block, if and
    only if the log area has more than LOGSIZE blocks.
   */
  lemma LogAreaMustExceedLogsize(size: nat)
    requires size >= 1
    ensures size > LOGSIZE <==>
      forall ss: seq<State>, op: nat, b: nat ::
        Run(ss, size) && Enabled(ss[|ss| - 1], LogWrite(op, b)) && b !in ss[|ss| - 1].lh ==>
          !Panics(ss[|ss| - 1], LogWrite(op, b), size)
  {
    if size > LOGSIZE {
      forall ss: seq<State>, op: nat, b: nat |
        && Run(ss, size) && Enabled(ss[|ss| - 1], LogWrite(op, b))
        && b !in ss[|ss| - 1].lh
        ensures !Panics(ss[|ss| - 1], LogWrite(op, b), size)
      {
        RoomForNewBlocks(ss, size, op, b);
      }
    } else {
      var s := FillTo(size - 1, size);
      var ss :| Run(ss, size) && ss[|ss| - 1] == s;
      var op := (size - 1) / 10;
      assert Enabled(s, LogWrite(op, size - 1)) && Panics(s, LogWrite(op, size - 1), size);
    }
  }

  /** A full header makes even a rewrite of a listed block panic. */
  lemma AbsorbedWritePanics(size: nat) returns (ss: seq<State>, op: nat, b: nat)
    requires size > LOGSIZE
    ensures Run(ss, size) && Enabled(ss[|ss| - 1], LogWrite(op, b)) && b in ss[|ss| - 1].lh
    ensures Panics(ss[|ss| - 1], LogWrite(op, b), size)
  {
    var s := FillTo(LOGSIZE, size);
    ss :| Run(ss, size) && ss[|ss| - 1] == s;
    op, b := 0, s.lh[0];
  }
}
