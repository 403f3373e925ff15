/**
  Readers and writers of one pipe, any number of each, as a step relation.  The pipe's lock
  and ptable.lock are explicit; a step is what one process does between two points where
  another could notice.  sleep (proc.c) is three steps: take ptable.lock, release the
  pipe's lock, go to sleep releasing ptable.lock.
 */
module PipeProtocol {
  import opened Options
  import opened Blocks
  import opened Pipes
  import opened Uints

  datatype Job = Write(buf: seq<Byte>, i: nat) | Read(n: nat)

  datatype Pc =
    | Out
    | Enter(job: Job)                              // wants the pipe's lock
    | EnterClose(writable: bool)
    | WLoop(buf: seq<Byte>, i: nat, dirty: bool)   // dirty: stored bytes since readers were woken
    | WWake(job: Job)                              // the pipe is full
    | WDone
    | RLoop(n: nat)
    | RCopy(n: nat, got: seq<Byte>)
    | RWake
    | CWake(writable: bool)
    | Leave(end: End)                              // about to release the pipe's lock
    | Sleep1(job: Job)                             // holds the pipe's lock, wants ptable.lock
    | Sleep2(job: Job)                             // holds both
    | Sleep3(job: Job)                             // holds ptable.lock
    | Asleep(job: Job)
    | Awake(job: Job)                              // wants the pipe's lock again

  datatype End = WriteEnd | ReadEnd | Closing

  datatype P = P(pc: Pc, killed: bool)

  datatype State = State(procs: seq<P>, pl: Option<nat>, tl: Option<nat>, data: seq<Byte>, nread: nat, nwrite: nat,
                         readopen: bool, writeopen: bool, stored: seq<Byte>, delivered: seq<Byte>)

  function Start(n: nat, data: seq<Byte>): State {
    State(seq(n, i => P(Out, false)), None, None, data, 0, 0, true, true, [], [])
  }

  predicate HoldsPipe(pc: Pc) {
    pc.WLoop? || pc.WWake? || pc.WDone? || pc.RLoop? || pc.RCopy? || pc.RWake? || pc.CWake? || pc.Leave? || pc.Sleep1?
      || pc.Sleep2?
  }

  predicate HoldsTable(pc: Pc) {
    pc.Sleep2? || pc.Sleep3?
  }

  predicate HasJob(pc: Pc) {
    pc.Enter? || pc.WWake? || pc.Sleep1? || pc.Sleep2? || pc.Sleep3? || pc.Asleep? || pc.Awake?
  }

  /** In pipewrite, so holding a reference to the write end. */
  predicate Writer(pc: Pc) {
    pc.WLoop? || pc.WDone? || (pc.Leave? && pc.end.WriteEnd?) || (HasJob(pc) && pc.job.Write?)
  }

  predicate Reader(pc: Pc) {
    pc.RLoop? || pc.RCopy? || pc.RWake? || (pc.Leave? && pc.end.ReadEnd?) || (HasJob(pc) && pc.job.Read?)
  }

  /** Asleep on the job's channel, or past the point of no return in sleep. */
  predicate Sinking(pc: Pc) {
    pc.Sleep3? || pc.Asleep?
  }

  // ---- Steps.

  datatype Act =
    | Begin(job: Job) | BeginClose(writable: bool) | Acquire
    | Store | Block | Abort | Finish
    | Wait | GiveUp | Copy | Take | Stop
    | Wake | SleepLock | SleepDrop | SleepOff | Release | Kill

  datatype Event = Event(p: nat, act: Act)

  predicate IsFull(s: State) { Full(s.nread, s.nwrite) }
  predicate IsEmpty(s: State) { s.nread == s.nwrite }

  ghost predicate Enabled(s: State, ev: Event) {
    && ev.p < |s.procs|
    && var pc := s.procs[ev.p].pc;
       var killed := s.procs[ev.p].killed;
       match ev.act
       // A file in use is not closed, and a closed one is not used (file.c counts references).
       case Begin(job) => pc.Out? && (if job.Write? then job.i == 0 && s.writeopen else s.readopen)
         && NoClose(s, job.Write?)
       case BeginClose(w) => pc.Out? && (if w then s.writeopen else s.readopen) && NoUse(s, w)
       case Acquire => (pc.Enter? || pc.EnterClose? || pc.Awake?) && s.pl.None?
       case Store => pc.WLoop? && pc.i < |pc.buf| && !IsFull(s)
       case Block => pc.WLoop? && pc.i < |pc.buf| && IsFull(s) && s.readopen && !killed
       case Abort => pc.WLoop? && pc.i < |pc.buf| && IsFull(s) && (!s.readopen || killed)
       case Finish => pc.WLoop? && pc.i == |pc.buf|
       case Wait => pc.RLoop? && IsEmpty(s) && s.writeopen && !killed
       case GiveUp => pc.RLoop? && IsEmpty(s) && s.writeopen && killed
       case Copy => pc.RLoop? && !(IsEmpty(s) && s.writeopen)
       case Take => pc.RCopy? && |pc.got| < pc.n && !IsEmpty(s)
       case Stop => pc.RCopy? && (|pc.got| >= pc.n || IsEmpty(s))
       case Wake => (pc.WWake? || pc.WDone? || pc.RWake? || pc.CWake?) && s.tl.None?
       case SleepLock => pc.Sleep1? && s.tl.None?
       case SleepDrop => pc.Sleep2?
       case SleepOff => pc.Sleep3?
       case Release => pc.Leave?
       case Kill => s.tl.None?
  }

  ghost predicate NoClose(s: State, writable: bool) {
    forall q :: 0 <= q < |s.procs| ==> s.procs[q].pc != EnterClose(writable)
  }

  ghost predicate NoUse(s: State, writable: bool) {
    forall q :: 0 <= q < |s.procs| ==> !Uses(s.procs[q].pc, writable)
  }

  /** wakeup on &nread or &nwrite */
  function Rouse(procs: seq<P>, writers: bool): (r: seq<P>)
    ensures |r| == |procs|
  {
    seq(|procs|, q requires 0 <= q < |procs| => RouseOne(procs[q], writers))
  }

  function RouseOne(x: P, writers: bool): P {
    if x.pc.Asleep? && x.pc.job.Write? == writers then x.(pc := Awake(x.pc.job)) else x
  }

  function AfterLock(pc: Pc): Pc
    requires pc.Enter? || pc.EnterClose? || pc.Awake?
  {
    if pc.EnterClose? then CWake(pc.writable)
    else if pc.job.Write? then WLoop(pc.job.buf, pc.job.i, false)
    else RLoop(pc.job.n)
  }

  function AfterWake(pc: Pc): Pc
    requires pc.WWake? || pc.WDone? || pc.RWake? || pc.CWake?
  {
    match pc
    case WWake(job) => Sleep1(job)
    case WDone => Leave(WriteEnd)
    case RWake => Leave(ReadEnd)
    case CWake(_) => Leave(Closing)
  }

  predicate WakesWriters(pc: Pc) {
    pc.RWake? || pc == CWake(false)
  }

  ghost function NextPc(s: State, ev: Event): Pc
    requires Enabled(s, ev) && |s.data| == PIPESIZE
  {
    var pc := s.procs[ev.p].pc;
    match ev.act
    case Begin(job) => Enter(job)
    case BeginClose(w) => EnterClose(w)
    case Acquire => AfterLock(pc)
    case Store => WLoop(pc.buf, pc.i + 1, true)
    case Block => WWake(Write(pc.buf, pc.i))
    case Abort => Out
    case Finish => WDone
    case Wait => Sleep1(Read(pc.n))
    case GiveUp => Out
    case Copy => RCopy(pc.n, [])
    case Take => RCopy(pc.n, pc.got + [s.data[Slot(s.nread, PIPESIZE)]])
    case Stop => RWake
    case Wake => AfterWake(pc)
    case SleepLock => Sleep2(pc.job)
    case SleepDrop => Sleep3(pc.job)
    case SleepOff => Asleep(pc.job)
    case Release => Out
    case Kill => if pc.Asleep? then Awake(pc.job) else pc
  }

  function NextPl(s: State, ev: Event): Option<nat> {
    if ev.act.Acquire? then Some(ev.p)
    else if ev.act.Abort? || ev.act.GiveUp? || ev.act.SleepDrop? || ev.act.Release? then None
    else s.pl
  }

  function NextTl(s: State, ev: Event): Option<nat> {
    if ev.act.SleepLock? then Some(ev.p) else if ev.act.SleepOff? then None else s.tl
  }

  /** The other processes: a wakeup moves the sleepers on its channel. */
  ghost function Rest(s: State, ev: Event): (r: seq<P>)
    requires Enabled(s, ev)
    ensures |r| == |s.procs|
  {
    if ev.act.Wake? then Rouse(s.procs, WakesWriters(s.procs[ev.p].pc)) else s.procs
  }

  /** The buffer and the ends. */
  ghost function Buffer(s: State, ev: Event): State
    requires Enabled(s, ev) && |s.data| == PIPESIZE
  {
    var pc := s.procs[ev.p].pc;
    match ev.act
    case Store => s.(data := s.data[Slot(s.nwrite, PIPESIZE) := pc.buf[pc.i]], nwrite := Uint(s.nwrite + 1),
                     stored := s.stored + [pc.buf[pc.i]])
    case Take => s.(nread := Uint(s.nread + 1), delivered := s.delivered + [s.data[Slot(s.nread, PIPESIZE)]])
    case Acquire => s.(writeopen := s.writeopen && pc != EnterClose(true),
                       readopen := s.readopen && pc != EnterClose(false))
    case _ => s
  }

  ghost function Apply(s: State, ev: Event): State
    requires Enabled(s, ev) && |s.data| == PIPESIZE
  {
    var me := P(NextPc(s, ev), s.procs[ev.p].killed || ev.act.Kill?);
    Buffer(s, ev).(procs := Rest(s, ev)[ev.p := me], pl := NextPl(s, ev), tl := NextTl(s, ev))
  }

  // ---- What every run keeps.

  ghost predicate Ring(s: State) {
    Fifo(s.data, s.nread, s.nwrite, s.stored, s.delivered)
  }

  /** The holder of each lock is where it should be holding it, and nobody else is. */
  ghost predicate Locks(s: State) {
    && (s.pl.Some? ==> s.pl.value < |s.procs|) && (s.tl.Some? ==> s.tl.value < |s.procs|)
    && forall p :: 0 <= p < |s.procs| ==>
      (HoldsPipe(s.procs[p].pc) <==> s.pl == Some(p)) && (HoldsTable(s.procs[p].pc) <==> s.tl == Some(p))
  }

  /** Whoever decided to sleep did so for a reason that holds until it lets go of the pipe. */
  ghost predicate Reasons(s: State) {
    forall p :: 0 <= p < |s.procs| ==> Reason(s, s.procs[p].pc)
  }

  predicate Reason(s: State, pc: Pc) {
    && (pc.WWake? ==> pc.job.Write? && IsFull(s) && s.readopen)
    && (pc.WLoop? ==> pc.i <= |pc.buf|) && (HasJob(pc) && pc.job.Write? ==> pc.job.i <= |pc.job.buf|)
    && (pc.Sleep1? || pc.Sleep2? ==> if pc.job.Write? then IsFull(s) && s.readopen else IsEmpty(s) && s.writeopen)
  }

  /** An end is open while someone is using or about to close it. */
  ghost predicate Ends(s: State) {
    && (forall p :: 0 <= p < |s.procs| ==> EndOpen(s, s.procs[p].pc))
    && (forall p, w, q :: 0 <= p < |s.procs| && s.procs[p].pc == EnterClose(w) && 0 <= q < |s.procs| && q != p ==>
      !Uses(s.procs[q].pc, w))
  }

  predicate Uses(pc: Pc, writable: bool) {
    pc == EnterClose(writable) || if writable then Writer(pc) else Reader(pc)
  }

  predicate EndOpen(s: State, pc: Pc) {
    (Uses(pc, true) ==> s.writeopen) && (Uses(pc, false) ==> s.readopen)
  }

  /** The holder of the pipe's lock is going to wake the writers. */
  predicate WriterWaker(s: State) {
    s.pl.Some? && s.pl.value < |s.procs|
      && var pc := s.procs[s.pl.value].pc; pc.RCopy? || pc.RWake? || pc == CWake(false)
  }

  predicate ReaderWaker(s: State) {
    s.pl.Some? && s.pl.value < |s.procs| && var pc := s.procs[s.pl.value].pc;
      (pc.WLoop? && pc.dirty) || pc.WWake? || pc.WDone? || pc == CWake(true)
  }

  ghost predicate WritersOk(s: State) {
    (exists p :: 0 <= p < |s.procs| && SinkingWriter(s.procs[p].pc)) ==> (IsFull(s) && s.readopen) || WriterWaker(s)
  }

  predicate SinkingWriter(pc: Pc) { Sinking(pc) && pc.job.Write? }
  predicate SinkingReader(pc: Pc) { Sinking(pc) && pc.job.Read? }

  ghost predicate ReadersOk(s: State) {
    (exists p :: 0 <= p < |s.procs| && SinkingReader(s.procs[p].pc)) ==> (IsEmpty(s) && s.writeopen) || ReaderWaker(s)
  }

  ghost predicate Inv(s: State) {
    Ring(s) && Locks(s) && Reasons(s) && Ends(s) && WritersOk(s)
  }

  lemma RingKeeps(s: State, ev: Event)
    requires Ring(s) && Enabled(s, ev)
    ensures Ring(Apply(s, ev))
  {
    hide Fifo, Full, Uint, Slot, NextPc;
    if ev.act.Store? {
      var pc := s.procs[ev.p].pc;
      StoreByte(s.data, s.nread, s.nwrite, s.stored, s.delivered, pc.buf[pc.i]);
    } else if ev.act.Take? {
      TakeByte(s.data, s.nread, s.nwrite, s.stored, s.delivered);
    }
  }

  lemma LocksKeep(s: State, ev: Event)
    requires |s.data| == PIPESIZE && Locks(s) && Enabled(s, ev)
    ensures Locks(Apply(s, ev))
  {
    OwnLocks(s, ev);
    hide Uint, Slot, Full, Buffer, NextPc;
  }

  lemma OwnLocks(s: State, ev: Event)
    requires |s.data| == PIPESIZE && Locks(s) && Enabled(s, ev)
    ensures HoldsPipe(NextPc(s, ev)) <==> NextPl(s, ev) == Some(ev.p)
    ensures HoldsTable(NextPc(s, ev)) <==> NextTl(s, ev) == Some(ev.p)
  {
    hide Uint, Slot, Full;
  }

  lemma ReasonsKeep(s: State, ev: Event)
    requires |s.data| == PIPESIZE && Locks(s) && Reasons(s) && Enabled(s, ev)
    ensures Reasons(Apply(s, ev))
  {
    hide Uint, Slot, Full, NextPl, NextTl, NextPc;
    OwnReason(s, ev);
  }

  /** The process that moves has its reason; the others cannot lose theirs without its lock. */
  lemma OwnReason(s: State, ev: Event)
    requires |s.data| == PIPESIZE && Enabled(s, ev) && Reason(s, s.procs[ev.p].pc)
    ensures Reason(Apply(s, ev), NextPc(s, ev))
  {
    hide Uint, Slot, Full, NextPl, NextTl, Rest;
  }

  /** A process starts using an end only by Begin or BeginClose. */
  lemma UsesNext(s: State, ev: Event, w: bool)
    requires |s.data| == PIPESIZE && Enabled(s, ev)
    ensures Uses(NextPc(s, ev), w) ==>
      Uses(s.procs[ev.p].pc, w) || (ev.act.Begin? && ev.act.job.Write? == w) || ev.act == BeginClose(w)
    ensures NextPc(s, ev) == EnterClose(w) ==> s.procs[ev.p].pc == EnterClose(w) || ev.act == BeginClose(w)
  {
    hide Uint, Slot, Full;
  }

  lemma EndsKeep(s: State, ev: Event)
    requires |s.data| == PIPESIZE && Ends(s) && Enabled(s, ev)
    ensures Ends(Apply(s, ev))
  {
    var s' := Apply(s, ev);
    forall p, w, q | 0 <= p < |s.procs| && s'.procs[p].pc == EnterClose(w) && 0 <= q < |s.procs| && q != p
      ensures !Uses(s'.procs[q].pc, w)
    {
      hide Uint, Slot, Full, NextPl, NextTl, NextPc, Buffer;
      UsesNext(s, ev, w);
    }
    EndsOpen(s, ev);
  }

  lemma EndsOpen(s: State, ev: Event)
    requires |s.data| == PIPESIZE && Ends(s) && Enabled(s, ev)
    ensures forall p :: 0 <= p < |s.procs| ==> EndOpen(Apply(s, ev), Apply(s, ev).procs[p].pc)
  {
    hide Uint, Slot, Full, NextPl, NextTl, NextPc;
    UsesNext(s, ev, true);
    UsesNext(s, ev, false);
    if ev.act.Acquire? && s.procs[ev.p].pc.EnterClose? {
      LockedClose(s, ev);
    }
  }

  lemma LockedClose(s: State, ev: Event)
    requires |s.data| == PIPESIZE && Enabled(s, ev) && ev.act.Acquire? && s.procs[ev.p].pc.EnterClose?
    ensures !Uses(NextPc(s, ev), true) && !Uses(NextPc(s, ev), false)
  {
  }

  /** A step of the copying loops, which sends nobody to sleep and wakes nobody. */
  predicate InLoop(act: Act) {
    act.Store? || act.Block? || act.Abort? || act.Finish? || act.Wait? || act.GiveUp? || act.Copy? || act.Take?
      || act.Stop?
  }

  lemma WritersKeep(s: State, ev: Event)
    requires Ring(s) && Locks(s) && Reasons(s) && WritersOk(s) && Enabled(s, ev)
    ensures WritersOk(Apply(s, ev))
  {
    if InLoop(ev.act) {
      WritersLoop(s, ev);
    } else {
      WritersSteps(s, ev);
    }
  }

  lemma WritersLoop(s: State, ev: Event)
    requires Ring(s) && Locks(s) && Reasons(s) && WritersOk(s) && Enabled(s, ev) && InLoop(ev.act)
    ensures WritersOk(Apply(s, ev))
  {
    hide Uint, Slot, Full, AfterLock, AfterWake, Rouse;
  }

  lemma WritersSteps(s: State, ev: Event)
    requires Ring(s) && Locks(s) && Reasons(s) && WritersOk(s) && Enabled(s, ev) && !InLoop(ev.act)
    ensures WritersOk(Apply(s, ev))
  {
    hide Uint, Slot, Full;
  }

  lemma StepKeeps(s: State, ev: Event)
    requires Inv(s) && Enabled(s, ev)
    ensures Inv(Apply(s, ev))
  {
    hide Enabled, Apply, Fifo, Locks, Reasons, Ends, WritersOk;
    RingSize(s);
    RingKeeps(s, ev);
    LocksKeep(s, ev);
    ReasonsKeep(s, ev);
    EndsKeep(s, ev);
    WritersKeep(s, ev);
  }

  lemma RingSize(s: State)
    requires Ring(s)
    ensures |s.data| == PIPESIZE
  {
  }

  // ---- Readers.

  /** A killed writer returns -1 from a full pipe without waking the readers it had data for. */
  ghost predicate Loses(s: State, ev: Event) {
    ev.act.Abort? && exists q :: 0 <= q < |s.procs| && SinkingReader(s.procs[q].pc)
  }

  /** That step, and only that step, leaves a reader asleep with nobody about to wake it. */
  lemma ReadersStep(s: State, ev: Event)
    requires Inv(s) && ReadersOk(s) && Enabled(s, ev)
    ensures ReadersOk(Apply(s, ev)) <==> !Loses(s, ev)
  {
    if ev.act.Abort? {
      AbortStep(s, ev);
    } else {
      ReadersKeep(s, ev);
    }
  }

  lemma AbortStep(s: State, ev: Event)
    requires Ring(s) && Enabled(s, ev) && ev.act.Abort?
    ensures ReadersOk(Apply(s, ev)) <==> !Loses(s, ev)
  {
    var s' := Apply(s, ev);
    Counters(s.data, s.nread, s.nwrite, s.stored, s.delivered);
    hide Uint, Slot, Full, Fifo;
    if q :| 0 <= q < |s.procs| && SinkingReader(s.procs[q].pc) {
      assert SinkingReader(s'.procs[q].pc);
    }
  }

  lemma ReadersKeep(s: State, ev: Event)
    requires Ring(s) && Locks(s) && Reasons(s) && ReadersOk(s) && Enabled(s, ev) && !ev.act.Abort?
    ensures ReadersOk(Apply(s, ev))
  {
    if InLoop(ev.act) {
      ReadersLoop(s, ev);
    } else {
      ReadersSteps(s, ev);
    }
  }

  lemma ReadersLoop(s: State, ev: Event)
    requires Ring(s) && Locks(s) && Reasons(s) && ReadersOk(s) && Enabled(s, ev) && InLoop(ev.act) && !ev.act.Abort?
    ensures ReadersOk(Apply(s, ev))
  {
    hide Uint, Slot, Full, AfterLock, AfterWake, Rouse;
  }

  lemma ReadersSteps(s: State, ev: Event)
    requires Ring(s) && Locks(s) && Reasons(s) && ReadersOk(s) && Enabled(s, ev) && !InLoop(ev.act)
    ensures ReadersOk(Apply(s, ev))
  {
    hide Uint, Slot, Full;
  }

  // ---- Runs.

  ghost predicate Run(s: State, evs: seq<Event>, s': State)
    decreases |evs|
  {
    if evs == [] then s' == s
    else |s.data| == PIPESIZE && Enabled(s, evs[0]) && Run(Apply(s, evs[0]), evs[1..], s')
  }

  /** No step of the run makes a reader miss its wakeup. */
  ghost predicate Faultless(s: State, evs: seq<Event>)
    decreases |evs|
  {
    evs == [] || (|s.data| == PIPESIZE && Enabled(s, evs[0]) && !Loses(s, evs[0])
      && Faultless(Apply(s, evs[0]), evs[1..]))
  }

  lemma StartInv(n: nat, data: seq<Byte>)
    requires |data| == PIPESIZE
    ensures Inv(Start(n, data)) && ReadersOk(Start(n, data))
  {
  }

  lemma {:induction false} RunKeeps(s: State, evs: seq<Event>, s': State)
    requires Inv(s) && Run(s, evs, s')
    ensures Inv(s')
    ensures ReadersOk(s) && Faultless(s, evs) ==> ReadersOk(s')
    decreases |evs|
  {
    hide Inv, Enabled, Apply, ReadersOk, Loses;
    if evs != [] {
      StepKeeps(s, evs[0]);
      if ReadersOk(s) {
        ReadersStep(s, evs[0]);
      }
      RunKeeps(Apply(s, evs[0]), evs[1..], s');
    }
  }

  /**
    No lost wakeup, and first in first out, for any number of processes and any run: with
    the pipe's lock free, a writer asleep means a full pipe that can still be read; a reader
    asleep means an empty pipe that can still be written, unless a killed writer walked
    away from sleeping readers.
   */
  lemma {:induction false} NoLostWakeup(n: nat, data: seq<Byte>, evs: seq<Event>, s: State)
    requires |data| == PIPESIZE && Run(Start(n, data), evs, s)
    ensures s.delivered <= s.stored && s.nread < UINT
      && Minus(s.nwrite, s.nread) == |s.stored| - |s.delivered| <= PIPESIZE
    ensures s.pl.None? ==> forall p :: 0 <= p < |s.procs| && s.procs[p].pc.Asleep? && s.procs[p].pc.job.Write? ==>
      |s.stored| - |s.delivered| == PIPESIZE && s.readopen
    ensures s.pl.None? && Faultless(Start(n, data), evs) ==>
      forall p :: 0 <= p < |s.procs| && s.procs[p].pc.Asleep? && s.procs[p].pc.job.Read? ==>
        s.stored == s.delivered && s.writeopen
  {
    hide Run, Faultless, Uint;
    StartInv(n, data);
    RunKeeps(Start(n, data), evs, s);
    Counters(s.data, s.nread, s.nwrite, s.stored, s.delivered);
  }

  /** When the second end is closed nobody else is in or waiting for the pipe, so it can be freed. */
  lemma {:induction false} LastClose(n: nat, data: seq<Byte>, evs: seq<Event>, s: State, p: nat)
    requires |data| == PIPESIZE && Run(Start(n, data), evs, s)
    requires p < |s.procs| && s.pl == Some(p) && !s.readopen && !s.writeopen
    ensures s.procs[p].pc.CWake? || (s.procs[p].pc.Leave? && s.procs[p].pc.end.Closing?)
    ensures forall q :: 0 <= q < |s.procs| && q != p ==> s.procs[q].pc.Out?
  {
    hide Run, Uint, Fifo, Reasons, WritersOk;
    StartInv(n, data);
    RunKeeps(Start(n, data), evs, s);
    forall q | 0 <= q < |s.procs| && q != p
      ensures s.procs[q].pc.Out?
    {
      assert EndOpen(s, s.procs[q].pc);
    }
    assert EndOpen(s, s.procs[p].pc) && HoldsPipe(s.procs[p].pc);
  }

  // ---- The lost wakeup: a reader sleeps, a writer fills the pipe, is killed and returns.

  lemma {:induction false} RunThen(s: State, evs: seq<Event>, s1: State, ev: Event)
    requires Run(s, evs, s1) && |s1.data| == PIPESIZE && Enabled(s1, ev)
    ensures Run(s, evs + [ev], Apply(s1, ev))
    decreases |evs|
  {
    hide Enabled, Apply;
    if evs == [] {
      assert [ev][1..] == [] && evs + [ev] == [ev];
      assert Run(Apply(s1, ev), [], Apply(s1, ev));
    } else {
      RunThen(Apply(s, evs[0]), evs[1..], s1, ev);
      assert (evs + [ev])[1..] == evs[1..] + [ev];
    }
  }

  function Two(data: seq<Byte>, a: Pc, b: Pc, pl: Option<nat>, tl: Option<nat>): State {
    State([P(a, false), P(b, false)], pl, tl, data, 0, 0, true, true, [], [])
  }

  ghost predicate Step(s: State, ev: Event, s': State) {
    |s.data| == PIPESIZE && Enabled(s, ev) && Apply(s, ev) == s'
  }

  lemma ReaderSteps(data: seq<Byte>)
    requires |data| == PIPESIZE
    ensures Step(Two(data, Out, Out, None, None), Event(0, Begin(Read(1))), Two(data, Enter(Read(1)), Out, None, None))
    ensures Step(Two(data, Enter(Read(1)), Out, None, None), Event(0, Acquire), Two(data, RLoop(1), Out, Some(0), None))
    ensures Step(Two(data, RLoop(1), Out, Some(0), None), Event(0, Wait),
                 Two(data, Sleep1(Read(1)), Out, Some(0), None))
  {
  }

  lemma ReaderSleepSteps(data: seq<Byte>)
    requires |data| == PIPESIZE
    ensures Step(Two(data, Sleep1(Read(1)), Out, Some(0), None), Event(0, SleepLock),
                 Two(data, Sleep2(Read(1)), Out, Some(0), Some(0)))
    ensures Step(Two(data, Sleep2(Read(1)), Out, Some(0), Some(0)), Event(0, SleepDrop),
                 Two(data, Sleep3(Read(1)), Out, None, Some(0)))
    ensures Step(Two(data, Sleep3(Read(1)), Out, None, Some(0)), Event(0, SleepOff),
                 Two(data, Asleep(Read(1)), Out, None, None))
  {
  }

  lemma ReaderSleeps(data: seq<Byte>) returns (evs: seq<Event>)
    requires |data| == PIPESIZE
    ensures Run(Start(2, data), evs, Two(data, Asleep(Read(1)), Out, None, None))
  {
    var s0 := Start(2, data);
    assert s0 == Two(data, Out, Out, None, None);
    ReaderSteps(data);
    ReaderSleepSteps(data);
    hide Step, Enabled, Apply, Run;
    evs := [];
    assert Run(s0, evs, s0) by { RunNone(s0); }
    evs := Then(s0, evs, s0, Event(0, Begin(Read(1))), Two(data, Enter(Read(1)), Out, None, None));
    evs := Then(s0, evs, Two(data, Enter(Read(1)), Out, None, None), Event(0, Acquire),
                Two(data, RLoop(1), Out, Some(0), None));
    evs := Then(s0, evs, Two(data, RLoop(1), Out, Some(0), None), Event(0, Wait),
                Two(data, Sleep1(Read(1)), Out, Some(0), None));
    evs := Then(s0, evs, Two(data, Sleep1(Read(1)), Out, Some(0), None), Event(0, SleepLock),
                Two(data, Sleep2(Read(1)), Out, Some(0), Some(0)));
    evs := Then(s0, evs, Two(data, Sleep2(Read(1)), Out, Some(0), Some(0)), Event(0, SleepDrop),
                Two(data, Sleep3(Read(1)), Out, None, Some(0)));
    evs := Then(s0, evs, Two(data, Sleep3(Read(1)), Out, None, Some(0)), Event(0, SleepOff),
                Two(data, Asleep(Read(1)), Out, None, None));
  }

  lemma {:induction false} RunNone(s: State)
    ensures Run(s, [], s)
  {
  }

  lemma Then(s0: State, evs: seq<Event>, s: State, ev: Event, s': State) returns (evs': seq<Event>)
    requires Run(s0, evs, s) && Step(s, ev, s')
    ensures Run(s0, evs', s')
  {
    hide Enabled, Apply;
    RunThen(s0, evs, s, ev);
    evs' := evs + [ev];
  }

  /** A writer that is writing, and a reader that sleeps meanwhile. */
  ghost predicate Writing(s: State, buf: seq<Byte>, i: nat) {
    && Ring(s) && |s.stored| == i && s.delivered == [] && |s.procs| == 2 && s.pl == Some(1) && s.tl.None?
    && s.procs[0].pc == Asleep(Read(1)) && s.procs[1].pc.WLoop? && s.procs[1].pc.buf == buf && s.procs[1].pc.i == i
  }

  /** Storing bytes keeps it so, until the pipe is full. */
  lemma StoreStep(s: State, buf: seq<Byte>, i: nat)
    requires Writing(s, buf, i) && i < |buf| && i < PIPESIZE
    ensures Enabled(s, Event(1, Store)) && Writing(Apply(s, Event(1, Store)), buf, i + 1)
  {
    Counters(s.data, s.nread, s.nwrite, s.stored, s.delivered);
    hide Uint, Slot, Full, Fifo;
    RingSize(s);
    RingKeeps(s, Event(1, Store));
  }

  lemma {:induction false} WriterFills(s0: State, evs: seq<Event>, s: State, buf: seq<Byte>, i: nat)
    returns (evs': seq<Event>, s': State)
    requires Run(s0, evs, s) && Writing(s, buf, i) && i <= PIPESIZE < |buf|
    ensures Run(s0, evs', s') && Writing(s', buf, PIPESIZE)
    decreases PIPESIZE - i
  {
    hide Run, Enabled, Apply, Writing;
    if i == PIPESIZE {
      return evs, s;
    }
    StoreStep(s, buf, i);
    WritingSize(s, buf, i);
    var evs1 := Then(s0, evs, s, Event(1, Store), Apply(s, Event(1, Store)));
    evs', s' := WriterFills(s0, evs1, Apply(s, Event(1, Store)), buf, i + 1);
  }

  lemma WritingSize(s: State, buf: seq<Byte>, i: nat)
    requires Writing(s, buf, i)
    ensures |s.data| == PIPESIZE
  {
  }

  lemma WriterStarts(data: seq<Byte>, buf: seq<Byte>)
    requires |data| == PIPESIZE
    ensures Step(Two(data, Asleep(Read(1)), Out, None, None), Event(1, Begin(Write(buf, 0))),
                 Two(data, Asleep(Read(1)), Enter(Write(buf, 0)), None, None))
    ensures Step(Two(data, Asleep(Read(1)), Enter(Write(buf, 0)), None, None), Event(1, Acquire),
                 Two(data, Asleep(Read(1)), WLoop(buf, 0, false), Some(1), None))
    ensures Writing(Two(data, Asleep(Read(1)), WLoop(buf, 0, false), Some(1), None), buf, 0)
  {
  }

  /** The writer, killed with the pipe full, returns and leaves the reader asleep. */
  lemma WriterQuits(s: State, buf: seq<Byte>)
    requires Writing(s, buf, PIPESIZE) && PIPESIZE < |buf|
    ensures Enabled(s, Event(1, Kill))
    ensures var s1 := Apply(s, Event(1, Kill));
      && |s1.data| == PIPESIZE && Enabled(s1, Event(1, Abort))
      && var s2 := Apply(s1, Event(1, Abort));
         s2.pl.None? && s2.tl.None? && |s2.procs| == 2 && s2.procs[0].pc == Asleep(Read(1)) && |s2.stored| == PIPESIZE
           && s2.delivered == []
  {
    Counters(s.data, s.nread, s.nwrite, s.stored, s.delivered);
    hide Uint, Slot, Full, Fifo;
  }

  ghost predicate Stranded(s: State) {
    s.pl.None? && s.tl.None? && |s.procs| == 2 && s.procs[0].pc == Asleep(Read(1))
      && |s.stored| - |s.delivered| == PIPESIZE
  }

  /** With both locks free, a reader can be asleep beside a full pipe. */
  lemma LostWakeup(data: seq<Byte>)
    requires |data| == PIPESIZE
    ensures exists evs, s :: Run(Start(2, data), evs, s) && Stranded(s)
  {
    hide Run, Enabled, Apply, Writing, Step;
    var s0, buf := Start(2, data), data + [0];
    var evs := ReaderSleeps(data);
    WriterStarts(data, buf);
    evs := Then(s0, evs, Two(data, Asleep(Read(1)), Out, None, None), Event(1, Begin(Write(buf, 0))),
                Two(data, Asleep(Read(1)), Enter(Write(buf, 0)), None, None));
    var s := Two(data, Asleep(Read(1)), WLoop(buf, 0, false), Some(1), None);
    evs := Then(s0, evs, Two(data, Asleep(Read(1)), Enter(Write(buf, 0)), None, None), Event(1, Acquire), s);
    evs, s := WriterFills(s0, evs, s, buf, 0);
    WritingSize(s, buf, PIPESIZE);
    WriterQuits(s, buf);
    var s1 := Apply(s, Event(1, Kill));
    StepIs(s, Event(1, Kill));
    evs := Then(s0, evs, s, Event(1, Kill), s1);
    StepIs(s1, Event(1, Abort));
    evs := Then(s0, evs, s1, Event(1, Abort), Apply(s1, Event(1, Abort)));
  }

  lemma StepIs(s: State, ev: Event)
    requires |s.data| == PIPESIZE && Enabled(s, ev)
    ensures Step(s, ev, Apply(s, ev))
  {
  }

  // ---- Whose bytes they are.

  /** The states of a run and the steps between them. */
  ghost predicate Trace(n: nat, data: seq<Byte>, ss: seq<State>, evs: seq<Event>) {
    && |ss| == |evs| + 1 && |data| == PIPESIZE && ss[0] == Start(n, data)
    && forall k :: 0 <= k < |evs| ==>
         |ss[k].data| == PIPESIZE && Enabled(ss[k], evs[k]) && ss[k + 1] == Apply(ss[k], evs[k])
  }

  lemma {:induction false} TraceInv(n: nat, data: seq<Byte>, ss: seq<State>, evs: seq<Event>, k: nat)
    requires Trace(n, data, ss, evs) && k < |ss|
    ensures Inv(ss[k]) && |ss[k].procs| == n
  {
    hide Inv, Enabled, Apply;
    if k == 0 {
      StartInv(n, data);
    } else {
      TraceInv(n, data, ss, evs, k - 1);
      StepKeeps(ss[k - 1], evs[k - 1]);
      SameProcs(ss[k - 1], evs[k - 1]);
    }
  }

  lemma SameProcs(s: State, ev: Event)
    requires |s.data| == PIPESIZE && Enabled(s, ev)
    ensures |Apply(s, ev).procs| == |s.procs|
  {
    hide NextPc, Buffer;
  }

  /** The buffer of a process in pipewrite, and how far it is through it. */
  function InHand(pc: Pc): Option<(seq<Byte>, nat)> {
    if pc.WLoop? then Some((pc.buf, pc.i))
    else if HasJob(pc) && pc.job.Write? then Some((pc.job.buf, pc.job.i))
    else None
  }

  /** The bytes that process p has stored since it last entered pipewrite or piperead. */
  ghost function Sent(ss: seq<State>, evs: seq<Event>, k: nat, p: nat): seq<Byte>
    requires k <= |evs| < |ss|
  {
    if k == 0 || (evs[k - 1].p == p && evs[k - 1].act.Begin?) then []
    else if evs[k - 1].p == p && evs[k - 1].act.Store? && |ss[k - 1].stored| <= |ss[k].stored| then
      Sent(ss, evs, k - 1, p) + ss[k].stored[|ss[k - 1].stored|..]
    else Sent(ss, evs, k - 1, p)
  }

  lemma HandStep(s: State, ev: Event, p: nat)
    requires |s.data| == PIPESIZE && Enabled(s, ev) && p < |s.procs| && Reasons(s)
    ensures var s' := Apply(s, ev);
      var a, b := InHand(s.procs[p].pc), InHand(s'.procs[p].pc);
      if ev.p == p && ev.act.Begin? then b.Some? ==> b.value.1 == 0
      else if ev.p == p && ev.act.Store? then
        && a.Some? && a.value.1 < |a.value.0| && b == Some((a.value.0, a.value.1 + 1))
        && s'.stored == s.stored + [a.value.0[a.value.1]]
      else b.Some? ==> b == a
    ensures !ev.act.Store? ==> Apply(s, ev).stored == s.stored
  {
    hide Uint, Slot, Full, NextPl, NextTl;
  }

  /** In every run, a process in pipewrite has stored exactly the first bytes of its buffer, in order. */
  lemma {:induction false} WriterSent(n: nat, data: seq<Byte>, ss: seq<State>, evs: seq<Event>, k: nat, p: nat)
    requires Trace(n, data, ss, evs) && k < |ss| && p < n
    ensures |ss[k].procs| == n
    ensures var h := InHand(ss[k].procs[p].pc);
      h.Some? ==> h.value.1 <= |h.value.0| && Sent(ss, evs, k, p) == h.value.0[..h.value.1]
  {
    hide Inv, Enabled, Apply, InHand, Reasons;
    TraceInv(n, data, ss, evs, k);
    if k == 0 {
      NothingInHand(n, data, p);
    } else {
      var m: nat := k - 1;
      TraceInv(n, data, ss, evs, m);
      WriterSent(n, data, ss, evs, m, p);
      ReasonsOf(ss[m]);
      HandStep(ss[m], evs[m], p);
      var h := InHand(ss[m].procs[p].pc);
      if evs[m].p == p && evs[m].act.Store? {
        var buf, i := h.value.0, h.value.1;
        assert buf[..i] + [buf[i]] == buf[..i + 1];
        assert ss[k].stored[|ss[m].stored|..] == [buf[i]];
      }
    }
  }

  lemma NothingInHand(n: nat, data: seq<Byte>, p: nat)
    requires p < n
    ensures InHand(Start(n, data).procs[p].pc).None?
  {
  }

  lemma ReasonsOf(s: State)
    requires Inv(s)
    ensures Reasons(s)
  {
  }

  /** pipewrite returns its count exactly when all of its buffer is stored. */
  lemma {:induction false} WriterDone(n: nat, data: seq<Byte>, ss: seq<State>, evs: seq<Event>, k: nat)
    requires Trace(n, data, ss, evs) && k < |evs| && evs[k].act.Finish?
    ensures var p := evs[k].p;
      p < |ss[k].procs| && ss[k].procs[p].pc.WLoop? && Sent(ss, evs, k, p) == ss[k].procs[p].pc.buf
  {
    hide Inv, Apply;
    TraceInv(n, data, ss, evs, k);
    WriterSent(n, data, ss, evs, k, evs[k].p);
  }

  /** What a reader has in hand is what was delivered last. */
  ghost predicate Reading(s: State) {
    forall p :: 0 <= p < |s.procs| && s.procs[p].pc.RCopy? ==> LastDelivered(s, s.procs[p].pc.got)
  }

  ghost predicate LastDelivered(s: State, got: seq<Byte>) {
    |got| <= |s.delivered| && s.delivered[|s.delivered| - |got|..] == got
  }

  lemma ReadingStep(s: State, ev: Event)
    requires Inv(s) && |s.data| == PIPESIZE && Reading(s) && Enabled(s, ev)
    ensures Reading(Apply(s, ev))
  {
    hide Ring, Reasons, Ends, WritersOk, Uint, Slot, Full, NextPl, NextTl;
    var s' := Apply(s, ev);
    forall p | 0 <= p < |s'.procs| && s'.procs[p].pc.RCopy?
      ensures LastDelivered(s', s'.procs[p].pc.got)
    {
      if ev.p == p {
        OwnReading(s, ev);
      } else {
        assert s.procs[p].pc.RCopy? && s.pl == Some(p);
        assert !ev.act.Take?;
        assert s'.delivered == s.delivered && s'.procs[p].pc == s.procs[p].pc;
      }
    }
  }

  lemma OwnReading(s: State, ev: Event)
    requires |s.data| == PIPESIZE && Reading(s) && Enabled(s, ev) && NextPc(s, ev).RCopy?
    ensures LastDelivered(Apply(s, ev), NextPc(s, ev).got)
  {
    hide Uint, Slot, Full, NextPl, NextTl, Rest;
    var pc := s.procs[ev.p].pc;
    if ev.act.Take? {
      var x := s.data[Slot(s.nread, PIPESIZE)];
      assert LastDelivered(s, pc.got);
      var d := s.delivered;
      assert (d + [x])[|d| + 1 - |pc.got + [x]|..] == d[|d| - |pc.got|..] + [x];
    }
  }

  /** In every run, the bytes piperead has copied are the ones delivered since it took the lock, in order. */
  lemma {:induction false} ReaderGot(n: nat, data: seq<Byte>, ss: seq<State>, evs: seq<Event>, k: nat)
    requires Trace(n, data, ss, evs) && k < |ss|
    ensures Reading(ss[k])
  {
    hide Inv, Enabled, Apply, Reading;
    if k == 0 {
      NobodyReading(n, data);
    } else {
      ReaderGot(n, data, ss, evs, k - 1);
      TraceInv(n, data, ss, evs, k - 1);
      ReadingStep(ss[k - 1], evs[k - 1]);
    }
  }

  lemma NobodyReading(n: nat, data: seq<Byte>)
    ensures Reading(Start(n, data))
  {
  }

  /** The call that process p is in: the job it last began. */
  ghost function Called(evs: seq<Event>, k: nat, p: nat): Option<Job>
    requires k <= |evs|
  {
    if k == 0 then None
    else if evs[k - 1].p == p && evs[k - 1].act.Begin? then Some(evs[k - 1].act.job)
    else Called(evs, k - 1, p)
  }

  /** What p works on is what it was called with. */
  predicate Serves(pc: Pc, job: Option<Job>) {
    && (pc.RLoop? || pc.RCopy? ==> job == Some(Read(pc.n)))
    && (pc.WLoop? ==> job == Some(Write(pc.buf, 0)))
    && (HasJob(pc) ==> job == Some(if pc.job.Write? then Write(pc.job.buf, 0) else pc.job))
  }

  lemma ServesStep(s: State, ev: Event, p: nat, job: Option<Job>)
    requires |s.data| == PIPESIZE && Enabled(s, ev) && p < |s.procs| && Serves(s.procs[p].pc, job)
    ensures Serves(Apply(s, ev).procs[p].pc, if ev.p == p && ev.act.Begin? then Some(ev.act.job) else job)
  {
    hide Uint, Slot, Full, NextPl, NextTl, Buffer;
  }

  lemma {:induction false} CallKept(n: nat, data: seq<Byte>, ss: seq<State>, evs: seq<Event>, k: nat, p: nat)
    requires Trace(n, data, ss, evs) && k < |ss| && p < n
    ensures |ss[k].procs| == n && Serves(ss[k].procs[p].pc, Called(evs, k, p))
  {
    hide Inv, Enabled, Apply, Serves;
    TraceInv(n, data, ss, evs, k);
    if k == 0 {
      ServesNothing(n, data, p);
    } else {
      TraceInv(n, data, ss, evs, k - 1);
      CallKept(n, data, ss, evs, k - 1, p);
      ServesStep(ss[k - 1], evs[k - 1], p, Called(evs, k - 1, p));
    }
  }

  lemma ServesNothing(n: nat, data: seq<Byte>, p: nat)
    requires p < n
    ensures Serves(Start(n, data).procs[p].pc, None)
  {
  }

  /** A reader that has nothing yet found bytes, or the write end closed. */
  ghost predicate Started(s: State) {
    forall p :: 0 <= p < |s.procs| && s.procs[p].pc.RCopy? && s.procs[p].pc.got == [] ==> !(IsEmpty(s) && s.writeopen)
  }

  lemma StartedStep(s: State, ev: Event)
    requires Inv(s) && |s.data| == PIPESIZE && Started(s) && Enabled(s, ev)
    ensures Started(Apply(s, ev))
  {
    hide Ring, Reasons, Ends, WritersOk, Uint, Slot, Full, NextPl, NextTl;
    var s' := Apply(s, ev);
    forall p | 0 <= p < |s'.procs| && s'.procs[p].pc.RCopy? && s'.procs[p].pc.got == []
      ensures !(IsEmpty(s') && s'.writeopen)
    {
      if ev.p != p {
        assert s.procs[p].pc.RCopy? && s.procs[p].pc.got == [] && s.pl == Some(p);
      }
    }
  }

  lemma {:induction false} AlwaysStarted(n: nat, data: seq<Byte>, ss: seq<State>, evs: seq<Event>, k: nat)
    requires Trace(n, data, ss, evs) && k < |ss|
    ensures Started(ss[k])
  {
    hide Inv, Enabled, Apply, Started;
    if k == 0 {
      NobodyStarted(n, data);
    } else {
      AlwaysStarted(n, data, ss, evs, k - 1);
      TraceInv(n, data, ss, evs, k - 1);
      StartedStep(ss[k - 1], evs[k - 1]);
    }
  }

  lemma NobodyStarted(n: nat, data: seq<Byte>)
    ensures Started(Start(n, data))
  {
  }

  /**
    What piperead returns, in every run: the bytes delivered last, as many as it was called for
    or all there were; none for a call for some only when the pipe is drained and its write end closed.
   */
  lemma {:induction false} ReaderDone(n: nat, data: seq<Byte>, ss: seq<State>, evs: seq<Event>, k: nat)
    requires Trace(n, data, ss, evs) && k < |evs| && evs[k].act.Stop?
    ensures var s, p := ss[k], evs[k].p;
      && p < |s.procs| && s.procs[p].pc.RCopy?
      && var pc := s.procs[p].pc;
      && Called(evs, k, p) == Some(Read(pc.n)) && LastDelivered(s, pc.got)
      && (|pc.got| >= pc.n || s.delivered == s.stored)
      && (pc.got == [] && pc.n > 0 ==> s.delivered == s.stored && !s.writeopen)
  {
    TraceInv(n, data, ss, evs, k);
    ReaderGot(n, data, ss, evs, k);
    CallKept(n, data, ss, evs, k, evs[k].p);
    AlwaysStarted(n, data, ss, evs, k);
    Drained(ss[k]);
    hide Ring, Locks, Reasons, Ends, WritersOk, Apply, LastDelivered, IsFull;
  }

  lemma Drained(s: State)
    requires Inv(s)
    ensures IsEmpty(s) ==> s.delivered == s.stored
  {
    hide Locks, Reasons, Ends, WritersOk;
    Counters(s.data, s.nread, s.nwrite, s.stored, s.delivered);
  }
}
