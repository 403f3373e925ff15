/**
  The process table (proc.c): fork, exit, exit2, wait, wait2, sleep, wakeup, kill and the
  scheduler as steps taken under ptable.lock, and what every run of them keeps.
 */
module Processes {
  import opened Options

  const NPROC: nat := 64
  // The slot of initproc.
  const INIT: nat := 0

  datatype Status = Unused | Embryo | Sleeping | Runnable | Running | Zombie

  // wait and wait2 sleep on the caller's own slot; all other sleeps are on something else.
  datatype Chan = Nowhere | Slot(slot: nat) | Elsewhere(id: nat)

  // `forker` says, for an embryo, which process is in fork making it.
  datatype Proc = Proc(state: Status, pid: nat, parent: Option<nat>, chan: Chan, killed: bool, status: int, forker: nat)

  type Table = t: seq<Proc> | |t| == 64 witness seq(64, i => FREE)

  const FREE := Proc(Unused, 0, None, Nowhere, false, 0, 0)

  predicate Live(p: Proc) {
    p.state.Sleeping? || p.state.Runnable? || p.state.Running?
  }

  predicate Child(t: Table, i: nat, p: nat) {
    i < NPROC && t[i].parent == Some(p)
  }

  predicate ZombieChild(t: Table, i: nat, p: nat) {
    Child(t, i, p) && t[i].state.Zombie?
  }

  // ---- What the table operations do.

  function Wake(p: Proc, c: Chan): Proc {
    if p.state.Sleeping? && p.chan == c then p.(state := Runnable) else p
  }

  /** wakeup1 */
  function Woken(t: Table, c: Chan): Table {
    seq(NPROC, i requires 0 <= i < NPROC => Wake(t[i], c))
  }

  function ParentChan(p: Proc): Chan {
    match p.parent
    case None => Nowhere
    case Some(q) => Slot(q)
  }

  /** Slot i after the first k passes of exit's loop over the table. */
  ghost function Leaving(t: Table, me: nat, k: nat, i: nat): Proc
    requires me < NPROC && i < NPROC
  {
    var p := Wake(t[i], ParentChan(t[me]));
    var q := if exists z :: 0 <= z < k && ZombieChild(t, z, me) then Wake(p, Slot(INIT)) else p;
    if i < k && t[i].parent == Some(me) then q.(parent := Some(INIT)) else q
  }

  /** exit2: the parent is woken, children go to init, and init is woken if one is a zombie. */
  ghost function Exited(t: Table, me: nat, status: int): Table
    requires me < NPROC
  {
    seq(NPROC, i requires 0 <= i < NPROC =>
      if i == me then Leaving(t, me, NPROC, i).(state := Zombie, status := status) else Leaving(t, me, NPROC, i))
  }

  /** Slot z after wait has reaped it. */
  function Reap(p: Proc): Proc {
    p.(pid := 0, parent := None, killed := false, state := Unused)
  }

  ghost predicate FirstUnused(t: Table, i: nat) {
    i < NPROC && t[i].state.Unused? && forall j :: 0 <= j < i ==> !t[j].state.Unused?
  }

  ghost predicate FirstZombie(t: Table, i: nat, me: nat) {
    i < NPROC && ZombieChild(t, i, me) && forall j :: 0 <= j < i ==> !ZombieChild(t, j, me)
  }

  ghost predicate FirstPid(t: Table, i: nat, pid: int) {
    i < NPROC && t[i].pid == pid && forall j :: 0 <= j < i ==> t[j].pid != pid
  }

  /** kill's effect on the slot it finds. */
  function Doomed(p: Proc): Proc {
    p.(killed := true, state := if p.state.Sleeping? then Runnable else p.state)
  }

  // ---- The operations in the source's form.

  datatype WaitResult = Reaped(pid: nat, status: int, slot: nat) | NoChild | Asleep

  class Ptable {
    const procs: array<Proc>
    var nextpid: nat

    ghost predicate Valid()
      reads this
    {
      procs.Length == NPROC
    }

    ghost function T(): Table
      requires Valid()
      reads this, procs
    {
      procs[..]
    }

    method Wakeup1(chan: Chan)
      requires Valid()
      modifies procs
      ensures T() == Woken(old(T()), chan)
      ensures forall i :: 0 <= i < NPROC ==>
        T()[i] == if old(T())[i].state.Sleeping? && old(T())[i].chan == chan then old(T())[i].(state := Runnable)
                  else old(T())[i]
    {
      ghost var t := T();
      var i := 0;
      while i < NPROC
        invariant 0 <= i <= NPROC
        invariant forall j :: 0 <= j < NPROC ==> procs[j] == if j < i then Wake(t[j], chan) else t[j]
      {
        if procs[i].state.Sleeping? && procs[i].chan == chan {
          procs[i] := procs[i].(state := Runnable);
        }
        i := i + 1;
      }
      assert T() == Woken(t, chan);
    }

    /** allocproc, up to the release of the lock; forker is the caller. */
    method AllocSlot(forker: nat) returns (e: Option<nat>)
      requires Valid()
      modifies this`nextpid, procs
      ensures e.None? ==>
        (forall i :: 0 <= i < NPROC ==> !T()[i].state.Unused?) && T() == old(T()) && nextpid == old(nextpid)
      ensures e.Some? ==> FirstUnused(old(T()), e.value) && nextpid == old(nextpid) + 1
      ensures e.Some? ==>
        T() == old(T())[e.value := old(T())[e.value].(state := Embryo, pid := old(nextpid), forker := forker)]
    {
      var i := 0;
      while i < NPROC
        invariant 0 <= i <= NPROC
        invariant forall j :: 0 <= j < i ==> !procs[j].state.Unused?
      {
        if procs[i].state.Unused? {
          procs[i] := procs[i].(state := Embryo, pid := nextpid, forker := forker);
          nextpid := nextpid + 1;
          return Some(i);
        }
        i := i + 1;
      }
      return None;
    }

    /** exit2 (and exit, with status 0) between acquire and sched. */
    method Exit2(me: nat, status: int)
      requires Valid() && me < NPROC
      modifies procs
      ensures T() == Exited(old(T()), me, status)
      ensures T()[me].state.Zombie? && T()[me].status == status
      ensures forall i :: 0 <= i < NPROC && i != me ==>
        var p, init := old(T())[i], exists z :: ZombieChild(old(T()), z, me);
        var woken := (p.chan.Slot? && old(T())[me].parent == Some(p.chan.slot)) || (p.chan == Slot(INIT) && init)
                     || (p.chan.Nowhere? && old(T())[me].parent.None?);
        T()[i] == p.(parent := if p.parent == Some(me) then Some(INIT) else p.parent,
                     state := if p.state.Sleeping? && woken then Runnable else p.state)
    {
      ghost var t := T();
      Wakeup1(ParentChan(procs[me]));
      var i := 0;
      while i < NPROC
        invariant 0 <= i <= NPROC
        invariant forall j :: 0 <= j < NPROC ==> procs[j] == Leaving(t, me, i, j)
      {
        if procs[i].parent == Some(me) {
          procs[i] := procs[i].(parent := Some(INIT));
          if procs[i].state.Zombie? {
            assert ZombieChild(t, i, me);
            Wakeup1(Slot(INIT));
          }
        }
        i := i + 1;
      }
      procs[me] := procs[me].(state := Zombie);
      procs[me] := procs[me].(status := status);
      assert T() == Exited(t, me, status);
    }

    /** One scan of wait2's loop (wait drops the status), up to the release of the lock. */
    method Wait2(me: nat) returns (r: WaitResult)
      requires Valid() && me < NPROC
      modifies procs
      ensures r.Reaped? ==> FirstZombie(old(T()), r.slot, me)
      ensures r.Reaped? ==> r.pid == old(T())[r.slot].pid && r.status == old(T())[r.slot].status
      ensures r.Reaped? ==> T() == old(T())[r.slot := Reap(old(T())[r.slot])]
      ensures r.Reaped? ==> T()[r.slot].state.Unused? && T()[r.slot].pid == 0 && !T()[r.slot].killed
      ensures !r.Reaped? ==> forall i :: 0 <= i < NPROC ==> !ZombieChild(old(T()), i, me)
      ensures r.NoChild? ==>
        T() == old(T()) && (old(T())[me].killed || forall i :: 0 <= i < NPROC ==> !Child(old(T()), i, me))
      ensures r.Asleep? ==> T() == old(T())[me := old(T())[me].(chan := Slot(me), state := Sleeping)]
      ensures r.Asleep? ==> !old(T())[me].killed && exists i :: 0 <= i < NPROC && Child(old(T()), i, me)
    {
      ghost var t := T();
      var havekids := false;
      var i := 0;
      while i < NPROC
        invariant 0 <= i <= NPROC && T() == t
        invariant forall j :: 0 <= j < i ==> !ZombieChild(t, j, me)
        invariant havekids <==> exists j :: 0 <= j < i && Child(t, j, me)
      {
        if procs[i].parent == Some(me) {
          assert Child(t, i, me);
          havekids := true;
          if procs[i].state.Zombie? {
            var pid := procs[i].pid;
            procs[i] := procs[i].(pid := 0);
            procs[i] := procs[i].(parent := None);
            procs[i] := procs[i].(killed := false);
            procs[i] := procs[i].(state := Unused);
            return Reaped(pid, procs[i].status, i);
          }
        }
        i := i + 1;
      }
      if !havekids || procs[me].killed {
        return NoChild;
      }
      procs[me] := procs[me].(chan := Slot(me));
      procs[me] := procs[me].(state := Sleeping);
      return Asleep;
    }

    /** kill */
    method Kill(pid: int) returns (target: Option<nat>)
      requires Valid()
      modifies procs
      ensures target.None? ==> T() == old(T()) && forall i :: 0 <= i < NPROC ==> T()[i].pid != pid
      ensures target.Some? ==> FirstPid(old(T()), target.value, pid)
      ensures target.Some? ==> T() == old(T())[target.value := Doomed(old(T())[target.value])]
      ensures target.Some? ==> T()[target.value].killed && !T()[target.value].state.Sleeping?
    {
      var i := 0;
      while i < NPROC
        invariant 0 <= i <= NPROC && T() == old(T())
        invariant forall j :: 0 <= j < i ==> procs[j].pid != pid
      {
        if procs[i].pid == pid {
          procs[i] := procs[i].(killed := true);
          if procs[i].state.Sleeping? {
            procs[i] := procs[i].(state := Runnable);
          }
          return Some(i);
        }
        i := i + 1;
      }
      return None;
    }
  }

  // ---- The system: the table, what each processor runs, and the history of exits.

  // `exits` holds the status of every process that has exited, `reaps` the results of wait.
  datatype State = State(procs: Table, nextpid: nat, cpus: seq<Option<nat>>, exits: map<nat, int>, reaps: seq<Reaping>)

  datatype Reaping = Reaping(pid: nat, status: int)

  // Steps of a running process.  Slots that the code finds by scanning are named in the
  // step and pinned down by CanDo.
  datatype Act =
    | ForkAlloc(e: nat)          // allocproc finds slot e
    | ForkFail(e: nat)           // no kernel stack, or no memory for the copy
    | ForkParent(e: nat)         // the child gets its parent
    | ForkPublish(e: nat)        // the child becomes RUNNABLE
    | Exit(status: int)
    | WaitReap(z: nat)
    | WaitSleep
    | Yield
    | Sleep(id: nat)

  datatype Event = By(cpu: nat, act: Act) | Schedule(cpu: nat, p: nat) | Wakeup(id: nat) | Kill(pid: int, target: nat)

  function Boot(ncpu: nat): State {
    var init := FREE.(state := Runnable, pid := 1);
    State(seq(NPROC, i => if i == INIT then init else FREE), 2, seq(ncpu, i => None), map[], [])
  }

  /** Process me runs on this processor. */
  predicate On(s: State, cpu: nat, me: nat) {
    cpu < |s.cpus| && s.cpus[cpu] == Some(me) && me < NPROC
  }

  predicate Runs(s: State, cpu: nat) {
    cpu < |s.cpus| && s.cpus[cpu].Some? && s.cpus[cpu].value < NPROC
  }

  predicate Making(t: Table, e: nat, me: nat) {
    e < NPROC && t[e].state.Embryo? && t[e].forker == me
  }

  ghost predicate Forking(t: Table, me: nat) {
    exists e :: Making(t, e, me)
  }

  ghost predicate CanDo(t: Table, me: nat, act: Act)
    requires me < NPROC
  {
    match act
    case ForkAlloc(e) => !Forking(t, me) && FirstUnused(t, e)
    case ForkFail(e) => Making(t, e, me) && t[e].parent.None?
    case ForkParent(e) => Making(t, e, me) && t[e].parent.None?
    case ForkPublish(e) => Making(t, e, me) && t[e].parent == Some(me)
    case Exit(_) => !Forking(t, me) && me != INIT
    case WaitReap(z) => !Forking(t, me) && FirstZombie(t, z, me)
    case WaitSleep => !Forking(t, me) && !t[me].killed && (forall i :: !ZombieChild(t, i, me))
      && exists i :: Child(t, i, me)
    case Yield => true
    case Sleep(_) => true
  }

  ghost predicate Enabled(s: State, ev: Event) {
    match ev
    case By(cpu, act) => Runs(s, cpu) && CanDo(s.procs, s.cpus[cpu].value, act)
    case Schedule(cpu, p) => cpu < |s.cpus| && s.cpus[cpu].None? && p < NPROC && s.procs[p].state.Runnable?
    case Wakeup(_) => true
    case Kill(pid, target) => FirstPid(s.procs, target, pid)
  }

  function Put(s: State, i: nat, p: Proc): State
    requires i < NPROC
  {
    s.(procs := s.procs[i := p])
  }

  /** The processor goes back to its scheduler. */
  function Off(s: State, cpu: nat): State
    requires cpu < |s.cpus|
  {
    s.(cpus := s.cpus[cpu := None])
  }

  /** A step of process me, on this processor. */
  ghost function Do(s: State, cpu: nat, me: nat, act: Act): State
    requires cpu < |s.cpus| && me < NPROC && CanDo(s.procs, me, act)
  {
    var t := s.procs;
    match act
    case ForkAlloc(e) => Put(s, e, t[e].(state := Embryo, pid := s.nextpid, forker := me)).(nextpid := s.nextpid + 1)
    case ForkFail(e) => Put(s, e, t[e].(state := Unused))
    case ForkParent(e) => Put(s, e, t[e].(parent := Some(me)))
    case ForkPublish(e) => Put(s, e, t[e].(state := Runnable))
    case Exit(status) => Off(s.(procs := Exited(t, me, status), exits := s.exits[t[me].pid := status]), cpu)
    case WaitReap(z) => Put(s, z, Reap(t[z])).(reaps := s.reaps + [Reaping(t[z].pid, t[z].status)])
    case WaitSleep => Off(Put(s, me, t[me].(chan := Slot(me), state := Sleeping)), cpu)
    case Yield => Off(Put(s, me, t[me].(state := Runnable)), cpu)
    case Sleep(id) => Off(Put(s, me, t[me].(chan := Elsewhere(id), state := Sleeping)), cpu)
  }

  ghost function Apply(s: State, ev: Event): State
    requires Enabled(s, ev)
  {
    match ev
    case By(cpu, act) => Do(s, cpu, s.cpus[cpu].value, act)
    // The process finds itself back in sched, and sleep clears its channel.
    case Schedule(cpu, p) => Put(s, p, s.procs[p].(state := Running, chan := Nowhere)).(cpus := s.cpus[cpu := Some(p)])
    case Wakeup(id) => s.(procs := Woken(s.procs, Elsewhere(id)))
    case Kill(pid, target) => Put(s, target, Doomed(s.procs[target]))
  }

  // ---- What every run keeps.

  /** A RUNNING process is on exactly one processor, and a processor runs only such. */
  ghost predicate CpusOk(s: State) {
    && (forall c :: 0 <= c < |s.cpus| && s.cpus[c].Some? ==>
      s.cpus[c].value < NPROC && s.procs[s.cpus[c].value].state.Running?)
    && (forall i :: 0 <= i < NPROC && s.procs[i].state.Running? ==> exists c :: On(s, c, i))
    && (forall c, d :: 0 <= c < d < |s.cpus| && s.cpus[c].Some? ==> s.cpus[c] != s.cpus[d])
  }

  /** Every parent is live; everyone but init has one once fork is done; init is live. */
  ghost predicate ParentsOk(t: Table) {
    Live(t[INIT]) && t[INIT].parent.None? && forall i :: 0 <= i < NPROC ==> SlotOk(t, i)
  }

  ghost predicate SlotOk(t: Table, i: nat)
    requires i < NPROC
  {
    && (t[i].parent.Some? ==> t[i].parent.value != i && LiveSlot(t, t[i].parent.value) && !t[i].state.Unused?)
    && (i != INIT && (Live(t[i]) || t[i].state.Zombie?) ==> t[i].parent.Some?)
    && (t[i].state.Embryo? ==> LiveSlot(t, t[i].forker) && (t[i].parent.None? || t[i].parent == Some(t[i].forker)))
  }

  predicate LiveSlot(t: Table, i: nat) {
    i < NPROC && Live(t[i])
  }

  /** Process ids are never reused: the non-zero ones in the table are all different. */
  ghost predicate PidsOk(t: Table, nextpid: nat) {
    && nextpid > 0
    && (forall i :: 0 <= i < NPROC ==> t[i].pid < nextpid && (t[i].pid == 0 ==> t[i].state.Unused?))
    && (forall i, j :: 0 <= i < j < NPROC && t[i].pid == t[j].pid ==> t[i].pid == 0)
  }

  predicate InWait(t: Table, i: nat) {
    i < NPROC && t[i].state.Sleeping? && t[i].chan == Slot(i)
  }

  /** A process asleep in wait has a child, and no zombie child. */
  ghost predicate WaitsOk(t: Table) {
    && (forall i :: 0 <= i < NPROC && t[i].state.Sleeping? && t[i].chan.Slot? ==> t[i].chan == Slot(i))
    && (forall i, z :: InWait(t, i) ==> !ZombieChild(t, z, i))
    && (forall i :: InWait(t, i) ==> exists c :: Child(t, c, i))
  }

  /** The exited processes are the zombies, with their status, and the reaped, once each. */
  ghost predicate HistoryOk(s: State) {
    && (forall i :: 0 <= i < NPROC && s.procs[i].pid != 0 ==>
          if s.procs[i].state.Zombie? then
            s.procs[i].pid in s.exits && s.exits[s.procs[i].pid] == s.procs[i].status
          else s.procs[i].pid !in s.exits)
    && (forall k :: 0 <= k < |s.reaps| ==> s.reaps[k].pid in s.exits && s.exits[s.reaps[k].pid] == s.reaps[k].status)
    && (forall k, l :: 0 <= k < l < |s.reaps| ==> s.reaps[k].pid != s.reaps[l].pid)
    && (forall i, k :: 0 <= i < NPROC && 0 <= k < |s.reaps| ==> s.procs[i].pid != s.reaps[k].pid)
    && (forall pid :: pid in s.exits ==> 0 < pid < s.nextpid && Accounted(s, pid))
  }

  ghost predicate Accounted(s: State, pid: nat) {
    || (exists i :: 0 <= i < NPROC && s.procs[i].state.Zombie? && s.procs[i].pid == pid)
    || (exists k :: 0 <= k < |s.reaps| && s.reaps[k].pid == pid)
  }

  ghost predicate Inv(s: State) {
    CpusOk(s) && ParentsOk(s.procs) && PidsOk(s.procs, s.nextpid) && WaitsOk(s.procs) && HistoryOk(s)
  }

  lemma BootInv(ncpu: nat)
    ensures Inv(Boot(ncpu))
  {
  }

  // Most steps only move live processes between SLEEPING, RUNNABLE and RUNNING.
  ghost predicate Stirred(t: Table, t': Table) {
    forall i :: 0 <= i < NPROC ==>
      && t'[i].pid == t[i].pid && t'[i].parent == t[i].parent && t'[i].forker == t[i].forker
        && t'[i].status == t[i].status
      && (t'[i].state == t[i].state || (Live(t[i]) && Live(t'[i])))
  }

  lemma ParentsStirred(t: Table, t': Table)
    requires ParentsOk(t) && Stirred(t, t')
    ensures ParentsOk(t')
  {
    forall i | 0 <= i < NPROC
      ensures SlotOk(t', i)
    {
      assert SlotOk(t, i);
    }
  }

  lemma PidsStirred(t: Table, t': Table, nextpid: nat)
    requires PidsOk(t, nextpid) && Stirred(t, t')
    ensures PidsOk(t', nextpid)
  {
    forall i | 0 <= i < NPROC
      ensures t'[i].pid < nextpid && (t'[i].pid == 0 ==> t'[i].state.Unused?)
    {
      assert t[i].pid == t'[i].pid;
    }
  }

  lemma HistoryStirred(s: State, s': State)
    requires HistoryOk(s) && Stirred(s.procs, s'.procs)
    requires s'.nextpid == s.nextpid && s'.exits == s.exits && s'.reaps == s.reaps
    ensures HistoryOk(s')
  {
    forall pid | pid in s'.exits
      ensures Accounted(s', pid)
    {
      assert Accounted(s, pid);
    }
  }

  /** Nobody new is asleep in wait, except perhaps me, who has a child and no zombie child. */
  lemma WaitsStirred(t: Table, t': Table, me: nat)
    requires WaitsOk(t) && Stirred(t, t')
    requires forall i :: 0 <= i < NPROC && t'[i].state.Sleeping? ==>
      (t[i].state.Sleeping? && t'[i].chan == t[i].chan) || t'[i].chan.Elsewhere? || (i == me && t'[i].chan == Slot(me))
    requires InWait(t', me) ==> (forall z :: !ZombieChild(t, z, me)) && exists c :: Child(t, c, me)
    ensures WaitsOk(t')
  {
    forall i: nat | InWait(t', i)
      ensures exists c :: Child(t', c, i)
    {
      assert i == me || InWait(t, i);
      var c :| Child(t, c, i);
      assert Child(t', c, i);
    }
    forall i: nat, z: nat | InWait(t', i)
      ensures !ZombieChild(t', z, i)
    {
      assert i == me || InWait(t, i);
      assert !ZombieChild(t, z, i);
    }
  }

  lemma CpusSame(s: State, s': State)
    requires CpusOk(s) && s'.cpus == s.cpus
    requires forall i :: 0 <= i < NPROC ==> (s'.procs[i].state.Running? <==> s.procs[i].state.Running?)
    ensures CpusOk(s')
  {
    forall i | 0 <= i < NPROC && s'.procs[i].state.Running?
      ensures exists c :: On(s', c, i)
    {
      var c :| On(s, c, i);
      assert On(s', c, i);
    }
  }

  lemma CpusOff(s: State, s': State, cpu: nat)
    requires CpusOk(s) && Runs(s, cpu) && s'.cpus == s.cpus[cpu := None]
    requires forall i :: 0 <= i < NPROC ==>
      (s'.procs[i].state.Running? <==> s.procs[i].state.Running? && i != s.cpus[cpu].value)
    ensures CpusOk(s')
  {
    forall i | 0 <= i < NPROC && s'.procs[i].state.Running?
      ensures exists c :: On(s', c, i)
    {
      var c :| On(s, c, i);
      assert On(s', c, i);
    }
  }

  lemma CpusOn(s: State, s': State, cpu: nat, p: nat)
    requires CpusOk(s) && cpu < |s.cpus| && s.cpus[cpu].None? && p < NPROC && !s.procs[p].state.Running?
    requires s'.cpus == s.cpus[cpu := Some(p)]
    requires forall i :: 0 <= i < NPROC ==> (s'.procs[i].state.Running? <==> s.procs[i].state.Running? || i == p)
    ensures CpusOk(s')
  {
    forall i | 0 <= i < NPROC && s'.procs[i].state.Running?
      ensures exists c :: On(s', c, i)
    {
      if i == p {
        assert On(s', cpu, i);
      } else {
        var c :| On(s, c, i);
        assert On(s', c, i);
      }
    }
  }

  predicate Stirring(ev: Event) {
    match ev
    case By(_, act) => act.Yield? || act.Sleep? || act.WaitSleep?
    case _ => true
  }

  lemma StirringKeeps(s: State, ev: Event)
    requires Inv(s) && Enabled(s, ev) && Stirring(ev)
    ensures Inv(Apply(s, ev))
  {
    hide ParentsOk, HistoryOk, PidsOk, WaitsOk;
    var s' := Apply(s, ev);
    var me := if ev.By? && ev.act.WaitSleep? then s.cpus[ev.cpu].value else NPROC;
    assert Stirred(s.procs, s'.procs);
    ParentsStirred(s.procs, s'.procs);
    PidsStirred(s.procs, s'.procs, s.nextpid);
    HistoryStirred(s, s');
    WaitsStirred(s.procs, s'.procs, me);
    StirringCpus(s, ev);
  }

  lemma StirringCpus(s: State, ev: Event)
    requires CpusOk(s) && Enabled(s, ev) && Stirring(ev)
    ensures CpusOk(Apply(s, ev))
  {
    var s' := Apply(s, ev);
    match ev {
      case By(cpu, _) => CpusOff(s, s', cpu);
      case Schedule(cpu, p) => CpusOn(s, s', cpu, p);
      case _ => CpusSame(s, s');
    }
  }

  // ---- fork

  predicate ForkStep(act: Act) {
    act.ForkAlloc? || act.ForkFail? || act.ForkParent? || act.ForkPublish?
  }

  lemma ForkKeeps(s: State, cpu: nat, me: nat, act: Act)
    requires Inv(s) && On(s, cpu, me) && CanDo(s.procs, me, act) && ForkStep(act)
    ensures Inv(Do(s, cpu, me, act))
  {
    hide ParentsOk, WaitsOk, HistoryOk, PidsOk;
    ForkParents(s, cpu, me, act);
    ForkWaits(s, cpu, me, act);
    ForkPids(s, cpu, me, act);
    ForkHistory(s, cpu, me, act);
    CpusSame(s, Do(s, cpu, me, act));
  }

  lemma ForkParents(s: State, cpu: nat, me: nat, act: Act)
    requires ParentsOk(s.procs) && cpu < |s.cpus| && LiveSlot(s.procs, me) && CanDo(s.procs, me, act) && ForkStep(act)
    ensures ParentsOk(Do(s, cpu, me, act).procs)
  {
    var t, t', e := s.procs, Do(s, cpu, me, act).procs, act.e;
    assert SlotOk(t, e);
    forall i | 0 <= i < NPROC
      ensures SlotOk(t', i)
    {
      assert SlotOk(t, i);
    }
  }

  lemma ForkWaits(s: State, cpu: nat, me: nat, act: Act)
    requires ParentsOk(s.procs) && WaitsOk(s.procs) && cpu < |s.cpus| && me < NPROC && CanDo(s.procs, me, act)
      && ForkStep(act)
    ensures WaitsOk(Do(s, cpu, me, act).procs)
  {
    hide ParentsOk;
    var t, t', e := s.procs, Do(s, cpu, me, act).procs, act.e;
    forall i: nat | InWait(t', i)
      ensures exists c :: Child(t', c, i)
    {
      assert InWait(t, i);
      var c :| Child(t, c, i);
      assert Child(t', c, i);
    }
    forall i: nat, z: nat | InWait(t', i)
      ensures !ZombieChild(t', z, i)
    {
      assert InWait(t, i) && !ZombieChild(t, z, i);
    }
  }

  lemma ForkPids(s: State, cpu: nat, me: nat, act: Act)
    requires PidsOk(s.procs, s.nextpid) && cpu < |s.cpus| && me < NPROC && CanDo(s.procs, me, act) && ForkStep(act)
    ensures PidsOk(Do(s, cpu, me, act).procs, Do(s, cpu, me, act).nextpid)
  {
  }

  lemma ForkHistory(s: State, cpu: nat, me: nat, act: Act)
    requires PidsOk(s.procs, s.nextpid) && HistoryOk(s) && cpu < |s.cpus| && me < NPROC && CanDo(s.procs, me, act)
      && ForkStep(act)
    ensures HistoryOk(Do(s, cpu, me, act))
  {
    var s' := Do(s, cpu, me, act);
    forall pid | pid in s'.exits
      ensures Accounted(s', pid)
    {
      StillAccounted(s, s', act.e, pid);
    }
  }

  /** Only a reaping takes a zombie out of the table. */
  lemma StillAccounted(s: State, s': State, e: nat, pid: nat)
    requires Accounted(s, pid) && s.reaps <= s'.reaps && e < NPROC && !s.procs[e].state.Zombie?
    requires s'.procs == s.procs[e := s'.procs[e]]
    ensures Accounted(s', pid)
  {
    if i :| 0 <= i < NPROC && s.procs[i].state.Zombie? && s.procs[i].pid == pid {
      assert s'.procs[i].pid == pid;
    } else {
      var k :| 0 <= k < |s.reaps| && s.reaps[k].pid == pid;
      assert s'.reaps[k].pid == pid;
    }
  }

  // ---- wait

  lemma ReapKeeps(s: State, cpu: nat, me: nat, z: nat)
    requires Inv(s) && On(s, cpu, me) && CanDo(s.procs, me, WaitReap(z))
    ensures Inv(Do(s, cpu, me, WaitReap(z)))
  {
    hide ParentsOk, WaitsOk, HistoryOk, PidsOk;
    var s' := Do(s, cpu, me, WaitReap(z));
    ReapParents(s.procs, z);
    ReapWaits(s.procs, me, z);
    ReapPids(s.procs, s.nextpid, z);
    ReapHistory(s, cpu, me, z);
    CpusSame(s, s');
  }

  lemma ReapParents(t: Table, z: nat)
    requires ParentsOk(t) && z < NPROC && t[z].state.Zombie?
    ensures ParentsOk(t[z := Reap(t[z])])
  {
    var t' := t[z := Reap(t[z])];
    forall i | 0 <= i < NPROC
      ensures SlotOk(t', i)
    {
      assert SlotOk(t, i);
    }
  }

  lemma ReapWaits(t: Table, me: nat, z: nat)
    requires WaitsOk(t) && me < NPROC && !t[me].state.Sleeping? && ZombieChild(t, z, me)
    ensures WaitsOk(t[z := Reap(t[z])])
  {
    var t' := t[z := Reap(t[z])];
    forall i: nat | InWait(t', i)
      ensures exists c :: Child(t', c, i)
    {
      assert InWait(t, i);
      var c :| Child(t, c, i);
      assert Child(t', c, i);
    }
    forall i: nat, c: nat | InWait(t', i)
      ensures !ZombieChild(t', c, i)
    {
      assert InWait(t, i) && !ZombieChild(t, c, i);
    }
  }

  lemma ReapPids(t: Table, nextpid: nat, z: nat)
    requires PidsOk(t, nextpid) && z < NPROC
    ensures PidsOk(t[z := Reap(t[z])], nextpid)
  {
  }

  lemma ReapHistory(s: State, cpu: nat, me: nat, z: nat)
    requires PidsOk(s.procs, s.nextpid) && HistoryOk(s) && cpu < |s.cpus| && me < NPROC
      && CanDo(s.procs, me, WaitReap(z))
    ensures HistoryOk(Do(s, cpu, me, WaitReap(z)))
  {
    hide Accounted;
    var s' := Do(s, cpu, me, WaitReap(z));
    forall pid | pid in s'.exits
      ensures Accounted(s', pid)
    {
      ReapAccounted(s, s', z, pid);
    }
  }

  lemma ReapAccounted(s: State, s': State, z: nat, pid: nat)
    requires Accounted(s, pid) && z < NPROC && s'.procs == s.procs[z := Reap(s.procs[z])]
    requires s'.reaps == s.reaps + [Reaping(s.procs[z].pid, s.procs[z].status)]
    ensures Accounted(s', pid)
  {
    if pid == s.procs[z].pid {
      assert s'.reaps[|s.reaps|].pid == pid;
    } else if i :| 0 <= i < NPROC && s.procs[i].state.Zombie? && s.procs[i].pid == pid {
      assert s'.procs[i] == s.procs[i];
    } else {
      var k :| 0 <= k < |s.reaps| && s.reaps[k].pid == pid;
      assert s'.reaps[k].pid == pid;
    }
  }

  // ---- exit

  lemma ExitKeeps(s: State, cpu: nat, me: nat, status: int)
    requires Inv(s) && On(s, cpu, me) && CanDo(s.procs, me, Exit(status))
    ensures Inv(Do(s, cpu, me, Exit(status)))
  {
    hide ParentsOk, WaitsOk, HistoryOk, PidsOk, Leaving;
    var s' := Do(s, cpu, me, Exit(status));
    ExitParents(s.procs, me, status);
    ExitWaits(s.procs, me, status);
    ExitPids(s.procs, s.nextpid, me, status);
    ExitHistory(s, cpu, me, status);
    ExitStates(s.procs, me, status);
    CpusOff(s, s', cpu);
  }

  /** What exit does to the other slots: wakes some, gives its children to init. */
  lemma ExitStates(t: Table, me: nat, status: int)
    requires me < NPROC && t[me].state.Running?
    ensures var t' := Exited(t, me, status);
      && t'[me].state.Zombie? && t'[me].status == status
      && (forall i :: 0 <= i < NPROC ==>
        t'[i].pid == t[i].pid && t'[i].forker == t[i].forker && t'[i].chan == t[i].chan)
      && (forall i :: 0 <= i < NPROC ==> t'[i].parent == if t[i].parent == Some(me) then Some(INIT) else t[i].parent)
      && (forall i :: 0 <= i < NPROC && i != me ==> t'[i].status == t[i].status)
      && (forall i :: 0 <= i < NPROC && i != me ==>
        t'[i].state == t[i].state || (t[i].state.Sleeping? && t'[i].state.Runnable?))
  {
  }

  lemma ExitParents(t: Table, me: nat, status: int)
    requires ParentsOk(t) && me < NPROC && t[me].state.Running? && me != INIT && !Forking(t, me)
    ensures ParentsOk(Exited(t, me, status))
  {
    hide Exited;
    ExitStates(t, me, status);
    var t' := Exited(t, me, status);
    forall i | 0 <= i < NPROC
      ensures SlotOk(t', i)
    {
      assert SlotOk(t, i);
      if t[i].state.Embryo? {
        assert !Making(t, i, me);
      }
    }
  }

  lemma ExitWaits(t: Table, me: nat, status: int)
    requires ParentsOk(t) && WaitsOk(t) && me < NPROC && t[me].state.Running? && me != INIT
    ensures WaitsOk(Exited(t, me, status))
  {
    var t' := Exited(t, me, status);
    ExitStates(t, me, status);
    assert SlotOk(t, me);
    forall i: nat | InWait(t', i)
      ensures exists c :: Child(t', c, i)
    {
      assert InWait(t, i);
      var c :| Child(t, c, i);
      assert Child(t', c, i);
    }
    forall i: nat, z: nat | InWait(t', i)
      ensures !ZombieChild(t', z, i)
    {
      assert InWait(t, i) && !ZombieChild(t, z, i);
      if z != me && ZombieChild(t', z, i) {
        assert ZombieChild(t, z, me) && 0 <= z < NPROC;
      }
    }
  }

  lemma ExitPids(t: Table, nextpid: nat, me: nat, status: int)
    requires PidsOk(t, nextpid) && me < NPROC && t[me].state.Running?
    ensures PidsOk(Exited(t, me, status), nextpid)
  {
    hide Exited;
    ExitStates(t, me, status);
  }

  lemma ExitAccounted(s: State, cpu: nat, me: nat, status: int, pid: nat)
    requires HistoryOk(s) && cpu < |s.cpus| && me < NPROC && s.procs[me].state.Running?
    requires CanDo(s.procs, me, Exit(status)) && (pid in s.exits || pid == s.procs[me].pid)
    ensures Accounted(Do(s, cpu, me, Exit(status)), pid)
  {
    hide Exited;
    var s' := Do(s, cpu, me, Exit(status));
    ExitStates(s.procs, me, status);
    if pid == s.procs[me].pid {
      assert s'.procs[me].pid == pid;
    } else {
      assert Accounted(s, pid);
      if i :| 0 <= i < NPROC && s.procs[i].state.Zombie? && s.procs[i].pid == pid {
        assert s'.procs[i].pid == pid;
      }
    }
  }

  lemma ExitHistory(s: State, cpu: nat, me: nat, status: int)
    requires PidsOk(s.procs, s.nextpid) && HistoryOk(s) && cpu < |s.cpus| && me < NPROC && s.procs[me].state.Running?
    requires CanDo(s.procs, me, Exit(status))
    ensures HistoryOk(Do(s, cpu, me, Exit(status)))
  {
    hide Exited, Accounted;
    var s' := Do(s, cpu, me, Exit(status));
    ExitStates(s.procs, me, status);
    forall pid | pid in s'.exits
      ensures Accounted(s', pid)
    {
      ExitAccounted(s, cpu, me, status, pid);
    }
  }

  lemma StepKeeps(s: State, ev: Event)
    requires Inv(s) && Enabled(s, ev)
    ensures Inv(Apply(s, ev))
  {
    hide Inv, CanDo, Do;
    if Stirring(ev) {
      StirringKeeps(s, ev);
    } else {
      var me := s.cpus[ev.cpu].value;
      if ev.act.Exit? {
        ExitKeeps(s, ev.cpu, me, ev.act.status);
      } else if ev.act.WaitReap? {
        ReapKeeps(s, ev.cpu, me, ev.act.z);
      } else {
        ForkKeeps(s, ev.cpu, me, ev.act);
      }
    }
  }

  /** s' is reached from s by these steps. */
  ghost predicate Run(s: State, evs: seq<Event>, s': State)
    decreases |evs|
  {
    if evs == [] then s' == s else Enabled(s, evs[0]) && Run(Apply(s, evs[0]), evs[1..], s')
  }

  /** Every state that any run of any length on any number of processors reaches is good. */
  lemma {:induction false} RunKeeps(s: State, evs: seq<Event>, s': State)
    requires Inv(s) && Run(s, evs, s')
    ensures Inv(s')
    decreases |evs|
  {
    hide Inv, Enabled, Apply;
    if evs != [] {
      StepKeeps(s, evs[0]);
      RunKeeps(Apply(s, evs[0]), evs[1..], s');
    }
  }

  /**
    The life of a process, in every state that boot and any steps lead to: parents are
    live processes, ids are not shared, a parent asleep in wait has something to wait for
    and nothing to reap, and wait returns each exited child once with its own status.
   */
  lemma {:induction false} Lifecycle(ncpu: nat, evs: seq<Event>, s: State)
    requires Run(Boot(ncpu), evs, s)
    ensures forall i, p :: Child(s.procs, i, p) ==> LiveSlot(s.procs, p) && p != i
    ensures forall i :: 0 < i < NPROC && (Live(s.procs[i]) || s.procs[i].state.Zombie?) ==>
      exists p :: Child(s.procs, i, p)
    ensures forall i, j :: 0 <= i < j < NPROC && !s.procs[i].state.Unused? && !s.procs[j].state.Unused? ==>
      s.procs[i].pid != s.procs[j].pid
    ensures forall i :: InWait(s.procs, i) ==>
      (forall z :: !ZombieChild(s.procs, z, i)) && exists c :: Child(s.procs, c, i)
    ensures forall k, l :: 0 <= k < l < |s.reaps| ==> s.reaps[k].pid != s.reaps[l].pid
    ensures forall k :: 0 <= k < |s.reaps| ==> s.reaps[k].pid in s.exits && s.exits[s.reaps[k].pid] == s.reaps[k].status
    ensures forall pid :: pid in s.exits ==> Accounted(s, pid)
    ensures forall c, d :: 0 <= c < d < |s.cpus| && s.cpus[c].Some? ==> s.cpus[c] != s.cpus[d]
  {
    BootInv(ncpu);
    RunKeeps(Boot(ncpu), evs, s);
    ParentFacts(s.procs);
  }

  lemma ParentFacts(t: Table)
    requires ParentsOk(t)
    ensures forall i, p :: Child(t, i, p) ==> LiveSlot(t, p) && p != i
    ensures forall i :: 0 < i < NPROC && (Live(t[i]) || t[i].state.Zombie?) ==> exists p :: Child(t, i, p)
  {
    forall i: nat, p: nat | Child(t, i, p)
      ensures LiveSlot(t, p) && p != i
    {
      assert SlotOk(t, i);
    }
    forall i | 0 < i < NPROC && (Live(t[i]) || t[i].state.Zombie?)
      ensures exists p :: Child(t, i, p)
    {
      assert SlotOk(t, i);
      assert Child(t, i, t[i].parent.value);
    }
  }

  // ---- Free slots: what a failed fork and a kill leave behind.

  /** The states of a run, from boot on, and the steps between them. */
  ghost predicate Trace(ncpu: nat, ss: seq<State>, evs: seq<Event>) {
    && |ss| == |evs| + 1 && ss[0] == Boot(ncpu)
    && forall k :: 0 <= k < |evs| ==> Enabled(ss[k], evs[k]) && ss[k + 1] == Apply(ss[k], evs[k])
  }

  lemma {:induction false} TraceInv(ncpu: nat, ss: seq<State>, evs: seq<Event>, n: nat)
    requires Trace(ncpu, ss, evs) && n < |ss|
    ensures Inv(ss[n])
  {
    hide Inv, Enabled, Apply;
    if n == 0 {
      BootInv(ncpu);
    } else {
      TraceInv(ncpu, ss, evs, n - 1);
      StepKeeps(ss[n - 1], evs[n - 1]);
    }
  }

  predicate Reaps(ev: Event, i: nat) {
    ev.By? && ev.act == WaitReap(i)
  }

  predicate FailsFork(ev: Event, i: nat) {
    ev.By? && ev.act == ForkFail(i)
  }

  predicate Targets(ev: Event, i: nat) {
    ev.Kill? && ev.target == i
  }

  /** One step, seen from slot i: what can change its pid, its killed flag and whether it is in use. */
  lemma SlotStep(s: State, ev: Event, i: nat)
    requires Inv(s) && Enabled(s, ev) && i < NPROC
    ensures var p, p' := s.procs[i], Apply(s, ev).procs[i];
      && p'.killed == (Targets(ev, i) || (p.killed && !Reaps(ev, i)))
      && (Reaps(ev, i) ==> p.state.Zombie? && p'.state.Unused? && p'.pid == 0)
      && (FailsFork(ev, i) ==> p.state.Embryo? && p'.state.Unused? && p'.pid == p.pid)
      && (p.state.Unused? && p'.state.Unused? ==> p'.pid == p.pid)
      && (!p.state.Unused? && p'.state.Unused? ==> Reaps(ev, i) || FailsFork(ev, i))
      && (Live(p) || p.state.Zombie? ==> Live(p') || p'.state.Zombie? || Reaps(ev, i))
  {
    hide CpusOk, WaitsOk, HistoryOk, PidsOk;
    if ev.By? && ev.act.Exit? {
      ExitSlot(s, ev, i);
    } else if Stirring(ev) {
      StirringSlot(s, ev, i);
    } else {
      hide Exited, Leaving;
    }
  }

  lemma StirringSlot(s: State, ev: Event, i: nat)
    requires Inv(s) && Enabled(s, ev) && Stirring(ev) && i < NPROC
    ensures var p, p' := s.procs[i], Apply(s, ev).procs[i];
      p'.killed == (p.killed || Targets(ev, i)) && p'.pid == p.pid && (p'.state == p.state || (Live(p) && Live(p')))
  {
    hide ParentsOk, WaitsOk, HistoryOk, PidsOk, Exited;
  }

  lemma ExitSlot(s: State, ev: Event, i: nat)
    requires Inv(s) && Enabled(s, ev) && ev.By? && ev.act.Exit? && i < NPROC
    ensures var p, p' := s.procs[i], Apply(s, ev).procs[i];
      p'.killed == p.killed && p'.pid == p.pid
        && (p'.state == p.state || ((Live(p) || p.state.Zombie?) && (Live(p') || p'.state.Zombie?)))
  {
    hide ParentsOk, WaitsOk, HistoryOk, PidsOk;
  }

  // ---- The states of a process.

  /** Step ev is one by the process in slot i. */
  predicate ByOwner(s: State, ev: Event, i: nat) {
    ev.By? && On(s, ev.cpu, i)
  }

  /** The steps that change a slot from one state to another; no other changes exist. */
  predicate Changes(s: State, ev: Event, i: nat, a: Status, b: Status) {
    match (a, b)
    case (Unused, Embryo) => ev.By? && ev.act == ForkAlloc(i)
    case (Embryo, Unused) => ev.By? && ev.act == ForkFail(i)
    case (Embryo, Runnable) => ev.By? && ev.act == ForkPublish(i)
    case (Runnable, Running) => ev.Schedule? && ev.p == i
    case (Running, Runnable) => ByOwner(s, ev, i) && ev.act.Yield?
    case (Running, Sleeping) => ByOwner(s, ev, i) && (ev.act.Sleep? || ev.act.WaitSleep?)
    case (Running, Zombie) => ByOwner(s, ev, i) && ev.act.Exit?
    case (Sleeping, Runnable) => Targets(ev, i) || ev.Wakeup? || (ev.By? && ev.act.Exit?)
    case (Zombie, Unused) => ev.By? && ev.act == WaitReap(i)
    case (_, _) => false
  }

  /**
    A step moves a slot along one of these edges or leaves its state, and the steps named on an edge
    always move it.
   */
  lemma StateStep(s: State, ev: Event, i: nat)
    requires Inv(s) && Enabled(s, ev) && i < NPROC
    ensures var a, b := s.procs[i].state, Apply(s, ev).procs[i].state;
      && (a == b || Changes(s, ev, i, a, b))
      && (a != b <== exists c :: Changes(s, ev, i, a, c) && !a.Sleeping?)
  {
    hide WaitsOk, HistoryOk, PidsOk;
    if ev.By? && ev.act.Exit? {
      ExitState(s, ev, i);
    } else {
      hide Exited, Leaving;
    }
  }

  lemma ExitState(s: State, ev: Event, i: nat)
    requires Inv(s) && Enabled(s, ev) && ev.By? && ev.act.Exit? && i < NPROC
    ensures var a, b := s.procs[i].state, Apply(s, ev).procs[i].state;
      if On(s, ev.cpu, i) then a.Running? && b.Zombie? else a == b || (a.Sleeping? && b.Runnable?)
  {
    hide ParentsOk, WaitsOk, HistoryOk, PidsOk;
  }

  // ---- Sleepers: what wakes them.

  predicate AsleepOn(p: Proc, id: nat) {
    p.state.Sleeping? && p.chan == Elsewhere(id)
  }

  /** The process in slot i goes to sleep on this channel. */
  predicate Sleeps(s: State, ev: Event, i: nat, id: nat) {
    ev.By? && On(s, ev.cpu, i) && ev.act == Act.Sleep(id)
  }

  /**
    A step leaves slot i asleep on a channel exactly if it put it there, or found it there and was no
    wakeup or kill of it.
   */
  lemma SleepStep(s: State, ev: Event, i: nat, id: nat)
    requires Inv(s) && Enabled(s, ev) && i < NPROC
    ensures AsleepOn(Apply(s, ev).procs[i], id) <==>
      Sleeps(s, ev, i, id) || (AsleepOn(s.procs[i], id) && ev != Wakeup(id) && !Targets(ev, i))
  {
    hide ParentsOk, WaitsOk, HistoryOk, PidsOk;
    if ev.By? && ev.act.Exit? {
      ExitSleeper(s, ev, i, id);
    } else {
      hide Exited, Leaving;
    }
  }

  lemma ExitSleeper(s: State, ev: Event, i: nat, id: nat)
    requires Inv(s) && Enabled(s, ev) && ev.By? && ev.act.Exit? && i < NPROC
    ensures AsleepOn(Apply(s, ev).procs[i], id) <==> AsleepOn(s.procs[i], id)
  {
    hide ParentsOk, WaitsOk, HistoryOk, PidsOk;
  }

  /** kill never leaves its target asleep, on whatever channel, and changes nothing else. */
  lemma KillWakes(s: State, pid: int, target: nat)
    requires Enabled(s, Kill(pid, target))
    ensures var p, p' := s.procs[target], Apply(s, Kill(pid, target)).procs[target];
      && p'.killed && !p'.state.Sleeping? && (p.state.Sleeping? ==> p'.state.Runnable?)
      && (!p.state.Sleeping? ==> p'.state == p.state) && p'.pid == pid
    ensures forall i :: 0 <= i < NPROC && i != target ==> Apply(s, Kill(pid, target)).procs[i] == s.procs[i]
  {
  }

  /** Neither a wakeup of this channel nor a kill of slot i from step k to step n. */
  ghost predicate Undisturbed(evs: seq<Event>, k: nat, n: nat, i: nat, id: nat) {
    forall m :: k <= m < n && m < |evs| ==> evs[m] != Wakeup(id) && !Targets(evs[m], i)
  }

  ghost predicate SleptAt(ss: seq<State>, evs: seq<Event>, k: nat, n: nat, i: nat, id: nat) {
    k < n <= |evs| <= |ss| && Sleeps(ss[k], evs[k], i, id) && Undisturbed(evs, k + 1, n, i, id)
  }

  /**
    In every run a process is asleep on a channel exactly if it went to sleep there and has met
    neither a wakeup of that channel nor a kill since: no wakeup is missed and none is made up.
   */
  lemma {:induction false} AsleepIff(ncpu: nat, ss: seq<State>, evs: seq<Event>, n: nat, i: nat, id: nat)
    requires Trace(ncpu, ss, evs) && n < |ss| && i < NPROC
    ensures AsleepOn(ss[n].procs[i], id) <==> exists k: nat :: SleptAt(ss, evs, k, n, i, id)
  {
    hide Inv, Enabled, Apply, Sleeps, AsleepOn;
    if n == 0 {
      BootAwake(ncpu, i, id);
    } else {
      var m: nat := n - 1;
      AsleepIff(ncpu, ss, evs, m, i, id);
      TraceInv(ncpu, ss, evs, m);
      SleepStep(ss[m], evs[m], i, id);
      if AsleepOn(ss[n].procs[i], id) {
        if Sleeps(ss[m], evs[m], i, id) {
          assert SleptAt(ss, evs, m, n, i, id);
        } else {
          var k: nat :| SleptAt(ss, evs, k, m, i, id);
          assert SleptAt(ss, evs, k, n, i, id);
        }
      }
      forall k: nat | SleptAt(ss, evs, k, n, i, id)
        ensures AsleepOn(ss[n].procs[i], id)
      {
        assert k == m || SleptAt(ss, evs, k, m, i, id);
      }
    }
  }

  lemma BootAwake(ncpu: nat, i: nat, id: nat)
    requires i < NPROC
    ensures !AsleepOn(Boot(ncpu).procs[i], id)
  {
  }

  /** No reaping of slot i from step k on. */
  ghost predicate NoReap(evs: seq<Event>, k: nat, n: nat, i: nat) {
    forall m :: k <= m < n && m < |evs| ==> !Reaps(evs[m], i)
  }

  /** The killed flag records a kill since the slot was last reaped. */
  lemma {:induction false} KilledIff(ncpu: nat, ss: seq<State>, evs: seq<Event>, n: nat, i: nat)
    requires Trace(ncpu, ss, evs) && n < |ss| && i < NPROC
    ensures ss[n].procs[i].killed <==> exists k :: 0 <= k < n && Targets(evs[k], i) && NoReap(evs, k, n, i)
  {
    hide Inv, Enabled, Apply;
    if n > 0 {
      KilledIff(ncpu, ss, evs, n - 1, i);
      TraceInv(ncpu, ss, evs, n - 1);
      SlotStep(ss[n - 1], evs[n - 1], i);
      if ss[n].procs[i].killed {
        var k := if Targets(evs[n - 1], i) then n - 1 else KillBefore(ss, evs, n - 1, i);
        assert Targets(evs[k], i) && NoReap(evs, k, n, i);
      }
      if k :| 0 <= k < n && Targets(evs[k], i) && NoReap(evs, k, n, i) {
        assert k < n - 1 ==> NoReap(evs, k, n - 1, i);
      }
    }
  }

  ghost function KillBefore(ss: seq<State>, evs: seq<Event>, n: nat, i: nat): (k: nat)
    requires n <= |evs| && exists k :: 0 <= k < n && Targets(evs[k], i) && NoReap(evs, k, n, i)
    ensures k < n && Targets(evs[k], i) && NoReap(evs, k, n, i)
  {
    var k :| 0 <= k < n && Targets(evs[k], i) && NoReap(evs, k, n, i);
    k
  }

  /** A slot in use stays in use until it is reaped. */
  lemma {:induction false} InUse(ncpu: nat, ss: seq<State>, evs: seq<Event>, k: nat, n: nat, i: nat)
    requires Trace(ncpu, ss, evs) && k <= n < |ss| && i < NPROC && NoReap(evs, k, n, i)
    requires Live(ss[k].procs[i]) || ss[k].procs[i].state.Zombie?
    ensures Live(ss[n].procs[i]) || ss[n].procs[i].state.Zombie?
  {
    hide Inv, Enabled, Apply;
    if k < n {
      InUse(ncpu, ss, evs, k, n - 1, i);
      TraceInv(ncpu, ss, evs, n - 1);
      SlotStep(ss[n - 1], evs[n - 1], i);
    }
  }

  /**
    A process starts out killed exactly when its slot, still free or already an embryo, was
    the target of a kill after the last process there was reaped.
   */
  lemma BornKilledIff(ncpu: nat, ss: seq<State>, evs: seq<Event>, n: nat, i: nat)
    requires Trace(ncpu, ss, evs) && n < |ss| && i < NPROC
      && (ss[n].procs[i].state.Unused? || ss[n].procs[i].state.Embryo?)
    ensures ss[n].procs[i].killed <==>
      exists k :: 0 <= k < n && Targets(evs[k], i) && NoReap(evs, k, n, i)
        && (ss[k].procs[i].state.Unused? || ss[k].procs[i].state.Embryo?)
  {
    hide Inv, Enabled, Apply;
    KilledIff(ncpu, ss, evs, n, i);
    if ss[n].procs[i].killed {
      var k := KillBefore(ss, evs, n, i);
      if Live(ss[k].procs[i]) || ss[k].procs[i].state.Zombie? {
        InUse(ncpu, ss, evs, k, n, i);
        assert false;
      }
      assert Targets(evs[k], i) && NoReap(evs, k, n, i)
        && (ss[k].procs[i].state.Unused? || ss[k].procs[i].state.Embryo?);
    }
  }

  /** Slot i has been free since a fork that failed at step k. */
  ghost predicate FailedAt(ss: seq<State>, evs: seq<Event>, k: nat, n: nat, i: nat) {
    k < n < |ss| && k < |evs| && i < NPROC && FailsFork(evs[k], i)
      && forall m :: k < m <= n ==> ss[m].procs[i].state.Unused?
  }

  /** A free slot has a pid exactly if its last use was a fork that failed, and then it is that one's. */
  lemma {:induction false} StalePid(ncpu: nat, ss: seq<State>, evs: seq<Event>, n: nat, i: nat)
    requires Trace(ncpu, ss, evs) && n < |ss| && i < NPROC && ss[n].procs[i].state.Unused?
    ensures ss[n].procs[i].pid != 0 <==> exists k: nat :: FailedAt(ss, evs, k, n, i)
    ensures forall k: nat :: FailedAt(ss, evs, k, n, i) ==> ss[n].procs[i].pid == ss[k].procs[i].pid
  {
    hide Inv, Enabled, Apply;
    if n > 0 {
      TraceInv(ncpu, ss, evs, n - 1);
      SlotStep(ss[n - 1], evs[n - 1], i);
      EmbryoPid(ss[n - 1], i);
      if ss[n - 1].procs[i].state.Unused? {
        StalePid(ncpu, ss, evs, n - 1, i);
        var m: nat := n - 1;
        if exists k: nat :: FailedAt(ss, evs, k, m, i) {
          var k: nat :| FailedAt(ss, evs, k, m, i);
          assert FailedAt(ss, evs, k, n, i);
        }
        forall k: nat | k < m
          ensures FailedAt(ss, evs, k, n, i) <==> FailedAt(ss, evs, k, m, i)
        {
        }
      } else if FailsFork(evs[n - 1], i) {
        assert FailedAt(ss, evs, n - 1, n, i);
      }
    }
  }

  lemma EmbryoPid(s: State, i: nat)
    requires Inv(s) && i < NPROC
    ensures !s.procs[i].state.Unused? ==> s.procs[i].pid > 0
  {
    hide CpusOk, ParentsOk, WaitsOk, HistoryOk;
  }

  /**
    kill in any run: the slot it marks is a process in use, or a free slot, and that only for
    pid 0 or the pid of the fork that last failed there.
   */
  lemma KillHits(ncpu: nat, ss: seq<State>, evs: seq<Event>, n: nat, pid: int, target: nat)
    requires Trace(ncpu, ss, evs) && n < |ss| && FirstPid(ss[n].procs, target, pid)
    ensures !ss[n].procs[target].state.Unused? <==>
      exists i :: 0 <= i < NPROC && !ss[n].procs[i].state.Unused? && ss[n].procs[i].pid == pid
    ensures ss[n].procs[target].state.Unused? ==>
      pid == 0 || exists k: nat :: FailedAt(ss, evs, k, n, target) && ss[k].procs[target].pid == pid
  {
    TraceInv(ncpu, ss, evs, n);
    hide CpusOk, ParentsOk, WaitsOk, HistoryOk, Trace;
    if ss[n].procs[target].state.Unused? {
      StalePid(ncpu, ss, evs, n, target);
    }
  }

  lemma TraceMore(ncpu: nat, ss: seq<State>, evs: seq<Event>, ev: Event) returns (ss': seq<State>, evs': seq<Event>)
    requires Trace(ncpu, ss, evs) && Enabled(ss[|evs|], ev)
    ensures Trace(ncpu, ss', evs') && |evs'| == |evs| + 1 && ss'[|evs'|] == Apply(ss[|evs|], ev)
  {
    hide Enabled, Apply;
    ss', evs' := ss + [Apply(ss[|evs|], ev)], evs + [ev];
  }

  /** kill(0) succeeds on a free slot, and the next process made there starts out killed. */
  lemma BornKilled()
    ensures exists ss: seq<State>, evs: seq<Event> ::
      Trace(1, ss, evs) && ss[|evs|].procs[1].state.Embryo? && ss[|evs|].procs[1].killed
  {
    var ss, evs := TraceMore(1, [Boot(1)], [], Kill(0, 1));
    ss, evs := TraceMore(1, ss, evs, Schedule(0, INIT));
    assert !Forking(ss[|evs|].procs, INIT);
    ss, evs := TraceMore(1, ss, evs, By(0, ForkAlloc(1)));
    assert ss[|evs|].procs[1].killed;
  }

  /**
    A fork that fails leaves its pid behind, and a kill that reached it: the slot is free, killed, and
    still killable by that pid.
   */
  lemma FailedForkKilled()
    ensures exists ss: seq<State>, evs: seq<Event> ::
      Trace(1, ss, evs) && ss[|evs|].procs[1].state.Unused? && ss[|evs|].procs[1].killed && ss[|evs|].procs[1].pid == 2
  {
    var ss, evs := TraceMore(1, [Boot(1)], [], Schedule(0, INIT));
    assert !Forking(ss[|evs|].procs, INIT);
    ss, evs := TraceMore(1, ss, evs, By(0, ForkAlloc(1)));
    ss, evs := TraceMore(1, ss, evs, Kill(2, 1));
    ss, evs := TraceMore(1, ss, evs, By(0, ForkFail(1)));
    assert ss[|evs|].procs[1].killed;
  }
}
