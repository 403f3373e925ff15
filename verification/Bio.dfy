/**
  The buffer cache (bio.c) over the in-memory disk driver (memide.c).

  Every method is one critical section or one call of the source; processes
  interleave by calling them in any order.  Waiting for a sleep-lock is a call
  that is not made until the lock is free, and a panic is a `None` or `false`
  result after which the machine has halted.
 */
module Bio {
  import opened Blocks
  import opened Options

  const NBUF: nat := 30

  // Index of bcache.head among the links.
  const HEAD: nat := 30

  datatype Buf = Buf(dev: Word, blockno: Word, valid: bool, dirty: bool, refcnt: nat, data: Block)

  predicate Match(b: Buf, dev: int, blockno: int) {
    b.dev == dev && b.blockno == blockno
  }

  predicate Recyclable(b: Buf) {
    b.refcnt == 0 && !b.dirty
  }

  function Succ(ring: seq<nat>, i: nat): nat {
    if i + 1 >= |ring| then 0 else i + 1
  }

  /** The next/prev pointers thread the circular list `ring`, which starts at the head. */
  ghost predicate RingOk(next: seq<nat>, prev: seq<nat>, ring: seq<nat>) {
    && |next| == NBUF + 1 && |prev| == NBUF + 1
    && (forall i :: 0 <= i <= NBUF ==> next[i] <= NBUF && prev[i] <= NBUF)
    && |ring| >= 1 && ring[0] == HEAD
    && (forall i :: 0 <= i < |ring| ==> ring[i] <= NBUF)
    && (forall i, j :: 0 <= i < j < |ring| ==> ring[i] != ring[j])
    && (forall i {:trigger Succ(ring, i)} :: 0 <= i < |ring| ==> next[ring[i]] == ring[Succ(ring, i)])
    && (forall i {:trigger Succ(ring, i)} :: 0 <= i < |ring| ==> prev[ring[Succ(ring, i)]] == ring[i])
  }

  /** The list holds every buffer, most recently released first. */
  ghost predicate Recency(ring: seq<nat>, stamp: seq<int>, clock: int) {
    && |ring| == NBUF + 1 && |stamp| == NBUF
    && (forall i :: 0 <= i <= NBUF ==> i in ring)
    && (forall i :: 0 <= i < |ring| ==> ring[i] <= NBUF)
    && (forall i :: 1 <= i < |ring| ==> ring[i] < NBUF && stamp[ring[i]] < clock)
    && (forall i, j :: 1 <= i < j < |ring| ==> ring[i] < NBUF && ring[j] < NBUF && stamp[ring[i]] > stamp[ring[j]])
  }

  /** At most one buffer per block of a real device. */
  ghost predicate Unique(bufs: seq<Buf>) {
    forall i, j {:trigger bufs[i].blockno, bufs[j].blockno} ::
      0 <= i < j < |bufs| && bufs[i].dev != 0 && bufs[i].dev == bufs[j].dev ==> bufs[i].blockno != bufs[j].blockno
  }

  /**
    `view` is what a reader of each block gets.  It differs from the disk only in
    blocks whose buffer is dirty or in a holder's hands.
   */
  ghost predicate Agrees(bufs: seq<Buf>, locked: seq<bool>, disk: seq<Block>, view: seq<Block>) {
    && |bufs| == NBUF && |locked| == NBUF && |view| == |disk|
    && (forall i :: 0 <= i < NBUF && bufs[i].valid ==>
          bufs[i].dev == 1 && bufs[i].blockno < |disk| && view[bufs[i].blockno] == bufs[i].data)
    && (forall i :: 0 <= i < NBUF && bufs[i].dirty ==> bufs[i].valid)
    && (forall i :: 0 <= i < NBUF && locked[i] ==> bufs[i].refcnt > 0)
    && (forall i :: 0 <= i < NBUF && bufs[i].valid && !bufs[i].dirty && !locked[i] ==>
          bufs[i].data == disk[bufs[i].blockno])
    && (forall b :: 0 <= b < |disk| && view[b] != disk[b] ==>
          exists i :: 0 <= i < NBUF && bufs[i].valid && Match(bufs[i], 1, b))
  }

  function Pushed(ring: seq<nat>, b: nat): (r: seq<nat>)
    requires |ring| >= 1
    ensures |r| == |ring| + 1 && r[0] == HEAD && r[1] == b
    ensures forall i :: 2 <= i < |r| ==> r[i] == ring[i - 1]
  {
    [HEAD, b] + ring[1..]
  }

  /** Linking b in behind the head, as binit and brelse do. */
  lemma PushFront(next: seq<nat>, prev: seq<nat>, ring: seq<nat>, b: nat)
    requires RingOk(next, prev, ring) && b < NBUF && b !in ring
    ensures RingOk(next[b := next[HEAD]][HEAD := b], prev[b := HEAD][next[HEAD] := b], Pushed(ring, b))
  {
    var ring' := Pushed(ring, b);
    var next', prev' := next[b := next[HEAD]][HEAD := b], prev[b := HEAD][next[HEAD] := b];
    assert next[HEAD] == ring[Succ(ring, 0)];
    forall i {:trigger Succ(ring', i)} | 0 <= i < |ring'|
      ensures next'[ring'[i]] == ring'[Succ(ring', i)]
      ensures prev'[ring'[Succ(ring', i)]] == ring'[i]
    {
      if i >= 2 {
        var t := Succ(ring, i - 1);
        assert next[ring[i - 1]] == ring[t] && prev[ring[t]] == ring[i - 1];
        assert ring'[Succ(ring', i)] == ring[t];
      }
    }
  }

  function Without(ring: seq<nat>, k: nat): (r: seq<nat>)
    requires k < |ring|
    ensures |r| == |ring| - 1
    ensures forall i :: 0 <= i < |r| ==> r[i] == if i < k then ring[i] else ring[i + 1]
  {
    ring[..k] + ring[k + 1..]
  }

  /** Taking the k-th list member out. */
  lemma Unlink(next: seq<nat>, prev: seq<nat>, ring: seq<nat>, k: nat)
    requires RingOk(next, prev, ring) && 1 <= k < |ring|
    ensures RingOk(next[prev[ring[k]] := next[ring[k]]], prev[next[ring[k]] := prev[ring[k]]], Without(ring, k))
  {
    var ring' := Without(ring, k);
    var s := Succ(ring, k);
    assert ring[Succ(ring, k - 1)] == ring[k];
    assert prev[ring[k]] == ring[k - 1] && next[ring[k]] == ring[s];
    forall i {:trigger Succ(ring', i)} | 0 <= i < |ring'|
      ensures next[ring[k - 1] := ring[s]][ring'[i]] == ring'[Succ(ring', i)]
      ensures prev[ring[s] := ring[k - 1]][ring'[Succ(ring', i)]] == ring'[i]
    {
      var j := if i < k then i else i + 1;
      var t := Succ(ring, j);
      assert next[ring[j]] == ring[t] && prev[ring[t]] == ring[j];
    }
  }

  /** Both steps of brelse's pointer surgery: out of place k, in behind the head. */
  lemma Relink(next: seq<nat>, prev: seq<nat>, ring: seq<nat>, b: nat) returns (k: nat)
    requires RingOk(next, prev, ring) && b < NBUF && b in ring
    ensures 1 <= k < |ring| && ring[k] == b
    ensures
      var prev1 := prev[next[b] := prev[b]];
      && prev1[b] <= NBUF
      && var next1 := next[prev1[b] := next[b]];
      && next1[HEAD] <= NBUF
      && RingOk(next1[b := next1[HEAD]][HEAD := b], prev1[b := HEAD][next1[HEAD] := b], Pushed(Without(ring, k), b))
  {
    k :| 0 <= k < |ring| && ring[k] == b;
    Unlink(next, prev, ring, k);
    assert next[b] == ring[Succ(ring, k)] != b;
    PushFront(next[prev[b] := next[b]], prev[next[b] := prev[b]], Without(ring, k), b);
  }

  class Bcache {
    var bufs: seq<Buf>
    var next: seq<nat>
    var prev: seq<nat>
    var locked: seq<bool>
    var disk: seq<Block>

    ghost var ring: seq<nat>
    ghost var stamp: seq<int>
    ghost var clock: int
    ghost var view: seq<Block>
    // Every image the disk has held, oldest first: the states a crash can leave.
    ghost var trace: seq<seq<Block>>

    ghost predicate Valid()
      reads this
    {
      && |bufs| == NBUF && |locked| == NBUF && |view| == |disk| <= 0x1_0000_0000
      && RingOk(next, prev, ring) && Recency(ring, stamp, clock)
      && Unique(bufs) && Agrees(bufs, locked, disk, view)
      && |trace| > 0 && trace[|trace| - 1] == disk
    }

    /** No buffer is held or referenced. */
    ghost predicate Idle()
      reads this
      requires |bufs| == |locked| == NBUF
    {
      forall i :: 0 <= i < NBUF ==> !locked[i] && bufs[i].refcnt == 0
    }

    /** Power-on: zeroed buffers over whatever the disk holds, then binit's list. */
    constructor (image: seq<Block>)
      requires |image| <= 0x1_0000_0000
      ensures Valid() && Idle()
      ensures disk == view == image && trace == [image]
      ensures forall i :: 0 <= i < NBUF ==> !bufs[i].valid && !bufs[i].dirty && bufs[i].dev == 0
    {
      bufs := seq(NBUF, i => Buf(0, 0, false, false, 0, Zero()));
      locked := seq(NBUF, i => false);
      disk := image;
      view := image;
      trace := [image];
      next := seq(NBUF + 1, i => HEAD);
      prev := seq(NBUF + 1, i => HEAD);
      ring := [HEAD];
      stamp := seq(NBUF, i => i);
      clock := NBUF;
      new;
      Binit();
    }

    /** binit's loop: each buffer in turn at the front of the empty list. */
    method Binit()
      requires RingOk(next, prev, ring) && ring == [HEAD] && stamp == seq(NBUF, i => i) && clock == NBUF
      modifies this`next, this`prev, this`ring
      ensures RingOk(next, prev, ring) && Recency(ring, stamp, clock)
    {
      var b := 0;
      while b < NBUF
        invariant 0 <= b <= NBUF
        invariant RingOk(next, prev, ring) && |ring| == b + 1
        invariant forall i :: 1 <= i < |ring| ==> ring[i] == b - i
      {
        PushFront(next, prev, ring, b);
        prev := prev[b := HEAD][next[HEAD] := b];
        next := next[b := next[HEAD]][HEAD := b];
        ring := Pushed(ring, b);
        b := b + 1;
      }
      forall i | 0 <= i <= NBUF
        ensures i in ring
      {
        assert ring[if i == NBUF then 0 else NBUF - i] == i;
      }
    }

    /** bget's first loop: the buffer that already holds the block. */
    method Lookup(dev: Word, blockno: Word) returns (r: Option<nat>)
      requires Valid()
      ensures r.Some? ==> r.value < NBUF && Match(bufs[r.value], dev, blockno)
      ensures r.None? ==> forall i :: 0 <= i < NBUF ==> !Match(bufs[i], dev, blockno)
    {
      var b := next[HEAD];
      ghost var p := 1;
      assert next[ring[0]] == ring[Succ(ring, 0)];
      while b != HEAD
        invariant 1 <= p <= |ring| && b == if p == |ring| then HEAD else ring[p]
        invariant forall q :: 1 <= q < p ==> !Match(bufs[ring[q]], dev, blockno)
        decreases |ring| - p
      {
        if Match(bufs[b], dev, blockno) {
          return Some(b);
        }
        assert next[ring[p]] == ring[Succ(ring, p)];
        b := next[b];
        p := p + 1;
      }
      forall i | 0 <= i < NBUF
        ensures !Match(bufs[i], dev, blockno)
      {
        assert i in ring;
        var q :| 0 <= q < |ring| && ring[q] == i;
      }
      return None;
    }

    /** bget's second loop: of the unreferenced clean buffers, the least recently released. */
    method LeastRecent() returns (r: Option<nat>)
      requires Valid()
      ensures r.Some? ==> r.value < NBUF && Recyclable(bufs[r.value])
      ensures r.Some? ==> forall i :: 0 <= i < NBUF && Recyclable(bufs[i]) ==> stamp[r.value] <= stamp[i]
      ensures r.None? ==> forall i :: 0 <= i < NBUF ==> !Recyclable(bufs[i])
    {
      var b := prev[HEAD];
      ghost var p := |ring| - 1;
      assert prev[ring[Succ(ring, p)]] == ring[p];
      while b != HEAD && !Recyclable(bufs[b])
        invariant 0 <= p < |ring| && b == ring[p]
        invariant forall q :: p < q < |ring| ==> !Recyclable(bufs[ring[q]])
        decreases p
      {
        assert prev[ring[Succ(ring, p - 1)]] == ring[p - 1];
        b := prev[b];
        p := p - 1;
      }
      forall i | 0 <= i < NBUF && Recyclable(bufs[i])
        ensures b != HEAD && stamp[b] <= stamp[i]
      {
        assert i in ring;
        var q :| 0 <= q < |ring| && ring[q] == i;
      }
      r := if b == HEAD then None else Some(b);
    }

    /**
      bget: find the block's buffer, or take over the least recently released
      buffer that is unreferenced and clean.
     */
    method Bget(dev: Word, blockno: Word) returns (r: Option<nat>)
      requires Valid()
      modifies this`bufs
      ensures Valid()
      ensures r.Some? ==> r.value < NBUF && Match(bufs[r.value], dev, blockno)
      ensures r.Some? && Match(old(bufs)[r.value], dev, blockno) ==>
        bufs == old(bufs)[r.value := old(bufs)[r.value].(refcnt := old(bufs)[r.value].refcnt + 1)]
      ensures r.Some? && !Match(old(bufs)[r.value], dev, blockno) ==>
        && (forall i :: 0 <= i < NBUF ==> !Match(old(bufs)[i], dev, blockno))
        && Recyclable(old(bufs)[r.value])
        && (forall i :: 0 <= i < NBUF && Recyclable(old(bufs)[i]) ==> stamp[r.value] <= stamp[i])
        && bufs == old(bufs)[r.value := Buf(dev, blockno, false, false, 1, old(bufs)[r.value].data)]
      ensures r.None? <==> forall i :: 0 <= i < NBUF ==> !Match(old(bufs)[i], dev, blockno) && !Recyclable(old(bufs)[i])
      ensures r.None? ==> bufs == old(bufs)
    {
      r := Lookup(dev, blockno);
      if r.Some? {
        var b := r.value;
        bufs := bufs[b := bufs[b].(refcnt := bufs[b].refcnt + 1)];
        AgreesSame(old(bufs), bufs, locked, disk, view);
        return;
      }
      r := LeastRecent();
      if r.Some? {
        var b := r.value;
        bufs := bufs[b := Buf(dev, blockno, false, false, 1, bufs[b].data)];
        AgreesRecycle(old(bufs), locked, disk, view, b, dev, blockno);
      }
    }

    /** iderw of memide.c on a held buffer; false is one of its panics. */
    method Iderw(b: nat) returns (ok: bool)
      requires Valid() && b < NBUF && locked[b]
      modifies this`bufs, this`disk, this`view, this`trace
      ensures Valid()
      ensures ok <==> !(old(bufs[b]).valid && !old(bufs[b]).dirty) && bufs[b].dev == 1 && bufs[b].blockno < |old(disk)|
      ensures !ok ==> bufs == old(bufs)
      ensures ok ==> bufs == old(bufs)[b := old(bufs[b]).(valid := true, dirty := false, data := bufs[b].data)]
      ensures ok && old(bufs[b]).dirty ==>
        && bufs[b].data == old(bufs[b]).data
        && disk == old(disk)[bufs[b].blockno := bufs[b].data] && trace == old(trace) + [disk]
      ensures !ok || !old(bufs[b]).dirty ==> disk == old(disk) && trace == old(trace)
      ensures ok && !old(bufs[b]).dirty ==> bufs[b].data == disk[bufs[b].blockno]
      ensures view == old(view)
    {
      var o := bufs[b];
      if (o.valid && !o.dirty) || o.dev != 1 || o.blockno >= |disk| {
        return false;
      }
      if o.dirty {
        disk := disk[o.blockno := o.data];
        trace := trace + [disk];
        bufs := bufs[b := o.(valid := true, dirty := false)];
      } else {
        bufs := bufs[b := o.(valid := true, data := disk[o.blockno])];
      }
      AgreesHeld(old(bufs), locked, old(disk), view, b, bufs[b], disk, view);
      return true;
    }

    /** acquiresleep on a free lock. */
    method AcquireSleep(b: nat)
      requires Valid() && b < NBUF && !locked[b] && bufs[b].refcnt > 0
      modifies this`locked
      ensures Valid() && locked == old(locked)[b := true]
    {
      locked := locked[b := true];
    }

    /** bread: a held buffer with the block's current contents. */
    method Bread(dev: Word, blockno: Word) returns (r: Option<nat>)
      requires Valid()
      requires forall i :: 0 <= i < NBUF && Match(bufs[i], dev, blockno) ==> !locked[i]
      modifies this`bufs, this`locked, this`disk, this`view, this`trace
      ensures Valid() && disk == old(disk) && view == old(view) && trace == old(trace)
      ensures r.Some? ==>
        && r.value < NBUF && dev == 1 && blockno < |disk|
        && Match(bufs[r.value], dev, blockno) && bufs[r.value].valid && bufs[r.value].data == view[blockno]
        && (Match(old(bufs)[r.value], dev, blockno) || Recyclable(old(bufs)[r.value]))
        && bufs[r.value].refcnt == old(bufs)[r.value].refcnt + 1
        && bufs[r.value].dirty == old(bufs)[r.value].dirty
        && (!bufs[r.value].dirty ==> bufs[r.value].data == disk[blockno])
        && bufs == old(bufs)[r.value := bufs[r.value]]
        && !old(locked)[r.value] && locked == old(locked)[r.value := true]
      ensures r.None? <==>
        || dev != 1 || blockno >= |disk|
        || forall i :: 0 <= i < NBUF ==> !Match(old(bufs)[i], dev, blockno) && !Recyclable(old(bufs)[i])
    {
      r := Bget(dev, blockno);
      if r.None? {
        return;
      }
      var ok := LockAndFill(r.value);
      if !ok {
        return None;
      }
    }

    /** The rest of bread: take the free lock, and read the block if the buffer is new. */
    method LockAndFill(b: nat) returns (ok: bool)
      requires Valid() && b < NBUF && !locked[b] && bufs[b].refcnt > 0
      modifies this`bufs, this`locked, this`disk, this`view, this`trace
      ensures Valid() && disk == old(disk) && view == old(view) && trace == old(trace)
      ensures bufs == old(bufs)[b := old(bufs)[b].(valid := bufs[b].valid, data := bufs[b].data)]
      ensures locked == old(locked)[b := true]
      ensures ok <==> bufs[b].valid
      ensures ok && !bufs[b].dirty ==> bufs[b].data == disk[bufs[b].blockno]
      ensures !ok ==> bufs[b].dev != 1 || bufs[b].blockno >= |disk|
    {
      AcquireSleep(b);
      ok := true;
      if !bufs[b].valid {
        ok := Iderw(b);
      }
    }

    /** A holder changes the data of its buffer. */
    method Modify(b: nat, data: Block)
      requires Valid() && b < NBUF && locked[b] && bufs[b].valid
      modifies this`bufs, this`view
      ensures Valid()
      ensures bufs == old(bufs)[b := old(bufs)[b].(data := data)]
      ensures view == old(view)[bufs[b].blockno := data]
    {
      var x := bufs[b].(data := data);
      bufs := bufs[b := x];
      view := view[x.blockno := data];
      AgreesHeld(old(bufs), locked, disk, old(view), b, x, disk, view);
    }

    /** bwrite: a held buffer goes to the disk and is clean afterwards. */
    method Bwrite(b: nat)
      requires Valid() && b < NBUF && locked[b] && bufs[b].valid
      modifies this`bufs, this`disk, this`view, this`trace
      ensures Valid() && view == old(view)
      ensures bufs == old(bufs)[b := old(bufs)[b].(dirty := false)]
      ensures disk == old(disk)[bufs[b].blockno := bufs[b].data] && trace == old(trace) + [disk]
    {
      MarkDirty(b);
      var ok := Iderw(b);
    }

    /** memmove into a held buffer, then bwrite. */
    method WriteThrough(b: nat, data: Block)
      requires Valid() && b < NBUF && locked[b] && bufs[b].valid
      modifies this`bufs, this`disk, this`view, this`trace
      ensures Valid()
      ensures bufs == old(bufs)[b := old(bufs)[b].(dirty := false, data := data)]
      ensures bufs[b].blockno < |old(disk)|
      ensures view == old(view)[bufs[b].blockno := data]
      ensures disk == old(disk)[bufs[b].blockno := data] && trace == old(trace) + [disk]
    {
      Modify(b, data);
      Bwrite(b);
    }

    /** The last line of log_write: pin a held buffer in the cache. */
    method MarkDirty(b: nat)
      requires Valid() && b < NBUF && locked[b] && bufs[b].valid
      modifies this`bufs
      ensures Valid()
      ensures bufs == old(bufs)[b := old(bufs)[b].(dirty := true)]
    {
      bufs := bufs[b := bufs[b].(dirty := true)];
      AgreesHeld(old(bufs), locked, disk, view, b, bufs[b], disk, view);
    }

    /**
      releasesleep on a held buffer.  The holder must have written or logged what
      it changed, as the interface comment of bio.c asks.
     */
    method ReleaseSleep(b: nat)
      requires Valid() && b < NBUF && locked[b]
      requires bufs[b].valid && !bufs[b].dirty ==> bufs[b].data == disk[bufs[b].blockno]
      modifies this`locked
      ensures Valid() && locked == old(locked)[b := false]
    {
      locked := locked[b := false];
    }

    /** brelse's critical section: the last reference moves the buffer to the front. */
    method Unref(b: nat)
      requires Valid() && b < NBUF && !locked[b] && bufs[b].refcnt > 0
      modifies this`bufs, this`next, this`prev, this`ring, this`stamp, this`clock
      ensures Valid()
      ensures bufs == old(bufs)[b := old(bufs)[b].(refcnt := old(bufs)[b].refcnt - 1)]
      ensures bufs[b].refcnt == 0 ==>
        && ring[1] == b && stamp == old(stamp)[b := stamp[b]]
        && forall i :: 0 <= i < NBUF && i != b ==> stamp[i] < stamp[b]
      ensures bufs[b].refcnt > 0 ==> ring == old(ring) && stamp == old(stamp)
    {
      bufs := bufs[b := bufs[b].(refcnt := bufs[b].refcnt - 1)];
      AgreesSame(old(bufs), bufs, locked, disk, view);
      if bufs[b].refcnt == 0 {
        MoveToFront(b);
      }
    }

    /** brelse: the buffer's last release makes it the most recent; the others keep their order. */
    method Brelse(b: nat)
      requires Valid() && b < NBUF && locked[b]
      requires bufs[b].valid && !bufs[b].dirty ==> bufs[b].data == disk[bufs[b].blockno]
      modifies this`bufs, this`locked, this`next, this`prev, this`ring, this`stamp, this`clock
      ensures Valid() && locked == old(locked)[b := false]
      ensures bufs == old(bufs)[b := old(bufs)[b].(refcnt := old(bufs)[b].refcnt - 1)]
      ensures bufs[b].refcnt == 0 ==>
        && ring[1] == b && stamp == old(stamp)[b := stamp[b]]
        && forall i :: 0 <= i < NBUF && i != b ==> stamp[i] < stamp[b]
      ensures bufs[b].refcnt > 0 ==> ring == old(ring) && stamp == old(stamp)
    {
      ReleaseSleep(b);
      Unref(b);
    }

    /** A block whose buffer is neither dirty nor held reads as it is on the disk. */
    lemma CleanView(b: nat)
      requires Valid() && b < |disk|
      requires forall i :: 0 <= i < NBUF && Match(bufs[i], 1, b) ==> !bufs[i].dirty && !locked[i]
      ensures view[b] == disk[b]
    {
    }

    lemma HeldBlock(b: nat)
      requires Valid() && b < NBUF && bufs[b].valid
      ensures bufs[b].dev == 1 && bufs[b].blockno < |disk| && view[bufs[b].blockno] == bufs[b].data
    {
    }

    /** The dirty buffers apart from k hold other blocks of disk 1. */
    lemma OtherDirty(k: nat)
      requires Valid() && k < NBUF && bufs[k].dev == 1
      ensures forall i :: 0 <= i < NBUF && i != k && bufs[i].dirty ==>
        bufs[i].dev == 1 && bufs[i].blockno != bufs[k].blockno
    {
    }

    /** The pointer surgery of brelse. */
    method MoveToFront(b: nat)
      requires RingOk(next, prev, ring) && Recency(ring, stamp, clock) && b < NBUF
      modifies this`next, this`prev, this`ring, this`stamp, this`clock
      ensures RingOk(next, prev, ring) && Recency(ring, stamp, clock)
      ensures ring[1] == b && |old(stamp)| == NBUF && stamp == old(stamp)[b := old(clock)]
      ensures forall i :: 0 <= i < NBUF && i != b ==> stamp[i] < stamp[b]
    {
      ghost var k := Relink(next, prev, ring, b);
      prev := prev[next[b] := prev[b]];
      next := next[prev[b] := next[b]];
      prev := prev[b := HEAD][next[HEAD] := b];
      next := next[b := next[HEAD]][HEAD := b];
      RecencyFront(ring, stamp, clock, k);
      ring := Pushed(Without(ring, k), b);
      stamp := stamp[b := clock];
      clock := clock + 1;
    }
  }

  /** A released buffer becomes the most recent one and the others keep their order. */
  lemma RecencyFront(ring: seq<nat>, stamp: seq<int>, clock: int, k: nat)
    requires Recency(ring, stamp, clock) && ring[0] == HEAD && 1 <= k < |ring|
    requires forall i, j :: 0 <= i < j < |ring| ==> ring[i] != ring[j]
    ensures Recency(Pushed(Without(ring, k), ring[k]), stamp[ring[k] := clock], clock + 1)
    ensures forall i :: 0 <= i < NBUF && i != ring[k] ==> stamp[i] < clock
  {
    var b, w, stamp' := ring[k], Without(ring, k), stamp[ring[k] := clock];
    var ring' := Pushed(w, b);
    forall i, j | 1 <= i < j < |ring'|
      ensures ring'[i] < NBUF && ring'[j] < NBUF && clock + 1 > stamp'[ring'[i]] > stamp'[ring'[j]]
    {
      var i', j' := if i <= k then i - 1 else i, if j <= k then j - 1 else j;
      assert ring'[j] == ring[j'];
      if i > 1 {
        assert ring'[i] == ring[i'];
      }
    }
    forall i | 0 <= i <= NBUF
      ensures i in ring' && (i != b && i != HEAD ==> stamp[i] < clock)
    {
      assert i in ring;
      var j :| 0 <= j < |ring| && ring[j] == i;
      if j == 0 {
        assert ring'[0] == i;
      } else if j == k {
        assert ring'[1] == i;
      } else {
        assert ring'[if j < k then j + 1 else j] == i;
      }
    }
  }

  /** What a holder does to its own buffer and block does not disturb the others. */
  lemma AgreesHeld(bufs: seq<Buf>, locked: seq<bool>, disk: seq<Block>, view: seq<Block>,
                   b: nat, x: Buf, disk': seq<Block>, view': seq<Block>)
    requires Agrees(bufs, locked, disk, view) && Unique(bufs) && b < NBUF && locked[b]
    requires x.valid && Match(bufs[b], 1, x.blockno) && Match(x, 1, x.blockno) && x.refcnt == bufs[b].refcnt
    requires |view'| == |disk'| == |disk| && x.blockno < |disk| && view'[x.blockno] == x.data
    requires forall c :: 0 <= c < |disk| && c != x.blockno ==> disk'[c] == disk[c] && view'[c] == view[c]
    ensures Agrees(bufs[b := x], locked, disk', view')
  {
    var bufs' := bufs[b := x];
    forall c | 0 <= c < |disk| && view'[c] != disk'[c]
      ensures exists i :: 0 <= i < NBUF && bufs'[i].valid && Match(bufs'[i], 1, c)
    {
      if c == x.blockno {
        assert Match(bufs'[b], 1, c);
      } else {
        var i :| 0 <= i < NBUF && bufs[i].valid && Match(bufs[i], 1, c);
        assert Match(bufs'[i], 1, c);
      }
    }
  }

  lemma AgreesSame(bufs: seq<Buf>, bufs': seq<Buf>, locked: seq<bool>, disk: seq<Block>, view: seq<Block>)
    requires Agrees(bufs, locked, disk, view) && |bufs'| == NBUF
    requires forall i :: 0 <= i < NBUF ==>
      (locked[i] ==> bufs'[i].refcnt > 0) && bufs'[i] == bufs[i].(refcnt := bufs'[i].refcnt)
    ensures Agrees(bufs', locked, disk, view)
  {
    forall b | 0 <= b < |disk| && view[b] != disk[b]
      ensures exists i :: 0 <= i < NBUF && bufs'[i].valid && Match(bufs'[i], 1, b)
    {
      var i :| 0 <= i < NBUF && bufs[i].valid && Match(bufs[i], 1, b);
      assert Match(bufs'[i], 1, b);
    }
  }

  /** Evicting an unreferenced clean buffer loses nothing: its data is on the disk. */
  lemma AgreesRecycle(bufs: seq<Buf>, locked: seq<bool>, disk: seq<Block>, view: seq<Block>,
                      k: nat, dev: Word, blockno: Word)
    requires Agrees(bufs, locked, disk, view) && k < NBUF && Recyclable(bufs[k])
    ensures Agrees(bufs[k := Buf(dev, blockno, false, false, 1, bufs[k].data)], locked, disk, view)
  {
    var bufs' := bufs[k := Buf(dev, blockno, false, false, 1, bufs[k].data)];
    forall b | 0 <= b < |disk| && view[b] != disk[b]
      ensures exists i :: 0 <= i < NBUF && bufs'[i].valid && Match(bufs'[i], 1, b)
    {
      var i :| 0 <= i < NBUF && bufs[i].valid && Match(bufs[i], 1, b);
      assert i != k;
      assert Match(bufs'[i], 1, b);
    }
  }
}
