/**
  Pipes (pipe.c) with the sleep and wakeup they rely on (proc.c): the ring buffer with its
  wrapping counters, and the protocol of any number of readers and writers.
 */
module Pipes {
  import opened Blocks
  import opened Uints

  const PIPESIZE: nat := 512

  /**
    The ring holds, in order, the bytes stored and not yet delivered.  The counters are
    those numbers of bytes modulo 2^32.
   */
  ghost predicate Fifo(data: seq<Byte>, nread: nat, nwrite: nat, stored: seq<Byte>, delivered: seq<Byte>) {
    && |data| == PIPESIZE && delivered <= stored && |stored| <= |delivered| + PIPESIZE
    && nread == Uint(|delivered|) && nwrite == Uint(|stored|)
    && forall k :: |delivered| <= k < |stored| ==> data[Slot(k, PIPESIZE)] == stored[k]
  }

  predicate Full(nread: nat, nwrite: nat) {
    nwrite == Uint(nread + PIPESIZE)
  }

  /** The wrapping counters never mislead: they tell full from empty, and how full. */
  lemma Counters(data: seq<Byte>, nread: nat, nwrite: nat, stored: seq<Byte>, delivered: seq<Byte>)
    requires Fifo(data, nread, nwrite, stored, delivered)
    ensures Full(nread, nwrite) <==> |stored| == |delivered| + PIPESIZE
    ensures nread == nwrite <==> stored == delivered
    ensures nread < UINT && Minus(nwrite, nread) == |stored| - |delivered|
    ensures Slot(nwrite, PIPESIZE) == Slot(|stored|, PIPESIZE) && Slot(nread, PIPESIZE) == Slot(|delivered|, PIPESIZE)
  {
    UintBound(|delivered|);
    hide Uint, Slot;
    UintMinus(|delivered|, |stored|);
    UintPlus(|delivered|, PIPESIZE);
    UintMinus(|stored|, |delivered| + PIPESIZE);
    UintSlot(|stored|, PIPESIZE);
    UintSlot(|delivered|, PIPESIZE);
  }

  lemma StoreByte(data: seq<Byte>, nread: nat, nwrite: nat, stored: seq<Byte>, delivered: seq<Byte>, x: Byte)
    requires Fifo(data, nread, nwrite, stored, delivered) && !Full(nread, nwrite)
    ensures Fifo(data[Slot(nwrite, PIPESIZE) := x], nread, Uint(nwrite + 1), stored + [x], delivered)
  {
    hide Uint, Slot;
    Counters(data, nread, nwrite, stored, delivered);
    UintNext(|stored|);
    forall k | |delivered| <= k < |stored|
      ensures Slot(k, PIPESIZE) != Slot(|stored|, PIPESIZE)
    {
      SlotApart(k, |stored|, PIPESIZE);
    }
  }

  lemma TakeByte(data: seq<Byte>, nread: nat, nwrite: nat, stored: seq<Byte>, delivered: seq<Byte>)
    requires Fifo(data, nread, nwrite, stored, delivered) && nread != nwrite
    ensures |delivered| < |stored| && data[Slot(nread, PIPESIZE)] == stored[|delivered|]
    ensures Fifo(data, Uint(nread + 1), nwrite, stored, delivered + [data[Slot(nread, PIPESIZE)]])
  {
    hide Uint, Slot;
    Counters(data, nread, nwrite, stored, delivered);
    UintNext(|delivered|);
  }

  // ---- What a process does while it holds the pipe's lock.

  class Pipe {
    const data: array<Byte>
    var nread: nat
    var nwrite: nat
    ghost var stored: seq<Byte>
    ghost var delivered: seq<Byte>

    ghost predicate Valid()
      reads this, data
    {
      data.Length == PIPESIZE && Fifo(data[..], nread, nwrite, stored, delivered)
    }

    ghost function Contents(): seq<Byte>
      reads this, data
      requires Valid()
    {
      stored[|delivered|..]
    }

    /** pipealloc */
    constructor ()
      ensures Valid() && Contents() == [] && fresh(data)
    {
      data := new Byte[512](i => 0);
      nread, nwrite, stored, delivered := 0, 0, [], [];
    }

    method PutByte(x: Byte)
      requires Valid() && !Full(nread, nwrite)
      modifies this, data
      ensures Valid() && Contents() == old(Contents()) + [x]
    {
      hide Uint, Slot, Full;
      StoreByte(data[..], nread, nwrite, stored, delivered, x);
      ghost var d := data[..];
      data[Slot(nwrite, PIPESIZE)] := x;
      assert data[..] == d[Slot(nwrite, PIPESIZE) := x];
      nwrite := Uint(nwrite + 1);
      stored := stored + [x];
    }

    method GetByte() returns (x: Byte)
      requires Valid() && nread != nwrite
      modifies this`nread, this`delivered
      ensures Valid() && old(Contents()) == [x] + Contents()
    {
      hide Uint, Slot;
      TakeByte(data[..], nread, nwrite, stored, delivered);
      x := data[Slot(nread, PIPESIZE)];
      nread := Uint(nread + 1);
      delivered := delivered + [x];
    }

    /** pipewrite from byte i on, until it is done or the pipe is full. */
    method WriteSome(addr: seq<Byte>, i: nat) returns (i': nat)
      requires Valid() && i <= |addr|
      modifies this, data
      ensures Valid() && i <= i' <= |addr| && Contents() == old(Contents()) + addr[i..i']
      ensures i' == |addr| || |Contents()| == PIPESIZE
    {
      hide Uint, Full;
      i' := i;
      while i' < |addr| && !Full(nread, nwrite)
        invariant Valid() && i <= i' <= |addr| && Contents() == old(Contents()) + addr[i..i']
      {
        PutByte(addr[i']);
        i' := i' + 1;
      }
      Counters(data[..], nread, nwrite, stored, delivered);
    }

    /** piperead's copying loop. */
    method ReadSome(n: nat) returns (got: seq<Byte>)
      requires Valid()
      modifies this`nread, this`delivered
      ensures Valid() && got + Contents() == old(Contents())
      ensures |got| == if n < |old(Contents())| then n else |old(Contents())|
    {
      hide Uint, Slot;
      got := [];
      var i := 0;
      while i < n
        invariant Valid() && i <= n && |got| == i && got + Contents() == old(Contents())
      {
        Counters(data[..], nread, nwrite, stored, delivered);
        if nread == nwrite {
          break;
        }
        var x := GetByte();
        got := got + [x];
        i := i + 1;
      }
    }
  }
}
