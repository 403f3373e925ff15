/** The console's input buffer (console.c) as a line editor in front of a queue. */
module Consoles {
  import opened Blocks
  import opened Uints

  const INPUT_BUF: nat := 128
  const NEWLINE: Byte := 10
  const RETURN: Byte := 13
  // Control-D, control-H and delete, control-P, control-U.
  const EOF: Byte := 4
  const BACKSPACE: Byte := 8
  const DELETE: Byte := 127
  const LISTING: Byte := 16
  const KILL: Byte := 21

  // ---- The editor that the buffer implements.

  // Bytes committed and not yet read, and the line being edited.
  datatype Editor = Editor(queue: seq<Byte>, line: seq<Byte>)

  predicate Plain(c: Byte) {
    c != 0 && c != NEWLINE && c != RETURN && c != EOF && c != BACKSPACE && c != DELETE && c != LISTING && c != KILL
  }

  function Size(ed: Editor): nat {
    |ed.queue| + |ed.line|
  }

  /** A key that is not an editing key, with room for it. */
  function Typed(ed: Editor, c: Byte): Editor {
    var c' := if c == RETURN then NEWLINE else c;
    var line := ed.line + [c'];
    if c' == NEWLINE || c' == EOF || Size(ed) + 1 == INPUT_BUF then Editor(ed.queue + line, [])
      else Editor(ed.queue, line)
  }

  function Key(ed: Editor, c: Byte): Editor {
    if c == LISTING then ed
    else if c == KILL then Editor(ed.queue, [])
    else if c == BACKSPACE || c == DELETE then Editor(ed.queue, if ed.line == [] then [] else ed.line[..|ed.line| - 1])
    else if c != 0 && Size(ed) < INPUT_BUF then Typed(ed, c)
    else ed
  }

  function Keys(ed: Editor, cs: seq<Byte>): Editor {
    if cs == [] then ed else Key(Keys(ed, cs[..|cs| - 1]), cs[|cs| - 1])
  }

  /** Plain keys go on the line; a return then hands over the line with a newline. */
  lemma {:induction false} PlainKeys(ed: Editor, cs: seq<Byte>)
    requires Size(ed) + |cs| < INPUT_BUF && forall k :: 0 <= k < |cs| ==> Plain(cs[k])
    ensures Keys(ed, cs) == Editor(ed.queue, ed.line + cs)
    ensures Keys(ed, cs + [RETURN]) == Editor(ed.queue + ed.line + cs + [NEWLINE], [])
    ensures Keys(ed, cs + [KILL]) == Editor(ed.queue, [])
  {
    if cs != [] {
      var init := cs[..|cs| - 1];
      PlainKeys(ed, init);
      assert Plain(cs[|cs| - 1]);
      assert ed.line + init + [cs[|cs| - 1]] == ed.line + cs;
    }
    assert (cs + [RETURN])[..|cs|] == cs && (cs + [KILL])[..|cs|] == cs;
    assert ed.queue + (ed.line + cs + [NEWLINE]) == ed.queue + ed.line + cs + [NEWLINE];
  }

  /** Backspace takes back a plain key. */
  lemma BackspaceUndoes(ed: Editor, c: Byte)
    requires Plain(c) && Size(ed) + 1 < INPUT_BUF
    ensures Key(Key(ed, c), BACKSPACE) == ed
  {
    assert (ed.line + [c])[..|ed.line|] == ed.line;
  }

  /** Control-D hands over the line with itself, and so does the byte that fills the buffer. */
  lemma Commits(ed: Editor, c: Byte)
    requires Size(ed) < INPUT_BUF && (c == EOF || (Plain(c) && Size(ed) + 1 == INPUT_BUF))
    ensures Key(ed, c) == Editor(ed.queue + ed.line + [c], [])
  {
    assert ed.queue + (ed.line + [c]) == ed.queue + ed.line + [c];
  }

  /** Delete and control-H take back the last byte of the line, if any, and never a committed one. */
  lemma TakesBack(ed: Editor, c: Byte)
    requires c == DELETE || c == BACKSPACE
    ensures Key(ed, c).queue == ed.queue && |Key(ed, c).line| == (if ed.line == [] then 0 else |ed.line| - 1)
    ensures Key(ed, c).line <= ed.line
  {
  }

  /** The process listing, a zero, and any byte but an editing key when the buffer is full change nothing. */
  lemma Ignored(ed: Editor, c: Byte)
    requires c == LISTING || c == 0 || (Size(ed) >= INPUT_BUF && c != KILL && c != BACKSPACE && c != DELETE)
    ensures Key(ed, c) == ed
  {
  }

  /** Any plain keys, taken back one by one, leave no trace. */
  lemma {:induction false} TypedAndTakenBack(ed: Editor, cs: seq<Byte>, bs: seq<Byte>)
    requires Size(ed) + |cs| < INPUT_BUF && forall k :: 0 <= k < |cs| ==> Plain(cs[k])
    requires |bs| == |cs| && forall k :: 0 <= k < |bs| ==> bs[k] == BACKSPACE || bs[k] == DELETE
    ensures Keys(Keys(ed, cs), bs) == ed
  {
    if cs == [] {
      assert Keys(ed, cs) == ed;
    } else {
      var n := |cs| - 1;
      PlainKeys(ed, cs);
      PlainKeys(ed, cs[..n]);
      assert (ed.line + cs)[..|ed.line + cs| - 1] == ed.line + cs[..n];
      FirstKey(Keys(ed, cs), bs);
      TypedAndTakenBack(ed, cs[..n], bs[1..]);
    }
  }

  lemma {:induction false} FirstKey(ed: Editor, cs: seq<Byte>)
    requires cs != []
    ensures Keys(ed, cs) == Keys(Key(ed, cs[0]), cs[1..])
    decreases |cs|
  {
    var n := |cs| - 1;
    if n == 0 {
      assert cs[..0] == [] && cs[1..] == [];
    } else {
      FirstKey(ed, cs[..n]);
      assert cs[..n][1..] == cs[1..][..n - 1];
    }
  }

  // ---- The buffer.

  /**
    r, w and e count the bytes read, committed and edited, modulo 2^32.  The bytes between
    r and e are in the buffer, and there is no newline or control-D among the uncommitted.
   */
  ghost predicate Ring(buf: seq<Byte>, r: nat, w: nat, e: nat, taken: nat, committed: seq<Byte>, line: seq<Byte>) {
    && |buf| == INPUT_BUF && taken <= |committed| && |committed| + |line| <= taken + INPUT_BUF
    && r == Uint(taken) && w == Uint(|committed|) && e == Uint(|committed| + |line|)
    && (forall k :: taken <= k < |committed| + |line| ==> buf[Slot(k, INPUT_BUF)] == (committed + line)[k])
    && NEWLINE !in line && EOF !in line
  }

  /** What the wrapping counters say. */
  lemma Counters(buf: seq<Byte>, r: nat, w: nat, e: nat, taken: nat, committed: seq<Byte>, line: seq<Byte>)
    requires Ring(buf, r, w, e, taken, committed, line)
    ensures e == w <==> line == []
    ensures r == w <==> taken == |committed|
    ensures r < UINT && w < UINT && e < UINT && Minus(e, r) == |committed| + |line| - taken
    ensures Uint(r + INPUT_BUF) == e <==> |committed| + |line| == taken + INPUT_BUF
  {
    UintSlot(taken, INPUT_BUF);
    UintSlot(|committed|, INPUT_BUF);
    UintSlot(|committed| + |line|, INPUT_BUF);
    hide Uint, Slot;
    UintMinus(|committed|, |committed| + |line|);
    UintMinus(taken, |committed|);
    UintMinus(taken, |committed| + |line|);
    UintPlus(taken, INPUT_BUF);
    UintMinus(|committed| + |line|, taken + INPUT_BUF);
  }

  lemma Erased(buf: seq<Byte>, r: nat, w: nat, e: nat, taken: nat, committed: seq<Byte>, line: seq<Byte>)
    requires Ring(buf, r, w, e, taken, committed, line) && line != []
    ensures Ring(buf, r, w, Minus(e, 1), taken, committed, line[..|line| - 1])
    ensures buf[Slot(Minus(e, 1), INPUT_BUF)] == line[|line| - 1]
  {
    hide Uint, Slot;
    UintNext(|committed| + |line|);
    UintSlot(|committed| + |line| - 1, INPUT_BUF);
    var n := |committed| + |line| - 1;
    assert (committed + line)[n] == line[|line| - 1];
    forall k | taken <= k < n
      ensures buf[Slot(k, INPUT_BUF)] == (committed + line[..|line| - 1])[k]
    {
      assert (committed + line)[k] == (committed + line[..|line| - 1])[k];
    }
  }

  /** A byte added at e, before any commit. */
  lemma Added(buf: seq<Byte>, r: nat, w: nat, e: nat, taken: nat, committed: seq<Byte>, line: seq<Byte>, c: Byte)
    requires Ring(buf, r, w, e, taken, committed, line) && |committed| + |line| < taken + INPUT_BUF
    ensures c != NEWLINE && c != EOF ==>
      Ring(buf[Slot(e, INPUT_BUF) := c], r, w, Uint(e + 1), taken, committed, line + [c])
    ensures Ring(buf[Slot(e, INPUT_BUF) := c], r, Uint(e + 1), Uint(e + 1), taken, committed + line + [c], [])
  {
    hide Uint, Slot;
    var n := |committed| + |line|;
    UintNext(n);
    UintSlot(n, INPUT_BUF);
    forall k | taken <= k < n
      ensures Slot(k, INPUT_BUF) != Slot(n, INPUT_BUF) && (committed + line)[k] == (committed + line + [c])[k]
    {
      SlotApart(k, n, INPUT_BUF);
    }
    assert committed + (line + [c]) == committed + line + [c] == committed + line + [c] + [];
  }

  lemma Popped(buf: seq<Byte>, r: nat, w: nat, e: nat, taken: nat, committed: seq<Byte>, line: seq<Byte>)
    requires Ring(buf, r, w, e, taken, committed, line) && taken < |committed|
    ensures buf[Slot(r, INPUT_BUF)] == committed[taken] && Ring(buf, Uint(r + 1), w, e, taken + 1, committed, line)
    ensures Minus(Uint(r + 1), 1) == r
  {
    hide Uint, Slot;
    UintNext(taken);
    UintNext(taken + 1);
    UintSlot(taken, INPUT_BUF);
    assert (committed + line)[taken] == committed[taken];
  }

  class Console {
    const buf: array<Byte>
    var r: nat
    var w: nat
    var e: nat
    // All bytes ever committed, the line being edited, and how many bytes have been read.
    ghost var committed: seq<Byte>
    ghost var line: seq<Byte>
    ghost var taken: nat

    ghost predicate Valid()
      reads this, buf
    {
      buf.Length == INPUT_BUF && Ring(buf[..], r, w, e, taken, committed, line)
    }

    ghost function Ed(): Editor
      reads this, buf
      requires Valid()
    {
      Editor(committed[taken..], line)
    }

    constructor ()
      ensures Valid() && Ed() == Editor([], []) && fresh(buf)
    {
      buf := new Byte[128](i => 0);
      r, w, e := 0, 0, 0;
      committed, line, taken := [], [], 0;
    }

    /** Control-U. */
    method KillLine()
      requires Valid()
      modifies this`e, this`line
      ensures Valid() && Ed() == Key(old(Ed()), KILL) && committed == old(committed) && taken == old(taken)
    {
      hide Uint, Slot;
      Counters(buf[..], r, w, e, taken, committed, line);
      while e != w && buf[Slot(Minus(e, 1), INPUT_BUF)] != NEWLINE
        invariant Valid() && e < UINT
        decreases |line|
      {
        Counters(buf[..], r, w, e, taken, committed, line);
        Erased(buf[..], r, w, e, taken, committed, line);
        e := Minus(e, 1);
        line := line[..|line| - 1];
        Counters(buf[..], r, w, e, taken, committed, line);
      }
      Counters(buf[..], r, w, e, taken, committed, line);
      if line != [] {
        Erased(buf[..], r, w, e, taken, committed, line);
      }
    }

    /** Control-H and delete. */
    method EraseOne()
      requires Valid()
      modifies this`e, this`line
      ensures Valid() && Ed() == Key(old(Ed()), BACKSPACE) && committed == old(committed) && taken == old(taken)
    {
      hide Uint, Slot;
      Counters(buf[..], r, w, e, taken, committed, line);
      if e != w {
        Erased(buf[..], r, w, e, taken, committed, line);
        e := Minus(e, 1);
        line := line[..|line| - 1];
      }
    }

    /** Any other key; woke is set if readers were woken. */
    method Type(key: Byte) returns (woke: bool)
      requires Valid() && key != 0
      modifies this, buf
      ensures Valid() && taken == old(taken) && old(committed) <= committed
      ensures Ed() == if Size(old(Ed())) < INPUT_BUF then Typed(old(Ed()), key) else old(Ed())
      ensures woke <==> |committed| > |old(committed)|
    {
      hide Uint, Slot;
      woke := false;
      Counters(buf[..], r, w, e, taken, committed, line);
      if Minus(e, r) < INPUT_BUF {
        var c: Byte := if key == RETURN then NEWLINE else key;
        ghost var b := buf[..];
        Added(b, r, w, e, taken, committed, line, c);
        buf[Slot(e, INPUT_BUF)] := c;
        assert buf[..] == b[Slot(e, INPUT_BUF) := c];
        e := Uint(e + 1);
        FullAfter(buf[..], r, e, taken, committed, line, c);
        if c == NEWLINE || c == EOF || e == Uint(r + INPUT_BUF) {
          assert (committed + line + [c])[taken..] == committed[taken..] + (line + [c]);
          w := e;
          committed, line := committed + line + [c], [];
          woke := true;
        } else {
          line := line + [c];
        }
      }
    }

    /** consoleintr, for the keys that getc delivers. */
    method Intr(keys: seq<Byte>) returns (woke: bool)
      requires Valid()
      modifies this, buf
      ensures Valid() && Ed() == Keys(old(Ed()), keys)
      ensures taken == old(taken) && old(committed) <= committed && (woke <==> |committed| > |old(committed)|)
    {
      hide Uint, Slot, Ring;
      woke := false;
      var i := 0;
      while i < |keys|
        invariant 0 <= i <= |keys| && Valid() && Ed() == Keys(old(Ed()), keys[..i])
        invariant taken == old(taken) && old(committed) <= committed && (woke <==> |committed| > |old(committed)|)
      {
        var c := keys[i];
        if c == LISTING {
        } else if c == KILL {
          KillLine();
        } else if c == BACKSPACE || c == DELETE {
          EraseOne();
        } else if c != 0 {
          var k := Type(c);
          woke := woke || k;
        }
        assert keys[..i + 1][..i] == keys[..i];
        i := i + 1;
      }
      assert keys[..|keys|] == keys;
    }

    /**
      consoleread's loop from where n of target bytes are still wanted, until it is done or
      has to sleep for input.  It delivers committed bytes in order, up to and including a
      newline, and stops at a control-D, which it takes away only if it has read nothing.
     */
    method Read(target: nat, n: nat) returns (got: seq<Byte>, done: bool)
      requires Valid() && n <= target
      modifies this`r, this`taken
      ensures Valid() && committed == old(committed) && line == old(line)
      ensures |got| <= n && old(taken) + |got| <= |committed| && got == committed[old(taken)..old(taken) + |got|]
      ensures EOF !in got && forall k :: 0 <= k < |got| - 1 ==> got[k] != NEWLINE
      ensures Ended(committed[old(taken) + |got|..], got, n) <==> done
      ensures !done ==> taken == |committed|
      ensures taken == old(taken) + |got|
        + if n == target && got == [] && n > 0 && AtEof(committed[old(taken)..]) then 1 else 0
    {
      hide Uint, Slot, Ring;
      got := [];
      var left := n;
      ghost var t := taken;
      RingFacts();
      while left > 0
        invariant Valid() && committed == old(committed) && line == old(line)
        invariant left >= 0 && left + |got| == n && taken == t + |got| <= |committed| && got == committed[t..taken]
        invariant EOF !in got && NEWLINE !in got
      {
        Counters(buf[..], r, w, e, taken, committed, line);
        if r == w {
          return got, false;
        }
        RingFacts();
        Popped(buf[..], r, w, e, taken, committed, line);
        var c := buf[Slot(r, INPUT_BUF)];
        r := Uint(r + 1);
        taken := taken + 1;
        if c == EOF {
          if left < target {
            r := Minus(r, 1);
            taken := taken - 1;
          }
          return got, true;
        }
        got := got + [c];
        left := left - 1;
        if c == NEWLINE {
          return got, true;
        }
      }
      return got, true;
    }

    lemma RingFacts()
      requires Valid()
      ensures taken <= |committed| && (r == w <==> taken == |committed|)
    {
      Counters(buf[..], r, w, e, taken, committed, line);
    }
  }

  predicate AtEof(rest: seq<Byte>) {
    rest != [] && rest[0] == EOF
  }

  /** Nothing more to read for this call: enough bytes, a whole line, or control-D next. */
  predicate Ended(rest: seq<Byte>, got: seq<Byte>, n: nat) {
    |got| == n || (got != [] && got[|got| - 1] == NEWLINE) || AtEof(rest)
  }

  lemma FullAfter(buf: seq<Byte>, r: nat, e: nat, taken: nat, committed: seq<Byte>, line: seq<Byte>, c: Byte)
    requires Ring(buf, r, e, e, taken, committed + line + [c], [])
    ensures e == Uint(r + INPUT_BUF) <==> |committed| + |line| + 1 - taken == INPUT_BUF
  {
    Counters(buf, r, e, e, taken, committed + line + [c], []);
  }
}
