/**
  What a range of a file costs: the free blocks its missing references take, lowest first,
  and the blocks that are logged for it.
 */
module FreeBlocks {
  import opened Blocks
  import opened Inodes
  import opened FsState
  import opened Counting

  /** The blocks that the free map marks as free. */
  ghost function Free(sb: Super, blocks: seq<Block>): (f: set<nat>)
    requires SuperOk(sb) && |blocks| == sb.size
    ensures forall b :: b in f <==> 0 <= b < sb.size && !Used(sb, blocks, b)
  {
    set b | b in Range(sb.size) && !Used(sb, blocks, b)
  }

  /** They are the data blocks that nobody owns. */
  lemma FreeOwn(sb: Super, fs: Fs, owner: Owners)
    requires Own(sb, fs, owner)
    ensures forall b :: b in Free(sb, fs.blocks) <==> sb.nmeta <= b < sb.size && b !in owner
  {
    hide Used, Ref, Free;
  }

  /** The k lowest free blocks have been taken. */
  ghost predicate Takes(sb: Super, blocks: seq<Block>, blocks': seq<Block>, k: int) {
    && SuperOk(sb) && |blocks| == |blocks'| == sb.size
    && var f, f' := Free(sb, blocks), Free(sb, blocks');
       f' <= f && |f| == |f'| + k && forall a, b :: a in f && a !in f' && b in f' ==> a < b
  }

  lemma TakesNone(sb: Super, blocks: seq<Block>)
    requires SuperOk(sb) && |blocks| == sb.size
    ensures Takes(sb, blocks, blocks, 0)
  {
  }

  lemma TakesMore(sb: Super, b0: seq<Block>, b1: seq<Block>, b2: seq<Block>, k: int, m: int)
    requires Takes(sb, b0, b1, k) && Takes(sb, b1, b2, m)
    ensures Takes(sb, b0, b2, k + m)
  {
    hide Free, Used;
  }

  /** An ownership that does not change, or gains the lowest free block. */
  lemma TakesSame(sb: Super, fs: Fs, fs': Fs, owner: Owners)
    requires Own(sb, fs, owner) && Own(sb, fs', owner)
    ensures Takes(sb, fs.blocks, fs'.blocks, 0) && Free(sb, fs'.blocks) == Free(sb, fs.blocks)
  {
    hide Used, Ref, Free;
    FreeOwn(sb, fs, owner);
    FreeOwn(sb, fs', owner);
    assert Free(sb, fs.blocks) == Free(sb, fs'.blocks);
  }

  lemma TakesOne(sb: Super, fs: Fs, fs': Fs, owner: Owners, b: nat, x: (nat, nat))
    requires Own(sb, fs, owner) && Own(sb, fs', owner[b := x]) && sb.nmeta <= b < sb.size && b !in owner
    requires forall c :: 0 <= c < b ==> Used(sb, fs.blocks, c)
    ensures Takes(sb, fs.blocks, fs'.blocks, 1)
    ensures b in Free(sb, fs.blocks) && Free(sb, fs.blocks) - Free(sb, fs'.blocks) == {b}
  {
    hide Used, Ref, Free;
    FreeOwn(sb, fs, owner);
    FreeOwn(sb, fs', owner[b := x]);
    var f, f' := Free(sb, fs.blocks), Free(sb, fs'.blocks);
    assert f' == f - {b};
    forall c | c in f'
      ensures b < c
    {
      assert !Used(sb, fs.blocks, c);
    }
  }

  /** The file blocks of lo..hi-1 without a disk block. */
  ghost function Holes(fs: Fs, i: nat, lo: nat, hi: nat): (n: nat)
    requires i < |fs.inodes| && hi <= MAXFILE
    ensures n <= if lo < hi then hi - lo else 0
  {
    if lo >= hi then 0 else Holes(fs, i, lo, hi - 1) + if Ref(fs, i, Slot(hi - 1)) == 0 then 1 else 0
  }

  /** Does the range need an indirect block that the inode does not have? */
  ghost predicate NeedsInd(fs: Fs, i: nat, lo: nat, hi: nat)
    requires i < |fs.inodes|
  {
    lo < hi && hi > NDIRECT && fs.inodes[i].addrs[IND] == 0
  }

  /** The free blocks it takes to map all file blocks of lo..hi-1. */
  ghost function Needed(fs: Fs, i: nat, lo: nat, hi: nat): nat
    requires i < |fs.inodes| && hi <= MAXFILE
  {
    Holes(fs, i, lo, hi) + if NeedsInd(fs, i, lo, hi) then 1 else 0
  }

  /** The references of lo..hi-1 have been filled, and the indirect block if they need it; nothing else. */
  ghost predicate Mapped(fs: Fs, fs': Fs, i: nat, lo: nat, hi: nat) {
    && i < |fs.inodes| == |fs'.inodes|
    && (forall bn :: 0 <= bn < MAXFILE ==> Ref(fs, i, Slot(bn)) != 0 || !(lo <= bn < hi) ==>
      Ref(fs', i, Slot(bn)) == Ref(fs, i, Slot(bn)))
    && (forall bn :: lo <= bn < hi && bn < MAXFILE ==> Ref(fs', i, Slot(bn)) != 0)
    && (fs.inodes[i].addrs[IND] != 0 || !(lo < hi && hi > NDIRECT) ==>
      fs'.inodes[i].addrs[IND] == fs.inodes[i].addrs[IND])
    && (lo < hi && hi > NDIRECT ==> fs'.inodes[i].addrs[IND] != 0)
  }

  lemma MappedNone(fs: Fs, i: nat, lo: nat)
    requires i < |fs.inodes|
    ensures Mapped(fs, fs, i, lo, lo)
  {
  }

  lemma MappedMore(fs: Fs, fs1: Fs, fs2: Fs, i: nat, lo: nat, m: nat, mid: nat, hi: nat)
    requires Mapped(fs, fs1, i, lo, mid) && Mapped(fs1, fs2, i, m, hi) && lo <= m <= mid <= hi
    ensures Mapped(fs, fs2, i, lo, hi)
  {
    hide Ref;
  }

  lemma {:induction false} HolesSplit(fs: Fs, i: nat, lo: nat, mid: nat, hi: nat)
    requires i < |fs.inodes| && lo <= mid <= hi <= MAXFILE
    ensures Holes(fs, i, lo, hi) == Holes(fs, i, lo, mid) + Holes(fs, i, mid, hi)
    decreases hi
  {
    hide Ref;
    if mid < hi {
      HolesSplit(fs, i, lo, mid, hi - 1);
    }
  }

  lemma {:induction false} HolesSame(fs: Fs, fs': Fs, i: nat, lo: nat, hi: nat)
    requires i < |fs.inodes| && i < |fs'.inodes| && hi <= MAXFILE
    requires forall bn :: lo <= bn < hi ==> Ref(fs', i, Slot(bn)) == Ref(fs, i, Slot(bn))
    ensures Holes(fs', i, lo, hi) == Holes(fs, i, lo, hi)
    decreases hi
  {
    hide Ref;
    if lo < hi {
      HolesSame(fs, fs', i, lo, hi - 1);
    }
  }

  lemma {:induction false} HolesNone(fs: Fs, i: nat, lo: nat, hi: nat)
    requires i < |fs.inodes| && hi <= MAXFILE
    ensures Holes(fs, i, lo, hi) == 0 <==> forall bn :: lo <= bn < hi ==> Ref(fs, i, Slot(bn)) != 0
    decreases hi
  {
    hide Ref;
    if lo < hi {
      HolesNone(fs, i, lo, hi - 1);
    }
  }

  /** Mapping a range in two goes, which may share blocks, takes in all what mapping it at once takes. */
  lemma NeededMore(fs: Fs, fs1: Fs, i: nat, lo: nat, m: nat, mid: nat, hi: nat)
    requires Mapped(fs, fs1, i, lo, mid) && lo <= m <= mid <= hi <= MAXFILE
    ensures Needed(fs, i, lo, hi) == Needed(fs, i, lo, mid) + Needed(fs1, i, m, hi)
  {
    hide Ref, Holes;
    HolesSplit(fs, i, lo, mid, hi);
    HolesSplit(fs1, i, m, mid, hi);
    HolesNone(fs1, i, m, mid);
    HolesSame(fs, fs1, i, mid, hi);
  }

  /** A longer range needs no fewer blocks. */
  lemma NeededGrows(fs: Fs, i: nat, lo: nat, mid: nat, hi: nat)
    requires i < |fs.inodes| && lo <= mid <= hi <= MAXFILE
    ensures Needed(fs, i, lo, mid) <= Needed(fs, i, lo, hi)
  {
    hide Ref, Holes;
    HolesSplit(fs, i, lo, mid, hi);
  }

  // ---- What is logged.

  ghost function MapsOf(sb: Super, f: set<nat>): set<nat> {
    set b | b in f :: BBlock(sb, b)
  }

  lemma MapsUnion(sb: Super, f: set<nat>, g: set<nat>)
    ensures MapsOf(sb, f + g) == MapsOf(sb, f) + MapsOf(sb, g)
  {
  }

  /** The disk blocks of file blocks lo..hi-1. */
  ghost function DataSet(fs: Fs, i: nat, lo: nat, hi: nat): set<nat>
    requires i < |fs.inodes| && hi <= MAXFILE
  {
    set bn | lo <= bn < hi :: Ref(fs, i, Slot(bn)) as nat
  }

  /** A missing block among lo..hi-1 whose reference is in the indirect block. */
  ghost predicate LateHole(fs: Fs, i: nat, lo: nat, hi: nat)
    requires i < |fs.inodes| && hi <= MAXFILE
  {
    exists bn :: lo <= bn < hi && NDIRECT <= bn && Ref(fs, i, Slot(bn)) == 0
  }

  ghost function IndPart(fs: Fs, fs': Fs, i: nat, lo: nat, hi: nat): set<nat>
    requires i < |fs.inodes| && i < |fs'.inodes| && hi <= MAXFILE
  {
    if LateHole(fs, i, lo, hi) then {fs'.inodes[i].addrs[IND] as nat} else {}
  }

  /**
    Writing lo..hi-1 logs those blocks, the free-map blocks of what was taken, and the indirect block
    if it changed.
   */
  ghost predicate Noted(sb: Super, fs: Fs, fs': Fs, i: nat, lo: nat, hi: nat, l: set<nat>, l': set<nat>)
    requires SuperOk(sb) && |fs.blocks| == |fs'.blocks| == sb.size && i < |fs.inodes| && i < |fs'.inodes|
      && hi <= MAXFILE
  {
    l' == l + DataSet(fs', i, lo, hi) + MapsOf(sb, Free(sb, fs.blocks) - Free(sb, fs'.blocks))
      + IndPart(fs, fs', i, lo, hi)
  }

  /** Blocks lo..hi-1 of the file have been mapped and written. */
  ghost predicate Extended(sb: Super, fs: Fs, fs': Fs, i: nat, lo: nat, hi: nat, l: set<nat>, l': set<nat>) {
    && lo <= hi <= MAXFILE && Mapped(fs, fs', i, lo, hi) && Takes(sb, fs.blocks, fs'.blocks, Needed(fs, i, lo, hi))
    && Noted(sb, fs, fs', i, lo, hi, l, l')
  }

  lemma ExtendedNone(sb: Super, fs: Fs, i: nat, lo: nat, l: set<nat>)
    requires Shaped(sb, fs) && i < sb.ninodes && lo <= MAXFILE
    ensures Extended(sb, fs, fs, i, lo, lo, l, l)
  {
    hide Ref, Used;
    MappedNone(fs, i, lo);
    assert DataSet(fs, i, lo, lo) == {} && MapsOf(sb, {}) == {};
    assert Free(sb, fs.blocks) - Free(sb, fs.blocks) == {};
  }

  lemma ExtendedMore(sb: Super, fs: Fs, fs1: Fs, fs2: Fs, i: nat, lo: nat, mid: nat, hi: nat, l: set<nat>,
                     l1: set<nat>, l2: set<nat>)
    requires Extended(sb, fs, fs1, i, lo, mid, l, l1) && Extended(sb, fs1, fs2, i, mid, hi, l1, l2)
    ensures Extended(sb, fs, fs2, i, lo, hi, l, l2)
  {
    hide Ref, Used, Takes, Needed, Free, Noted;
    MappedMore(fs, fs1, fs2, i, lo, mid, mid, hi);
    NeededMore(fs, fs1, i, lo, mid, mid, hi);
    TakesMore(sb, fs.blocks, fs1.blocks, fs2.blocks, Needed(fs, i, lo, mid), Needed(fs1, i, mid, hi));
    NotedMore(sb, fs, fs1, fs2, i, lo, mid, hi, l, l1, l2);
  }

  lemma NotedMore(sb: Super, fs: Fs, fs1: Fs, fs2: Fs, i: nat, lo: nat, mid: nat, hi: nat, l: set<nat>, l1: set<nat>,
                  l2: set<nat>)
    requires Extended(sb, fs, fs1, i, lo, mid, l, l1) && Extended(sb, fs1, fs2, i, mid, hi, l1, l2)
    ensures Noted(sb, fs, fs2, i, lo, hi, l, l2)
  {
    hide Ref, Used, Needed, Free, MapsOf, LateHole;
    var f, f1, f2 := Free(sb, fs.blocks), Free(sb, fs1.blocks), Free(sb, fs2.blocks);
    assert f - f2 == (f - f1) + (f1 - f2);
    MapsUnion(sb, f - f1, f1 - f2);
    LateSplit(fs, fs1, i, lo, mid, hi);
    DataSplit(fs1, fs2, i, lo, mid, hi);
  }

  lemma LateSplit(fs: Fs, fs1: Fs, i: nat, lo: nat, mid: nat, hi: nat)
    requires Mapped(fs, fs1, i, lo, mid) && lo <= mid <= hi <= MAXFILE
    ensures LateHole(fs, i, lo, hi) <==> LateHole(fs, i, lo, mid) || LateHole(fs1, i, mid, hi)
    ensures LateHole(fs, i, lo, mid) ==> mid > NDIRECT && lo < mid
  {
    hide Ref;
    if bn :| lo <= bn < hi && NDIRECT <= bn && Ref(fs, i, Slot(bn)) == 0 {
      assert bn >= mid ==> Ref(fs1, i, Slot(bn)) == 0;
    }
    if bn :| mid <= bn < hi && NDIRECT <= bn && Ref(fs1, i, Slot(bn)) == 0 {
      assert Ref(fs, i, Slot(bn)) == 0;
    }
    if bn :| lo <= bn < mid && NDIRECT <= bn && Ref(fs, i, Slot(bn)) == 0 {
      assert lo <= bn < hi;
    }
  }

  lemma DataSplit(fs1: Fs, fs2: Fs, i: nat, lo: nat, mid: nat, hi: nat)
    requires Mapped(fs1, fs2, i, mid, hi) && lo <= mid <= hi <= MAXFILE
    ensures DataSet(fs2, i, lo, hi) == DataSet(fs1, i, lo, mid) + DataSet(fs2, i, mid, hi)
  {
    hide Ref;
    forall bn | lo <= bn < mid
      ensures Ref(fs2, i, Slot(bn)) == Ref(fs1, i, Slot(bn))
    {
    }
  }

  // ---- One file block.

  /** bmap has found or made the block of bn; `l` becomes `l'` by what it logged. */
  ghost predicate Got(sb: Super, fs: Fs, fs': Fs, i: nat, bn: nat, l: set<nat>, l': set<nat>) {
    && bn < MAXFILE && Mapped(fs, fs', i, bn, bn + 1) && Takes(sb, fs.blocks, fs'.blocks, Needed(fs, i, bn, bn + 1))
    && l' == l + NewBlock(fs, fs', i, bn) + MapsOf(sb, Free(sb, fs.blocks) - Free(sb, fs'.blocks))
      + IndPart(fs, fs', i, bn, bn + 1)
  }

  ghost function NewBlock(fs: Fs, fs': Fs, i: nat, bn: nat): set<nat>
    requires i < |fs.inodes| && i < |fs'.inodes| && bn < MAXFILE
  {
    if Ref(fs, i, Slot(bn)) == 0 then {Ref(fs', i, Slot(bn)) as nat} else {}
  }

  lemma {:induction false} NeededOne(fs: Fs, i: nat, bn: nat)
    requires i < |fs.inodes| && bn < MAXFILE
    ensures Holes(fs, i, bn, bn + 1) == if Ref(fs, i, Slot(bn)) == 0 then 1 else 0
    ensures LateHole(fs, i, bn, bn + 1) <==> bn >= NDIRECT && Ref(fs, i, Slot(bn)) == 0
    ensures Needed(fs, i, bn, bn + 1) == if Ref(fs, i, Slot(bn)) != 0 then 0
      else if bn >= NDIRECT && fs.inodes[i].addrs[IND] == 0 then 2 else 1
  {
    assert Holes(fs, i, bn, bn) == 0;
  }

  lemma GotSame(sb: Super, fs: Fs, i: nat, bn: nat, l: set<nat>)
    requires Shaped(sb, fs) && i < sb.ninodes && bn < MAXFILE && Ref(fs, i, Slot(bn)) != 0
    ensures Got(sb, fs, fs, i, bn, l, l)
  {
    hide Used, Needed, LateHole;
    NeededOne(fs, i, bn);
    TakesNone(sb, fs.blocks);
    assert Free(sb, fs.blocks) - Free(sb, fs.blocks) == {} && MapsOf(sb, {}) == {};
  }

  /** A direct reference has been filled with b. */
  lemma GotDirect(sb: Super, fs: Fs, fs': Fs, i: nat, bn: nat, b: nat, l: set<nat>)
    requires Shaped(sb, fs) && i < sb.ninodes && bn < NDIRECT && Ref(fs, i, bn) == 0
      && OneMoreRef(sb, fs, fs', i, bn, b) && b > 0
    requires Takes(sb, fs.blocks, fs'.blocks, 1) && Free(sb, fs.blocks) - Free(sb, fs'.blocks) == {b}
    ensures Got(sb, fs, fs', i, bn, l, l + {BBlock(sb, b), b})
  {
    hide Used, Needed, LateHole, Takes, Free;
    NeededOne(fs, i, bn);
    RefsFrom(sb, fs, fs', i, bn, b);
    MapsOne(sb, b);
  }

  lemma RefsFrom(sb: Super, fs: Fs, fs': Fs, i: nat, s: nat, b: nat)
    requires OneMoreRef(sb, fs, fs', i, s, b) && i < sb.ninodes && s < NSLOTS
    ensures forall k :: 0 <= k < NSLOTS ==> Ref(fs', i, k) == if k == s then b else Ref(fs, i, k)
    ensures fs'.inodes[i].addrs[IND] == if s == IND then b else fs.inodes[i].addrs[IND]
  {
    assert Ref(fs', i, IND) == fs'.inodes[i].addrs[IND] && Ref(fs, i, IND) == fs.inodes[i].addrs[IND];
  }

  lemma MapsOne(sb: Super, b: nat)
    ensures MapsOf(sb, {b}) == {BBlock(sb, b)}
  {
  }

  /** An entry of the indirect block has been filled with b. */
  lemma GotEntry(sb: Super, fs: Fs, fs': Fs, i: nat, bn: nat, b: nat, l: set<nat>)
    requires Shaped(sb, fs) && i < sb.ninodes && NDIRECT <= bn < MAXFILE && Ref(fs, i, bn + 1) == 0
      && fs.inodes[i].addrs[IND] != 0
    requires OneMoreRef(sb, fs, fs', i, bn + 1, b) && b > 0
    requires Takes(sb, fs.blocks, fs'.blocks, 1) && Free(sb, fs.blocks) - Free(sb, fs'.blocks) == {b}
    ensures Got(sb, fs, fs', i, bn, l, l + {BBlock(sb, b), b, fs.inodes[i].addrs[IND]})
  {
    hide Used, Takes, Free, Mapped, OneMoreRef;
    EntryMapped(sb, fs, fs', i, bn, b);
    NeededOne(fs, i, bn);
    MapsOne(sb, b);
    hide Ref, LateHole, Needed;
    assert IndPart(fs, fs', i, bn, bn + 1) == {fs.inodes[i].addrs[IND] as nat} && NewBlock(fs, fs', i, bn) == {b};
  }

  lemma EntryMapped(sb: Super, fs: Fs, fs': Fs, i: nat, bn: nat, b: nat)
    requires |fs.inodes| == sb.ninodes && i < sb.ninodes && NDIRECT <= bn < MAXFILE && fs.inodes[i].addrs[IND] != 0
    requires OneMoreRef(sb, fs, fs', i, bn + 1, b) && b > 0 && Ref(fs, i, bn + 1) == 0
    ensures |fs'.inodes| == |fs.inodes| && Mapped(fs, fs', i, bn, bn + 1)
    ensures Ref(fs', i, Slot(bn)) == b && fs'.inodes[i].addrs[IND] == fs.inodes[i].addrs[IND]
  {
    RefsFrom(sb, fs, fs', i, bn + 1, b);
    hide Ref, OneMoreRef;
  }

  /** The indirect block has been allocated as a, and then the entry as b. */
  lemma GotBoth(sb: Super, fs: Fs, fs1: Fs, fs2: Fs, i: nat, bn: nat, a: nat, b: nat, l: set<nat>)
    requires Shaped(sb, fs) && i < sb.ninodes && NDIRECT <= bn < MAXFILE && fs.inodes[i].addrs[IND] == 0
    requires OneMoreRef(sb, fs, fs1, i, IND, a) && OneMoreRef(sb, fs1, fs2, i, Slot(bn), b) && a > 0 && b > 0
    requires Takes(sb, fs.blocks, fs1.blocks, 1) && Free(sb, fs.blocks) - Free(sb, fs1.blocks) == {a}
    requires Takes(sb, fs1.blocks, fs2.blocks, 1) && Free(sb, fs1.blocks) - Free(sb, fs2.blocks) == {b}
    ensures Got(sb, fs, fs2, i, bn, l, l + {BBlock(sb, a), a} + {BBlock(sb, b), b, a})
  {
    hide Used, Takes, Free, Mapped, OneMoreRef, MapsOf;
    BothMapped(sb, fs, fs1, fs2, i, bn, a, b);
    NeededOne(fs, i, bn);
    TakesMore(sb, fs.blocks, fs1.blocks, fs2.blocks, 1, 1);
    BothMaps(sb, fs.blocks, fs1.blocks, fs2.blocks, a, b);
    hide Ref, LateHole, Needed;
    assert IndPart(fs, fs2, i, bn, bn + 1) == {a} && NewBlock(fs, fs2, i, bn) == {b};
  }

  lemma BothMaps(sb: Super, b0: seq<Block>, b1: seq<Block>, b2: seq<Block>, a: nat, b: nat)
    requires Takes(sb, b0, b1, 1) && Free(sb, b0) - Free(sb, b1) == {a}
    requires Takes(sb, b1, b2, 1) && Free(sb, b1) - Free(sb, b2) == {b}
    ensures MapsOf(sb, Free(sb, b0) - Free(sb, b2)) == {BBlock(sb, a), BBlock(sb, b)}
  {
    hide Used, Free;
    assert Free(sb, b0) - Free(sb, b2) == {a} + {b};
    MapsOne(sb, a);
    MapsOne(sb, b);
    MapsUnion(sb, {a}, {b});
  }

  lemma BothMapped(sb: Super, fs: Fs, fs1: Fs, fs2: Fs, i: nat, bn: nat, a: nat, b: nat)
    requires |fs.inodes| == sb.ninodes && i < sb.ninodes && NDIRECT <= bn < MAXFILE && fs.inodes[i].addrs[IND] == 0
    requires OneMoreRef(sb, fs, fs1, i, IND, a) && OneMoreRef(sb, fs1, fs2, i, Slot(bn), b) && a > 0 && b > 0
    ensures |fs2.inodes| == |fs.inodes| && Mapped(fs, fs2, i, bn, bn + 1)
    ensures Ref(fs, i, Slot(bn)) == 0 && Ref(fs2, i, Slot(bn)) == b && fs2.inodes[i].addrs[IND] == a
  {
    assert Ref(fs, i, Slot(bn)) == 0;
    RefsFrom(sb, fs, fs1, i, IND, a);
    RefsFrom(sb, fs1, fs2, i, Slot(bn), b);
    hide Ref, OneMoreRef;
  }

  lemma MappedKept(fs: Fs, fs1: Fs, fs2: Fs, i: nat, lo: nat, hi: nat)
    requires Mapped(fs, fs1, i, lo, hi) && |fs2.inodes| == |fs1.inodes|
    requires forall k :: 0 <= k < NSLOTS ==> Ref(fs2, i, k) == Ref(fs1, i, k)
    ensures i < |fs.inodes| == |fs2.inodes| && Mapped(fs, fs2, i, lo, hi)
    ensures fs2.inodes[i].addrs[IND] == fs1.inodes[i].addrs[IND]
  {
    assert Ref(fs2, i, IND) == Ref(fs1, i, IND);
    hide Ref;
  }

  /** The block found is then written, which changes no reference and takes no block. */
  lemma GotWritten(sb: Super, fs: Fs, fs1: Fs, fs2: Fs, i: nat, bn: nat, l: set<nat>, l1: set<nat>)
    requires Got(sb, fs, fs1, i, bn, l, l1) && |fs2.inodes| == |fs1.inodes| && |fs2.blocks| == |fs1.blocks|
    requires forall k :: 0 <= k < NSLOTS ==> Ref(fs2, i, k) == Ref(fs1, i, k)
    requires Takes(sb, fs1.blocks, fs2.blocks, 0) && Free(sb, fs2.blocks) == Free(sb, fs1.blocks)
    ensures Extended(sb, fs, fs2, i, bn, bn + 1, l, l1 + {Ref(fs2, i, Slot(bn)) as nat})
  {
    hide Used, Needed, LateHole, Free, Ref, MapsOf, Takes, Mapped;
    MappedKept(fs, fs1, fs2, i, bn, bn + 1);
    TakesMore(sb, fs.blocks, fs1.blocks, fs2.blocks, Needed(fs, i, bn, bn + 1), 0);
    var r := Ref(fs2, i, Slot(bn)) as nat;
    assert DataSet(fs2, i, bn, bn + 1) == {r};
    assert NewBlock(fs, fs1, i, bn) + {r} == {r};
  }

  // ---- Running out.

  /** There are enough free blocks for lo..hi-1, and an operation is open if any is needed. */
  ghost predicate Affordable(sb: Super, fs: Fs, i: nat, lo: nat, hi: nat, open: bool)
    requires Shaped(sb, fs) && i < sb.ninodes && hi <= MAXFILE
  {
    Needed(fs, i, lo, hi) == 0 || (open && Needed(fs, i, lo, hi) <= |Free(sb, fs.blocks)|)
  }

  lemma NeededNone(fs: Fs, i: nat, lo: nat, hi: nat)
    requires i < |fs.inodes| && hi <= MAXFILE
    ensures Needed(fs, i, lo, hi) == 0 <==> forall bn :: lo <= bn < hi ==> Ref(fs, i, Slot(bn)) != 0
  {
    if NeedsInd(fs, i, lo, hi) {
      assert Ref(fs, i, Slot(hi - 1)) == 0;
    }
    HolesNone(fs, i, lo, hi);
  }

  /** Once lo..mid-1 is mapped, the whole is affordable exactly if the rest is. */
  lemma AffordMore(sb: Super, fs: Fs, fs1: Fs, i: nat, lo: nat, m: nat, mid: nat, hi: nat, open: bool)
    requires Shaped(sb, fs) && Shaped(sb, fs1) && i < sb.ninodes && lo <= m <= mid <= hi <= MAXFILE
    requires Mapped(fs, fs1, i, lo, mid) && Takes(sb, fs.blocks, fs1.blocks, Needed(fs, i, lo, mid))
    requires open || Needed(fs, i, lo, mid) == 0
    ensures Affordable(sb, fs, i, lo, hi, open) <==> Affordable(sb, fs1, i, m, hi, open)
  {
    hide Mapped, Needed, Free;
    NeededMore(fs, fs1, i, lo, m, mid, hi);
  }

  /** A range is not affordable unless its first part is. */
  lemma AffordFirst(sb: Super, fs: Fs, i: nat, lo: nat, mid: nat, hi: nat, open: bool)
    requires Shaped(sb, fs) && i < sb.ninodes && lo <= mid <= hi <= MAXFILE && Affordable(sb, fs, i, lo, hi, open)
    ensures Affordable(sb, fs, i, lo, mid, open)
  {
    hide Needed, Free;
    NeededGrows(fs, i, lo, mid, hi);
  }

  /** What a finished writei has done: the range is mapped and written, and the inode logged if the file grew. */
  ghost predicate Filed(sb: Super, fs: Fs, fs': Fs, i: nat, lo: nat, hi: nat, grew: bool, l: set<nat>, l': set<nat>) {
    && lo <= hi <= MAXFILE && Mapped(fs, fs', i, lo, hi) && Takes(sb, fs.blocks, fs'.blocks, Needed(fs, i, lo, hi))
    && l' == l + DataSet(fs', i, lo, hi) + MapsOf(sb, Free(sb, fs.blocks) - Free(sb, fs'.blocks))
      + IndPart(fs, fs', i, lo, hi)
             + if grew then {IBlock(sb, i)} else {}
  }

  lemma FiledSame(sb: Super, fs: Fs, fs': Fs, i: nat, lo: nat, hi: nat, l: set<nat>, l': set<nat>)
    requires Extended(sb, fs, fs', i, lo, hi, l, l')
    ensures Filed(sb, fs, fs', i, lo, hi, false, l, l')
  {
    hide Mapped, Needed, Free, Takes, MapsOf;
  }

  lemma FiledGrew(sb: Super, fs: Fs, fs1: Fs, fs2: Fs, i: nat, lo: nat, hi: nat, l: set<nat>, l1: set<nat>)
    requires Extended(sb, fs, fs1, i, lo, hi, l, l1) && SameRefs(fs1, fs2) && |fs2.blocks| == |fs1.blocks|
    requires Takes(sb, fs1.blocks, fs2.blocks, 0) && Free(sb, fs2.blocks) == Free(sb, fs1.blocks)
    ensures Filed(sb, fs, fs2, i, lo, hi, true, l, l1 + {IBlock(sb, i)})
  {
    hide Needed, Free, Takes, MapsOf, Ref;
    MappedKept(fs, fs1, fs2, i, lo, hi);
    TakesMore(sb, fs.blocks, fs1.blocks, fs2.blocks, Needed(fs, i, lo, hi), 0);
    hide Mapped;
    forall bn | lo <= bn < hi
      ensures Ref(fs2, i, Slot(bn)) == Ref(fs1, i, Slot(bn))
    {
    }
    assert DataSet(fs2, i, lo, hi) == DataSet(fs1, i, lo, hi);
  }

  // ---- How many blocks are logged.

  ghost function Least(f: set<nat>): (m: nat)
    requires f != {}
    ensures m in f && forall x :: x in f ==> m <= x
  {
    var x :| x in f;
    if f == {x} then x else
      var m := Least(f - {x});
      assert forall y :: y in f ==> y == x || y in f - {x};
      if x < m then x else m
  }

  /** The k lowest members of f. */
  ghost function Lowest(f: set<nat>, k: nat): (g: set<nat>)
    ensures g <= f && |g| <= k
  {
    if k == 0 || f == {} then {} else {Least(f)} + Lowest(f - {Least(f)}, k - 1)
  }

  lemma {:induction false} TakenLowest(f: set<nat>, f': set<nat>, k: nat)
    requires f' <= f && |f| == |f'| + k && forall a, b :: a in f && a !in f' && b in f' ==> a < b
    ensures f - f' == Lowest(f, k)
    decreases k
  {
    SubsetCard(f', f);
    if k > 0 {
      assert |f - f'| == k;
      var a :| a in f - f';
      var m := Least(f);
      assert m !in f';
      TakenLowest(f - {m}, f', k - 1);
      assert f - f' == {m} + (f - {m} - f');
    } else {
      assert f - f' == {};
    }
  }

  lemma SubsetCard(a: set<nat>, b: set<nat>)
    requires a <= b
    ensures |b| == |a| + |b - a|
  {
    assert b == a + (b - a);
  }

  lemma {:induction false} MapsCard(sb: Super, f: set<nat>)
    requires SuperOk(sb) && forall b :: b in f ==> b < sb.size
    ensures |MapsOf(sb, f)| <= |f| && forall m :: m in MapsOf(sb, f) ==> sb.bmapstart <= m < sb.nmeta
    decreases |f|
  {
    if f != {} {
      var b :| b in f;
      MapsCard(sb, f - {b});
      assert f == (f - {b}) + {b};
      MapsUnion(sb, f - {b}, {b});
      MapsOne(sb, b);
    } else {
      assert MapsOf(sb, f) == {};
    }
  }

  /** They are at most as many as there are free-map blocks. */
  lemma MapsFew(sb: Super, f: set<nat>)
    requires SuperOk(sb) && forall b :: b in f ==> b < sb.size
    ensures |MapsOf(sb, f)| <= sb.nmeta - sb.bmapstart
  {
    MapsCard(sb, f);
    var all := Range(sb.nmeta) - Range(sb.bmapstart);
    SubsetCard(Range(sb.bmapstart), Range(sb.nmeta));
    assert MapsOf(sb, f) <= all;
    SubsetCard(MapsOf(sb, f), all);
  }

  /** The free-map blocks that k allocations from here change. */
  ghost function MapCount(sb: Super, blocks: seq<Block>, k: nat): nat
    requires SuperOk(sb) && |blocks| == sb.size
  {
    |MapsOf(sb, Lowest(Free(sb, blocks), k))|
  }

  lemma MapCountBound(sb: Super, blocks: seq<Block>, k: nat)
    requires SuperOk(sb) && |blocks| == sb.size
    ensures MapCount(sb, blocks, k) <= k && MapCount(sb, blocks, k) <= sb.nmeta - sb.bmapstart
  {
    hide Used;
    MapsCard(sb, Lowest(Free(sb, blocks), k));
    MapsFew(sb, Lowest(Free(sb, blocks), k));
  }

  /**
    The number of blocks that writing lo..hi-1 logs, known beforehand: the blocks themselves,
    the free-map blocks, the indirect block if it gets an entry, the inode if the file grows.
   */
  ghost function LogCost(sb: Super, fs: Fs, i: nat, lo: nat, hi: nat, grew: bool): nat
    requires Shaped(sb, fs) && i < sb.ninodes && lo <= hi <= MAXFILE
  {
    hi - lo + MapCount(sb, fs.blocks, Needed(fs, i, lo, hi)) + (if LateHole(fs, i, lo, hi) then 1 else 0)
      + if grew then 1 else 0
  }

  lemma RefsApart(sb: Super, fs: Fs, owner: Owners, i: nat, j: nat, k: nat)
    requires Own(sb, fs, owner) && i < sb.ninodes && j < NSLOTS && k < NSLOTS && Ref(fs, i, j) == Ref(fs, i, k) != 0
    ensures j == k
  {
    hide Ref, Used;
    assert owner[Ref(fs, i, j)] == (i, j);
  }

  lemma {:induction false} DataCard(sb: Super, fs: Fs, owner: Owners, i: nat, lo: nat, hi: nat)
    requires Own(sb, fs, owner) && i < sb.ninodes == |fs.inodes| && lo <= hi <= MAXFILE
    requires forall bn :: lo <= bn < hi ==> Ref(fs, i, Slot(bn)) != 0
    ensures |DataSet(fs, i, lo, hi)| == hi - lo
    decreases hi
  {
    hide Ref, Own;
    if lo < hi {
      DataCard(sb, fs, owner, i, lo, hi - 1);
      hide DataSet;
      DataSnoc(fs, i, lo, hi - 1);
      DataFresh(sb, fs, owner, i, lo, hi - 1);
    } else {
      assert DataSet(fs, i, lo, hi) == {};
    }
  }

  lemma DataSnoc(fs: Fs, i: nat, lo: nat, hi: nat)
    requires i < |fs.inodes| && lo <= hi < MAXFILE
    ensures DataSet(fs, i, lo, hi + 1) == DataSet(fs, i, lo, hi) + {Ref(fs, i, Slot(hi)) as nat}
  {
    hide Ref;
  }

  lemma DataFresh(sb: Super, fs: Fs, owner: Owners, i: nat, lo: nat, hi: nat)
    requires Own(sb, fs, owner) && i < sb.ninodes == |fs.inodes| && lo <= hi < MAXFILE && Ref(fs, i, Slot(hi)) != 0
    ensures Ref(fs, i, Slot(hi)) as nat !in DataSet(fs, i, lo, hi)
  {
    hide Ref, Own;
    forall bn | lo <= bn < hi
      ensures Ref(fs, i, Slot(bn)) != Ref(fs, i, Slot(hi))
    {
      if Ref(fs, i, Slot(bn)) == Ref(fs, i, Slot(hi)) {
        RefsApart(sb, fs, owner, i, Slot(bn), Slot(hi));
      }
    }
  }

  lemma DataOwned(sb: Super, fs: Fs, owner: Owners, i: nat, lo: nat, hi: nat)
    requires Own(sb, fs, owner) && i < sb.ninodes && lo <= hi <= MAXFILE
    requires forall bn :: lo <= bn < hi ==> Ref(fs, i, Slot(bn)) != 0
    ensures forall b :: b in DataSet(fs, i, lo, hi) ==> sb.nmeta <= b && b in owner && owner[b] != (i, IND)
  {
    hide Ref, Used;
  }

  /** A write that starts with nothing logged logs exactly that many blocks. */
  lemma LogCount(sb: Super, fs: Fs, fs': Fs, owner: Owners, i: nat, lo: nat, hi: nat, grew: bool, l: set<nat>)
    requires Shaped(sb, fs) && Own(sb, fs', owner) && i < sb.ninodes && Filed(sb, fs, fs', i, lo, hi, grew, {}, l)
    ensures |l| == LogCost(sb, fs, i, lo, hi, grew)
  {
    hide Used, Ref, Needed, MapsOf, LateHole;
    var f, f' := Free(sb, fs.blocks), Free(sb, fs'.blocks);
    var maps := MapsOf(sb, f - f');
    TakenLowest(f, f', Needed(fs, i, lo, hi));
    MapsCard(sb, f - f');
    DataCard(sb, fs', owner, i, lo, hi);
    DataOwned(sb, fs', owner, i, lo, hi);
    IndOwned(sb, fs, fs', owner, i, lo, hi);
    var data, ind, ib := DataSet(fs', i, lo, hi), IndPart(fs, fs', i, lo, hi), if grew then {IBlock(sb, i)} else {};
    CardFour(data, maps, ind, ib);
  }

  lemma IndOwned(sb: Super, fs: Fs, fs': Fs, owner: Owners, i: nat, lo: nat, hi: nat)
    requires Shaped(sb, fs) && Own(sb, fs', owner) && i < sb.ninodes && Mapped(fs, fs', i, lo, hi) && hi <= MAXFILE
    ensures forall b :: b in IndPart(fs, fs', i, lo, hi) ==> sb.nmeta <= b && b in owner && owner[b] == (i, IND)
  {
    hide Used;
    assert Ref(fs', i, IND) == fs'.inodes[i].addrs[IND];
    hide Ref;
  }

  lemma CardFour(a: set<nat>, b: set<nat>, c: set<nat>, d: set<nat>)
    requires a !! b && (a + b) !! c && (a + b + c) !! d
    ensures |{} + a + b + c + d| == |a| + |b| + |c| + |d|
  {
    assert {} + a + b + c + d == a + b + c + d;
  }
}
