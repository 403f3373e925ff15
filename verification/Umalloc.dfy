/**
  The user-level allocator of umalloc.c (Kernighan and Ritchie, section 8.7), over
  memory addressed in units of one header.  `base` is the address of the static header,
  which lies below the heap; address 0 is the null pointer.
 */
module Umalloc {
  import opened Options

  datatype Header = Header(ptr: nat, size: nat)

  /**
    The abstract heap: the headers in memory, the addresses on the free list (base
    included) and of the blocks handed out, and for every unit obtained from sbrk the
    block it lies in.
   */
  datatype Heap = Heap(mem: map<nat, Header>, free: set<nat>, live: set<nat>, who: map<nat, nat>)

  /** b follows a on the circular list: the next higher address, or base after the highest. */
  ghost predicate IsNext(free: set<nat>, base: nat, a: nat, b: nat) {
    if b > a then forall c :: c in free ==> !(a < c < b)
    else b == base && forall c :: c in free ==> c <= a
  }

  /** ptr threads the free addresses in order, with one wrap to the empty base block. */
  ghost predicate Linked(h: Heap, base: nat) {
    && base in h.free && base > 0
    && (forall a :: a in h.free ==> a in h.mem && base <= a && (h.mem[a].size == 0 <==> a == base))
    && (forall a {:trigger LinkAt(h, base, a)} :: a in h.free ==> LinkAt(h, base, a))
  }

  ghost predicate LinkAt(h: Heap, base: nat, a: nat) {
    a in h.mem && h.mem[a].ptr in h.free && IsNext(h.free, base, a, h.mem[a].ptr)
  }

  /** No free block ends where another begins, except possibly those in x. */
  ghost predicate Coalesced(h: Heap, base: nat, x: set<nat>) {
    forall a {:trigger Apart(h, a)} :: a in h.free && a != base && a !in x ==> Apart(h, a)
  }

  ghost predicate Apart(h: Heap, a: nat) {
    a in h.mem && a + h.mem[a].size !in h.free
  }

  /** Free and live blocks partition the units obtained from sbrk. */
  ghost predicate Partition(h: Heap, base: nat) {
    && (forall a :: a in h.live ==> a in h.mem && base < a && h.mem[a].size > 0 && a !in h.free)
    && (forall a {:trigger Covers(h, a)} :: a in h.free || a in h.live ==> Covers(h, a))
    && (forall u {:trigger InBlock(h, u)} :: u in h.who ==> InBlock(h, u))
  }

  /** Every unit of block a belongs to a. */
  ghost predicate Covers(h: Heap, a: nat) {
    a in h.mem && forall u :: a <= u < a + h.mem[a].size ==> u in h.who && h.who[u] == a
  }

  /** Unit u lies in the block it belongs to. */
  ghost predicate InBlock(h: Heap, u: nat) {
    u in h.who && var a := h.who[u]; (a in h.free || a in h.live) && a in h.mem && a <= u < a + h.mem[a].size
  }

  ghost predicate Inv(h: Heap, base: nat) {
    Linked(h, base) && Coalesced(h, base, {}) && Partition(h, base)
  }

  /** Block b goes onto the list after p. */
  function Insert(h: Heap, p: nat, b: nat): Heap
    requires p in h.mem && b in h.mem
  {
    Heap(h.mem[b := h.mem[b].(ptr := h.mem[p].ptr)][p := h.mem[p].(ptr := b)], h.free + {b}, h.live - {b}, h.who)
  }

  /** The block after p on the list joins p. */
  function Merge(h: Heap, p: nat): Heap
    requires p in h.mem && h.mem[p].ptr in h.mem
  {
    var q := h.mem[p].ptr;
    Heap(h.mem[p := Header(h.mem[q].ptr, h.mem[p].size + h.mem[q].size)], h.free - {q}, h.live,
         map u | u in h.who :: if h.who[u] == q then p else h.who[u])
  }

  /** p is the free block that precedes address b. */
  ghost predicate Precedes(free: set<nat>, p: nat, b: nat) {
    p in free && p < b && forall c :: c in free && c < b ==> c <= p
  }

  lemma InsertKeeps(h: Heap, base: nat, p: nat, b: nat)
    requires Inv(h, base) && b in h.live && Precedes(h.free, p, b)
    ensures var h' := Insert(h, p, b);
      Linked(h', base) && Coalesced(h', base, {p, b}) && Partition(h', base)
  {
    hide IsNext;
    var h' := Insert(h, p, b);
    InsertLinked(h, base, p, b);
    forall a | a in h'.free && a != base && a != p && a != b
      ensures Apart(h', a)
    {
      assert Apart(h, a) && Covers(h, a) && Covers(h, p);
      var w := if p in h.who then h.who[p] else 0;
    }
    forall a | a in h'.free || a in h'.live
      ensures Covers(h', a)
    {
      assert Covers(h, a);
    }
    forall u | u in h'.who
      ensures InBlock(h', u)
    {
      assert InBlock(h, u);
    }
  }

  lemma InsertLinked(h: Heap, base: nat, p: nat, b: nat)
    requires Linked(h, base) && b in h.mem && base < b && h.mem[b].size > 0 && b !in h.free && Precedes(h.free, p, b)
    ensures Linked(Insert(h, p, b), base)
  {
    var h' := Insert(h, p, b);
    forall a | a in h'.free
      ensures LinkAt(h', base, a)
    {
      assert a != b ==> LinkAt(h, base, a);
      assert LinkAt(h, base, p);
    }
  }

  lemma MergeKeeps(h: Heap, base: nat, p: nat, x: set<nat>)
    requires Linked(h, base) && Partition(h, base) && Coalesced(h, base, x + {p}) && p in h.free && LinkAt(h, base, p)
    requires p + h.mem[p].size == h.mem[p].ptr > p && h.mem[p].ptr !in x
    ensures var h' := Merge(h, p);
      && Linked(h', base) && Partition(h', base) && h'.who.Keys == h.who.Keys
      && Coalesced(h', base, x)
  {
    hide IsNext, Partition;
    var h', q := Merge(h, p), h.mem[p].ptr;
    MergeLinked(h, base, p);
    MergePartition(h, base, p);
    forall a | a in h'.free && a != base && a !in x
      ensures Apart(h', a)
    {
      assert Apart(h, if a == p then q else a);
    }
  }

  lemma MergeLinked(h: Heap, base: nat, p: nat)
    requires Linked(h, base) && p in h.free && LinkAt(h, base, p) && p + h.mem[p].size == h.mem[p].ptr > p
    ensures Linked(Merge(h, p), base)
  {
    hide IsNext;
    var h' := Merge(h, p);
    forall a | a in h'.free
      ensures LinkAt(h', base, a)
    {
      MergeLink(h, base, p, a);
    }
  }

  lemma MergeLink(h: Heap, base: nat, p: nat, a: nat)
    requires Linked(h, base) && p in h.free && LinkAt(h, base, p) && p + h.mem[p].size == h.mem[p].ptr > p
    requires a in h.free && a != h.mem[p].ptr
    ensures LinkAt(Merge(h, p), base, a)
  {
    assert LinkAt(h, base, a) && LinkAt(h, base, h.mem[p].ptr);
  }

  lemma MergePartition(h: Heap, base: nat, p: nat)
    requires Linked(h, base) && Partition(h, base) && p in h.free && LinkAt(h, base, p)
    requires p + h.mem[p].size == h.mem[p].ptr > p
    ensures Partition(Merge(h, p), base) && Merge(h, p).who.Keys == h.who.Keys
  {
    hide IsNext;
    var h', q := Merge(h, p), h.mem[p].ptr;
    forall u | u in h'.who
      ensures InBlock(h', u)
    {
      assert InBlock(h, u);
    }
    forall a | a in h'.free || a in h'.live
      ensures Covers(h', a)
    {
      assert Covers(h, a) && Covers(h, q);
    }
  }

  /** c lies on the circular way from s to p, p excluded. */
  ghost predicate Between(s: nat, c: nat, p: nat) {
    if s <= p then s <= c < p else s <= c || c < p
  }

  ghost function Passed(free: set<nat>, s: nat, p: nat): set<nat> {
    set c | c in free && Between(s, c, p)
  }

  /** One step along the list passes one block, until it is back at s. */
  lemma Step(h: Heap, base: nat, s: nat, p: nat)
    requires Linked(h, base) && s in h.free && p in h.free
    ensures LinkAt(h, base, p)
    ensures p !in Passed(h.free, s, p)
    ensures h.mem[p].ptr != s ==> Passed(h.free, s, h.mem[p].ptr) == Passed(h.free, s, p) + {p}
    ensures h.mem[p].ptr == s ==> Passed(h.free, s, p) + {p} == h.free
  {
    assert LinkAt(h, base, p);
    var q := h.mem[p].ptr;
    forall c | c in h.free && q != s
      ensures c in Passed(h.free, s, q) <==> c in Passed(h.free, s, p) || c == p
    {
    }
    forall c | c in h.free && q == s
      ensures c in Passed(h.free, s, p) || c == p
    {
    }
  }

  /** The block that precedes b exists. */
  lemma {:induction false} Predecessor(free: set<nat>, base: nat, b: nat) returns (p: nat)
    requires base in free && base < b
    ensures Precedes(free, p, b)
    decreases b
  {
    if b - 1 in free {
      p := b - 1;
    } else {
      p := Predecessor(free, base, b - 1);
    }
  }

  /** free's test at p: this is where b belongs. */
  predicate Here(b: nat, p: nat, next: nat) {
    (b > p && b < next) || (p >= next && (b > p || b < next))
  }

  lemma HereIffPrecedes(h: Heap, base: nat, p: nat, b: nat)
    requires Linked(h, base) && p in h.free && base < b && b !in h.free
    ensures LinkAt(h, base, p)
    ensures Here(b, p, h.mem[p].ptr) <==> Precedes(h.free, p, b)
  {
    assert LinkAt(h, base, p);
  }

  class Allocator {
    const base: nat
    var mem: map<nat, Header>
    var freep: nat

    ghost var free: set<nat>
    ghost var live: set<nat>
    ghost var who: map<nat, nat>

    ghost function H(): Heap
      reads this
    {
      Heap(mem, free, live, who)
    }

    /** Before the first malloc the list does not exist; afterwards the invariant holds. */
    ghost predicate Valid()
      reads this
    {
      && base > 0 && base in mem
      && (freep == 0 ==> live == {} && who == map[])
      && (freep != 0 ==> Inv(H(), base) && freep in free)
    }

    constructor (base: nat)
      requires base > 0
      ensures Valid() && freep == 0 && live == {} && who == map[] && this.base == base
    {
      this.base := base;
      mem := map[base := Header(0, 0)];
      freep, free, live, who := 0, {}, {}, map[];
    }

    /** free's search loop: the free block after which b belongs. */
    method FindPlace(b: nat) returns (p: nat)
      requires Valid() && freep != 0 && b in live
      ensures Precedes(free, p, b)
    {
      hide IsNext, Precedes;
      ghost var h := H();
      ghost var t := Predecessor(free, base, b);
      p := freep;
      Start(h, p);
      InFree(free, t, b);
      while !(b > p && b < mem[p].ptr)
        invariant p in free && p in mem && t in free && t !in Passed(free, freep, p)
        decreases free - Passed(free, freep, p)
      {
        HereIffPrecedes(h, base, p, b);
        if p >= mem[p].ptr && (b > p || b < mem[p].ptr) {
          break;
        }
        OnlyOne(free, p, t, b);
        Step(h, base, freep, p);
        p := mem[p].ptr;
      }
      HereIffPrecedes(h, base, p, b);
    }

    /** free: block b leaves the live blocks; its units stay in the heap; neighbours are joined. */
    method Free(b: nat)
      requires Valid() && freep != 0 && b in live
      modifies this
      ensures Valid() && freep != 0
      ensures live == old(live) - {b} && who.Keys == old(who).Keys
      ensures forall a :: a in live ==> a in mem && a in old(mem) && mem[a] == old(mem)[a]
      ensures forall u :: u in who && who[u] in live ==> who[u] == old(who)[u]
      ensures Fits(H(), old(mem)[b].size)
    {
      hide IsNext, Partition, Precedes, Coalesced, Linked, Freed, Fits;
      var p := FindPlace(b);
      ghost var h := H();
      FreeKeeps(h, base, p, b);
      FreedMem(h, p, b);
      if b + mem[b].size == mem[p].ptr {
        var q := mem[p].ptr;
        mem := mem[b := Header(mem[q].ptr, mem[b].size + mem[q].size)];
      } else {
        mem := mem[b := mem[b].(ptr := mem[p].ptr)];
      }
      if p + mem[p].size == b {
        mem := mem[p := Header(mem[b].ptr, mem[p].size + mem[b].size)];
      } else {
        mem := mem[p := mem[p].(ptr := b)];
      }
      freep := p;
      ghost var h' := Freed(h, p, b);
      free, live, who := h'.free, h'.live, h'.who;
    }

    /**
      morecore: at least 4096 new units from sbrk join the heap through free.  `grant` is
      the address sbrk returns, above everything obtained so far, or None if it fails.
     */
    method Morecore(nu: nat, grant: Option<nat>) returns (ok: bool)
      requires Valid() && freep != 0
      requires grant.Some? ==> base < grant.value && forall u :: u in who ==> u < grant.value
      modifies this
      ensures Valid() && freep != 0 && live == old(live)
      ensures ok <==> grant.Some?
      ensures !ok ==> H() == old(H()) && freep == old(freep)
      ensures ok ==> who.Keys == old(who).Keys + Units(grant.value, Asked(nu)) && Fits(H(), nu)
      ensures forall a :: a in live ==> a in mem && a in old(mem) && mem[a] == old(mem)[a]
      ensures forall u :: u in who && who[u] in live ==> u in old(who) && who[u] == old(who)[u]
    {
      hide Linked, Coalesced, Fits;
      if grant.None? {
        return false;
      }
      var hp, n := grant.value, Asked(nu);
      ghost var h := H();
      ExtendKeeps(h, base, hp, n);
      mem := mem[hp := Header(if hp in mem then mem[hp].ptr else 0, n)];
      live := live + {hp};
      who := who + (map u | u in Units(hp, n) :: hp);
      assert H() == Extend(h, hp, n);
      label sbrk:
      Free(hp);
      FitsLess(H(), n, nu);
      assert live == h.live;
      return true;
    }

    /** A block of exactly the right size leaves the list. */
    method TakeBlock(prevp: nat, p: nat)
      requires Valid() && freep != 0 && prevp in free && prevp in mem && mem[prevp].ptr == p && p in free && p in mem
      requires mem[p].size > 0 && mem[p].ptr in mem
      modifies this`mem, this`free, this`live, this`freep
      ensures Valid() && freep != 0
      ensures p !in old(live) && live == old(live) + {p} && p in mem && mem[p].size == old(mem)[p].size
      ensures Units(p, mem[p].size) <= who.Keys && forall u :: u in Units(p, mem[p].size) ==> who[u] == p
      ensures forall a :: a in old(live) ==> a in mem && a in old(mem) && mem[a] == old(mem)[a]
    {
      hide Linked, Coalesced, Partition, Units;
      ghost var h := H();
      TakeWhole(h, base, prevp, p);
      mem := mem[prevp := mem[prevp].(ptr := mem[p].ptr)];
      free, live := free - {p}, live + {p};
      freep := prevp;
      Positive(h, base, prevp);
    }

    /** The tail of a larger block is handed out. */
    method SplitBlock(prevp: nat, p: nat, n: nat) returns (q: nat)
      requires Valid() && freep != 0 && n > 0 && prevp in free && prevp in mem && p in free && p in mem
        && mem[p].size > n
      modifies this`mem, this`live, this`who, this`freep
      ensures Valid() && freep != 0
      ensures q !in old(live) && live == old(live) + {q} && q in mem && mem[q].size == n
      ensures who.Keys == old(who).Keys && Units(q, n) <= who.Keys && forall u :: u in Units(q, n) ==> who[u] == q
      ensures forall a :: a in old(live) ==> a in mem && a in old(mem) && mem[a] == old(mem)[a]
      ensures forall u :: u in who && who[u] in old(live) ==> who[u] == old(who)[u]
    {
      hide Linked, Coalesced, Partition, Units;
      ghost var h := H();
      TakeTail(h, base, p, n);
      Positive(h, base, prevp);
      mem := mem[p := mem[p].(size := mem[p].size - n)];
      q := p + mem[p].size;
      mem := mem[q := Header(if q in mem then mem[q].ptr else 0, n)];
      ghost var h' := Tailed(h, p, n);
      assert mem == h'.mem;
      live, who := h'.live, h'.who;
      freep := prevp;
    }

    /** malloc's success branch: the block after prevp, or its tail, is handed out. */
    method Take(prevp: nat, p: nat, n: nat) returns (q: nat)
      requires Valid() && freep != 0 && n > 0
      requires prevp in free && prevp in mem && mem[prevp].ptr == p && p in free && p in mem && mem[p].size >= n
      requires mem[p].ptr in mem
      modifies this
      ensures Valid() && freep != 0
      ensures q !in old(live) && live == old(live) + {q} && q in mem && mem[q].size == n
      ensures who.Keys == old(who).Keys && Units(q, n) <= who.Keys && forall u :: u in Units(q, n) ==> who[u] == q
      ensures forall a :: a in old(live) ==> a in mem && a in old(mem) && mem[a] == old(mem)[a]
      ensures forall u :: u in who && who[u] in old(live) ==> who[u] == old(who)[u]
    {
      hide Linked, Coalesced, Partition, Units;
      if mem[p].size == n {
        TakeBlock(prevp, p);
        q := p;
      } else {
        q := SplitBlock(prevp, p, n);
      }
    }

    /**
      malloc for a request whose arithmetic does not wrap.  It fails exactly when no free
      block is large enough and sbrk fails; it calls sbrk at most once, and only when no
      free block is large enough; and the block it returns was nobody's.
     */
    method Malloc(nbytes: nat, grant: Option<nat>) returns (r: Option<nat>, ghost grew: bool)
      requires Valid() && nbytes <= MAXREQUEST
      requires grant.Some? ==> base < grant.value && forall u :: u in who ==> u < grant.value
      modifies this
      ensures Valid() && freep != 0
      ensures grew <==> grant.Some? && (old(freep) == 0 || !Fits(old(H()), Nunits(nbytes)))
      ensures r.None? <==> grant.None? && (old(freep) == 0 || !Fits(old(H()), Nunits(nbytes)))
      ensures who.Keys == old(who).Keys + if grew then Units(grant.value, Asked(Nunits(nbytes))) else {}
      ensures r.None? ==> live == old(live)
      // Beside its header the block has the fewest units that hold the bytes.
      ensures r.Some? ==> r.value - 1 in mem && nbytes <= 8 * (mem[r.value - 1].size - 1) < nbytes + 8
      ensures r.Some? ==>
        && r.value > 0
        && var q := r.value - 1;
        && q !in old(live) && live == old(live) + {q} && q in mem && mem[q].size == Nunits(nbytes)
        && Units(q, Nunits(nbytes)) <= who.Keys && forall u :: u in Units(q, Nunits(nbytes)) ==> who[u] == q
      ensures forall a :: a in old(live) ==> a in mem && a in old(mem) && mem[a] == old(mem)[a]
      ensures forall u :: u in who && who[u] in old(live) ==> u in old(who) && who[u] == old(who)[u]
    {
      hide IsNext, Linked, Coalesced, Partition, Units, Fits, Nunits, Asked;
      var n := Nunits(nbytes);
      FewestUnits(nbytes);
      grew := false;
      LiveHeaders(H(), base, freep);
      if freep == 0 {
        mem := mem[base := Header(base, 0)];
        freep, free := base, {base};
        FirstList(H(), base);
      }
      ghost var h := H();
      FitsAtFirst(h, base, n, old(freep) == 0);
      var prevp := freep;
      ListStep(h, base, freep);
      var p := mem[prevp].ptr;
      Start(h, p);
      while true
        invariant Valid() && freep != 0 && prevp in free && prevp in mem && mem[prevp].ptr == p && p in free && p in mem
        invariant freep in mem && freep !in Passed(free, mem[freep].ptr, p)
        invariant forall c :: c in Passed(free, mem[freep].ptr, p) ==> c in mem && mem[c].size < n
        invariant if grew then grant.Some? && !Fits(h, n) && Fits(H(), n) else H() == h
        invariant live == old(live) && who.Keys == old(who).Keys + if grew then Units(grant.value, Asked(n)) else {}
        invariant forall a :: a in live ==> a in mem && a in old(mem) && mem[a] == old(mem)[a]
        invariant forall u :: u in who && who[u] in live ==> u in old(who) && who[u] == old(who)[u]
        decreases !grew, free - Passed(free, mem[freep].ptr, p)
      {
        ListStep(H(), base, p);
        if mem[p].size >= n {
          FitsHere(H(), p, n);
          var q := Take(prevp, p, n);
          return Some(q + 1), grew;
        }
        ListStep(H(), base, freep);
        Step(H(), base, mem[freep].ptr, p);
        if p == freep {
          NothingFits(H(), n);
          var ok := Morecore(n, grant);
          if !ok {
            return None, grew;
          }
          grew := true;
          p := freep;
          ListStep(H(), base, p);
          Start(H(), mem[p].ptr);
        }
        prevp, p := p, mem[p].ptr;
      }
    }
  }

  // The largest request whose rounding and whose sbrk argument fit their types.
  const MAXREQUEST: nat := 0x7FFF_FFF0

  /** malloc's rounding, in 32-bit arithmetic: whole units for the bytes, and the header. */
  function Nunits(nbytes: nat): (n: nat)
    ensures n > 0
  {
    (nbytes + 7) % 0x1_0000_0000 / 8 + 1
  }

  /** The signed 32-bit number of bytes sbrk receives from morecore for n units. */
  function SbrkBytes(n: nat): int {
    var b := 8 * n % 0x1_0000_0000;
    if b < 0x8000_0000 then b else b - 0x1_0000_0000
  }

  lemma FewestUnits(nbytes: nat)
    requires nbytes <= MAXREQUEST
    ensures nbytes <= 8 * (Nunits(nbytes) - 1) < nbytes + 8
  {
  }

  /** The arithmetic is right exactly up to MAXREQUEST: the block holds the bytes, and sbrk is asked for all of it. */
  lemma RequestLimit(nbytes: nat)
    requires nbytes < 0x1_0000_0000
    ensures nbytes <= MAXREQUEST <==>
      8 * (Nunits(nbytes) - 1) >= nbytes && SbrkBytes(Asked(Nunits(nbytes))) == 8 * Asked(Nunits(nbytes))
  {
    var n := Nunits(nbytes);
    if nbytes <= 0xFFFF_FFF8 {
      assert n == (nbytes + 7) / 8 + 1;
    }
  }

  lemma LiveHeaders(h: Heap, base: nat, freep: nat)
    requires if freep == 0 then h.live == {} else Partition(h, base)
    ensures forall a :: a in h.live ==> a in h.mem
  {
  }

  lemma FirstList(h: Heap, base: nat)
    requires base > 0 && base in h.mem && h.mem[base] == Header(base, 0) && h.free == {base} && h.live == {}
      && h.who == map[]
    ensures Inv(h, base)
  {
    assert LinkAt(h, base, base);
  }

  lemma FitsAtFirst(h: Heap, base: nat, n: nat, first: bool)
    requires n > 0 && (first ==> h.free == {base} && base in h.mem && h.mem[base].size == 0)
    ensures first ==> !Fits(h, n)
  {
  }

  lemma ListStep(h: Heap, base: nat, p: nat)
    requires Linked(h, base) && p in h.free
    ensures p in h.mem && h.mem[p].ptr in h.free && h.mem[p].ptr in h.mem
  {
    assert LinkAt(h, base, p);
  }

  lemma FitsHere(h: Heap, p: nat, n: nat)
    requires p in h.free && p in h.mem && h.mem[p].size >= n
    ensures Fits(h, n)
  {
  }

  lemma NothingFits(h: Heap, n: nat)
    requires forall c :: c in h.free ==> c in h.mem && h.mem[c].size < n
    ensures !Fits(h, n)
  {
  }

  lemma Positive(h: Heap, base: nat, a: nat)
    requires Linked(h, base) && a in h.free
    ensures a > 0
  {
  }

  /** The units morecore asks sbrk for. */
  function Asked(nu: nat): (n: nat)
    ensures n >= nu && n >= 4096 && (n == nu || n == 4096)
  {
    if nu < 4096 then 4096 else nu
  }

  function Units(a: nat, n: nat): (s: set<nat>)
    ensures forall u :: u in s <==> a <= u < a + n
  {
    if n == 0 then {} else Units(a, n - 1) + {a + n - 1}
  }

  ghost function Extend(h: Heap, hp: nat, n: nat): Heap {
    Heap(h.mem[hp := Header(if hp in h.mem then h.mem[hp].ptr else 0, n)], h.free, h.live + {hp},
         h.who + map u | u in Units(hp, n) :: hp)
  }

  /** New units form a block of their own. */
  lemma {:induction false} ExtendKeeps(h: Heap, base: nat, hp: nat, n: nat)
    requires Inv(h, base) && n > 0 && base < hp && forall u :: u in h.who ==> u < hp
    ensures Inv(Extend(h, hp, n), base) && hp !in h.live && hp !in h.free
    ensures Extend(h, hp, n).who.Keys == h.who.Keys + Units(hp, n)
  {
    hide IsNext, Units;
    var h' := Extend(h, hp, n);
    Outside(h, base, hp);
    SameList(h, h', base);
    forall a | a in h'.free || a in h'.live
      ensures Covers(h', a)
    {
      assert a != hp ==> Covers(h, a);
    }
    forall u | u in h'.who
      ensures InBlock(h', u)
    {
      assert u in h.who ==> InBlock(h, u);
    }
  }

  /** An address outside the heap is no block. */
  lemma Outside(h: Heap, base: nat, a: nat)
    requires Linked(h, base) && Partition(h, base) && a !in h.who && a > base
    ensures a !in h.free && a !in h.live
  {
    hide IsNext;
    assert a in h.free || a in h.live ==> Covers(h, a);
  }

  /** The list is as before if the free headers are. */
  lemma SameList(h: Heap, h': Heap, base: nat)
    requires Linked(h, base) && Coalesced(h, base, {}) && h'.free == h.free
    requires forall a :: a in h.free ==> a in h'.mem && h'.mem[a] == h.mem[a]
    ensures Linked(h', base) && Coalesced(h', base, {})
  {
    hide IsNext;
    forall a | a in h'.free
      ensures LinkAt(h', base, a)
    {
      assert LinkAt(h, base, a);
    }
    forall a | a in h'.free && a != base
      ensures Apart(h', a)
    {
      assert Apart(h, a);
    }
  }

  lemma FitsLess(h: Heap, n: nat, m: nat)
    requires Fits(h, n) && m <= n
    ensures Fits(h, m)
  {
  }

  lemma {:induction false} TakeWhole(h: Heap, base: nat, prevp: nat, p: nat)
    requires Inv(h, base) && prevp in h.free && p in h.free && p in h.mem && h.mem[p].size > 0
    requires prevp in h.mem && h.mem[prevp].ptr == p
    requires h.mem[p].ptr in h.mem
    ensures p !in h.live && prevp != p && prevp > 0
    ensures Inv(Heap(h.mem[prevp := h.mem[prevp].(ptr := h.mem[p].ptr)], h.free - {p}, h.live + {p}, h.who), base)
    ensures Units(p, h.mem[p].size) <= h.who.Keys && forall u :: u in Units(p, h.mem[p].size) ==> h.who[u] == p
    ensures forall a :: a in h.live ==> a in h.mem && a != prevp
  {
    hide IsNext, Units;
    var h' := Heap(h.mem[prevp := h.mem[prevp].(ptr := h.mem[p].ptr)], h.free - {p}, h.live + {p}, h.who);
    WholeLinked(h, h', base, prevp, p);
    assert Covers(h, p);
    forall a | a in h'.free && a != base
      ensures Apart(h', a)
    {
      assert Apart(h, a);
    }
    forall a | a in h'.free || a in h'.live
      ensures Covers(h', a)
    {
      assert Covers(h, a);
    }
    forall u | u in h'.who
      ensures InBlock(h', u)
    {
      assert InBlock(h, u);
    }
  }

  lemma WholeLinked(h: Heap, h': Heap, base: nat, prevp: nat, p: nat)
    requires Linked(h, base) && prevp in h.free && p in h.free && p in h.mem && h.mem[p].size > 0
    requires prevp in h.mem && h.mem[prevp].ptr == p && h.mem[p].ptr in h.mem
    requires h'.free == h.free - {p} && h'.mem == h.mem[prevp := h.mem[prevp].(ptr := h.mem[p].ptr)]
    ensures Linked(h', base) && prevp != p
  {
    hide IsNext, Linked;
    LinksAt(h, base, prevp, p);
    NextOver(h.free, base, prevp, p, h.mem[p].ptr);
    forall a | a in h'.free
      ensures a in h'.mem && base <= a && (h'.mem[a].size == 0 <==> a == base) && LinkAt(h', base, a)
    {
      LinksAt(h, base, a, p);
      if a != prevp {
        NextStays(h.free, base, prevp, a, p, h.mem[a].ptr);
      }
    }
    assert Linked(h', base) by { LinkedIf(h', base); }
  }

  lemma LinksAt(h: Heap, base: nat, a: nat, p: nat)
    requires Linked(h, base) && a in h.free && p in h.free && p in h.mem && h.mem[p].size > 0
    ensures LinkAt(h, base, a) && LinkAt(h, base, p) && base in h.free && base > 0 && base <= a && base < p
    ensures h.mem[a].size == 0 <==> a == base
  {
  }

  lemma LinkedIf(h: Heap, base: nat)
    requires base in h.free && base > 0
    requires forall a {:trigger LinkAt(h, base, a)} :: a in h.free ==>
      a in h.mem && base <= a && (h.mem[a].size == 0 <==> a == base) && LinkAt(h, base, a)
    ensures Linked(h, base)
  {
    forall a | a in h.free
      ensures a in h.mem && base <= a && (h.mem[a].size == 0 <==> a == base)
    {
      assert LinkAt(h, base, a);
    }
  }

  /** Without p its predecessor is followed by its successor. */
  lemma NextOver(free: set<nat>, base: nat, a: nat, p: nat, b: nat)
    requires a in free && p in free && p != base && base <= a && base <= p && IsNext(free, base, a, p)
      && IsNext(free, base, p, b)
    requires base in free && b in free
    ensures a != p && b != p && IsNext(free - {p}, base, a, b)
  {
  }

  /** The other links do not lead to p, and stay. */
  lemma NextStays(free: set<nat>, base: nat, prevp: nat, a: nat, p: nat, b: nat)
    requires prevp in free && a in free && a != prevp && p in free && p != base
    requires IsNext(free, base, prevp, p) && IsNext(free, base, a, b)
    ensures b != p && IsNext(free - {p}, base, a, b)
  {
  }

  ghost function Tailed(h: Heap, p: nat, n: nat): Heap
    requires p in h.mem && h.mem[p].size > n > 0
  {
    var q := p + h.mem[p].size - n;
    var m := h.mem[p := h.mem[p].(size := h.mem[p].size - n)];
    Heap(m[q := Header(if q in m then m[q].ptr else 0, n)], h.free, h.live + {q}, h.who + map u | u in Units(q, n) :: q)
  }

  lemma {:induction false} TakeTail(h: Heap, base: nat, p: nat, n: nat)
    requires Inv(h, base) && p in h.free && p in h.mem && h.mem[p].size > n > 0
    ensures Inv(Tailed(h, p, n), base) && Tailed(h, p, n).who.Keys == h.who.Keys
    ensures p + h.mem[p].size - n !in h.live
    ensures forall a :: a in h.live ==> a in h.mem && a != p
    ensures forall u :: u in h.who && h.who[u] in h.live ==> u !in Units(p + h.mem[p].size - n, n)
    ensures var h' := Tailed(h, p, n);
      Units(p + h.mem[p].size - n, n) <= h'.who.Keys
        && forall u :: u in Units(p + h.mem[p].size - n, n) ==> h'.who[u] == p + h.mem[p].size - n
  {
    hide IsNext, Units, Coalesced, LinkAt;
    var h', q := Tailed(h, p, n), p + h.mem[p].size - n;
    TailList(h, h', base, p, n);
    assert Covers(h, p);
    forall a | a in h'.free || a in h'.live
      ensures Covers(h', a)
    {
      TailCovers(h, base, p, n, a);
    }
    forall u | u in h'.who
      ensures InBlock(h', u)
    {
      assert InBlock(h, u);
    }
  }

  lemma TailCovers(h: Heap, base: nat, p: nat, n: nat, a: nat)
    requires Partition(h, base) && p in h.free && p in h.mem && h.mem[p].size > n > 0
    requires a in h.free || a in h.live || a == p + h.mem[p].size - n
    requires p + h.mem[p].size - n !in h.free && p + h.mem[p].size - n !in h.live
    ensures Covers(Tailed(h, p, n), a)
  {
    hide Units;
    var h', q := Tailed(h, p, n), p + h.mem[p].size - n;
    if a != q {
      assert Covers(h, a) && Covers(h, p);
      forall u | a <= u < a + h'.mem[a].size
        ensures u in h'.who && h'.who[u] == a
      {
        assert u in h.who && h.who[u] == a;
        assert p != a ==> !(p <= u < p + h.mem[p].size);
      }
    }
  }

  /** A unit in the middle of a block is not the start of another. */
  lemma Inside(h: Heap, base: nat, p: nat, q: nat)
    requires Linked(h, base) && Partition(h, base) && p in h.free && p in h.mem && p < q < p + h.mem[p].size
    ensures q !in h.free && q !in h.live
  {
    hide IsNext;
    assert Covers(h, p) && q in h.who;
    assert q in h.free || q in h.live ==> Covers(h, q);
  }

  lemma TailList(h: Heap, h': Heap, base: nat, p: nat, n: nat)
    requires Inv(h, base) && p in h.free && p in h.mem && h.mem[p].size > n > 0 && h' == Tailed(h, p, n)
    ensures Linked(h', base) && Coalesced(h', base, {})
    ensures p + h.mem[p].size - n !in h.free && p + h.mem[p].size - n !in h.live
  {
    hide IsNext, Units, Partition;
    var q := p + h.mem[p].size - n;
    Inside(h, base, p, q);
    Shrunk(h, h', base, p);
  }

  lemma Shrunk(h: Heap, h': Heap, base: nat, p: nat)
    requires Linked(h, base) && Coalesced(h, base, {}) && h'.free == h.free && p in h.free && p in h.mem && p in h'.mem
    requires forall a :: a in h.free && a != p ==> a in h'.mem && h'.mem[a] == h.mem[a]
    requires h'.mem[p].ptr == h.mem[p].ptr && h'.mem[p].size > 0 && p + h'.mem[p].size !in h.free && p != base
    ensures Linked(h', base) && Coalesced(h', base, {})
  {
    hide IsNext;
    assert Linked(h', base) by {
      forall a | a in h'.free
        ensures LinkAt(h', base, a)
      {
        assert LinkAt(h, base, a);
      }
    }
    assert Coalesced(h', base, {}) by {
      hide Linked;
      forall a | a in h'.free && a != base
        ensures Apart(h', a)
      {
        assert Apart(h, a);
      }
    }
  }

  /** Some free block has at least n units. */
  ghost predicate Fits(h: Heap, n: nat) {
    exists a :: a in h.free && a in h.mem && h.mem[a].size >= n
  }

  /** What free does, as an insertion and up to two merges. */
  ghost function Freed(h: Heap, p: nat, b: nat): Heap
    requires p in h.mem && b in h.mem && h.mem[p].ptr in h.mem && p != b
  {
    var up := b + h.mem[b].size == h.mem[p].ptr;
    var down := p + h.mem[p].size == b;
    var h1 := Insert(h, p, b);
    var h2 := if up then Merge(h1, b) else h1;
    if down && h2.mem[p].ptr in h2.mem then Merge(h2, p) else h2
  }

  /** The headers after free: b's first, then p's. */
  lemma FreedMem(h: Heap, p: nat, b: nat)
    requires p in h.mem && b in h.mem && h.mem[p].ptr in h.mem && p != b && h.mem[p].ptr != b
    requires h.mem[p].ptr != p || b + h.mem[b].size != h.mem[p].ptr
    ensures var q := h.mem[p].ptr;
      var hb := if b + h.mem[b].size == q then Header(h.mem[q].ptr, h.mem[b].size + h.mem[q].size)
        else Header(q, h.mem[b].size);
      var hp := if p + h.mem[p].size == b then Header(hb.ptr, h.mem[p].size + hb.size) else Header(b, h.mem[p].size);
      Freed(h, p, b).mem == h.mem[b := hb][p := hp]
  {
  }

  lemma FreeKeeps(h: Heap, base: nat, p: nat, b: nat)
    requires Inv(h, base) && b in h.live && Precedes(h.free, p, b)
    ensures p in h.mem && b in h.mem && h.mem[p].ptr in h.mem && p < b && p in h.free && h.mem[p].ptr != b
    ensures h.mem[p].ptr != p || b + h.mem[b].size != h.mem[p].ptr
    ensures var h' := Freed(h, p, b);
      Inv(h', base) && p in h'.free && p > 0 && h'.live == h.live - {b} && h'.who.Keys == h.who.Keys
    ensures var h' := Freed(h, p, b);
      && (forall a :: a in h'.live ==> a in h.mem && a != p) && Fits(h', h.mem[b].size)
      && forall u :: u in h'.who && h'.who[u] in h'.live ==> h'.who[u] == h.who[u]
  {
    hide IsNext, Partition;
    PlaceFacts(h, base, p, b);
    var up, down := b + h.mem[b].size == h.mem[p].ptr, p + h.mem[p].size == b;
    var h1 := Insert(h, p, b);
    InsertKeeps(h, base, p, b);
    assert LinkAt(h1, base, b);
    var h2 := if up then Merge(h1, b) else h1;
    if up {
      assert {p, b} == {p} + {b};
      MergeKeeps(h1, base, b, {p});
    } else {
      NoUp(h, base, p, b);
      DropException(h1, base, {p, b}, b, {p});
    }
    assert LinkAt(h2, base, p);
    if down {
      assert {p} == {} + {p};
      MergeKeeps(h2, base, p, {});
    } else {
      NoDown(h2, base, p, b);
      DropException(h2, base, {p}, p, {});
    }
    LiveApart(h, base);
    var h', g := Freed(h, p, b), if down then p else b;
    assert g in h'.free && g in h'.mem && h'.mem[g].size >= h.mem[b].size;
  }

  lemma DropException(h: Heap, base: nat, x: set<nat>, a: nat, y: set<nat>)
    requires Coalesced(h, base, x) && x <= y + {a} && (a == base || Apart(h, a))
    ensures Coalesced(h, base, y)
  {
  }

  lemma LiveApart(h: Heap, base: nat)
    requires Partition(h, base)
    ensures forall a :: a in h.live ==> a in h.mem && a !in h.free
  {
  }

  lemma PlaceFacts(h: Heap, base: nat, p: nat, b: nat)
    requires Inv(h, base) && b in h.live && Precedes(h.free, p, b)
    ensures p in h.mem && b in h.mem && h.mem[b].size > 0 && base < b && base <= p < b && b !in h.free
    ensures h.mem[p].ptr in h.mem && h.mem[p].ptr in h.free && (h.mem[p].ptr <= p ==> h.mem[p].ptr == base)
    ensures forall c :: c in h.free && c > p ==> c >= h.mem[p].ptr > p
  {
    assert LinkAt(h, base, p);
  }

  /** If b does not reach the next free block, it reaches none. */
  lemma NoUp(h: Heap, base: nat, p: nat, b: nat)
    requires Inv(h, base) && b in h.live && Precedes(h.free, p, b) && LinkAt(h, base, p)
    requires b + h.mem[b].size != h.mem[p].ptr
    ensures Apart(Insert(h, p, b), b)
  {
    hide IsNext;
    PlaceFacts(h, base, p, b);
    var e, q := b + h.mem[b].size, h.mem[p].ptr;
    assert Covers(h, b) && Covers(h, q);
    var w := if q in h.who then h.who[q] else 0;
  }

  /** If p does not reach the block after it, it reaches none. */
  lemma NoDown(h: Heap, base: nat, p: nat, b: nat)
    requires Linked(h, base) && Partition(h, base) && LinkAt(h, base, p) && p in h.free && h.mem[p].ptr == b > p
    requires p + h.mem[p].size != b
    ensures p != base ==> Apart(h, p)
  {
    assert Covers(h, p) && Covers(h, b);
    var w := if b in h.who then h.who[b] else 0;
  }

  lemma InFree(free: set<nat>, p: nat, b: nat)
    requires Precedes(free, p, b)
    ensures p in free
  {
  }

  lemma OnlyOne(free: set<nat>, p: nat, t: nat, b: nat)
    requires Precedes(free, t, b) && p in free
    ensures Precedes(free, p, b) <==> p == t
  {
  }

  lemma Start(h: Heap, s: nat)
    ensures Passed(h.free, s, s) == {}
  {
  }
}
