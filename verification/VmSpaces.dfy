/**
  All of physical memory: starting the allocator (kinit1, kinit2), growing (growproc), copying
  (fork) and releasing (wait) address spaces, and taking and returning kernel stacks and pipe
  buffers keeps the free pages, the pages of the spaces and the pages the kernel holds a
  partition of it.
 */
module VmSpaces {
  import opened Vm
  import opened VmOps

  /** Every page from kend on is free, held by the kernel, or belongs to exactly one space. */
  ghost predicate Partition(kend: nat, spaces: map<nat, Pages>, held: set<nat>, free: set<nat>) {
    && (forall d :: d in spaces ==> spaces[d].Keys !! free && spaces[d].Keys !! held)
    && (forall d, e :: d in spaces && e in spaces && d != e ==> spaces[d].Keys !! spaces[e].Keys)
    && held !! free
    && (forall f :: f in free ==> kend <= f < NPHYS)
    && (forall f :: f in held ==> kend <= f < NPHYS)
    && (forall f :: kend <= f < NPHYS ==> f in free || f in held || Owned(spaces, f))
  }

  ghost predicate Owned(spaces: map<nat, Pages>, f: nat) {
    exists d :: d in spaces && f in spaces[d]
  }

  /** Every space has the kernel's mappings. */
  ghost predicate AllSpaces(mem: seq<Page>, kend: nat, data: nat, spaces: map<nat, Pages>) {
    forall d :: d in spaces ==> Space(mem, kend, d, spaces[d]) && KernelIn(mem, d, data)
  }

  /** From KERNBASE on the entries are the kernel's. */
  ghost predicate KernelIn(mem: seq<Page>, d: nat, data: nat) {
    && d < |mem|
    && forall i, j :: KDIR <= i < NENTRIES && 0 <= j < NENTRIES ==> KernelEntry(data, Vpn(i, j), Pte(mem, d, i, j))
  }

  lemma KernelAll(mem: seq<Page>, d: nat, data: nat)
    requires d < |mem|
    requires forall i, j :: 0 <= i < NENTRIES && 0 <= j < NENTRIES ==> KernelEntry(data, Vpn(i, j), Pte(mem, d, i, j))
    ensures KernelIn(mem, d, data)
  {
    hide Pte, KernelEntry;
  }

  lemma KernelSame(mem: seq<Page>, mem': seq<Page>, d: nat, data: nat)
    requires KernelIn(mem, d, data) && SamePtes(mem, mem', d)
    ensures KernelIn(mem', d, data)
  {
    hide Pte, KernelEntry;
  }

  lemma KernelGrew(mem: seq<Page>, mem': seq<Page>, d: nat, data: nat, lo: nat, hi: nat)
    requires KernelIn(mem, d, data) && Grew(mem, mem', d, lo, hi) && hi <= KPAGE
    ensures KernelIn(mem', d, data)
  {
    hide Pte, KernelEntry;
  }

  lemma KernelRestored(mem: seq<Page>, mem': seq<Page>, d: nat, data: nat)
    requires KernelIn(mem, d, data) && Restored(mem, mem', d)
    ensures KernelIn(mem', d, data)
  {
    hide Pte;
  }

  lemma KernelUnmapped(mem: seq<Page>, mem': seq<Page>, d: nat, data: nat, lo: nat, hi: nat)
    requires KernelIn(mem, d, data) && Unmapped(mem, mem', d, lo, hi) && hi <= KPAGE
    ensures KernelIn(mem', d, data)
  {
    hide Pte, KernelEntry;
  }

  lemma KernelCopied(m0: seq<Page>, mem: seq<Page>, data: nat, d: nat, c: nat, n: nat)
    requires Copied(m0, mem, data, d, c, n) && n <= KPAGE
    ensures KernelIn(mem, c, data)
  {
    hide Pte, KernelEntry;
  }

  /** Pages of the other spaces are as they were. */
  ghost predicate OthersKept(mem: seq<Page>, mem': seq<Page>, spaces: map<nat, Pages>, d: nat) {
    |mem'| == |mem| && forall e, f :: e in spaces && e != d && f in spaces[e] && f < |mem| ==> mem'[f] == mem[f]
  }

  /** So are the kernel's own pages. */
  ghost predicate HeldKept(mem: seq<Page>, mem': seq<Page>, held: set<nat>) {
    |mem'| == |mem| && forall f :: f in held && f < |mem| ==> mem'[f] == mem[f]
  }

  /** A space that exchanges pages with the free list. */
  lemma Exchange(kend: nat, spaces: map<nat, Pages>, held: set<nat>, free: set<nat>, d: nat, own': Pages,
                 free': set<nat>)
    requires Partition(kend, spaces, held, free) && d in spaces
    requires own'.Keys + free' == spaces[d].Keys + free && own'.Keys !! free'
    requires forall f :: f in own' ==> kend <= f < NPHYS
    requires forall f :: f in spaces[d] ==> kend <= f < NPHYS
    ensures Partition(kend, spaces[d := own'], held, free')
  {
    var spaces' := spaces[d := own'];
    forall f | kend <= f < NPHYS
      ensures f in free' || f in held || Owned(spaces', f)
    {
      if f in spaces[d] || f in free {
        assert f in own'.Keys + free';
        assert f in own' ==> d in spaces' && f in spaces'[d];
      } else if f !in held {
        var e :| e in spaces && f in spaces[e];
        assert e in spaces' && f in spaces'[e];
      }
    }
    assert own'.Keys <= spaces[d].Keys + free && free' <= spaces[d].Keys + free;
  }

  /** A new space made of free pages. */
  lemma Join(kend: nat, spaces: map<nat, Pages>, held: set<nat>, free: set<nat>, c: nat, own: Pages, free': set<nat>)
    requires Partition(kend, spaces, held, free) && c !in spaces && own.Keys + free' == free && own.Keys !! free'
    ensures Partition(kend, spaces[c := own], held, free')
  {
    var spaces' := spaces[c := own];
    forall f | kend <= f < NPHYS
      ensures f in free' || f in held || Owned(spaces', f)
    {
      if f in free {
        assert f in own ==> c in spaces' && f in spaces'[c];
      } else if f !in held {
        var e :| e in spaces && f in spaces[e];
        assert e in spaces' && f in spaces'[e];
      }
    }
  }

  /** A space whose pages all become free. */
  lemma Drop(kend: nat, spaces: map<nat, Pages>, held: set<nat>, free: set<nat>, d: nat)
    requires Partition(kend, spaces, held, free) && d in spaces && forall f :: f in spaces[d] ==> kend <= f < NPHYS
    ensures Partition(kend, spaces - {d}, held, free + spaces[d].Keys)
  {
    var spaces' := spaces - {d};
    forall f | kend <= f < NPHYS
      ensures f in free + spaces[d].Keys || f in held || Owned(spaces', f)
    {
      if f !in free && f !in spaces[d] && f !in held {
        var e :| e in spaces && f in spaces[e];
        assert e in spaces' && f in spaces'[e];
      }
    }
  }

  /** Pages that move between the kernel and the free list. */
  lemma Move(kend: nat, spaces: map<nat, Pages>, held: set<nat>, free: set<nat>, held': set<nat>, free': set<nat>)
    requires Partition(kend, spaces, held, free) && held' + free' == held + free && held' !! free'
    ensures Partition(kend, spaces, held', free')
  {
    assert held' <= held + free && free' <= held + free;
    forall f | kend <= f < NPHYS
      ensures f in free' || f in held' || Owned(spaces, f)
    {
      assert f in held || f in free ==> f in held' + free';
    }
  }

  lemma OthersSpaces(mem: seq<Page>, mem': seq<Page>, kend: nat, data: nat, spaces: map<nat, Pages>, d: nat)
    requires AllSpaces(mem, kend, data, spaces) && OthersKept(mem, mem', spaces, d) && |mem| == NPHYS
    ensures forall e :: e in spaces && e != d ==> Space(mem', kend, e, spaces[e]) && KernelIn(mem', e, data)
  {
    hide Space, SamePtes, KernelIn;
    forall e | e in spaces && e != d
      ensures Space(mem', kend, e, spaces[e]) && KernelIn(mem', e, data)
    {
      SpaceFacts(mem, kend, e, spaces[e]);
      SpaceFrame(mem, mem', kend, e, spaces[e]);
      KernelSame(mem, mem', e, data);
    }
  }

  /** The process of size sz has exactly the user pages below sz. */
  ghost predicate Sized(mem: seq<Page>, d: nat, sz: nat) {
    && d < |mem|
    && forall i, j :: 0 <= i < KDIR && 0 <= j < NENTRIES ==> (Present(Pte(mem, d, i, j)) <==> Vpn(i, j) < PagesUp(sz))
  }

  lemma SizedPresent(mem: seq<Page>, d: nat, sz: nat)
    requires Sized(mem, d, sz) && sz <= 4096 * KPAGE
    ensures AllPresent(mem, d, PagesUp(sz))
  {
    hide Pte;
  }

  lemma SizedVacant(mem: seq<Page>, d: nat, sz: nat, sz': nat)
    requires Sized(mem, d, sz) && sz <= sz' <= 4096 * KPAGE
    ensures Vacant(mem, d, PagesUp(sz), PagesUp(sz'))
  {
    hide Pte;
  }

  lemma SizedCopy(m0: seq<Page>, mem: seq<Page>, data: nat, d: nat, c: nat, sz: nat)
    requires Copied(m0, mem, data, d, c, PagesUp(sz)) && sz <= 4096 * KPAGE
    ensures Sized(mem, c, sz)
  {
    hide Pte;
    forall i, j | 0 <= i < KDIR && 0 <= j < NENTRIES
      ensures Present(Pte(mem, c, i, j)) <==> Vpn(i, j) < PagesUp(sz)
    {
    }
  }

  lemma SizedNone(mem: seq<Page>, kend: nat, c: nat, own: Pages, data: nat)
    requires Space(mem, kend, c, own) && 0x100 < data < NPHYS
    requires forall i, j :: 0 <= i < NENTRIES && 0 <= j < NENTRIES ==>
      KernelEntry(data, Vpn(i, j), Pte(mem, c, i, j))
    ensures Sized(mem, c, 0)
  {
    hide Pte;
    forall i, j | 0 <= i < KDIR && 0 <= j < NENTRIES
      ensures !Present(Pte(mem, c, i, j))
    {
    }
  }

  lemma SizedGrew(m0: seq<Page>, mem: seq<Page>, d: nat, sz: nat, sz': nat)
    requires Sized(m0, d, sz) && sz <= sz' && Grew(m0, mem, d, PagesUp(sz), PagesUp(sz'))
    ensures Sized(mem, d, sz')
  {
    hide Pte;
  }

  lemma SizedRestored(m0: seq<Page>, mem: seq<Page>, d: nat, sz: nat)
    requires Sized(m0, d, sz) && Restored(m0, mem, d)
    ensures Sized(mem, d, sz)
  {
    hide Pte;
  }

  /** Unmapping down to sz' makes the size sz', and no larger one. */
  lemma SizedCut(m0: seq<Page>, mem: seq<Page>, d: nat, sz: nat, sz': nat)
    requires Sized(m0, d, sz) && sz' <= sz && Unmapped(m0, mem, d, PagesUp(sz'), PagesUp(sz))
    ensures Sized(mem, d, sz')
    ensures sz' == 0 < sz ==> !Sized(mem, d, sz)
  {
    hide Pte;
    if sz' == 0 < sz {
      assert !Present(Pte(mem, d, 0, 0)) && Vpn(0, 0) < PagesUp(sz);
    }
  }

  class Kernel {
    const m: Machine
    // The pages of every address space, by page directory.
    ghost var spaces: map<nat, Pages>
    // Kernel stacks, pipe buffers and, until kinit has run, memory not yet given to the allocator.
    ghost var held: set<nat>

    ghost predicate Sound()
      reads this, m
    {
      m.Valid() && Partition(m.kend, spaces, held, m.FreeSet()) && AllSpaces(m.mem, m.kend, m.data, spaces)
    }

    /** Power-on: there is no process, and no page has been given to the allocator. */
    constructor (kend: nat, data: nat, image: seq<Page>)
      requires 0 < kend <= NPHYS && |image| == NPHYS
      ensures Sound() && fresh(m) && m.kend == kend && m.data == data && m.mem == image
      ensures spaces == map[] && held == Interval(kend, NPHYS)
    {
      m := new Machine(kend, data, image);
      spaces := map[];
      held := Interval(kend, NPHYS);
    }

    /** kinit1 and kinit2: freerange of memory the kernel has been holding; false is kfree's panic. */
    method Kinit(vstart: nat, vend: nat) returns (ok: bool)
      requires Sound() && Interval(PagesUp(vstart), vend / 4096) !! m.FreeSet()
      requires forall f :: PagesUp(vstart) <= f < vend / 4096 && m.kend <= f < NPHYS ==> f in held
      modifies m, this`held
      ensures ok <==> vend / 4096 <= PagesUp(vstart) || (m.kend <= PagesUp(vstart) && vend / 4096 <= NPHYS)
      ensures ok ==> Sound() && held == old(held) - Interval(PagesUp(vstart), vend / 4096)
      ensures ok ==> m.FreeSet() == old(m.FreeSet()) + Interval(PagesUp(vstart), vend / 4096)
      ensures ok ==>
        |m.free| == |old(m.free)| + if PagesUp(vstart) < vend / 4096 then vend / 4096 - PagesUp(vstart) else 0
    {
      hide Space, KernelIn, SamePtes, Listed, PagesUp, Partition, AllSpaces, OthersKept, Interval;
      ghost var m0, free0 := m.mem, m.FreeSet();
      ghost var range := Interval(PagesUp(vstart), vend / 4096);
      ok := m.Freerange(vstart, vend);
      if ok {
        assert range <= held;
        PartitionFacts(m.kend, spaces, held, free0);
        Move(m.kend, spaces, held, free0, held - range, m.FreeSet());
        Untouched(m0, spaces, held, free0, range);
        held := held - range;
      }
    }

    /**
      main's start of the allocator: kinit1 up to 4 MB, then the kernel's page directory, then
      kinit2 up to PHYSTOP.  Every page from the end of the kernel on is then free or part of
      the page directory's space; only a kernel larger than 4 MB panics.  A kernel that leaves
      fewer than 65 pages below 4 MB gets no page directory, which the source does not notice.
     */
    method Boot() returns (ok: bool, kpgdir: nat)
      requires Sound() && spaces == map[] && held == Interval(m.kend, NPHYS) && m.free == [] && 0x100 < m.data < NPHYS
      modifies m, this
      ensures ok <==> m.kend <= 1024
      ensures kpgdir != 0 <==> m.kend + KSPACE <= 1024
      ensures ok ==>
        Sound() && held == {} && (kpgdir == 0 ==> spaces == map[]) && (kpgdir != 0 ==> spaces.Keys == {kpgdir})
      ensures ok && kpgdir == 0 ==> m.FreeSet() == Interval(m.kend, NPHYS)
      ensures ok && kpgdir != 0 ==> m.FreeSet() == Interval(m.kend, NPHYS) - spaces[kpgdir].Keys
    {
      hide Space, KernelIn, Listed, Partition, AllSpaces, OthersKept, HeldKept, Interval;
      assert PagesUp(4096 * m.kend) == m.kend && PagesUp(4096 * 1024) == 1024;
      ok := Kinit(4096 * m.kend, 4096 * 1024);
      assert held + m.FreeSet() == Interval(m.kend, NPHYS);
      kpgdir := Setup();
      ok := Kinit(4096 * 1024, 4096 * NPHYS);
    }

    /** kalloc of a page for the kernel: a kernel stack or a pipe. */
    method TakePage() returns (f: nat)
      requires Sound()
      modifies m, this`held
      ensures Sound() && m.mem == old(m.mem) && (f == 0 <==> old(m.free) == [])
      ensures f == 0 ==> held == old(held) && m.free == old(m.free)
      ensures f != 0 ==> |m.free| == |old(m.free)| - 1
      ensures f != 0 ==> f in old(m.FreeSet()) && held == old(held) + {f} && m.FreeSet() == old(m.FreeSet()) - {f}
    {
      hide Space, KernelIn, Listed, Partition, AllSpaces;
      ghost var free0 := m.FreeSet();
      f := m.Kalloc();
      if f != 0 {
        PartitionFacts(m.kend, spaces, held, free0);
        Move(m.kend, spaces, held, free0, held + {f}, m.FreeSet());
        held := held + {f};
      }
    }

    /** kfree of such a page. */
    method GivePage(f: nat)
      requires Sound() && f in held
      modifies m, this`held
      ensures Sound() && held == old(held) - {f} && m.FreeSet() == old(m.FreeSet()) + {f}
        && |m.free| == |old(m.free)| + 1
      ensures |m.mem| == |old(m.mem)| == NPHYS && f < NPHYS && m.mem == old(m.mem)[f := m.mem[f]]
    {
      hide Space, KernelIn, SamePtes, Listed, Partition, AllSpaces, OthersKept;
      ghost var m0, free0 := m.mem, m.FreeSet();
      ListedFacts(m.mem, m.kend, m.freelist, m.free);
      PartitionFacts(m.kend, spaces, held, free0);
      assert f !in free0;
      var ok := m.Kfree(f);
      Move(m.kend, spaces, held, free0, held - {f}, m.FreeSet());
      Untouched(m0, spaces, held, free0, {f});
      held := held - {f};
    }

    lemma GoodSpace(d: nat)
      requires Sound() && d in spaces
      ensures m.Good(d, spaces[d]) && |m.mem| == NPHYS && d < NPHYS
        && forall f :: f in spaces[d] ==> m.kend <= f < NPHYS
    {
      hide Listed, Space;
      SpaceFacts(m.mem, m.kend, d, spaces[d]);
    }

    /** After an exchange of pages between space d and the free list. */
    lemma Exchanged(m0: seq<Page>, all: map<nat, Pages>, free0: set<nat>, d: nat, own': Pages)
      requires Partition(m.kend, all, held, free0) && AllSpaces(m0, m.kend, m.data, all) && d in all
        && |m0| == |m.mem| == NPHYS
      requires KernelIn(m.mem, d, m.data)
      requires m.Good(d, own') && own'.Keys + m.FreeSet() == all[d].Keys + free0 && spaces == all[d := own']
      requires forall f :: 0 <= f < NPHYS && f !in all[d] && f !in free0 ==> m.mem[f] == m0[f]
      ensures Sound() && OthersKept(m0, m.mem, all, d) && HeldKept(m0, m.mem, held)
    {
      hide Listed, Space;
      SpaceFacts(m0, m.kend, d, all[d]);
      SpaceFacts(m.mem, m.kend, d, own');
      Exchange(m.kend, all, held, free0, d, own', m.FreeSet());
      assert OthersKept(m0, m.mem, all, d);
      OthersSpaces(m0, m.mem, m.kend, m.data, all, d);
    }

    /** wait's freevm of a dead child. */
    method Release(d: nat)
      requires Sound() && d in spaces
      modifies m, this`spaces
      ensures Sound() && spaces == old(spaces) - {d} && m.FreeSet() == old(m.FreeSet()) + old(spaces)[d].Keys
      ensures OthersKept(old(m.mem), m.mem, old(spaces), d) && HeldKept(old(m.mem), m.mem, held)
    {
      hide Space, KernelIn, SamePtes, Listed;
      ghost var m0, free0, all := m.mem, m.FreeSet(), spaces;
      GoodSpace(d);
      m.FreeVm(d, spaces[d]);
      Drop(m.kend, all, held, free0, d);
      OthersSpaces(m0, m.mem, m.kend, m.data, all, d);
      spaces := spaces - {d};
    }

    /**
      setupkvm: a space with the kernel's mappings only; 0 if there is no memory for it, and then
      nothing has changed.
     */
    method Setup() returns (c: nat)
      requires Sound() && 0x100 < m.data < NPHYS
      modifies m, this`spaces
      ensures Sound() && (c != 0 <==> |old(m.free)| >= KSPACE)
      ensures c == 0 ==> spaces == old(spaces) && m.FreeSet() == old(m.FreeSet())
      ensures c != 0 ==> c !in old(spaces) && c in spaces && spaces == old(spaces)[c := spaces[c]]
      ensures c != 0 ==>
        spaces[c].Keys !! m.FreeSet() && spaces[c].Keys + m.FreeSet() == old(m.FreeSet()) && Sized(m.mem, c, 0)
      ensures OthersKept(old(m.mem), m.mem, old(spaces), c) && HeldKept(old(m.mem), m.mem, held)
    {
      hide Space, KernelIn, SamePtes, Listed, Sized, Partition, AllSpaces, OthersKept, HeldKept, Pte, KernelEntry;
      ghost var m0, free0, all := m.mem, m.FreeSet(), spaces;
      ghost var cown;
      c, cown := m.SetupKvm();
      Joins(m0, all, free0, c);
      if c != 0 {
        SizedNone(m.mem, m.kend, c, cown, m.data);
        KernelAll(m.mem, c, m.data);
        Joined(all, free0, c, cown);
        spaces := spaces[c := cown];
      }
    }

    /** fork's copyuvm: 0 if there is no memory for it, and then nothing has changed. */
    method Fork(d: nat, sz: nat) returns (c: nat)
      requires Sound() && d in spaces && sz <= 4096 * KPAGE && Sized(m.mem, d, sz) && 0x100 < m.data < NPHYS
      modifies m, this`spaces
      ensures Sound() && (c != 0 <==> CopyNeeds(sz) <= |old(m.free)|)
      ensures c == 0 ==> spaces == old(spaces) && m.FreeSet() == old(m.FreeSet())
      ensures c != 0 ==> c !in old(spaces) && c in spaces && spaces == old(spaces)[c := spaces[c]]
      ensures c != 0 ==> Sized(m.mem, c, sz) && Copied(old(m.mem), m.mem, m.data, d, c, PagesUp(sz))
      ensures OthersKept(old(m.mem), m.mem, old(spaces), c) && HeldKept(old(m.mem), m.mem, held)
    {
      hide Space, KernelIn, SamePtes, Listed, Copied, Sized;
      hide AllPresent, Partition, AllSpaces, OthersKept, HeldKept, CopyNeeds;
      ghost var m0, free0, all := m.mem, m.FreeSet(), spaces;
      GoodSpace(d);
      SizedPresent(m.mem, d, sz);
      ghost var cown;
      var panic;
      c, panic, cown := m.CopyUvm(d, sz, spaces[d]);
      Joins(m0, all, free0, c);
      if c != 0 {
        SizedCopy(m0, m.mem, m.data, d, c, sz);
        KernelCopied(m0, m.mem, m.data, d, c, PagesUp(sz));
        Joined(all, free0, c, cown);
        spaces := spaces[c := cown];
      }
    }

    /** While only pages changed that were free or that the kernel held, all spaces are as they were. */
    lemma Untouched(m0: seq<Page>, all: map<nat, Pages>, held0: set<nat>, free0: set<nat>, changed: set<nat>)
      requires Partition(m.kend, all, held0, free0) && AllSpaces(m0, m.kend, m.data, all) && |m0| == |m.mem| == NPHYS
        && changed <= held0 + free0
      requires forall f :: 0 <= f < NPHYS && f !in changed ==> m.mem[f] == m0[f]
      ensures AllSpaces(m.mem, m.kend, m.data, all) && forall c :: OthersKept(m0, m.mem, all, c)
    {
      hide Space, KernelIn, Partition, AllSpaces, OthersKept;
      OwnedNotFree(m0, m.kend, m.data, all, held0, free0);
      ZeroNoSpace(m0, m.kend, m.data, all);
      KeptAll(m0, m.mem, all, changed);
      OthersSpaces(m0, m.mem, m.kend, m.data, all, 0);
      SpacesAre(m.mem, m.kend, m.data, all);
    }

    /** While only free pages changed, every space and every page of the kernel is as it was. */
    lemma Joins(m0: seq<Page>, all: map<nat, Pages>, free0: set<nat>, c: nat)
      requires Partition(m.kend, all, held, free0) && AllSpaces(m0, m.kend, m.data, all) && |m0| == |m.mem| == NPHYS
      requires forall f :: 0 <= f < NPHYS && f !in free0 ==> m.mem[f] == m0[f]
      ensures AllSpaces(m.mem, m.kend, m.data, all) && OthersKept(m0, m.mem, all, c) && HeldKept(m0, m.mem, held)
    {
      hide Space, KernelIn, AllSpaces, OthersKept;
      Untouched(m0, all, held, free0, free0);
    }

    lemma Joined(all: map<nat, Pages>, free0: set<nat>, c: nat, cown: Pages)
      requires Partition(m.kend, all, held, free0) && AllSpaces(m.mem, m.kend, m.data, all)
      requires m.Good(c, cown) && cown.Keys + m.FreeSet() == free0 && KernelIn(m.mem, c, m.data)
      ensures c !in all && Partition(m.kend, all[c := cown], held, m.FreeSet())
        && AllSpaces(m.mem, m.kend, m.data, all[c := cown])
    {
      hide Space, KernelIn, Listed, Partition, AllSpaces;
      SpaceFacts(m.mem, m.kend, c, cown);
      OwnedNotFree(m.mem, m.kend, m.data, all, held, free0);
      ZeroNoSpace(m.mem, m.kend, m.data, all);
      assert c in free0;
      Join(m.kend, all, held, free0, c, cown, m.FreeSet());
      SpacesMore(m.mem, m.kend, m.data, all, c, cown);
    }

    /** fork: a kernel stack and a copy of the parent's memory, or, on failure, neither. */
    method ForkProcess(d: nat, sz: nat) returns (c: nat, kstack: nat)
      requires Sound() && d in spaces && sz <= 4096 * KPAGE && Sized(m.mem, d, sz) && 0x100 < m.data < NPHYS
      modifies m, this
      ensures Sound() && (c != 0 <==> 1 + CopyNeeds(sz) <= |old(m.free)|)
      ensures c == 0 ==> spaces == old(spaces) && held == old(held) && m.FreeSet() == old(m.FreeSet())
      ensures c != 0 ==> c !in old(spaces) && c in spaces && spaces == old(spaces)[c := spaces[c]]
      ensures c != 0 ==> Sized(m.mem, c, sz) && Copied(old(m.mem), m.mem, m.data, d, c, PagesUp(sz))
      ensures c != 0 ==> kstack in old(m.FreeSet()) && held == old(held) + {kstack}
      ensures HeldKept(old(m.mem), m.mem, old(held)) && OthersKept(old(m.mem), m.mem, old(spaces), c)
    {
      hide Space, KernelIn, SamePtes, Listed, Copied, Sized, Partition, AllSpaces, CopyNeeds;
      ghost var m0, free0, all, held0 := m.mem, m.FreeSet(), spaces, held;
      PartitionFacts(m.kend, spaces, held, free0);
      kstack := TakePage();
      if kstack == 0 {
        return 0, 0;
      }
      assert held - {kstack} == held0;
      c := Fork(d, sz);
      if c == 0 {
        ghost var m1 := m.mem;
        GivePage(kstack);
        KstackOnly(m1, m.mem, all, held0, free0, kstack);
        kstack := 0;
      }
    }

    /** wait: the kernel stack and the memory of a dead child become free. */
    method Reap(d: nat, kstack: nat)
      requires Sound() && d in spaces && kstack in held
      modifies m, this
      ensures Sound() && spaces == old(spaces) - {d} && held == old(held) - {kstack}
      ensures m.FreeSet() == old(m.FreeSet()) + old(spaces)[d].Keys + {kstack}
      ensures HeldKept(old(m.mem), m.mem, held) && OthersKept(old(m.mem), m.mem, old(spaces), d)
    {
      hide Space, KernelIn, SamePtes, Listed, Partition, AllSpaces;
      ghost var free0, all, held0 := m.FreeSet(), spaces, held;
      PartitionFacts(m.kend, spaces, held, free0);
      GivePage(kstack);
      Release(d);
    }

    /**
      growproc.  Growing gives zeroed pages up to the new size or changes nothing; shrinking
      below the size works down to one byte.  Shrinking to nothing takes the pages away but
      reports failure and keeps the size; shrinking by more than the size does nothing.
     */
    method Growproc(d: nat, sz: nat, n: int) returns (r: int, sz': nat)
      requires Sound() && d in spaces && sz < 4096 * KPAGE && -0x8000_0000 <= n < 0x8000_0000 && Sized(m.mem, d, sz)
      modifies m, this`spaces
      ensures Sound() && spaces.Keys == old(spaces).Keys
      ensures OthersKept(old(m.mem), m.mem, old(spaces), d) && HeldKept(old(m.mem), m.mem, held)
      ensures n > 0 ==> d < |old(m.mem)| && (r == 0 <==>
        sz + n < 4096 * KPAGE && GrowNeeds(old(m.mem), d, PagesUp(sz), PagesUp(sz + n)) <= |old(m.free)|)
      ensures n > 0 && r == 0 ==> sz' == sz + n && Grew(old(m.mem), m.mem, d, PagesUp(sz), PagesUp(sz + n))
      ensures n > 0 && r != 0 ==> r == -1 && sz' == sz && Restored(old(m.mem), m.mem, d)
      ensures n == 0 ==> r == 0 && sz' == sz && m.mem == old(m.mem)
      ensures n < 0 < sz + n ==> r == 0 && sz' == sz + n && Unmapped(old(m.mem), m.mem, d, PagesUp(sz'), PagesUp(sz))
      ensures n < 0 && sz + n < 0 ==> sz' == sz && m.mem == old(m.mem) && r == if sz > 0 then 0 else -1
      ensures n < 0 && sz + n == 0 ==> sz' == sz && r == -1 && Unmapped(old(m.mem), m.mem, d, 0, PagesUp(sz))
      ensures Sized(m.mem, d, sz') <==> !(n < 0 && sz + n == 0)
    {
      hide Space, KernelIn, SamePtes, Listed, Grew, Restored, Unmapped, Vacant, Sized, GrowNeeds, Partition, AllSpaces;
      ghost var m0 := m.mem;
      GoodSpace(d);
      if n > 0 {
        r, sz' := Grow(d, sz, sz + n);
      } else if n < 0 {
        var s := Shrink(d, sz, if sz + n >= 0 then sz + n else sz + n + 0x1_0000_0000);
        if s == 0 {
          return -1, sz;
        }
        return 0, s;
      } else {
        KeptRefl(m.mem, spaces, held, d);
        return 0, sz;
      }
    }

    /** growproc with a positive count, to size newsz. */
    method Grow(d: nat, sz: nat, newsz: nat) returns (r: int, sz': nat)
      requires Sound() && d in spaces && sz < 4096 * KPAGE && sz < newsz < 0x1_0000_0000 && Sized(m.mem, d, sz)
      modifies m, this`spaces
      ensures Sound() && spaces.Keys == old(spaces).Keys && d < |old(m.mem)|
      ensures OthersKept(old(m.mem), m.mem, old(spaces), d) && HeldKept(old(m.mem), m.mem, held)
      ensures r == 0 <==> newsz < 4096 * KPAGE && GrowNeeds(old(m.mem), d, PagesUp(sz), PagesUp(newsz)) <= |old(m.free)|
      ensures r == 0 ==> sz' == newsz && Grew(old(m.mem), m.mem, d, PagesUp(sz), PagesUp(newsz))
      ensures r != 0 ==> r == -1 && sz' == sz && Restored(old(m.mem), m.mem, d)
      ensures Sized(m.mem, d, sz')
    {
      hide Space, KernelIn, SamePtes, Listed, Grew, Restored, Vacant, Sized, GrowNeeds;
      ghost var m0, free0, all := m.mem, m.FreeSet(), spaces;
      GoodSpace(d);
      if newsz < 4096 * KPAGE {
        SizedVacant(m0, d, sz, newsz);
      }
      var s, panic;
      ghost var own';
      s, panic, own' := m.AllocUvm(d, sz, newsz, spaces[d]);
      Back(m0, d, sz, newsz, s);
      if s == newsz && newsz < 4096 * KPAGE {
        KernelGrew(m0, m.mem, d, m.data, PagesUp(sz), PagesUp(newsz));
      } else {
        KernelRestored(m0, m.mem, d, m.data);
      }
      spaces := spaces[d := own'];
      SpaceFacts(m.mem, m.kend, d, own');
      Exchanged(m0, all, free0, d, own');
      if s == 0 {
        return -1, sz;
      }
      return 0, s;
    }

    /** growproc's deallocuvm, from size sz to newsz. */
    method Shrink(d: nat, sz: nat, newsz: nat) returns (s: nat)
      requires Sound() && d in spaces && sz < 4096 * KPAGE && newsz < 0x1_0000_0000 && Sized(m.mem, d, sz)
      modifies m, this`spaces
      ensures Sound() && spaces.Keys == old(spaces).Keys && s == if newsz >= sz then sz else newsz
      ensures OthersKept(old(m.mem), m.mem, old(spaces), d) && HeldKept(old(m.mem), m.mem, held)
      ensures newsz >= sz ==> m.mem == old(m.mem)
      ensures newsz < sz ==> Unmapped(old(m.mem), m.mem, d, PagesUp(newsz), PagesUp(sz))
      ensures Sized(m.mem, d, s) && (newsz == 0 < sz ==> !Sized(m.mem, d, sz))
    {
      hide Space, KernelIn, SamePtes, Listed, Unmapped, Cut, Sized;
      ghost var m0, free0, all := m.mem, m.FreeSet(), spaces;
      GoodSpace(d);
      ghost var own';
      s, own' := m.DeallocUvm(d, sz, newsz, spaces[d]);
      if newsz < sz {
        SizedCut(m0, m.mem, d, sz, newsz);
        KernelUnmapped(m0, m.mem, d, m.data, PagesUp(newsz), PagesUp(sz));
      }
      spaces := spaces[d := own'];
      SpaceFacts(m.mem, m.kend, d, own');
      Exchanged(m0, all, free0, d, own');
    }

    lemma Back(m0: seq<Page>, d: nat, sz: nat, newsz: nat, s: nat)
      requires Sized(m0, d, sz) && sz < newsz
      requires newsz >= 4096 * KPAGE ==> s == 0 && m.mem == m0
      requires newsz < 4096 * KPAGE && s == newsz ==> Grew(m0, m.mem, d, PagesUp(sz), PagesUp(newsz))
      requires newsz < 4096 * KPAGE && s != newsz ==> Restored(m0, m.mem, d)
      ensures newsz < 4096 * KPAGE && s == newsz ==> Sized(m.mem, d, newsz)
      ensures newsz >= 4096 * KPAGE || s != newsz ==> Sized(m.mem, d, sz) && Restored(m0, m.mem, d)
    {
      hide Sized, Grew, Restored;
      if newsz >= 4096 * KPAGE {
        SizedIn(m0, d, sz);
        RestoredRefl(m0, d);
      } else if s == newsz {
        SizedGrew(m0, m.mem, d, sz, newsz);
      } else {
        SizedRestored(m0, m.mem, d, sz);
      }
    }
  }

  lemma KeptAll(mem: seq<Page>, mem': seq<Page>, spaces: map<nat, Pages>, changed: set<nat>)
    requires |mem'| == |mem| && forall f :: 0 <= f < |mem| && f !in changed ==> mem'[f] == mem[f]
    requires forall e, f :: e in spaces && f in spaces[e] ==> f !in changed
    ensures forall c :: OthersKept(mem, mem', spaces, c)
  {
  }

  lemma SpacesAre(mem: seq<Page>, kend: nat, data: nat, spaces: map<nat, Pages>)
    requires forall e :: e in spaces ==> Space(mem, kend, e, spaces[e]) && KernelIn(mem, e, data)
    ensures AllSpaces(mem, kend, data, spaces)
  {
    hide Space, KernelIn;
  }

  lemma SpacesMore(mem: seq<Page>, kend: nat, data: nat, spaces: map<nat, Pages>, c: nat, own: Pages)
    requires AllSpaces(mem, kend, data, spaces) && Space(mem, kend, c, own) && KernelIn(mem, c, data)
    ensures AllSpaces(mem, kend, data, spaces[c := own])
  {
    hide Space, KernelIn;
  }

  lemma KeptRefl(mem: seq<Page>, spaces: map<nat, Pages>, held: set<nat>, d: nat)
    ensures OthersKept(mem, mem, spaces, d) && HeldKept(mem, mem, held)
  {
  }

  lemma SizedIn(mem: seq<Page>, d: nat, sz: nat)
    requires Sized(mem, d, sz)
    ensures d < |mem|
  {
  }

  lemma OwnedNotFree(mem: seq<Page>, kend: nat, data: nat, spaces: map<nat, Pages>, held: set<nat>, free: set<nat>)
    requires Partition(kend, spaces, held, free) && AllSpaces(mem, kend, data, spaces)
    ensures forall e, f :: e in spaces && f in spaces[e] ==> f !in free && f !in held && kend <= f < NPHYS
  {
    hide Space;
    forall e, f | e in spaces && f in spaces[e]
      ensures f !in free && f !in held && kend <= f < NPHYS
    {
      SpaceFacts(mem, kend, e, spaces[e]);
    }
  }

  lemma PartitionFacts(kend: nat, spaces: map<nat, Pages>, held: set<nat>, free: set<nat>)
    requires Partition(kend, spaces, held, free)
    ensures held !! free && forall f :: f in held ==> kend <= f < NPHYS
    ensures forall d :: d in spaces ==> spaces[d].Keys !! held && spaces[d].Keys !! free
  {
  }

  /** Returning the kernel stack touches no page of a space or of the kernel. */
  lemma KstackOnly(mem: seq<Page>, mem': seq<Page>, spaces: map<nat, Pages>, held: set<nat>, free: set<nat>,
                   kstack: nat)
    requires |mem'| == |mem| && kstack < |mem| && mem' == mem[kstack := mem'[kstack]] && kstack in free && held !! free
    requires forall d :: d in spaces ==> spaces[d].Keys !! free
    ensures HeldKept(mem, mem', held) && forall c :: OthersKept(mem, mem', spaces, c)
  {
  }

  /** A directory is a page of its own space, so it is not free and not page 0. */
  lemma ZeroNoSpace(mem: seq<Page>, kend: nat, data: nat, spaces: map<nat, Pages>)
    requires AllSpaces(mem, kend, data, spaces)
    ensures 0 !in spaces && forall d :: d in spaces ==> d in spaces[d]
  {
    hide Space;
    forall d | d in spaces
      ensures d > 0 && d in spaces[d]
    {
      SpaceFacts(mem, kend, d, spaces[d]);
    }
  }
}
