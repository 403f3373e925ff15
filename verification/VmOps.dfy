/** The page allocator and the address-space operations, on the definitions of Vm. */
module VmOps {
  import opened Blocks
  import opened Vm
  import opened Counting

  // What kfree fills a page with.
  function Junk(): Page {
    seq(1024, i => 0x0101_0101)
  }

  function Elems(s: seq<nat>): (r: set<nat>)
    ensures forall x :: x in r <==> x in s
  {
    set x | x in s
  }

  ghost function Interval(lo: nat, hi: nat): (r: set<nat>)
    ensures forall f :: f in r <==> lo <= f < hi
  {
    set f | f in Range(hi) && lo <= f
  }

  /** The next pointers of the free pages, held in their first words, thread this list. */
  ghost predicate Listed(mem: seq<Page>, kend: nat, head: nat, free: seq<nat>) {
    && |mem| == NPHYS && kend > 0
    && head == (if free == [] then 0 else free[0])
    && (forall i :: 0 <= i < |free| ==> kend <= free[i] < NPHYS)
    && (forall i, j :: 0 <= i < j < |free| ==> free[i] != free[j])
    && (forall i {:trigger NextOf(free, i)} :: 0 <= i < |free| ==> mem[free[i]][0] == NextOf(free, i))
  }

  function NextOf(free: seq<nat>, i: nat): nat {
    if i + 1 < |free| then free[i + 1] else 0
  }

  lemma ListedFacts(mem: seq<Page>, kend: nat, head: nat, free: seq<nat>)
    requires Listed(mem, kend, head, free)
    ensures |mem| == NPHYS && kend > 0 && forall f :: f in free ==> kend <= f < NPHYS
  {
  }

  /** The list does not care about other pages. */
  lemma ListedFrame(mem: seq<Page>, mem': seq<Page>, kend: nat, head: nat, free: seq<nat>)
    requires Listed(mem, kend, head, free) && |mem'| == |mem|
    requires forall f :: f in free ==> mem'[f] == mem[f]
    ensures Listed(mem', kend, head, free)
  {
    forall i {:trigger NextOf(free, i)} | 0 <= i < |free|
      ensures mem'[free[i]][0] == NextOf(free, i)
    {
      assert free[i] in free;
    }
  }

  class Machine {
    // First page after the kernel, and the page of the symbol `data`.
    const kend: nat
    const data: nat
    var mem: seq<Page>
    var freelist: nat
    ghost var free: seq<nat>

    ghost predicate Valid()
      reads this
    {
      Listed(mem, kend, freelist, free)
    }

    ghost function FreeSet(): set<nat>
      reads this
    {
      Elems(free)
    }

    /** Memory at power-on: no page is free yet. */
    constructor (kend: nat, data: nat, image: seq<Page>)
      requires kend > 0 && |image| == NPHYS
      ensures Valid() && free == [] && mem == image && this.kend == kend && this.data == data
    {
      this.kend := kend;
      this.data := data;
      mem := image;
      freelist := 0;
      free := [];
    }

    /** kalloc; 0 is failure. */
    method Kalloc() returns (f: nat)
      requires Valid()
      modifies this`freelist, this`free
      ensures Valid()
      ensures f == 0 <==> old(free) == []
      ensures f == 0 ==> free == old(free)
      ensures f != 0 ==> f in old(free) && kend <= f < NPHYS && f !in free
      ensures f != 0 ==> FreeSet() == old(FreeSet()) - {f} && |free| == |old(free)| - 1
    {
      f := freelist;
      if f != 0 {
        assert mem[free[0]][0] == NextOf(free, 0);
        freelist := mem[f][0];
        ghost var fs := free;
        free := free[1..];
        forall i {:trigger NextOf(free, i)} | 0 <= i < |free|
          ensures mem[free[i]][0] == NextOf(free, i)
        {
          assert mem[fs[i + 1]][0] == NextOf(fs, i + 1);
        }
        assert fs == [f] + free;
      }
    }

    /** kfree of a page that is not free; false is its panic. */
    method Kfree(f: nat) returns (ok: bool)
      requires Valid() && f !in free
      modifies this
      ensures Valid()
      ensures ok <==> kend <= f < NPHYS
      ensures !ok ==> mem == old(mem) && free == old(free)
      ensures ok ==> FreeSet() == old(FreeSet()) + {f} && |free| == |old(free)| + 1 && mem == old(mem)[f := mem[f]]
    {
      if f < kend || f >= NPHYS {
        return false;
      }
      mem := mem[f := Junk()[0 := freelist]];
      ghost var fs := free;
      freelist := f;
      free := [f] + free;
      forall i {:trigger NextOf(free, i)} | 0 <= i < |free|
        ensures mem[free[i]][0] == NextOf(free, i)
      {
        if i > 0 {
          assert old(mem)[fs[i - 1]][0] == NextOf(fs, i - 1);
        }
      }
      return true;
    }

    /** freerange from one physical address to another: exactly the whole pages between them; false is kfree's panic. */
    method Freerange(vstart: nat, vend: nat) returns (ok: bool)
      requires Valid() && Interval(PagesUp(vstart), vend / 4096) !! FreeSet()
      modifies this
      ensures Valid() && |mem| == |old(mem)| == NPHYS
      ensures ok <==> vend / 4096 <= PagesUp(vstart) || (kend <= PagesUp(vstart) && vend / 4096 <= NPHYS)
      ensures ok ==> FreeSet() == old(FreeSet()) + Interval(PagesUp(vstart), vend / 4096)
      ensures ok ==> |free| == |old(free)| + if PagesUp(vstart) < vend / 4096 then vend / 4096 - PagesUp(vstart) else 0
      ensures forall f :: 0 <= f < NPHYS && f !in Interval(PagesUp(vstart), vend / 4096) ==> mem[f] == old(mem)[f]
    {
      hide Listed, PagesUp, Elems, Interval;
      ListedFacts(mem, kend, freelist, free);
      ghost var lo, hi, m0, free0 := PagesUp(vstart), vend / 4096, mem, FreeSet();
      ghost var all := Interval(lo, hi);
      var p := PagesUp(vstart);
      assert Interval(lo, p) == {};
      while 4096 * p + 4096 <= vend
        invariant lo <= p && (if lo < hi then p <= hi else p == lo) && Valid() && |mem| == NPHYS
        invariant p > lo ==> kend <= lo && p <= NPHYS
        invariant FreeSet() == free0 + Interval(lo, p) && |free| == |old(free)| + p - lo
        invariant forall f :: 0 <= f < NPHYS && f !in all ==> mem[f] == m0[f]
        decreases vend - 4096 * p
      {
        assert p < hi;
        assert p in all && p !in free0 && p !in Interval(lo, p);
        assert p !in FreeSet();
        ok := Kfree(p);
        if !ok {
          return;
        }
        assert Interval(lo, p + 1) == Interval(lo, p) + {p};
        p := p + 1;
      }
      assert Interval(lo, p) == all;
      return true;
    }

    /** freemem: the bytes on the free list; the int cannot overflow, so it is never -1. */
    method Freemem() returns (bytes: int)
      requires Valid()
      ensures bytes == 4096 * |free| && 0 <= bytes < 0x8000_0000
    {
      bytes := 0;
      var r := freelist;
      ghost var k := 0;
      while r != 0
        invariant 0 <= k <= |free| && bytes == 4096 * k
        invariant r == if k < |free| then free[k] else 0
        decreases |free| - k
      {
        assert mem[free[k]][0] == NextOf(free, k);
        bytes := bytes + 4096;
        r := mem[r][0];
        k := k + 1;
      }
      DistinctFit(free, Range(NPHYS));
      if bytes < 0 {
        bytes := -1;
      }
    }

    /** d's address space consists of the pages in own, none of which is free. */
    ghost predicate Good(d: nat, own: Pages)
      reads this
    {
      Valid() && Space(mem, kend, d, own) && own.Keys !! FreeSet()
    }

    /** walkpgdir for directory entry i: is there a table, made if asked for? */
    method WalkPgdir(d: nat, i: nat, alloc: bool, ghost own: Pages) returns (ok: bool, ghost own': Pages)
      requires Good(d, own) && i < NENTRIES
      modifies this
      ensures Good(d, own') && SamePtes(old(mem), mem, d)
      ensures ok <==> HasTab(mem, d, i)
      ensures d < |old(mem)| && (ok <==> HasTab(old(mem), d, i) || (alloc && |old(free)| > 0))
      ensures ok ==> Tabbed(old(mem), mem, d, i, i + 1) && |free| == |old(free)| - Missing(old(mem), d, i, i + 1)
      ensures !alloc || HasTab(old(mem), d, i) ==> own' == own && mem == old(mem) && free == old(free)
      ensures own'.Keys + FreeSet() == own.Keys + old(FreeSet())
      ensures own.Keys <= own'.Keys && forall f :: f in own ==> own'[f] == own[f]
      ensures forall f :: f in own' && f !in own ==> own'[f] == Table(i)
      ensures forall f :: 0 <= f < NPHYS && f != d && f !in old(free) ==> mem[f] == old(mem)[f]
      ensures !ok ==> own' == own && free == old(free) && mem == old(mem)
    {
      hide Pte, NextOf, Entry;
      own' := own;
      SamePtesRefl(mem, d);
      TableInRange(mem, kend, d, own, i);
      MissingOne(mem, d, i);
      if Present(mem[d][i]) {
        return true, own';
      }
      if !alloc {
        return false, own';
      }
      var t := Kalloc();
      if t == 0 {
        return false, own';
      }
      AddTable(mem, kend, d, own, i, t);
      ghost var m := mem;
      mem := mem[t := ZeroPage()];
      mem := mem[d := mem[d][i := Entry(t, PTE_W + PTE_U)]];
      assert mem == WithTable(m, d, i, t);
      ListedFrame(m, mem, kend, freelist, free);
      own' := own[t := Table(i)];
      return true, own';
    }

    /** One pass of mappages: the entry (i, j), which is not present, gets frame u. */
    method MapOne(d: nat, i: nat, j: nat, u: nat, perm: nat, ghost own: Pages) returns (ok: bool, ghost own': Pages)
      requires Good(d, own) && i < NENTRIES && j < NENTRIES && u < NPAGES && perm < 4096 && !Present(Pte(mem, d, i, j))
      requires i < KDIR ==> u !in own && u !in free && kend <= u < NPHYS
      modifies this
      ensures Good(d, own') && d < |old(mem)|
      ensures ok <==> Missing(old(mem), d, i, i + 1) <= |old(free)|
      ensures ok ==> Tabbed(old(mem), mem, d, i, i + 1) && |free| == |old(free)| - Missing(old(mem), d, i, i + 1)
      ensures !ok ==> own' == own && mem == old(mem) && free == old(free)
      ensures ok ==> OnePte(old(mem), mem, d, i, j, Entry(u, perm))
      ensures own'.Keys + FreeSet() == own.Keys + old(FreeSet()) + if ok && i < KDIR then {u} else {}
      ensures Extends(own, own')
      ensures forall f :: f in own' && f !in own ==> own'[f].Table? || (i < KDIR && f == u && own'[f] == User(i, j))
      ensures ok && i < KDIR ==> u in own' && own'[u] == User(i, j)
      ensures forall f :: 0 <= f < NPHYS && (f in own ==> own[f].User?) && f !in old(free) ==> mem[f] == old(mem)[f]
    {
      hide Pte, NextOf, Entry, Space, Listed, SamePtes, OnePte, Tabbed, Missing;
      SpaceFacts(mem, kend, d, own);
      MissingOne(mem, d, i);
      SamePtesAt(mem, mem, d, i, j);
      ok, own' := WalkPgdir(d, i, true, own);
      if !ok {
        return;
      }
      ghost var m := mem;
      SpaceFacts(mem, kend, d, own');
      SamePtesAt(old(mem), m, d, i, j);
      MapPte(m, kend, d, own', i, j, u, perm);
      SetPteSets(m, kend, d, own', i, j, Entry(u, perm));
      OneAfterSame(old(mem), m, SetPte(m, d, i, j, Entry(u, perm)), d, i, j, Entry(u, perm));
      TableOwned(m, kend, d, own', i);
      assert Tab(m, d, i) !in FreeSet();
      ListedFacts(m, kend, freelist, free);
      mem := SetPte(mem, d, i, j, Entry(u, perm));
      TabbedSame(m, mem, d, i + 1);
      TabbedMore(old(mem), m, mem, d, i, i + 1, i + 1, i + 1);
      ListedFrame(m, mem, kend, freelist, free);
      if i < KDIR {
        own' := own'[u := User(i, j)];
      }
    }

    /**
      mappages: n pages from virtual page `first`, onto frames from `frame`.  User pages
      are mapped one at a time and join the address space.  On failure only a prefix is
      mapped; it panics at the first page that is mapped already.
     */
    method MapPages(d: nat, first: nat, n: nat, frame: nat, perm: nat, ghost own: Pages)
      returns (ok: bool, panic: bool, ghost own': Pages, ghost done: nat)
      requires Good(d, own) && n > 0 && first + n <= NPAGES && frame + n <= NPAGES && perm < 4096
      requires first < KPAGE ==> n == 1 && frame !in own && frame !in free && kend <= frame < NPHYS
      modifies this
      ensures Good(d, own') && done <= n && (ok <==> done == n) && d < |old(mem)|
      ensures ok ==> !panic && Vacant(old(mem), d, first, first + n)
      ensures !ok ==> Vacant(old(mem), d, first, first + done)
      ensures TabEnd(first, n) <= NENTRIES && TabsMade(old(mem), mem, d, first, done, |old(free)|, |free|)
      ensures !ok && !panic ==> Missing(old(mem), d, first / 1024, TabEnd(first, n)) > |old(free)|
      ensures panic <==> !ok && Taken(old(mem), d, first + done)
      ensures MappedRun(old(mem), mem, d, first, done, frame, perm)
      ensures own'.Keys + FreeSet() == own.Keys + old(FreeSet()) + if first < KPAGE && ok then {frame} else {}
      ensures Extends(own, own')
      ensures forall f :: f in own' && f !in own ==>
        own'[f].Table? || (first < KPAGE && f == frame && own'[f] == User(first / 1024, first % 1024))
      ensures first < KPAGE && ok ==> frame in own' && own'[frame] == User(first / 1024, first % 1024)
      ensures forall f :: 0 <= f < NPHYS && (f in own ==> own[f].User?) && f !in old(free) ==> mem[f] == old(mem)[f]
    {
      hide Pte, NextOf, Entry, Space, Listed, MappedRun, OnePte, Vacant, Tabbed, Missing, TabsMade, TabEnd;
      own', done, panic := own, 0, false;
      ghost var m0 := mem;
      SpaceFacts(mem, kend, d, own);
      RunNone(mem, d, first, frame, perm);
      VacantNone(mem, d, first);
      TabsNone(mem, d, first, n, |free|);
      var k := 0;
      while k < n
        invariant 0 <= k <= n && done == k && Good(d, own') && |mem| == NPHYS && Vacant(m0, d, first, first + k)
          && !panic
        invariant MappedRun(m0, mem, d, first, k, frame, perm) && TabsMade(m0, mem, d, first, k, |old(free)|, |free|)
        invariant own'.Keys + FreeSet() == own.Keys + old(FreeSet()) + if first < KPAGE && k > 0 then {frame} else {}
        invariant Extends(own, own')
        invariant forall f :: f in own' && f !in own ==>
          own'[f].Table? || (first < KPAGE && f == frame && own'[f] == User(first / 1024, first % 1024))
        invariant first < KPAGE && k > 0 ==> frame in own' && own'[frame] == User(first / 1024, first % 1024)
        invariant forall f :: 0 <= f < NPHYS && (f in own ==> own[f].User?) && f !in old(free) ==> mem[f] == m0[f]
      {
        var v := first + k;
        VpnSplit(v);
        SpaceFacts(mem, kend, d, own');
        RunFree(m0, mem, d, first, k, frame, perm, v / 1024, v % 1024);
        if Present(Pte(mem, d, v / 1024, v % 1024)) {
          return false, true, own', done;
        }
        VacantMore(m0, d, first, v, v / 1024, v % 1024);
        ghost var m1, n1 := mem, |free|;
        ok, own' := MapOne(d, v / 1024, v % 1024, frame + k, perm, own');
        if !ok {
          TabsStuck(m0, m1, d, first, k, n, |old(free)|, n1);
          return;
        }
        TabsMore(m0, m1, mem, d, first, k, |old(free)|, n1, |free|);
        SpaceFacts(mem, kend, d, own');
        RunStep(m0, m1, mem, d, first, k, frame, perm, v / 1024, v % 1024);
        k := k + 1;
        done := k;
      }
      return true, false, own', done;
    }

    /** Free the page of a present user entry and clear the entry. */
    method Unmap(d: nat, i: nat, j: nat, ghost own: Pages) returns (ghost own': Pages)
      requires Good(d, own) && i < KDIR && j < NENTRIES && HasTab(mem, d, i) && Present(Pte(mem, d, i, j))
      modifies this
      ensures Good(d, own') && OnePte(old(mem), mem, d, i, j, 0)
      ensures own' == own - {Frame(Pte(old(mem), d, i, j))} && Frame(Pte(old(mem), d, i, j)) in own
      ensures FreeSet() == old(FreeSet()) + {Frame(Pte(old(mem), d, i, j))}
      ensures own[Frame(Pte(old(mem), d, i, j))] == User(i, j)
      ensures forall f :: 0 <= f < NPHYS && f !in own ==> mem[f] == old(mem)[f]
      ensures forall f :: f in own' && own[f].User? ==> mem[f] == old(mem)[f]
    {
      hide NextOf, Entry, Space, Listed, SamePtes, OnePte;
      SpaceFacts(mem, kend, d, own);
      TableOwned(mem, kend, d, own, i);
      UserOwned(mem, kend, d, own, i, j);
      var t := Tab(mem, d, i);
      var u := Frame(mem[t][j]);
      assert u !in FreeSet();
      var ok := Kfree(u);
      ghost var m := mem;
      SpaceFrame(old(mem), m, kend, d, own);
      SamePtesAt(old(mem), m, d, i, j);
      assert Tab(m, d, i) == t;
      UnmapPte(m, kend, d, own, i, j);
      SetPteSets(m, kend, d, own, i, j, 0);
      OneAfterSame(old(mem), m, SetPte(m, d, i, j, 0), d, i, j, 0);
      mem := SetPte(mem, d, i, j, 0);
      ListedFacts(m, kend, freelist, free);
      ListedFrame(m, mem, kend, freelist, free);
      own' := own - {u};
    }

    /**
      deallocuvm, with its jump over missing page tables: exactly the present pages from
      the rounded-up newsz to oldsz are unmapped and freed, each once.
     */
    method DeallocUvm(d: nat, oldsz: nat, newsz: nat, ghost own: Pages) returns (sz: nat, ghost own': Pages)
      requires Good(d, own) && oldsz <= 4096 * KPAGE && newsz < 0x1_0000_0000
      modifies this
      ensures Good(d, own')
      ensures sz == if newsz >= oldsz then oldsz else newsz
      ensures newsz >= oldsz ==> mem == old(mem) && free == old(free) && own' == own
      ensures newsz < oldsz ==> Unmapped(old(mem), mem, d, PagesUp(newsz), PagesUp(oldsz))
      ensures newsz < oldsz ==> own' == Cut(own, PagesUp(newsz), PagesUp(oldsz))
      ensures own'.Keys + FreeSet() == own.Keys + old(FreeSet())
      ensures forall f :: 0 <= f < NPHYS && f !in own ==> mem[f] == old(mem)[f]
      ensures forall f :: f in own' && own[f].User? ==> mem[f] == old(mem)[f]
    {
      hide Pte, NextOf, Entry, Space, Listed, OnePte, Unmapped, Cut;
      own' := own;
      if newsz >= oldsz {
        return oldsz, own';
      }
      ghost var m0, lo, hi := mem, PagesUp(newsz), PagesUp(oldsz);
      SpaceFacts(mem, kend, d, own);
      UnmappedNone(mem, d, lo, own);
      var a := PagesUp(newsz);
      while 4096 * a < oldsz
        invariant lo <= a && |mem| == NPHYS && Good(d, own') && own' == Cut(own, lo, Min(a, hi))
        invariant Unmapped(m0, mem, d, lo, Min(a, hi))
        invariant own'.Keys + FreeSet() == own.Keys + old(FreeSet())
        invariant forall f :: 0 <= f < NPHYS && f !in own ==> mem[f] == m0[f]
        invariant forall f :: f in own' ==> f in own && own'[f] == own[f]
        invariant forall f :: f in own' && own[f].User? ==> mem[f] == m0[f]
        decreases oldsz - 4096 * a
      {
        var i, j := a / 1024, a % 1024;
        VpnSplit(a);
        TableInRange(mem, kend, d, own', i);
        PteIs(mem, d, i, j);
        if !HasTab(mem, d, i) {
          NoTable(mem, d, a, Min(1024 * (i + 1), hi));
          Advance(m0, mem, kend, d, own, own', lo, a, Min(1024 * (i + 1), hi));
          a := 1024 * (i + 1) - 1;
        } else if Present(mem[Tab(mem, d, i)][j]) {
          ghost var m1, own1 := mem, own';
          own' := Unmap(d, i, j, own');
          UnmapStep(m0, m1, mem, kend, d, own, own1, lo, a, i, j);
          SpaceFacts(mem, kend, d, own');
        } else {
          NoPage(mem, d, a, i, j);
          Advance(m0, mem, kend, d, own, own', lo, a, a + 1);
        }
        a := a + 1;
      }
      return newsz, own';
    }

    /** freevm: every page of the space, and no other, goes back to the free list, once. */
    method FreeVm(d: nat, ghost own: Pages)
      requires Good(d, own)
      modifies this
      ensures Valid() && FreeSet() == old(FreeSet()) + own.Keys && |mem| == |old(mem)| == NPHYS
      ensures forall f :: 0 <= f < NPHYS && f !in own ==> mem[f] == old(mem)[f]
    {
      hide Pte, NextOf, Entry, Space, Listed, Unmapped, Cut;
      var sz;
      ghost var own1;
      SpaceFacts(mem, kend, d, own);
      assert PagesUp(0) == 0 && PagesUp(4096 * KPAGE) == KPAGE;
      sz, own1 := DeallocUvm(d, 4096 * KPAGE, 0, own);
      CutKeys(own, 0, KPAGE);
      NoUsers(mem, kend, d, own1);
      SpaceFacts(mem, kend, d, own1);
      ghost var m1, f1 := mem, FreeSet();
      NoTables(own1);
      var i := 0;
      while i < NENTRIES
        invariant 0 <= i <= NENTRIES && Valid() && |mem| == NPHYS && mem[d] == m1[d]
        invariant FreeSet() == f1 + Tables(own1, i)
        invariant forall f :: 0 <= f < NPHYS && f !in own ==> mem[f] == old(mem)[f]
      {
        OneTable(m1, kend, d, own1, i);
        if Present(mem[d][i]) {
          var t := Tab(mem, d, i);
          assert t !in FreeSet();
          var ok := Kfree(t);
        }
        i := i + 1;
      }
      AllTables(m1, kend, d, own1);
      assert d !in FreeSet();
      var ok := Kfree(d);
    }

    /** setupkvm: a directory with the kernel's mappings, or 0 and the free pages as they were. */
    method SetupKvm() returns (d: nat, ghost own: Pages)
      requires Valid() && 0x100 < data < NPHYS
      modifies this
      ensures |mem| == |old(mem)| == NPHYS && (d != 0 <==> |old(free)| >= KSPACE)
      ensures d != 0 ==> |free| == |old(free)| - KSPACE && Bare(mem, d)
      ensures d == 0 ==> Valid() && FreeSet() == old(FreeSet())
      ensures d != 0 ==>
        Good(d, own) && own.Keys + FreeSet() == old(FreeSet()) && (forall f :: f in own ==> !own[f].User?)
      ensures d != 0 ==>
        forall i, j :: 0 <= i < NENTRIES && 0 <= j < NENTRIES ==> KernelEntry(data, Vpn(i, j), Pte(mem, d, i, j))
      ensures forall f :: 0 <= f < NPHYS && f !in old(free) ==> mem[f] == old(mem)[f]
    {
      hide Pte, NextOf, Entry, Space, Listed, MappedRun, KernelPte, TabsMade, Missing, KernTabs, KCount, TabEnd;
      own := map[];
      ListedFacts(mem, kend, freelist, free);
      KCounts(data);
      d := Kalloc();
      if d == 0 {
        return;
      }
      ghost var m0 := mem;
      mem := mem[d := ZeroPage()];
      ListedFacts(m0, kend, freelist, free);
      ListedFrame(m0, mem, kend, freelist, free);
      own := map[d := Dir];
      NewSpace(mem, kend, d, data);
      KernNone(mem, d, data);
      var k := 0;
      while k < 4
        invariant 0 <= k <= 4 && Good(d, own) && |mem| == NPHYS
        invariant KernTabs(mem, d, data, k) && |free| == |old(free)| - 1 - KCount(data, k)
        invariant own.Keys + FreeSet() == old(FreeSet()) && (forall f :: f in own ==> !own[f].User?)
        invariant forall i, j :: 0 <= i < NENTRIES && 0 <= j < NENTRIES ==>
          Pte(mem, d, i, j) == KernelPte(data, k, Vpn(i, j))
        invariant forall f :: 0 <= f < NPHYS && f !in old(free) ==> mem[f] == old(mem)[f]
      {
        var r := Kmap(data, k);
        Disjoint(data, k);
        ghost var m1, f1, done := mem, |free|, 0;
        var ok, panic;
        ok, panic, own, done := MapPages(d, r.virt, r.n, r.frame, r.perm, own);
        SpaceFacts(mem, kend, d, own);
        KernMissing(m1, d, data, k);
        if !ok {
          FreeVm(d, own);
          return 0, map[];
        }
        KernMore(m1, mem, d, data, k, f1, |free|);
        KernelStep(m1, mem, d, data, k);
        k := k + 1;
      }
      NoUserTabs(mem, d, data);
      KernelEntries(mem, d, data);
    }

    /** A page from the free list with contents p, not yet part of d's space; 0 is failure. */
    method FilledPage(d: nat, p: Page, ghost own: Pages) returns (u: nat)
      requires Good(d, own)
      modifies this
      ensures Good(d, own)
      ensures (u == 0 <==> old(free) == []) && (u == 0 ==> mem == old(mem) && free == old(free)) && d < |old(mem)|
      ensures u != 0 ==> |free| == |old(free)| - 1 && |mem| == |old(mem)| && mem[d] == old(mem)[d]
      ensures u != 0 ==>
        kend <= u < NPHYS && |old(mem)| == NPHYS && mem == old(mem)[u := p] && SamePtes(old(mem), mem, d)
      ensures u != 0 ==> u !in own && u in old(free) && u !in free && FreeSet() == old(FreeSet()) - {u}
    {
      hide Pte, NextOf, Space, SamePtes, Listed;
      ListedFacts(mem, kend, freelist, free);
      SpaceFacts(mem, kend, d, own);
      ghost var fs := FreeSet();
      u := Kalloc();
      if u != 0 {
        assert u in fs;
        mem := mem[u := p];
        ListedFrame(old(mem), mem, kend, freelist, free);
        SpaceFacts(old(mem), kend, d, own);
        SpaceFrame(old(mem), mem, kend, d, own);
      }
    }

    /** mappages for one user page u, which joins the space if it succeeds. */
    method MapUser(d: nat, a: nat, u: nat, perm: nat, ghost own: Pages)
      returns (ok: bool, panic: bool, ghost own': Pages)
      requires Good(d, own) && a < KPAGE && perm < 4096
      requires u !in own && u !in free && kend <= u < NPHYS
      modifies this
      ensures Good(d, own') && |mem| == |old(mem)| == NPHYS && u !in free
      ensures (ok ==> Vacant(old(mem), d, a, a + 1)) && (panic <==> !ok && Taken(old(mem), d, a))
      ensures d < NPHYS && a / 1024 < NENTRIES
        && (ok || panic || Missing(old(mem), d, a / 1024, a / 1024 + 1) > |old(free)|)
      ensures ok ==> Tabbed(old(mem), mem, d, a / 1024, a / 1024 + 1)
      ensures ok ==> |old(free)| == |free| + Missing(old(mem), d, a / 1024, a / 1024 + 1)
      ensures MappedRun(old(mem), mem, d, a, if ok then 1 else 0, u, perm)
      ensures own'.Keys + FreeSet() == own.Keys + old(FreeSet()) + if ok then {u} else {}
      ensures Extends(own, own') && (u in own' <==> ok) && (ok ==> own'[u] == User(a / 1024, a % 1024))
      ensures forall f :: f in own' && f !in own ==> own'[f].Table? || (f == u && ok)
      ensures forall f :: f in own && own[f].User? ==> mem[f] == old(mem)[f]
      ensures mem[u] == old(mem)[u]
      ensures forall f :: 0 <= f < NPHYS && f !in own && f !in old(free) ==> mem[f] == old(mem)[f]
    {
      hide Pte, NextOf, Space, Listed, Vacant, MappedRun, Taken, Entry, Tabbed, Missing;
      SpaceFacts(mem, kend, d, own);
      VpnSplit(a);
      assert TabEnd(a, 1) == a / 1024 + 1;
      ghost var done;
      ghost var fs := FreeSet();
      assert forall f :: f in own ==> f !in fs;
      ok, panic, own', done := MapPages(d, a, 1, u, perm, own);
      SpaceFacts(mem, kend, d, own');
      assert u !in FreeSet();
    }

    /** kfree of a page that is neither free nor part of d's space. */
    method FreeOther(d: nat, u: nat, ghost own: Pages)
      requires Good(d, own) && u !in own && u !in FreeSet() && kend <= u < NPHYS
      modifies this
      ensures Good(d, own) && SamePtes(old(mem), mem, d) && FreeSet() == old(FreeSet()) + {u} && |old(mem)| == NPHYS
      ensures mem == old(mem)[u := mem[u]]
    {
      hide Pte, NextOf, Space, Listed, SamePtes;
      SpaceFacts(mem, kend, d, own);
      var ok := Kfree(u);
      SpaceFrame(old(mem), mem, kend, d, own);
    }

    /**
      allocuvm.  On success the pages from the rounded-up oldsz to newsz are new, zeroed and
      writable by the user.  On failure every mapping is as it was (a page table may stay).
      Nothing leaks, and no existing user page is touched.  If a page of the range was mapped
      already it panics, unless memory runs out first.
     */
    method AllocUvm(d: nat, oldsz: nat, newsz: nat, ghost own: Pages) returns (sz: nat, panic: bool, ghost own': Pages)
      requires Good(d, own) && oldsz < 0x1_0000_0000 && newsz < 0x1_0000_0000
      modifies this
      ensures Good(d, own') && |old(mem)| == NPHYS && d < NPHYS
      ensures newsz >= 4096 * KPAGE ==> sz == 0 && !panic && mem == old(mem) && free == old(free) && own' == own
      ensures newsz < oldsz && newsz < 4096 * KPAGE ==>
        sz == oldsz && !panic && mem == old(mem) && free == old(free) && own' == own
      ensures panic ==> oldsz <= newsz < 4096 * KPAGE && !Vacant(old(mem), d, PagesUp(oldsz), PagesUp(newsz))
      ensures oldsz <= newsz < 4096 * KPAGE ==> sz == newsz || sz == 0
      ensures oldsz <= newsz < 4096 * KPAGE && Vacant(old(mem), d, PagesUp(oldsz), PagesUp(newsz)) ==>
        (sz == newsz <==> GrowNeeds(old(mem), d, PagesUp(oldsz), PagesUp(newsz)) <= |old(free)|)
      ensures oldsz <= newsz < 4096 * KPAGE && sz == newsz && !panic ==>
        Vacant(old(mem), d, PagesUp(oldsz), PagesUp(newsz)) && Grew(old(mem), mem, d, PagesUp(oldsz), PagesUp(newsz))
      ensures oldsz <= newsz < 4096 * KPAGE && sz != newsz && Vacant(old(mem), d, PagesUp(oldsz), PagesUp(newsz)) ==>
        Restored(old(mem), mem, d)
      ensures !panic ==> own'.Keys + FreeSet() == own.Keys + old(FreeSet())
      ensures oldsz <= newsz < 4096 * KPAGE && Vacant(old(mem), d, PagesUp(oldsz), PagesUp(newsz)) ==>
        Extends(own, own') && forall f :: f in own && own[f].User? ==> mem[f] == old(mem)[f]
      ensures forall f :: 0 <= f < NPHYS && f !in own && f !in old(free) ==> mem[f] == old(mem)[f]
    {
      hide Pte, NextOf, Entry, Space, Listed, MappedRun, Unmapped, Cut, Grew, Restored, Vacant, SamePtes, Taken;
      hide TabsMade, GrowNeeds, Missing;
      own', panic := own, false;
      ghost var m0 := mem;
      SpaceFacts(mem, kend, d, own);
      RestoredRefl(mem, d);
      if newsz >= 4096 * KPAGE {
        return 0, false, own';
      }
      if newsz < oldsz {
        return oldsz, false, own';
      }
      ghost var lo, hi := PagesUp(oldsz), PagesUp(newsz);
      GrewNone(mem, d, lo);
      VacantNone(mem, d, lo);
      TabsStart(mem, d, lo, |free|);
      if Vacant(mem, d, lo, hi) {
        NoUsersIn(mem, kend, d, own, lo, hi);
      }
      var a := PagesUp(oldsz);
      while 4096 * a < newsz
        invariant lo <= a <= hi && |mem| == NPHYS && Good(d, own') && Grew(m0, mem, d, lo, a) && Vacant(m0, d, lo, a)
          && !panic
        invariant a - lo <= |old(free)| && TabsMade(m0, mem, d, lo, a - lo, |old(free)| - (a - lo), |free|)
        invariant Extends(own, own') && NewPages(own, own', lo, a)
        invariant own'.Keys + FreeSet() == own.Keys + old(FreeSet())
        invariant forall f :: f in own && own[f].User? ==> mem[f] == m0[f]
        invariant forall f :: 0 <= f < NPHYS && f !in own && f !in old(free) ==> mem[f] == m0[f]
        decreases newsz - 4096 * a
      {
        var u, ok;
        u, ok, panic, own' := GrowOne(d, a, m0, lo, |old(free)| - (a - lo), own');
        if panic {
          NotVacant(m0, d, lo, hi, a);
          return 0, true, own';
        }
        if !ok {
          GrowStuck(m0, d, lo, a, hi, |old(free)|);
          own' := Undo(d, oldsz, newsz, a, m0, own, own');
          if u != 0 {
            ghost var m3 := mem;
            FreeOther(d, u, own');
            RestoredAfter(m0, m3, mem, d);
          }
          return 0, false, own';
        }
        a := a + 1;
      }
      GrowPaid(m0, mem, d, lo, hi, |old(free)|, |free|);
      return newsz, false, own';
    }

    /** One pass of allocuvm; a failure may leave it holding page u, unmapped. */
    method GrowOne(d: nat, a: nat, ghost m0: seq<Page>, ghost lo: nat, ghost f0: nat, ghost own: Pages)
      returns (u: nat, ok: bool, panic: bool, ghost own': Pages)
      requires Good(d, own) && lo <= a < KPAGE && Grew(m0, mem, d, lo, a) && Vacant(m0, d, lo, a)
      requires TabsMade(m0, mem, d, lo, a - lo, f0, |free|)
      modifies this
      ensures ok ==> f0 >= 1 && TabsMade(m0, mem, d, lo, a + 1 - lo, f0 - 1, |free|)
      ensures d < |m0| && TabEnd(lo, a + 1 - lo) <= NENTRIES
      ensures !ok && !panic ==> 1 + Missing(m0, d, lo / 1024, TabEnd(lo, a + 1 - lo)) > f0
      ensures Good(d, own') && |mem| == |old(mem)| == NPHYS && Extends(own, own')
      ensures Grew(m0, mem, d, lo, if ok then a + 1 else a) && (ok ==> Vacant(m0, d, lo, a + 1))
      ensures panic ==> !ok && Taken(m0, d, a)
      ensures forall f :: f in own' && f !in own ==> own'[f].Table? || (ok && own'[f] == User(a / 1024, a % 1024))
      ensures u == 0 ==> !ok && own'.Keys + FreeSet() == own.Keys + old(FreeSet())
      ensures u != 0 ==> u !in own && u !in FreeSet() && kend <= u < NPHYS && (ok <==> u in own')
      ensures u != 0 ==> own'.Keys + FreeSet() + {u} == own.Keys + old(FreeSet())
      ensures forall f :: f in own && own[f].User? ==> mem[f] == old(mem)[f]
      ensures forall f :: 0 <= f < NPHYS && f !in own && f !in old(free) ==> mem[f] == old(mem)[f]
    {
      hide Pte, NextOf, Entry, Space, Listed, MappedRun, Grew;
      hide Vacant, SamePtes, Taken, TabsMade, Tabbed, Missing, TabEnd;
      own', ok, panic := own, false, false;
      ghost var m1, f1 := mem, |free|;
      SpaceFacts(mem, kend, d, own);
      PageStep(m0, m1, d, lo, a, f0, f1);
      u := FilledPage(d, ZeroPage(), own);
      if u == 0 {
        return;
      }
      GrewFrame(m0, m1, mem, kend, d, own, lo, a, u);
      ghost var m2 := mem;
      GrewAhead(m0, m2, d, lo, a);
      SameTabs(m1, m2, d, a / 1024);
      ok, panic, own' := MapUser(d, a, u, PTE_W + PTE_U, own);
      if ok {
        PageMore(m0, m1, m2, mem, d, lo, a, f0, f1, |free|);
        GrewStep(m0, m2, mem, kend, d, own, lo, a, u);
      } else {
        GrewSame(m0, m2, mem, kend, d, own, lo, a, u);
      }
    }

    /** allocuvm's clean-up: unmap the pages it had added, up to page a. */
    method Undo(d: nat, oldsz: nat, newsz: nat, ghost a: nat, ghost m0: seq<Page>, ghost own: Pages, ghost own1: Pages)
      returns (ghost own': Pages)
      requires Good(d, own1) && oldsz <= newsz < 4096 * KPAGE && |m0| == NPHYS && d < NPHYS
      requires PagesUp(oldsz) <= a && 4096 * a < newsz && Grew(m0, mem, d, PagesUp(oldsz), a)
      requires Extends(own, own1) && NewPages(own, own1, PagesUp(oldsz), a)
      requires Vacant(m0, d, PagesUp(oldsz), PagesUp(newsz)) ==>
        forall f :: f in own && own[f].User? ==> !(PagesUp(oldsz) <= Vpn(own[f].i, own[f].j) < PagesUp(newsz))
      modifies this
      ensures Good(d, own') && |mem| == NPHYS
      ensures own'.Keys + FreeSet() == own1.Keys + old(FreeSet()) && own'.Keys <= own1.Keys
      ensures Vacant(m0, d, PagesUp(oldsz), PagesUp(newsz)) ==> Restored(m0, mem, d) && Extends(own, own')
      ensures Vacant(m0, d, PagesUp(oldsz), PagesUp(newsz)) ==>
        forall f :: f in own && own[f].User? ==> mem[f] == old(mem)[f]
      ensures forall f :: 0 <= f < NPHYS && f !in own1 ==> mem[f] == old(mem)[f]
    {
      hide Pte, NextOf, Entry, Space, Listed, Unmapped, Cut, Grew, Restored, Vacant;
      var sz;
      ghost var m1 := mem;
      CutKeys(own1, PagesUp(oldsz), PagesUp(newsz));
      CutHas(own1, PagesUp(oldsz), PagesUp(newsz));
      SpaceFacts(mem, kend, d, own1);
      sz, own' := DeallocUvm(d, newsz, oldsz, own1);
      SpaceFacts(mem, kend, d, own');
      if Vacant(m0, d, PagesUp(oldsz), PagesUp(newsz)) {
        Undone(m0, m1, mem, d, PagesUp(oldsz), a, PagesUp(newsz));
      }
    }

    /**
      copyuvm: the child's user pages are copies, in pages of its own, of the parent's below
      sz, with the same flags; the parent's pages are untouched.  On failure (0) the free
      pages are exactly those of before.  A missing parent page makes it panic.
     */
    method CopyUvm(d: nat, sz: nat, ghost own: Pages) returns (c: nat, panic: bool, ghost cown: Pages)
      requires Good(d, own) && 0x100 < data < NPHYS && sz <= 4096 * KPAGE
      modifies this
      ensures c != 0 && !panic ==> AllPresent(old(mem), d, PagesUp(sz))
      ensures AllPresent(old(mem), d, PagesUp(sz)) ==> (c != 0 <==> CopyNeeds(sz) <= |old(free)|)
      ensures panic ==> c != 0 && !AllPresent(old(mem), d, PagesUp(sz))
      ensures Good(d, own) && |old(mem)| == |mem| && forall f :: f in own ==> mem[f] == old(mem)[f]
      ensures forall f :: 0 <= f < NPHYS && f !in old(FreeSet()) ==> f < |mem| && mem[f] == old(mem)[f]
      ensures c == 0 ==> FreeSet() == old(FreeSet())
      ensures c != 0 ==> Good(c, cown) && cown.Keys !! own.Keys && cown.Keys + FreeSet() == old(FreeSet())
      ensures c != 0 && !panic ==> Copied(old(mem), mem, data, d, c, PagesUp(sz))
    {
      hide Pte, NextOf, Entry, Space, Listed, MappedRun, Copied, KernelEntry;
      hide AllPresent, SamePtes, TabsMade, Missing, TabEnd, HasTab, CopyNeeds, Bare;
      ghost var m0 := mem;
      CopyAtLeast(sz);
      SpaceFacts(mem, kend, d, own);
      panic := false;
      c, cown := SetupKvm();
      if c == 0 {
        ParentKept(m0, d, own, old(FreeSet()));
        return;
      }
      SpaceFacts(mem, kend, c, cown);
      ghost var ms, fk := mem, |free|;
      TabsStart(ms, c, 0, fk);
      CopiedNone(m0, mem, data, d, c);
      PresentNone(m0, d);
      var k := 0;
      while 4096 * k < sz
        invariant k <= PagesUp(sz) && |mem| == NPHYS && Good(c, cown) && Copied(m0, mem, data, d, c, k)
          && AllPresent(m0, d, k)
        invariant k <= fk && TabsMade(ms, mem, c, 0, k, fk - k, |free|)
        invariant cown.Keys + FreeSet() == old(FreeSet())
        invariant forall f :: 0 <= f < NPHYS && f !in old(FreeSet()) ==> mem[f] == m0[f]
        decreases sz - 4096 * k
      {
        ParentKept(m0, d, own, old(FreeSet()));
        VpnSplit(k);
        TableInRange(mem, kend, d, own, k / 1024);
        if !HasTab(mem, d, k / 1024) || !Present(mem[Tab(mem, d, k / 1024)][k % 1024]) {
          ParentMissing(m0, mem, d, PagesUp(sz), k);
          return c, true, cown;
        }
        ParentPte(m0, mem, kend, d, own, k);
        var e := mem[Tab(mem, d, k / 1024)][k % 1024];
        var ok;
        ok, cown := CopyOne(c, k, e, m0, d, ms, fk - k, cown);
        if !ok {
          CopyStuck(ms, c, k, sz, fk);
          FreeVm(c, cown);
          ParentKept(m0, d, own, old(FreeSet()));
          return 0, false, map[];
        }
        PresentMore(m0, d, k);
        k := k + 1;
      }
      CopyPaid(ms, mem, c, sz, k, fk, |free|);
      ParentKept(m0, d, own, old(FreeSet()));
    }

    /** One pass of copyuvm: a page of its own, a copy of what e maps, becomes c's page k. */
    method CopyOne(c: nat, k: nat, e: Word, ghost m0: seq<Page>, ghost d: nat, ghost ms: seq<Page>, ghost f0: nat,
                   ghost own: Pages)
      returns (ok: bool, ghost own': Pages)
      requires Good(c, own) && k < KPAGE && Present(e) && Frame(e) < |m0| && Frame(e) < |mem|
      requires Copied(m0, mem, data, d, c, k) && e == Pte(m0, d, k / 1024, k % 1024) && mem[Frame(e)] == m0[Frame(e)]
      requires TabsMade(ms, mem, c, 0, k, f0, |free|)
      modifies this
      ensures ok ==> f0 >= 1 && TabsMade(ms, mem, c, 0, k + 1, f0 - 1, |free|)
      ensures c < |ms| && TabEnd(0, k + 1) <= NENTRIES && (!ok ==> 1 + Missing(ms, c, 0, TabEnd(0, k + 1)) > f0)
      ensures Good(c, own') && |mem| == |old(mem)| == NPHYS && own'.Keys + FreeSet() == own.Keys + old(FreeSet())
      ensures ok ==> Copied(m0, mem, data, d, c, k + 1)
      ensures forall f :: 0 <= f < NPHYS && f !in own && f !in old(FreeSet()) ==> mem[f] == old(mem)[f]
    {
      hide Pte, NextOf, Entry, Space, Listed, MappedRun, Copied, KernelEntry;
      hide SamePtes, Vacant, Taken, TabsMade, Tabbed, Missing, TabEnd;
      ghost var m1, f1 := mem, |free|;
      own' := own;
      SpaceFacts(mem, kend, c, own);
      PageStep(ms, m1, c, 0, k, f0, f1);
      var u := FilledPage(c, mem[Frame(e)], own);
      if u == 0 {
        return false, own';
      }
      CopiedFrame(m0, m1, mem, kend, data, d, c, own, k, u);
      CopiedAhead(m0, mem, data, d, c, k);
      ghost var m2 := mem;
      SameTabs(m1, m2, c, k / 1024);
      NotTaken(m2, c, k);
      var panic;
      ok, panic, own' := MapUser(c, k, u, Flags(e), own);
      SpaceFacts(mem, kend, c, own');
      if !ok {
        FreeOther(c, u, own');
        return false, own';
      }
      PageMore(ms, m1, m2, mem, c, 0, k, f0, f1, |free|);
      CopiedStep(m0, m2, mem, kend, data, d, c, own, k, u, e);
    }

    /** Pages that were not free when copyuvm started are as they were, so the parent is. */
    lemma ParentKept(m0: seq<Page>, d: nat, own: Pages, free0: set<nat>)
      requires Valid() && |m0| == |mem| == NPHYS && Space(m0, kend, d, own) && own.Keys !! free0 && FreeSet() <= free0
      requires forall f :: 0 <= f < NPHYS && f !in free0 ==> mem[f] == m0[f]
      ensures Good(d, own) && SamePtes(m0, mem, d) && forall f :: f in own ==> mem[f] == m0[f]
    {
      hide Pte, Listed, Space, SamePtes;
      SpaceFacts(m0, kend, d, own);
      SpaceFrame(m0, mem, kend, d, own);
    }
  }

  ghost predicate AllPresent(mem: seq<Page>, d: nat, n: nat) {
    && d < |mem|
    && forall i, j :: 0 <= i < NENTRIES && 0 <= j < NENTRIES && Vpn(i, j) < n ==> Present(Pte(mem, d, i, j))
  }

  /** Entry e of mem maps a copy of what e0 maps in m0, with the same flags. */
  predicate CopyOf(m0: seq<Page>, mem: seq<Page>, e0: Word, e: Word) {
    Present(e) && Flags(e) == Flags(e0) && Frame(e0) < |m0| && Frame(e) < |mem| && mem[Frame(e)] == m0[Frame(e0)]
  }

  /** c's pages below n are copies of d's in m0; above that there is only the kernel. */
  ghost predicate Copied(m0: seq<Page>, mem: seq<Page>, data: nat, d: nat, c: nat, n: nat) {
    && d < |m0| == |mem| && c < |mem| && 0x100 < data < NPHYS
    && forall i, j :: 0 <= i < NENTRIES && 0 <= j < NENTRIES ==>
         if Vpn(i, j) < n then CopyOf(m0, mem, Pte(m0, d, i, j), Pte(mem, c, i, j))
           else KernelEntry(data, Vpn(i, j), Pte(mem, c, i, j))
  }

  lemma CopiedNone(m0: seq<Page>, mem: seq<Page>, data: nat, d: nat, c: nat)
    requires d < |m0| == |mem| && c < |mem| && 0x100 < data < NPHYS
    requires forall i, j :: 0 <= i < NENTRIES && 0 <= j < NENTRIES ==>
      KernelEntry(data, Vpn(i, j), Pte(mem, c, i, j))
    ensures Copied(m0, mem, data, d, c, 0)
  {
    hide Pte, KernelEntry;
  }

  lemma PresentNone(mem: seq<Page>, d: nat)
    requires d < |mem|
    ensures AllPresent(mem, d, 0)
  {
    hide Pte;
  }

  lemma PresentMore(mem: seq<Page>, d: nat, k: nat)
    requires AllPresent(mem, d, k) && k < NPAGES && Present(Pte(mem, d, k / 1024, k % 1024))
    ensures AllPresent(mem, d, k + 1)
  {
    hide Pte;
    forall i, j | 0 <= i < NENTRIES && 0 <= j < NENTRIES && Vpn(i, j) < k + 1
      ensures Present(Pte(mem, d, i, j))
    {
      if Vpn(i, j) == k {
        assert i == k / 1024 && j == k % 1024;
      }
    }
  }

  lemma ParentMissing(m0: seq<Page>, mem: seq<Page>, d: nat, n: nat, k: nat)
    requires SamePtes(m0, mem, d) && k < n && k < NPAGES
    requires !HasTab(mem, d, k / 1024) || !Present(mem[Tab(mem, d, k / 1024)][k % 1024])
    ensures !AllPresent(m0, d, n)
  {
    VpnSplit(k);
    var i, j := k / 1024, k % 1024;
    assert Pte(mem, d, i, j) == Pte(m0, d, i, j);
    assert Vpn(i, j) < n && !Present(Pte(m0, d, i, j));
  }

  lemma ParentPte(m0: seq<Page>, mem: seq<Page>, kend: nat, d: nat, own: Pages, k: nat)
    requires Space(mem, kend, d, own) && SamePtes(m0, mem, d) && k < KPAGE
    requires forall f :: f in own ==> f < |m0| && mem[f] == m0[f]
    requires HasTab(mem, d, k / 1024) && Present(mem[Tab(mem, d, k / 1024)][k % 1024])
    ensures var e := mem[Tab(mem, d, k / 1024)][k % 1024];
      e == Pte(m0, d, k / 1024, k % 1024) && Frame(e) < NPHYS && mem[Frame(e)] == m0[Frame(e)]
  {
    VpnSplit(k);
    var i, j := k / 1024, k % 1024;
    assert Pte(mem, d, i, j) == Pte(m0, d, i, j);
    UserOwned(mem, kend, d, own, i, j);
  }

  /** c's copied pages belong to its space. */
  lemma CopiedOwned(m0: seq<Page>, mem: seq<Page>, kend: nat, data: nat, d: nat, c: nat, own: Pages, n: nat)
    requires Space(mem, kend, c, own) && Copied(m0, mem, data, d, c, n) && n <= KPAGE
    ensures forall i, j :: 0 <= i < NENTRIES && 0 <= j < NENTRIES && Vpn(i, j) < n ==>
      Frame(Pte(mem, c, i, j)) in own && own[Frame(Pte(mem, c, i, j))].User?
  {
    hide Pte, KernelEntry;
    forall i, j | 0 <= i < NENTRIES && 0 <= j < NENTRIES && Vpn(i, j) < n
      ensures Frame(Pte(mem, c, i, j)) in own && own[Frame(Pte(mem, c, i, j))].User?
    {
      assert i < KDIR;
      UserOwned(mem, kend, c, own, i, j);
    }
  }

  lemma CopiedFrame(m0: seq<Page>, m1: seq<Page>, m2: seq<Page>, kend: nat, data: nat, d: nat, c: nat, own: Pages,
                    n: nat, u: nat)
    requires Space(m1, kend, c, own) && Copied(m0, m1, data, d, c, n) && n <= KPAGE
    requires SamePtes(m1, m2, c) && u < |m1| && u !in own && m2 == m1[u := m2[u]]
    ensures Copied(m0, m2, data, d, c, n)
  {
    hide Pte, KernelEntry, Space;
    CopiedOwned(m0, m1, kend, data, d, c, own, n);
  }

  lemma CopiedAhead(m0: seq<Page>, mem: seq<Page>, data: nat, d: nat, c: nat, n: nat)
    requires Copied(m0, mem, data, d, c, n) && n < KPAGE
    ensures Vacant(mem, c, n, n + 1)
  {
    hide Pte;
  }

  lemma CopiedStep(m0: seq<Page>, m1: seq<Page>, m2: seq<Page>, kend: nat, data: nat, d: nat, c: nat, own: Pages,
                   n: nat, u: nat, e: Word)
    requires Space(m1, kend, c, own) && Copied(m0, m1, data, d, c, n) && n < KPAGE && Present(e) && Frame(e) < |m0|
    requires e == Pte(m0, d, n / 1024, n % 1024) && u < |m1| == |m2| && m1[u] == m0[Frame(e)] == m2[u]
    requires MappedRun(m1, m2, c, n, 1, u, Flags(e)) && forall f :: f in own && own[f].User? ==> m2[f] == m1[f]
    ensures Copied(m0, m2, data, d, c, n + 1)
  {
    hide Pte, KernelEntry, Space, Entry;
    CopiedOwned(m0, m1, kend, data, d, c, own, n);
  }

  /** Pages lo..hi-1 are new, zeroed, writable user pages; the other entries are as before. */
  ghost predicate Grew(mem: seq<Page>, mem': seq<Page>, d: nat, lo: nat, hi: nat) {
    && d < |mem| == |mem'|
    && forall i, j :: 0 <= i < NENTRIES && 0 <= j < NENTRIES ==>
         if lo <= Vpn(i, j) < hi then NewPte(mem', Pte(mem', d, i, j)) else Pte(mem', d, i, j) == Pte(mem, d, i, j)
  }

  /** Page v is mapped. */
  ghost predicate Taken(mem: seq<Page>, d: nat, v: nat) {
    d < |mem| && v < NPAGES && Present(Pte(mem, d, v / 1024, v % 1024))
  }

  /** None of the pages lo..hi-1 is mapped. */
  ghost predicate Vacant(mem: seq<Page>, d: nat, lo: nat, hi: nat) {
    && d < |mem|
    && forall i, j :: 0 <= i < NENTRIES && 0 <= j < NENTRIES && lo <= Vpn(i, j) < hi ==> !Present(Pte(mem, d, i, j))
  }

  /** The tables for k pages from `first` on have been made of free pages, which went from f0 to f. */
  ghost predicate TabsMade(m0: seq<Page>, mem: seq<Page>, d: nat, first: nat, k: nat, f0: nat, f: nat) {
    && TabEnd(first, k) <= NENTRIES && Tabbed(m0, mem, d, first / 1024, TabEnd(first, k))
    && f0 == f + Missing(m0, d, first / 1024, TabEnd(first, k))
  }

  lemma TabsNone(mem: seq<Page>, d: nat, first: nat, n: nat, f: nat)
    requires d < |mem| && first + n <= NPAGES && n > 0
    ensures TabsMade(mem, mem, d, first, 0, f, f) && TabEnd(first, n) <= NENTRIES
  {
    TabbedSame(mem, mem, d, first / 1024);
  }

  lemma {:induction false} TabsMore(m0: seq<Page>, m1: seq<Page>, m2: seq<Page>, d: nat, first: nat, k: nat, f0: nat,
                                    f1: nat, f2: nat)
    requires TabsMade(m0, m1, d, first, k, f0, f1) && first + k < NPAGES
    requires var i := (first + k) / 1024;
      i < NENTRIES && d < |m1| && Tabbed(m1, m2, d, i, i + 1) && f1 == f2 + Missing(m1, d, i, i + 1)
    ensures TabsMade(m0, m2, d, first, k + 1, f0, f2)
  {
    hide Tabbed, Missing, TabEnd;
    TabStep(first, k);
    var i := (first + k) / 1024;
    MissingMore(m0, m1, d, first / 1024, i, TabEnd(first, k), i + 1);
    TabbedMore(m0, m1, m2, d, first / 1024, i, TabEnd(first, k), i + 1);
  }

  /** If there is no page for the next table, the whole run needs more pages than there were. */
  lemma {:induction false} TabsStuck(m0: seq<Page>, m1: seq<Page>, d: nat, first: nat, k: nat, n: nat, f0: nat, f1: nat)
    requires TabsMade(m0, m1, d, first, k, f0, f1) && k < n && first + n <= NPAGES && d < |m0| == |m1|
    requires (first + k) / 1024 < NENTRIES && Missing(m1, d, (first + k) / 1024, (first + k) / 1024 + 1) > f1
    ensures TabEnd(first, n) <= NENTRIES && Missing(m0, d, first / 1024, TabEnd(first, n)) > f0
  {
    hide Tabbed, Missing;
    TabStep(first, k);
    var i := (first + k) / 1024;
    MissingMore(m0, m1, d, first / 1024, i, TabEnd(first, k), i + 1);
    assert i + 1 <= TabEnd(first, n) <= NENTRIES;
    MissingSplit(m0, d, first / 1024, i + 1, TabEnd(first, n));
  }

  lemma TabsStart(mem: seq<Page>, d: nat, first: nat, f: nat)
    requires d < |mem| && first < NPAGES
    ensures TabsMade(mem, mem, d, first, 0, f, f)
  {
    TabbedSame(mem, mem, d, first / 1024);
  }

  /** What the next page and its table add, and that there is no doing without. */
  lemma PageStep(m0: seq<Page>, m1: seq<Page>, d: nat, lo: nat, a: nat, f0: nat, f1: nat)
    requires lo <= a < KPAGE && TabsMade(m0, m1, d, lo, a - lo, f0, f1)
    ensures d < |m0| == |m1| && TabEnd(lo, a + 1 - lo) <= NENTRIES && a / 1024 < NENTRIES
    ensures Missing(m0, d, lo / 1024, TabEnd(lo, a + 1 - lo)) + f1 == f0 + Missing(m1, d, a / 1024, a / 1024 + 1)
  {
    hide Tabbed, Missing, TabEnd;
    TabStep(lo, a - lo);
    MissingMore(m0, m1, d, lo / 1024, a / 1024, TabEnd(lo, a - lo), a / 1024 + 1);
    TabbedSize(m0, m1, d, lo / 1024, TabEnd(lo, a - lo));
  }

  lemma TabbedSize(m0: seq<Page>, m1: seq<Page>, d: nat, lo: nat, hi: nat)
    requires Tabbed(m0, m1, d, lo, hi)
    ensures d < |m0| == |m1|
  {
  }

  lemma {:induction false} SameTabs(m1: seq<Page>, m2: seq<Page>, d: nat, i: nat)
    requires d < |m1| == |m2| && m2[d] == m1[d] && i < NENTRIES
    ensures Missing(m2, d, i, i + 1) == Missing(m1, d, i, i + 1) && Tabbed(m1, m2, d, i, i)
  {
    TabbedSame(m1, m2, d, i);
    MissingOne(m1, d, i);
    MissingOne(m2, d, i);
  }

  lemma {:induction false} PageMore(m0: seq<Page>, m1: seq<Page>, m2: seq<Page>, m3: seq<Page>, d: nat, lo: nat,
                                    a: nat, f0: nat, f1: nat,
                 f3: nat)
    requires lo <= a < KPAGE && TabsMade(m0, m1, d, lo, a - lo, f0, f1) && f1 >= 1 && a / 1024 < NENTRIES
    requires Tabbed(m1, m2, d, a / 1024, a / 1024) && Tabbed(m2, m3, d, a / 1024, a / 1024 + 1) && d < |m1| && d < |m2|
    requires Missing(m2, d, a / 1024, a / 1024 + 1) == Missing(m1, d, a / 1024, a / 1024 + 1)
    requires f1 - 1 == f3 + Missing(m2, d, a / 1024, a / 1024 + 1)
    ensures f0 >= 1 && TabsMade(m0, m3, d, lo, a + 1 - lo, f0 - 1, f3)
  {
    hide Tabbed, Missing, TabEnd;
    var i := a / 1024;
    TabStep(lo, a - lo);
    TabbedMore(m1, m2, m3, d, i, i, i, i + 1);
    TabbedMore(m0, m1, m3, d, lo / 1024, i, TabEnd(lo, a - lo), i + 1);
    MissingMore(m0, m1, d, lo / 1024, i, TabEnd(lo, a - lo), i + 1);
  }

  lemma NotTaken(mem: seq<Page>, d: nat, v: nat)
    requires Vacant(mem, d, v, v + 1)
    ensures !Taken(mem, d, v)
  {
    hide Pte;
    if v < NPAGES {
      VpnSplit(v);
    }
  }

  /** The pages it takes to map lo..hi-1: those pages and the missing page tables. */
  ghost function GrowNeeds(mem: seq<Page>, d: nat, lo: nat, hi: nat): nat
    requires d < |mem| && lo <= hi <= KPAGE
  {
    hi - lo + if lo == hi then 0 else Missing(mem, d, lo / 1024, TabEnd(lo, hi - lo))
  }

  lemma {:induction false} GrowStuck(m0: seq<Page>, d: nat, lo: nat, a: nat, hi: nat, f0: nat)
    requires d < |m0| && lo <= a < hi <= KPAGE && TabEnd(lo, a + 1 - lo) <= NENTRIES
    requires a + 1 - lo + Missing(m0, d, lo / 1024, TabEnd(lo, a + 1 - lo)) > f0
    ensures GrowNeeds(m0, d, lo, hi) > f0
  {
    hide Missing;
    MissingSplit(m0, d, lo / 1024, TabEnd(lo, a + 1 - lo), TabEnd(lo, hi - lo));
  }

  lemma GrowPaid(m0: seq<Page>, mem: seq<Page>, d: nat, lo: nat, hi: nat, f0: nat, f: nat)
    requires lo <= hi <= KPAGE && hi - lo <= f0 && TabsMade(m0, mem, d, lo, hi - lo, f0 - (hi - lo), f)
    ensures d < |m0| && GrowNeeds(m0, d, lo, hi) <= f0
  {
    hide Missing;
  }

  // Pages of an address space with the kernel's mappings only: the directory and 64 tables.
  const KSPACE: nat := 65

  /** The pages copyuvm takes: a kernel space, the copies and their page tables. */
  function CopyNeeds(sz: nat): nat {
    KSPACE + PagesUp(sz) + TabEnd(0, PagesUp(sz))
  }

  lemma CopyAtLeast(sz: nat)
    ensures CopyNeeds(sz) >= KSPACE
  {
  }

  lemma {:induction false} CopyStuck(ms: seq<Page>, c: nat, k: nat, sz: nat, fk: nat)
    requires c < |ms| && sz <= 4096 * KPAGE && k < PagesUp(sz) && k <= fk && Bare(ms, c)
    requires TabEnd(0, k + 1) <= NENTRIES && 1 + Missing(ms, c, 0, TabEnd(0, k + 1)) > fk - k
    ensures CopyNeeds(sz) > fk + KSPACE
  {
    hide HasTab, Missing;
    MissingAll(ms, c, 0, TabEnd(0, k + 1));
  }

  lemma CopyPaid(ms: seq<Page>, mem: seq<Page>, c: nat, sz: nat, k: nat, fk: nat, f: nat)
    requires sz <= 4096 * KPAGE && k == PagesUp(sz) <= fk && TabsMade(ms, mem, c, 0, k, fk - k, f) && c < |ms|
    requires Bare(ms, c)
    ensures CopyNeeds(sz) <= fk + KSPACE
  {
    hide HasTab, Missing;
    MissingAll(ms, c, 0, TabEnd(0, k));
  }

  /** One past the last directory entry with a table below the devices, once k kernel ranges are mapped. */
  function Top(data: nat, k: nat): nat {
    if k == 0 then 512 else if k == 1 then 513 else if k == 2 then (KPAGE + data - 1) / 1024 + 1 else 568
  }

  ghost predicate KernTabs(mem: seq<Page>, d: nat, data: nat, k: nat) {
    && d < |mem|
    && forall i :: 0 <= i < NENTRIES ==> (HasTab(mem, d, i) <==> 512 <= i < Top(data, k) || (k == 4 && 1016 <= i))
  }

  /** The tables that k kernel ranges need. */
  function KCount(data: nat, k: nat): int {
    Top(data, k) - 512 + if k == 4 then 8 else 0
  }

  lemma KCounts(data: nat)
    requires 0x100 < data < NPHYS
    ensures KCount(data, 0) == 0 && KCount(data, 4) == 64 && forall k :: 0 <= k <= 4 ==> KCount(data, k) <= 64
  {
  }

  lemma KernNone(mem: seq<Page>, d: nat, data: nat)
    requires d < |mem| && mem[d] == ZeroPage()
    ensures KernTabs(mem, d, data, 0)
  {
  }

  lemma {:induction false} KernMissing(mem: seq<Page>, d: nat, data: nat, k: nat)
    requires KernTabs(mem, d, data, k) && 0x100 < data < NPHYS && k < 4
    ensures var r := Kmap(data, k);
      && TabEnd(r.virt, r.n) <= NENTRIES
        && Missing(mem, d, r.virt / 1024, TabEnd(r.virt, r.n)) == KCount(data, k + 1) - KCount(data, k)
  {
    hide HasTab, Missing;
    var r := Kmap(data, k);
    var lo, hi := r.virt / 1024, TabEnd(r.virt, r.n);
    var mid := if k == 3 then 1016 else Top(data, k);
    assert lo <= mid <= hi <= NENTRIES;
    MissingSplit(mem, d, lo, mid, hi);
    MissingNone(mem, d, lo, mid);
    MissingAll(mem, d, mid, hi);
  }

  lemma KernMore(mem: seq<Page>, mem': seq<Page>, d: nat, data: nat, k: nat, f0: nat, f: nat)
    requires KernTabs(mem, d, data, k) && 0x100 < data < NPHYS && k < 4
    requires var r := Kmap(data, k); TabsMade(mem, mem', d, r.virt, r.n, f0, f)
    ensures KernTabs(mem', d, data, k + 1) && f0 == f + KCount(data, k + 1) - KCount(data, k)
  {
    KernMissing(mem, d, data, k);
    hide HasTab, Missing;
  }

  lemma NoUserTabs(mem: seq<Page>, d: nat, data: nat)
    requires KernTabs(mem, d, data, 4)
    ensures Bare(mem, d)
  {
    hide HasTab;
  }

  /** No page table for user memory. */
  ghost predicate Bare(mem: seq<Page>, d: nat) {
    d < |mem| && forall i :: 0 <= i < KDIR ==> !HasTab(mem, d, i)
  }

  lemma VacantNone(mem: seq<Page>, d: nat, lo: nat)
    requires d < |mem|
    ensures Vacant(mem, d, lo, lo)
  {
    hide Pte;
  }

  lemma VacantMore(mem: seq<Page>, d: nat, lo: nat, v: nat, a: nat, b: nat)
    requires Vacant(mem, d, lo, v) && a < NENTRIES && b < NENTRIES && Vpn(a, b) == v && !Present(Pte(mem, d, a, b))
    ensures Vacant(mem, d, lo, v + 1)
  {
    hide Pte;
  }

  predicate NewPte(mem: seq<Page>, e: Word) {
    Present(e) && Flags(e) == 7 && Frame(e) < |mem| && mem[Frame(e)] == ZeroPage()
  }

  /** The present entries are exactly those of before. */
  ghost predicate Restored(mem: seq<Page>, mem': seq<Page>, d: nat) {
    && d < |mem| == |mem'|
    && forall i, j ::
         0 <= i < NENTRIES && 0 <= j < NENTRIES && (Present(Pte(mem, d, i, j)) || Present(Pte(mem', d, i, j))) ==>
           Pte(mem', d, i, j) == Pte(mem, d, i, j)
  }

  /** The pages added to a space are page tables and user pages lo..hi-1. */
  ghost predicate NewPages(own: Pages, own': Pages, lo: nat, hi: nat) {
    forall f :: f in own' && f !in own ==> own'[f].Table? || (own'[f].User? && lo <= Vpn(own'[f].i, own'[f].j) < hi)
  }

  lemma RestoredRefl(mem: seq<Page>, d: nat)
    requires d < |mem|
    ensures Restored(mem, mem, d)
  {
    hide Pte;
  }

  lemma RestoredFrame(m0: seq<Page>, m1: seq<Page>, m2: seq<Page>, d: nat)
    requires Restored(m0, m1, d) && SamePtes(m1, m2, d)
    ensures Restored(m0, m2, d)
  {
    hide Pte;
  }

  lemma GrewNone(mem: seq<Page>, d: nat, lo: nat)
    requires d < |mem|
    ensures Grew(mem, mem, d, lo, lo)
  {
    hide Pte;
  }

  /** The next page is mapped exactly if it was before. */
  lemma GrewAhead(m0: seq<Page>, mem: seq<Page>, d: nat, lo: nat, a: nat)
    requires Grew(m0, mem, d, lo, a) && lo <= a < NPAGES && Vacant(m0, d, lo, a)
    ensures Taken(mem, d, a) ==> Taken(m0, d, a)
    ensures Vacant(mem, d, a, a + 1) ==> Vacant(m0, d, lo, a + 1)
  {
    hide Pte;
    VpnSplit(a);
    assert Pte(mem, d, a / 1024, a % 1024) == Pte(m0, d, a / 1024, a % 1024);
    if Vacant(mem, d, a, a + 1) {
      assert !Present(Pte(mem, d, a / 1024, a % 1024));
      VacantMore(m0, d, lo, a, a / 1024, a % 1024);
    }
  }

  lemma NotVacant(mem: seq<Page>, d: nat, lo: nat, hi: nat, v: nat)
    requires Taken(mem, d, v) && lo <= v < hi
    ensures !Vacant(mem, d, lo, hi)
  {
    hide Pte;
    VpnSplit(v);
    assert Present(Pte(mem, d, v / 1024, v % 1024));
  }

  lemma RestoredAfter(m0: seq<Page>, m1: seq<Page>, m2: seq<Page>, d: nat)
    requires SamePtes(m1, m2, d)
    ensures Restored(m0, m1, d) ==> Restored(m0, m2, d)
  {
    if Restored(m0, m1, d) {
      RestoredFrame(m0, m1, m2, d);
    }
  }

  lemma NoUsersIn(mem: seq<Page>, kend: nat, d: nat, own: Pages, lo: nat, hi: nat)
    requires Space(mem, kend, d, own)
    requires Vacant(mem, d, lo, hi)
    ensures forall f :: f in own && own[f].User? ==> !(lo <= Vpn(own[f].i, own[f].j) < hi)
  {
    hide Pte;
    forall f | f in own && own[f].User?
      ensures !(lo <= Vpn(own[f].i, own[f].j) < hi)
    {
      assert RoleOk(mem, d, f, own[f]);
    }
  }

  /** Filling a page outside the space leaves the new pages alone. */
  lemma GrewFrame(m0: seq<Page>, m1: seq<Page>, m2: seq<Page>, kend: nat, d: nat, own: Pages, lo: nat, a: nat, u: nat)
    requires Space(m1, kend, d, own) && Grew(m0, m1, d, lo, a) && u !in own && u < NPHYS && m2 == m1[u := ZeroPage()]
      && SamePtes(m1, m2, d)
    ensures Grew(m0, m2, d, lo, a)
  {
    hide Pte, ZeroPage;
  }

  lemma GrewSame(m0: seq<Page>, m2: seq<Page>, m3: seq<Page>, kend: nat, d: nat, own: Pages, lo: nat, a: nat, u: nat)
    requires Space(m2, kend, d, own) && Grew(m0, m2, d, lo, a) && MappedRun(m2, m3, d, a, 0, u, PTE_W + PTE_U)
      && a <= KPAGE
    requires forall f :: f in own && own[f].User? ==> m3[f] == m2[f]
    ensures Grew(m0, m3, d, lo, a)
  {
    hide Pte, ZeroPage, Entry;
    GrewKept(m0, m2, m3, kend, d, own, lo, a);
  }

  lemma GrewStep(m0: seq<Page>, m2: seq<Page>, m3: seq<Page>, kend: nat, d: nat, own: Pages, lo: nat, a: nat, u: nat)
    requires Space(m2, kend, d, own) && Grew(m0, m2, d, lo, a) && MappedRun(m2, m3, d, a, 1, u, PTE_W + PTE_U)
      && lo <= a < KPAGE
    requires u < NPHYS && m3[u] == ZeroPage()
    requires forall f :: f in own && own[f].User? ==> m3[f] == m2[f]
    ensures Grew(m0, m3, d, lo, a + 1)
  {
    hide Pte, ZeroPage, Entry;
    GrewKept(m0, m2, m3, kend, d, own, lo, a);
  }

  /** The new pages keep their contents while user pages do. */
  lemma GrewKept(m0: seq<Page>, m2: seq<Page>, m3: seq<Page>, kend: nat, d: nat, own: Pages, lo: nat, a: nat)
    requires Space(m2, kend, d, own) && Grew(m0, m2, d, lo, a) && |m3| == |m2| && a <= KPAGE
    requires forall f :: f in own && own[f].User? ==> m3[f] == m2[f]
    ensures forall i, j :: 0 <= i < NENTRIES && 0 <= j < NENTRIES && lo <= Vpn(i, j) < a ==>
      NewPte(m3, Pte(m2, d, i, j))
  {
    hide Pte, ZeroPage;
    forall i, j | 0 <= i < NENTRIES && 0 <= j < NENTRIES && lo <= Vpn(i, j) < a
      ensures NewPte(m3, Pte(m2, d, i, j))
    {
      assert i < KDIR;
      assert own[Frame(Pte(m2, d, i, j))] == User(i, j);
    }
  }

  lemma CutHas(own: Pages, lo: nat, hi: nat)
    ensures forall f :: f in own && !(own[f].User? && lo <= Vpn(own[f].i, own[f].j) < hi) ==> f in Cut(own, lo, hi)
  {
  }

  lemma Undone(m0: seq<Page>, m1: seq<Page>, m2: seq<Page>, d: nat, lo: nat, a: nat, hi: nat)
    requires Grew(m0, m1, d, lo, a) && lo <= a <= hi && Unmapped(m1, m2, d, lo, hi)
    requires Vacant(m0, d, lo, hi)
    ensures Restored(m0, m2, d)
  {
    hide Pte;
  }

  // An entry of kmap[], in pages.
  datatype Krange = Krange(virt: nat, n: nat, frame: nat, perm: nat)

  /** The kernel mappings: I/O space, text, data and memory, devices. */
  function Kmap(data: nat, k: nat): (r: Krange)
    requires 0x100 < data < NPHYS && k < 4
    ensures KPAGE <= r.virt && r.n > 0 && r.virt + r.n <= NPAGES && r.frame + r.n <= NPAGES && r.perm < 4096
  {
    if k == 0 then Krange(KPAGE, 0x100, 0, PTE_W)
    else if k == 1 then Krange(KPAGE + 0x100, data - 0x100, 0x100, 0)
    else if k == 2 then Krange(KPAGE + data, NPHYS - data, data, PTE_W)
    else Krange(0xF_E000, 0x2000, 0xF_E000, PTE_W)
  }

  /** The entry the first k kernel mappings give to virtual page v. */
  function KernelPte(data: nat, k: nat, v: nat): Word
    requires 0x100 < data < NPHYS && k <= 4
  {
    if k == 0 then 0 else
      var r := Kmap(data, k - 1);
      if r.virt <= v < r.virt + r.n then Entry(r.frame + v - r.virt, r.perm) else KernelPte(data, k - 1, v)
  }

  lemma {:induction false} Disjoint(data: nat, k: nat)
    requires 0x100 < data < NPHYS && k < 4
    ensures forall v {:trigger KernelPte(data, k, v)} ::
      Kmap(data, k).virt <= v < Kmap(data, k).virt + Kmap(data, k).n ==> KernelPte(data, k, v) == 0
  {
    forall v: nat | Kmap(data, k).virt <= v < Kmap(data, k).virt + Kmap(data, k).n
      ensures KernelPte(data, k, v) == 0
    {
      NothingMapped(data, k, v);
    }
  }

  lemma {:induction false} NothingMapped(data: nat, k: nat, v: nat)
    requires 0x100 < data < NPHYS && k <= 4
    requires forall m :: 0 <= m < k ==> !(Kmap(data, m).virt <= v < Kmap(data, m).virt + Kmap(data, m).n)
    ensures KernelPte(data, k, v) == 0
  {
    if k > 0 {
      NothingMapped(data, k - 1, v);
    }
  }

  lemma {:induction false} KernelStep(m1: seq<Page>, m2: seq<Page>, d: nat, data: nat, k: nat)
    requires 0x100 < data < NPHYS && k < 4 && d < |m1|
    requires forall i, j :: 0 <= i < NENTRIES && 0 <= j < NENTRIES ==> Pte(m1, d, i, j) == KernelPte(data, k, Vpn(i, j))
    requires var r := Kmap(data, k); MappedRun(m1, m2, d, r.virt, r.n, r.frame, r.perm)
    ensures forall i, j :: 0 <= i < NENTRIES && 0 <= j < NENTRIES ==>
      Pte(m2, d, i, j) == KernelPte(data, k + 1, Vpn(i, j))
  {
    hide Pte, Entry, Kmap;
  }

  /**
    What the kernel relies on: physical memory stands at KERNBASE and devices where they are,
    all of it for the kernel only and all but the kernel's text writable; nothing else is mapped.
   */
  predicate KernelEntry(data: nat, v: nat, e: Word) {
    if KPAGE <= v < KPAGE + NPHYS then
      && Present(e) && Frame(e) == v - KPAGE
      && Flags(e) == if KPAGE + 0x100 <= v < KPAGE + data then 1 else 1 + PTE_W
    else if v >= 0xF_E000 then Present(e) && Frame(e) == v && Flags(e) == 1 + PTE_W
    else !Present(e)
  }

  /** That is what the four ranges of kmap add up to. */
  lemma {:induction false} KernelMap(data: nat, v: nat)
    requires 0x100 < data < NPHYS && v < NPAGES
    ensures KernelEntry(data, v, KernelPte(data, 4, v))
  {
    hide Entry;
    assert KernelPte(data, 0, v) == 0;
    assert KernelPte(data, 1, v) == if KPAGE <= v < KPAGE + 0x100 then Entry(v - KPAGE, PTE_W) else 0;
    assert KernelPte(data, 2, v) ==
      if KPAGE + 0x100 <= v < KPAGE + data then Entry(v - KPAGE, 0) else KernelPte(data, 1, v);
    assert KernelPte(data, 3, v) ==
      if KPAGE + data <= v < KPAGE + NPHYS then Entry(v - KPAGE, PTE_W) else KernelPte(data, 2, v);
  }

  lemma KernelEntries(mem: seq<Page>, d: nat, data: nat)
    requires 0x100 < data < NPHYS && d < |mem|
    requires forall i, j :: 0 <= i < NENTRIES && 0 <= j < NENTRIES ==>
      Pte(mem, d, i, j) == KernelPte(data, 4, Vpn(i, j))
    ensures forall i, j :: 0 <= i < NENTRIES && 0 <= j < NENTRIES ==> KernelEntry(data, Vpn(i, j), Pte(mem, d, i, j))
  {
    hide Pte, KernelPte, KernelEntry;
    forall i, j | 0 <= i < NENTRIES && 0 <= j < NENTRIES
      ensures KernelEntry(data, Vpn(i, j), Pte(mem, d, i, j))
    {
      KernelMap(data, Vpn(i, j));
    }
  }

  lemma NewSpace(mem: seq<Page>, kend: nat, d: nat, data: nat)
    requires |mem| == NPHYS && 0 < kend <= d < NPHYS && mem[d] == ZeroPage() && 0x100 < data < NPHYS
    ensures Space(mem, kend, d, map[d := Dir])
    ensures forall i, j :: 0 <= i < NENTRIES && 0 <= j < NENTRIES ==> Pte(mem, d, i, j) == KernelPte(data, 0, Vpn(i, j))
  {
    var own: Pages := map[d := Dir];
    assert RoleOk(mem, d, d, own[d]);
  }

  ghost function Tables(own: Pages, k: nat): set<nat> {
    set f | f in own && own[f].Table? && own[f].i < k
  }

  lemma NoTables(own: Pages)
    ensures Tables(own, 0) == {}
  {
  }

  lemma OneTable(mem: seq<Page>, kend: nat, d: nat, own: Pages, k: nat)
    requires Space(mem, kend, d, own) && k < NENTRIES
    ensures Present(mem[d][k]) ==>
      && Tab(mem, d, k) in own && Tab(mem, d, k) != d && Tab(mem, d, k) !in Tables(own, k)
      && Tables(own, k + 1) == Tables(own, k) + {Tab(mem, d, k)}
    ensures !Present(mem[d][k]) ==> Tables(own, k + 1) == Tables(own, k)
  {
    hide Pte;
    forall f | f in own && own[f] == Table(k)
      ensures Present(mem[d][k]) && f == Tab(mem, d, k)
    {
      assert RoleOk(mem, d, f, own[f]);
    }
  }

  lemma AllTables(mem: seq<Page>, kend: nat, d: nat, own: Pages)
    requires Space(mem, kend, d, own) && forall f :: f in own ==> !own[f].User?
    ensures Tables(own, NENTRIES) + {d} == own.Keys && d !in Tables(own, NENTRIES)
  {
    hide Pte;
    forall f | f in own
      ensures f == d || f in Tables(own, NENTRIES)
    {
      assert RoleOk(mem, d, f, own[f]);
    }
  }

  lemma NoUsers(mem: seq<Page>, kend: nat, d: nat, own: Pages)
    requires Space(mem, kend, d, own) && forall f :: f in own ==> !(own[f].User? && Vpn(own[f].i, own[f].j) < KPAGE)
    ensures forall f :: f in own ==> !own[f].User?
  {
    hide Pte;
    forall f | f in own
      ensures !own[f].User?
    {
      assert RoleOk(mem, d, f, own[f]);
    }
  }

  lemma CutKeys(own: Pages, lo: nat, hi: nat)
    ensures Cut(own, lo, hi).Keys <= own.Keys
    ensures forall f :: f in Cut(own, lo, hi) ==>
      Cut(own, lo, hi)[f] == own[f] && !(own[f].User? && lo <= Vpn(own[f].i, own[f].j) < hi)
  {
  }

  function Min(a: nat, b: nat): nat {
    if a < b then a else b
  }

  lemma UserOwned(mem: seq<Page>, kend: nat, d: nat, own: Pages, i: nat, j: nat)
    requires Space(mem, kend, d, own) && i < KDIR && j < NENTRIES && Present(Pte(mem, d, i, j))
    ensures Frame(Pte(mem, d, i, j)) in own && own[Frame(Pte(mem, d, i, j))] == User(i, j)
  {
    hide Pte;
  }

  lemma PteIs(mem: seq<Page>, d: nat, i: nat, j: nat)
    requires d < |mem| && i < NENTRIES && j < NENTRIES
    ensures HasTab(mem, d, i) ==> Pte(mem, d, i, j) == mem[Tab(mem, d, i)][j]
  {
  }

  lemma UnmappedNone(mem: seq<Page>, d: nat, lo: nat, own: Pages)
    requires d < |mem|
    ensures Unmapped(mem, mem, d, lo, lo) && Cut(own, lo, lo) == own
  {
    hide Pte;
  }

  lemma NoTable(mem: seq<Page>, d: nat, a: nat, b: nat)
    requires d < |mem| && a < NPAGES && a <= b <= 1024 * (a / 1024 + 1) && !HasTab(mem, d, a / 1024)
    ensures Vacant(mem, d, a, b)
  {
    forall i, j | 0 <= i < NENTRIES && 0 <= j < NENTRIES && a <= Vpn(i, j) < b
      ensures !Present(Pte(mem, d, i, j))
    {
      assert i == a / 1024;
    }
  }

  lemma NoPage(mem: seq<Page>, d: nat, a: nat, a1: nat, a2: nat)
    requires d < |mem| && a1 < NENTRIES && a2 < NENTRIES && Vpn(a1, a2) == a && !Present(Pte(mem, d, a1, a2))
    ensures Vacant(mem, d, a, a + 1)
  {
    hide Pte;
  }

  /** Pages that are not present can be passed over. */
  lemma Advance(m0: seq<Page>, mem: seq<Page>, kend: nat, d: nat, own: Pages, own': Pages, lo: nat, a: nat, b: nat)
    requires Space(mem, kend, d, own') && Unmapped(m0, mem, d, lo, a) && own' == Cut(own, lo, a) && lo <= a <= b
    requires Vacant(mem, d, a, b)
    ensures Unmapped(m0, mem, d, lo, b) && own' == Cut(own, lo, b)
  {
    hide Pte;
    forall f | f in own'
      ensures !(own'[f].User? && a <= Vpn(own'[f].i, own'[f].j) < b)
    {
      assert RoleOk(mem, d, f, own'[f]);
    }
  }

  lemma UnmapStep(m0: seq<Page>, m1: seq<Page>, m2: seq<Page>, kend: nat, d: nat, own: Pages, own1: Pages,
                  lo: nat, a: nat, i: nat, j: nat)
    requires Space(m1, kend, d, own1) && Unmapped(m0, m1, d, lo, a) && own1 == Cut(own, lo, a) && lo <= a
    requires i < KDIR && j < NENTRIES && Vpn(i, j) == a && Present(Pte(m1, d, i, j)) && OnePte(m1, m2, d, i, j, 0)
    ensures Unmapped(m0, m2, d, lo, a + 1) && own1 - {Frame(Pte(m1, d, i, j))} == Cut(own, lo, a + 1)
  {
    hide Pte;
    var u := Frame(Pte(m1, d, i, j));
    assert own1[u] == User(i, j);
    forall f | f in own1
      ensures own1[f].User? && Vpn(own1[f].i, own1[f].j) == a <==> f == u
    {
      assert RoleOk(m1, d, f, own1[f]);
    }
  }

  /** PGROUNDUP, in pages. */
  function PagesUp(sz: nat): nat {
    (sz + 4095) / 4096
  }

  ghost predicate Extends(own: Pages, own': Pages) {
    own.Keys <= own'.Keys && forall f :: f in own ==> own'[f] == own[f]
  }

  lemma SamePtesAt(mem: seq<Page>, mem': seq<Page>, d: nat, i: nat, j: nat)
    requires d < |mem| && i < NENTRIES && j < NENTRIES && (mem' == mem || SamePtes(mem, mem', d))
    ensures Pte(mem', d, i, j) == Pte(mem, d, i, j)
  {
    hide Pte;
  }

  lemma TableOwned(mem: seq<Page>, kend: nat, d: nat, own: Pages, i: nat)
    requires Space(mem, kend, d, own) && i < NENTRIES && HasTab(mem, d, i)
    ensures Tab(mem, d, i) in own && own[Tab(mem, d, i)] == Table(i)
  {
    hide Pte;
  }

  lemma SamePtesRefl(mem: seq<Page>, d: nat)
    requires d < |mem|
    ensures SamePtes(mem, mem, d)
  {
  }

  lemma SpaceFacts(mem: seq<Page>, kend: nat, d: nat, own: Pages)
    requires Space(mem, kend, d, own)
    ensures |mem| == NPHYS && d < NPHYS && 0 < kend && d in own && own[d] == Dir
      && forall f :: f in own ==> kend <= f < NPHYS
  {
  }

  lemma TableInRange(mem: seq<Page>, kend: nat, d: nat, own: Pages, i: nat)
    requires Space(mem, kend, d, own) && i < NENTRIES
    ensures Present(mem[d][i]) <==> HasTab(mem, d, i)
    ensures HasTab(mem, d, i) ==> Tab(mem, d, i) < |mem|
  {
    hide Pte;
  }
}
