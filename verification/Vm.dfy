/**
  Physical pages (kalloc.c) and two-level page tables (vm.c).  A physical page is its
  frame number; page directories and tables are pages of 32-bit entries.
 */
module Vm {
  import opened Blocks

  const NENTRIES: nat := 1024

  // PHYSTOP and KERNBASE in pages; directory entries below KDIR map user memory.
  const NPHYS: nat := 0xE000
  const KPAGE: nat := 0x8_0000
  const KDIR: nat := 512
  const NPAGES: nat := 0x10_0000

  const PTE_W: nat := 2
  const PTE_U: nat := 4

  type Page = p: seq<Word> | |p| == 1024 witness seq(1024, i => 0)

  predicate Present(e: Word) { e % 2 == 1 }
  function Frame(e: Word): nat { e / 4096 }
  function Flags(e: Word): nat { e % 4096 }

  /** A present entry for a frame, with these permission bits. */
  function Entry(frame: nat, perm: nat): (e: Word)
    requires frame < NPAGES && perm < 4096
    ensures Present(e) && Frame(e) == frame && Flags(e) == if perm % 2 == 1 then perm else perm + 1
  {
    var flags := if perm % 2 == 1 then perm else perm + 1;
    EntryParts(frame, flags);
    4096 * frame + flags
  }

  lemma EntryParts(frame: nat, flags: nat)
    requires flags < 4096
    ensures (4096 * frame + flags) / 4096 == frame && (4096 * frame + flags) % 4096 == flags
    ensures (4096 * frame + flags) % 2 == flags % 2
  {
    assert 4096 * frame + flags == 2 * (2048 * frame) + flags;
  }

  // What a page is used for: the page directory, the page table of directory entry i,
  // or the user page mapped by entry j of table i.
  datatype Role = Dir | Table(i: nat) | User(i: nat, j: nat)

  type Pages = map<nat, Role>

  function Tab(mem: seq<Page>, d: nat, i: nat): nat
    requires d < |mem| && i < NENTRIES
  {
    Frame(mem[d][i])
  }

  predicate HasTab(mem: seq<Page>, d: nat, i: nat)
    requires d < |mem| && i < NENTRIES
  {
    Present(mem[d][i]) && Tab(mem, d, i) < |mem|
  }

  /** The page-table entry for page j of directory entry i; 0 if there is no table. */
  function Pte(mem: seq<Page>, d: nat, i: nat, j: nat): (e: Word)
    requires d < |mem| && i < NENTRIES && j < NENTRIES
  {
    if HasTab(mem, d, i) then mem[Tab(mem, d, i)][j] else 0
  }

  /**
    own says for exactly the pages of this address space what each is used for.  Directory
    entries allow everything, so the page-table entries decide.
   */
  ghost predicate Space(mem: seq<Page>, kend: nat, d: nat, own: Pages) {
    && |mem| == NPHYS && d in own && own[d] == Dir
    && (forall f :: f in own ==> 0 < kend <= f < NPHYS)
    && (forall i :: 0 <= i < NENTRIES && Present(mem[d][i]) ==>
          Tab(mem, d, i) in own && own[Tab(mem, d, i)] == Table(i) && Flags(mem[d][i]) == 7)
    && (forall i, j :: 0 <= i < KDIR && 0 <= j < NENTRIES && Present(Pte(mem, d, i, j)) ==>
          Frame(Pte(mem, d, i, j)) in own && own[Frame(Pte(mem, d, i, j))] == User(i, j))
    && (forall f {:trigger RoleOk(mem, d, f, own[f])} :: f in own ==> RoleOk(mem, d, f, own[f]))
  }

  ghost predicate RoleOk(mem: seq<Page>, d: nat, f: nat, r: Role) {
    && d < |mem|
    && match r
       case Dir => f == d
       case Table(i) => i < NENTRIES && Present(mem[d][i]) && Tab(mem, d, i) == f
       case User(i, j) => i < KDIR && j < NENTRIES && Present(Pte(mem, d, i, j)) && Frame(Pte(mem, d, i, j)) == f
  }

  /** All entries are as before. */
  ghost predicate SamePtes(mem: seq<Page>, mem': seq<Page>, d: nat) {
    && d < |mem| == |mem'|
    && forall i, j :: 0 <= i < NENTRIES && 0 <= j < NENTRIES ==> Pte(mem', d, i, j) == Pte(mem, d, i, j)
  }

  /** All entries but one are as before. */
  ghost predicate OnePte(mem: seq<Page>, mem': seq<Page>, d: nat, a: nat, b: nat, e: Word) {
    && d < |mem| == |mem'|
    && forall i, j :: 0 <= i < NENTRIES && 0 <= j < NENTRIES ==>
         Pte(mem', d, i, j) == if i == a && j == b then e else Pte(mem, d, i, j)
  }

  function ZeroPage(): Page {
    seq(1024, i => 0)
  }

  /** A zeroed page table t for directory entry a. */
  function WithTable(mem: seq<Page>, d: nat, a: nat, t: nat): seq<Page>
    requires d < |mem| && t < |mem| <= NPAGES && a < NENTRIES
  {
    mem[t := ZeroPage()][d := mem[d][a := Entry(t, PTE_W + PTE_U)]]
  }

  /** walkpgdir adding a zeroed page table. */
  lemma AddTable(mem: seq<Page>, kend: nat, d: nat, own: Pages, a: nat, t: nat)
    requires Space(mem, kend, d, own) && a < NENTRIES && !Present(mem[d][a]) && t !in own && 0 < kend <= t < NPHYS
    ensures var mem' := WithTable(mem, d, a, t);
      Space(mem', kend, d, own[t := Table(a)]) && SamePtes(mem, mem', d) && HasTab(mem', d, a) && Tab(mem', d, a) == t
  {
    var mem' := WithTable(mem, d, a, t);
    forall i, j | 0 <= i < NENTRIES && 0 <= j < NENTRIES
      ensures Pte(mem', d, i, j) == Pte(mem, d, i, j)
    {
    }
    var own' := own[t := Table(a)];
    forall f | f in own'
      ensures RoleOk(mem', d, f, own'[f])
    {
      assert f != t ==> RoleOk(mem, d, f, own[f]);
    }
  }

  /** The page tables with entry (a, b) overwritten. */
  function SetPte(mem: seq<Page>, d: nat, a: nat, b: nat, e: Word): (r: seq<Page>)
    requires d < |mem| && a < NENTRIES && b < NENTRIES && HasTab(mem, d, a)
    ensures |r| == |mem|
  {
    mem[Tab(mem, d, a) := mem[Tab(mem, d, a)][b := e]]
  }

  lemma SetPteSets(mem: seq<Page>, kend: nat, d: nat, own: Pages, a: nat, b: nat, e: Word)
    requires Space(mem, kend, d, own) && a < NENTRIES && b < NENTRIES && HasTab(mem, d, a)
    ensures var mem' := SetPte(mem, d, a, b, e);
      OnePte(mem, mem', d, a, b, e) && mem'[d] == mem[d]
  {
    var mem' := SetPte(mem, d, a, b, e);
    var t := Tab(mem, d, a);
    assert t in own && own[t] == Table(a);
    forall i, j | 0 <= i < NENTRIES && 0 <= j < NENTRIES
      ensures Pte(mem', d, i, j) == if i == a && j == b then e else Pte(mem, d, i, j)
    {
      assert HasTab(mem, d, i) ==> own[Tab(mem, d, i)] == Table(i);
    }
  }

  /** mappages writing one entry: a user page joins the space, a kernel page does not. */
  lemma MapPte(mem: seq<Page>, kend: nat, d: nat, own: Pages, a: nat, b: nat, u: nat, perm: nat)
    requires Space(mem, kend, d, own) && a < NENTRIES && b < NENTRIES && HasTab(mem, d, a)
    requires !Present(Pte(mem, d, a, b)) && u < NPAGES && perm < 4096
    requires a < KDIR ==> u !in own && 0 < kend <= u < NPHYS
    ensures Space(SetPte(mem, d, a, b, Entry(u, perm)), kend, d, if a < KDIR then own[u := User(a, b)] else own)
  {
    hide Entry;
    var mem' := SetPte(mem, d, a, b, Entry(u, perm));
    var own' := if a < KDIR then own[u := User(a, b)] else own;
    SetPteSets(mem, kend, d, own, a, b, Entry(u, perm));
    forall f | f in own'
      ensures RoleOk(mem', d, f, own'[f])
    {
      assert f in own ==> RoleOk(mem, d, f, own[f]);
    }
  }

  /** deallocuvm clearing one present user entry: that page leaves the space. */
  lemma UnmapPte(mem: seq<Page>, kend: nat, d: nat, own: Pages, a: nat, b: nat)
    requires Space(mem, kend, d, own) && a < KDIR && b < NENTRIES && HasTab(mem, d, a) && Present(Pte(mem, d, a, b))
    ensures Frame(Pte(mem, d, a, b)) in own
    ensures Space(SetPte(mem, d, a, b, 0), kend, d, own - {Frame(Pte(mem, d, a, b))})
  {
    var mem', u := SetPte(mem, d, a, b, 0), Frame(Pte(mem, d, a, b));
    var own' := own - {u};
    SetPteSets(mem, kend, d, own, a, b, 0);
    forall f | f in own'
      ensures RoleOk(mem', d, f, own'[f])
    {
      assert RoleOk(mem, d, f, own[f]);
    }
  }

  /** What is outside the space's pages does not matter to it. */
  lemma SpaceFrame(mem: seq<Page>, mem': seq<Page>, kend: nat, d: nat, own: Pages)
    requires Space(mem, kend, d, own) && |mem'| == |mem|
    requires forall f :: f in own && !own[f].User? ==> mem'[f] == mem[f]
    ensures Space(mem', kend, d, own) && SamePtes(mem, mem', d)
  {
    forall i, j | 0 <= i < NENTRIES && 0 <= j < NENTRIES
      ensures Pte(mem', d, i, j) == Pte(mem, d, i, j)
    {
    }
    forall f | f in own
      ensures RoleOk(mem', d, f, own[f])
    {
      assert RoleOk(mem, d, f, own[f]);
    }
  }

  // ---- Runs of pages, by virtual page number.

  function Vpn(i: nat, j: nat): nat { 1024 * i + j }

  lemma VpnSplit(v: nat)
    requires v < NPAGES
    ensures v / 1024 < NENTRIES && v % 1024 < NENTRIES && Vpn(v / 1024, v % 1024) == v
    ensures v < KPAGE <==> v / 1024 < KDIR
  {
  }

  /** n pages from `first` on are newly mapped to consecutive frames; all other entries are as before. */
  ghost predicate MappedRun(mem: seq<Page>, mem': seq<Page>, d: nat, first: nat, n: nat, frame: nat, perm: nat) {
    && d < |mem| == |mem'| && perm < 4096 && frame + n <= NPAGES
    && forall i, j :: 0 <= i < NENTRIES && 0 <= j < NENTRIES ==>
         Pte(mem', d, i, j) == if first <= Vpn(i, j) < first + n then Entry(frame + Vpn(i, j) - first, perm)
           else Pte(mem, d, i, j)
  }

  lemma RunStep(mem: seq<Page>, mem1: seq<Page>, mem2: seq<Page>, d: nat,
                first: nat, n: nat, frame: nat, perm: nat, a: nat, b: nat)
    requires MappedRun(mem, mem1, d, first, n, frame, perm) && frame + n < NPAGES
    requires a < NENTRIES && b < NENTRIES && Vpn(a, b) == first + n
    requires OnePte(mem1, mem2, d, a, b, Entry(frame + n, perm))
    ensures MappedRun(mem, mem2, d, first, n + 1, frame, perm)
  {
    hide Pte, Entry;
  }

  lemma RunFree(mem: seq<Page>, mem1: seq<Page>, d: nat, first: nat, n: nat, frame: nat, perm: nat, a: nat, b: nat)
    requires MappedRun(mem, mem1, d, first, n, frame, perm)
    requires a < NENTRIES && b < NENTRIES && Vpn(a, b) >= first + n
    ensures Pte(mem1, d, a, b) == Pte(mem, d, a, b)
  {
    hide Pte, Entry;
  }

  lemma RunNone(mem: seq<Page>, d: nat, first: nat, frame: nat, perm: nat)
    requires d < |mem| && perm < 4096 && frame <= NPAGES
    ensures MappedRun(mem, mem, d, first, 0, frame, perm)
  {
  }

  lemma OneAfterSame(mem: seq<Page>, mem1: seq<Page>, mem2: seq<Page>, d: nat, a: nat, b: nat, e: Word)
    requires SamePtes(mem, mem1, d) && OnePte(mem1, mem2, d, a, b, e)
    ensures OnePte(mem, mem2, d, a, b, e)
  {
    hide Pte;
  }

  /** The present entries of pages lo..hi-1 are cleared, and nothing else changes. */
  ghost predicate Unmapped(mem: seq<Page>, mem': seq<Page>, d: nat, lo: nat, hi: nat) {
    && d < |mem| == |mem'|
    && forall i, j :: 0 <= i < NENTRIES && 0 <= j < NENTRIES ==>
         Pte(mem', d, i, j) == if lo <= Vpn(i, j) < hi && Present(Pte(mem, d, i, j)) then 0 else Pte(mem, d, i, j)
  }

  /** The pages of a space without its user pages lo..hi-1. */
  ghost function Cut(own: Pages, lo: nat, hi: nat): Pages {
    map f | f in own && !(own[f].User? && lo <= Vpn(own[f].i, own[f].j) < hi) :: own[f]
  }

  // ---- Page tables that have to be made.

  /** Of directory entries lo..hi-1, those without a page table. */
  ghost function Missing(mem: seq<Page>, d: nat, lo: nat, hi: nat): (n: nat)
    requires d < |mem| && hi <= NENTRIES
    ensures n <= if lo < hi then hi - lo else 0
  {
    if lo >= hi then 0 else Missing(mem, d, lo, hi - 1) + if HasTab(mem, d, hi - 1) then 0 else 1
  }

  /** Directory entries lo..hi-1 have their page tables, and the others are as before. */
  ghost predicate Tabbed(mem: seq<Page>, mem': seq<Page>, d: nat, lo: nat, hi: nat) {
    && d < |mem| == |mem'|
    && forall i :: 0 <= i < NENTRIES ==> (HasTab(mem', d, i) <==> HasTab(mem, d, i) || lo <= i < hi)
  }

  lemma TabbedMore(mem: seq<Page>, mem1: seq<Page>, mem2: seq<Page>, d: nat, lo: nat, m: nat, mid: nat, hi: nat)
    requires Tabbed(mem, mem1, d, lo, mid) && Tabbed(mem1, mem2, d, m, hi) && lo <= m <= mid <= hi
    ensures Tabbed(mem, mem2, d, lo, hi)
  {
    hide HasTab;
  }

  /** Pages outside the directory do not matter. */
  lemma TabbedSame(mem: seq<Page>, mem': seq<Page>, d: nat, lo: nat)
    requires d < |mem| == |mem'| && mem'[d] == mem[d]
    ensures Tabbed(mem, mem', d, lo, lo)
  {
  }

  lemma {:induction false} MissingSplit(mem: seq<Page>, d: nat, lo: nat, mid: nat, hi: nat)
    requires d < |mem| && lo <= mid <= hi <= NENTRIES
    ensures Missing(mem, d, lo, hi) == Missing(mem, d, lo, mid) + Missing(mem, d, mid, hi)
    decreases hi
  {
    hide HasTab;
    if mid < hi {
      MissingSplit(mem, d, lo, mid, hi - 1);
    }
  }

  lemma {:induction false} MissingSame(mem: seq<Page>, mem': seq<Page>, d: nat, lo: nat, hi: nat)
    requires d < |mem| && d < |mem'| && hi <= NENTRIES
    requires forall i :: lo <= i < hi ==> (HasTab(mem', d, i) <==> HasTab(mem, d, i))
    ensures Missing(mem', d, lo, hi) == Missing(mem, d, lo, hi)
    decreases hi
  {
    hide HasTab;
    if lo < hi {
      MissingSame(mem, mem', d, lo, hi - 1);
    }
  }

  lemma {:induction false} MissingNone(mem: seq<Page>, d: nat, lo: nat, hi: nat)
    requires d < |mem| && hi <= NENTRIES && forall i :: lo <= i < hi ==> HasTab(mem, d, i)
    ensures Missing(mem, d, lo, hi) == 0
    decreases hi
  {
    hide HasTab;
    if lo < hi {
      MissingNone(mem, d, lo, hi - 1);
    }
  }

  lemma {:induction false} MissingAll(mem: seq<Page>, d: nat, lo: nat, hi: nat)
    requires d < |mem| && lo <= hi <= NENTRIES && forall i :: lo <= i < hi ==> !HasTab(mem, d, i)
    ensures Missing(mem, d, lo, hi) == hi - lo
    decreases hi
  {
    hide HasTab;
    if lo < hi {
      MissingAll(mem, d, lo, hi - 1);
    }
  }

  /** Making the tables of a range in two goes makes in all what making them at once makes. */
  lemma {:induction false} MissingMore(mem: seq<Page>, mem1: seq<Page>, d: nat, lo: nat, m: nat, mid: nat, hi: nat)
    requires Tabbed(mem, mem1, d, lo, mid) && lo <= m <= mid <= hi <= NENTRIES
    ensures Missing(mem, d, lo, hi) == Missing(mem, d, lo, mid) + Missing(mem1, d, m, hi)
  {
    hide HasTab, Missing;
    MissingSplit(mem, d, lo, mid, hi);
    MissingSplit(mem1, d, m, mid, hi);
    MissingNone(mem1, d, m, mid);
    MissingSame(mem, mem1, d, mid, hi);
  }

  lemma {:induction false} MissingOne(mem: seq<Page>, d: nat, i: nat)
    requires d < |mem| && i < NENTRIES
    ensures Missing(mem, d, i, i + 1) == if HasTab(mem, d, i) then 0 else 1
  {
    hide HasTab;
    assert Missing(mem, d, i, i) == 0;
  }

  /** One past the directory entry of the last of the pages first..first+n-1. */
  function TabEnd(first: nat, n: nat): nat {
    if n == 0 then first / 1024 else (first + n - 1) / 1024 + 1
  }

  lemma TabStep(first: nat, n: nat)
    requires first + n < NPAGES
    ensures var i := (first + n) / 1024;
      && i < NENTRIES && first / 1024 <= i <= TabEnd(first, n) <= i + 1 == TabEnd(first, n + 1) <= NENTRIES
  {
  }
}
