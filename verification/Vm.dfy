/** Page frames and address spaces: kalloc and kfree, and the operations of vm.c on page tables. */
module Vm {
  import opened Common
  import opened Blocks
  import opened PageMap
  import opened Tables
  import opened Break
  import opened UserBytes

  /** PHYSTOP / PGSIZE. */
  const NFRAMES: nat := 0xE000
  ghost predicate NoDuplicates(q: seq<nat>) {
    forall i, j :: 0 <= i < j < |q| ==> q[i] != q[j]
  }

  lemma Popped(q: seq<nat>)
    requires NoDuplicates(q) && q != []
    ensures NoDuplicates(q[1..]) && q[0] in q && q[0] !in q[1..] && forall f :: f in q[1..] ==> f in q
  {
  }

  datatype MapResult = Mapped | NoMemory | Remap

  /** Page by page, freerange() has put the frames from p0 up to p on the free list q0. */
  ghost predicate FreedUpTo(q0: seq<nat>, q: seq<nat>, p0: nat, p: nat) {
    |q| == |q0| + (p - p0) && forall f: nat :: f in q <==> f in q0 || p0 <= f < p
  }

  lemma NoneFreed(q: seq<nat>, p: nat)
    ensures FreedUpTo(q, q, p, p)
  {
  }

  lemma NotFreedYet(q0: seq<nat>, q: seq<nat>, p0: nat, p: nat)
    requires FreedUpTo(q0, q, p0, p) && p0 <= p
    ensures p in q <==> p in q0
    ensures FreedUpTo(q0, [p] + q, p0, p + 1)
  {
    forall f: nat ensures f in [p] + q <==> f in q0 || p0 <= f < p + 1 {
      assert f in [p] + q <==> f == p || f in q;
    }
  }

  lemma FreedAre(q0: seq<nat>, q: seq<nat>, p0: nat, p: nat)
    requires FreedUpTo(q0, q, p0, p)
    ensures |q| == |q0| + (p - p0) && forall f: nat :: f in q <==> f in q0 || p0 <= f < p
  {
  }

  function FirstPage(va: nat): nat { va / PGSIZE }

  /** The page of va + size - 1, an address of 32 bits. */
  function LastPage(va: nat, size: nat): nat
    requires size > 0
  {
    (va + size - 1) % TWO32 / PGSIZE
  }

  // ----- the kernel half -----

  /** An entry of kmap[], in pages and frames. */
  datatype Kmap = Kmap(first: nat, pages: nat, frame: nat, perm: nat)

  const KERNLINK: nat := UPAGES + 0x100
  const DEVSPACE: nat := 0xFE000
  const PTE_W: nat := 2

  /** kmap[k]; data is the page of the kernel's data segment. */
  function KmapOf(data: nat, k: nat): (m: Kmap)
    requires KERNLINK < data < UPAGES + NFRAMES && k < 4
    ensures UPAGES <= m.first && m.pages > 0 && m.first + m.pages <= NPAGES
  {
    if k == 0 then Kmap(UPAGES, 0x100, 0, PTE_W)
    else if k == 1 then Kmap(KERNLINK, data - KERNLINK, 0x100, 0)
    else if k == 2 then Kmap(data, UPAGES + NFRAMES - data, data - UPAGES, PTE_W)
    else Kmap(DEVSPACE, NPAGES - DEVSPACE, DEVSPACE, PTE_W)
  }

  /** What the first k entries of kmap[] map page v to. */
  function KernelPte(data: nat, v: nat, k: nat): Pte
    requires KERNLINK < data < UPAGES + NFRAMES && k <= 4
  {
    if k == 0 then Absent
    else
      var m := KmapOf(data, k - 1);
      if m.first <= v < m.first + m.pages then Present(m.perm, m.frame + (v - m.first)) else KernelPte(data, v, k - 1)
  }

  /** The entries of kmap[] do not overlap. */
  lemma KmapApart(data: nat, v: nat, k: nat)
    requires KERNLINK < data < UPAGES + NFRAMES && k < 4
    requires KmapOf(data, k).first <= v < KmapOf(data, k).first + KmapOf(data, k).pages
    ensures KernelPte(data, v, k) == Absent
  {
    assert KernelPte(data, v, 0) == Absent;
    if k >= 1 { assert k > 1 ==> KernelPte(data, v, 1) == Absent; }
    if k == 3 { assert KernelPte(data, v, 2) == Absent; }
  }

  lemma KmapPages(data: nat, k: nat)
    requires KERNLINK < data < UPAGES + NFRAMES && k < 4
    ensures var m := KmapOf(data, k);
            && 0 < m.pages * PGSIZE < TWO32 && FirstPage(m.first * PGSIZE) == m.first
            && LastPage(m.first * PGSIZE, m.pages * PGSIZE) == m.first + m.pages - 1
  {
    var m := KmapOf(data, k);
    assert m.first * PGSIZE + m.pages * PGSIZE - 1 < TWO32;
  }

  /** The address space c maps the kernel as the first k entries say. */
  ghost predicate KernelMap(w: Space, c: nat, data: nat, k: nat)
    requires IsDir(w, c) && KERNLINK < data < UPAGES + NFRAMES && k <= 4
  {
    forall v: nat :: UPAGES <= v < NPAGES ==> PteOf(w.mem, c, v) == KernelPte(data, v, k)
  }

  /** What kmap[] says about each page of the kernel half. */
  lemma KernelPtes(data: nat, v: nat)
    requires KERNLINK < data < UPAGES + NFRAMES && 0x8_0000 <= v < 0x10_0000
    ensures KernelPte(data, v, 4) ==
      if v < 0x8_E000 then Present(if 0x8_0100 <= v < data then 0 else 2, v - 0x8_0000)
      else if v < 0xF_E000 then Absent else Present(2, v)
  {
    assert KernelPte(data, v, 0) == Absent;
    assert KernelPte(data, v, 1) == if v < 0x8_0100 then Present(2, v - 0x8_0000) else Absent;
    assert KernelPte(data, v, 2) == if 0x8_0100 <= v < data then Present(0, v - 0x8_0000) else KernelPte(data, v, 1);
    assert KernelPte(data, v, 3) == if data <= v < 0x8_E000 then Present(2, v - 0x8_0000) else KernelPte(data, v, 2);
  }

  lemma KernelHalf(w: Space, c: nat, data: nat)
    requires IsDir(w, c) && KERNLINK < data < UPAGES + NFRAMES && KernelMap(w, c, data, 4)
    ensures forall v: nat :: 0x8_0000 <= v < 0x10_0000 ==>
              PteOf(w.mem, c, v) ==
                if v < 0x8_E000 then Present(if 0x8_0100 <= v < data then 0 else 2, v - 0x8_0000)
                else if v < 0xF_E000 then Absent else Present(2, v)
  {
    hide PteOf, KernelPte;
    forall v: nat | 0x8_0000 <= v < 0x10_0000
      ensures PteOf(w.mem, c, v) ==
                if v < 0x8_E000 then Present(if 0x8_0100 <= v < data then 0 else 2, v - 0x8_0000)
                else if v < 0xF_E000 then Absent else Present(2, v)
    {
      KernelPtes(data, v);
    }
  }

  /** So mappages() meets no page that is mapped. */
  lemma NotMappedYet(w: Space, c: nat, data: nat, k: nat, v: nat)
    requires IsDir(w, c) && KERNLINK < data < UPAGES + NFRAMES && k < 4 && KernelMap(w, c, data, k)
    requires KmapOf(data, k).first <= v < KmapOf(data, k).first + KmapOf(data, k).pages
    ensures PteOf(w.mem, c, v) == Absent
  {
    KmapApart(data, v, k);
  }

  lemma PaidStart(mem: seq<Frame>, n: nat, d: nat, first: nat)
    requires IsTable(mem, d)
    ensures Paid(mem, n, mem, n, d, Slots(first, first), 0)
  {
    PaidNothing(mem, n, d);
  }

  /** A turn of mappages(): the page table for page a, then its entry. */
  lemma PaidPage(mem0: seq<Frame>, n0: nat, mem1: seq<Frame>, n1: nat, mem2: seq<Frame>, mem: seq<Frame>, n: nat, d: nat, first: nat, a: nat)
    requires Paid(mem0, n0, mem1, n1, d, Slots(first, a), 0) && Paid(mem1, n1, mem2, n, d, {a / ENTRIES}, 0) && first <= a
    requires IsTable(mem2, d) && IsTable(mem, d) && mem[d] == mem2[d]
    ensures Paid(mem0, n0, mem, n, d, Slots(first, a + 1), 0)
  {
    hide Paid, Slots;
    PaidMore(mem0, n0, mem1, n1, mem2, n, d, Slots(first, a), 0, {a / ENTRIES}, 0);
    SlotsNext(first, a);
    PaidPages(mem2, n, mem, n, d, 0);
    PaidMore(mem0, n0, mem2, n, mem, n, d, Slots(first, a + 1), 0, {}, 0);
    assert Slots(first, a + 1) + {} == Slots(first, a + 1);
  }

  /** One page mapped, with a page table if there was none, or no frame for that. */
  lemma TablePaid(mem1: seq<Frame>, n1: nat, mem: seq<Frame>, n: nat, d: nat, v: nat, k: nat, r: MapResult)
    requires IsTable(mem1, d) && r != Remap
    requires r == Mapped ==> Paid(mem1, n1, mem, n, d, Slots(v, v + 1), 0)
    requires r == NoMemory ==>
               k == 0 && n == 0 && Paid(mem1, n1, mem, n, d, Slots(v, v + k), 0) && IsTable(mem, d) && (v + k) / ENTRIES !in Tabs(mem, d)
    ensures r == Mapped ==> Paid(mem1, n1, mem, n, d, {v / ENTRIES}, 0)
    ensures r == NoMemory ==> n1 < |{v / ENTRIES} - Tabs(mem1, d)|
  {
    hide Tabs;
    SlotsNext(v, v);
    assert Slots(v, v + 1) == {v / ENTRIES} && Slots(v, v) == {};
    assert Tabs(mem1, d) + {} == Tabs(mem1, d);
    if r == NoMemory { assert {v / ENTRIES} - Tabs(mem1, d) == {v / ENTRIES}; }
  }

  /** ... after a frame for the page itself. */
  lemma PagePaid(mem0: seq<Frame>, n0: nat, mem1: seq<Frame>, n1: nat, mem: seq<Frame>, n: nat, d: nat, v: nat, ok: bool)
    requires IsTable(mem0, d) && IsTable(mem1, d) && mem1[d] == mem0[d] && n0 == n1 + 1
    requires if ok then Paid(mem1, n1, mem, n, d, {v / ENTRIES}, 0) else n1 < |{v / ENTRIES} - Tabs(mem1, d)|
    ensures ok ==> Paid(mem0, n0, mem, n, d, {v / ENTRIES}, 1)
    ensures !ok ==> n0 < 1 + |{v / ENTRIES} - Tabs(mem0, d)|
  {
    PaidPages(mem0, n0, mem1, n1, d, 1);
    assert Tabs(mem1, d) == Tabs(mem0, d);
    if ok {
      hide Paid, Tabs;
      PaidMore(mem0, n0, mem1, n1, mem, n, d, {}, 1, {v / ENTRIES}, 0);
      assert {} + {v / ENTRIES} == {v / ENTRIES};
    }
  }

  /** A turn of the loops over pages from .. end, at page a. */
  lemma PaidTurn(mem0: seq<Frame>, n0: nat, mem1: seq<Frame>, n1: nat, mem: seq<Frame>, n: nat, d: nat, from: nat, a: nat, end: nat, ok: bool)
    requires from <= a < end && Paid(mem0, n0, mem1, n1, d, Slots(from, a), a - from)
    requires IsTable(mem1, d) && if ok then Paid(mem1, n1, mem, n, d, {a / ENTRIES}, 1) else n1 < 1 + |{a / ENTRIES} - Tabs(mem1, d)|
    ensures ok ==> Paid(mem0, n0, mem, n, d, Slots(from, a + 1), a + 1 - from)
    ensures !ok ==> IsTable(mem0, d) && n0 < (end - from) + |Slots(from, end) - Tabs(mem0, d)|
  {
    SlotsNext(from, a);
    SlotsWithin(from, a, end);
    if ok {
      hide Paid, Slots, Tabs;
      PaidMore(mem0, n0, mem1, n1, mem, n, d, Slots(from, a), a - from, {a / ENTRIES}, 1);
    } else {
      TooFew(mem0, n0, mem1, n1, d, Slots(from, a), a - from, 1, a / ENTRIES, Slots(from, end), end - from);
    }
  }

  /** The directory slots of the kernel's physical memory and of its devices. */
  function KernelSlots(): set<nat> {
    Between(UPAGES / ENTRIES, UPAGES / ENTRIES + NFRAMES / ENTRIES) + Between(DEVSPACE / ENTRIES, ENTRIES)
  }

  /** What setupkvm() takes: their page tables, and the directory. */
  const KERNELFRAMES: nat := 1 + NFRAMES / ENTRIES + (ENTRIES - DEVSPACE / ENTRIES)

  /** The slots that the first k entries of kmap[] go through. */
  function KernelTabs(data: nat, k: nat): set<nat>
    requires KERNLINK < data < UPAGES + NFRAMES && k <= 4
  {
    if k == 0 then {} else var m := KmapOf(data, k - 1); KernelTabs(data, k - 1) + Slots(m.first, m.first + m.pages)
  }

  lemma KernelSlotsSize()
    ensures |KernelSlots()| == KERNELFRAMES - 1
  {
    assert Between(UPAGES / ENTRIES, UPAGES / ENTRIES + NFRAMES / ENTRIES) !! Between(DEVSPACE / ENTRIES, ENTRIES);
  }

  lemma KmapSlots(data: nat, k: nat, i: nat)
    requires KERNLINK < data < UPAGES + NFRAMES && k < 4
    ensures var m := KmapOf(data, k);
      i in Slots(m.first, m.first + m.pages) <==>
        if k == 0 then i == UPAGES / ENTRIES
        else if k == 1 then UPAGES / ENTRIES <= i <= (data - 1) / ENTRIES
        else if k == 2 then data / ENTRIES <= i < UPAGES / ENTRIES + NFRAMES / ENTRIES
        else DEVSPACE / ENTRIES <= i < ENTRIES
  {
  }

  lemma KernelTabsAre(data: nat, k: nat)
    requires KERNLINK < data < UPAGES + NFRAMES && k <= 4
    ensures KernelTabs(data, k) <= KernelSlots() && (k == 4 ==> KernelTabs(data, k) == KernelSlots())
  {
    hide Slots;
    forall i: nat, j: nat | j < 4 ensures var m := KmapOf(data, j); i in Slots(m.first, m.first + m.pages) ==> i in KernelSlots() {
      KmapSlots(data, j, i);
    }
    if k > 0 { KernelTabsAre(data, k - 1); }
    if k == 4 {
      forall i | i in KernelSlots() ensures i in KernelTabs(data, 4) {
        KmapSlots(data, 1, i);
        KmapSlots(data, 2, i);
        KmapSlots(data, 3, i);
        assert KernelTabs(data, 2) <= KernelTabs(data, 3) <= KernelTabs(data, 4);
      }
    }
  }

  lemma NoTablesYet(mem: seq<Frame>, n: nat, c: nat, data: nat)
    requires KERNLINK < data < UPAGES + NFRAMES && IsTable(mem, c) && mem[c] == NoEntries()
    ensures Paid(mem, n, mem, n, c, KernelTabs(data, 0), 0) && Tabs(mem, c) == {}
  {
    PaidNothing(mem, n, c);
  }

  /** Entry k of kmap[] mapped, or too few frames for the kernel. */
  lemma PaidKernel(mem0: seq<Frame>, n0: nat, mem1: seq<Frame>, n1: nat, mem: seq<Frame>, n: nat, c: nat, data: nat, k: nat,
                   done: nat, r: MapResult)
    requires KERNLINK < data < UPAGES + NFRAMES && k < 4 && Paid(mem0, n0, mem1, n1, c, KernelTabs(data, k), 0) && r != Remap
    requires Tabs(mem0, c) == {} && var m := KmapOf(data, k);
             if r == Mapped then Paid(mem1, n1, mem, n, c, Slots(m.first, m.first + m.pages), 0)
             else done < m.pages && n == 0 && Paid(mem1, n1, mem, n, c, Slots(m.first, m.first + done), 0)
                  && (m.first + done) / ENTRIES !in Tabs(mem, c)
    ensures r == Mapped ==> Paid(mem0, n0, mem, n, c, KernelTabs(data, k + 1), 0)
    ensures r == NoMemory ==> n0 + 1 < KERNELFRAMES
  {
    hide Paid, Slots, Tabs, KernelSlots, KmapOf;
    var m := KmapOf(data, k);
    if r == Mapped {
      PaidMore(mem0, n0, mem1, n1, mem, n, c, KernelTabs(data, k), 0, Slots(m.first, m.first + m.pages), 0);
    } else {
      PaidMore(mem0, n0, mem1, n1, mem, n, c, KernelTabs(data, k), 0, Slots(m.first, m.first + done), 0);
      KernelTabsAre(data, k);
      assert KernelTabs(data, k + 1) == KernelTabs(data, k) + Slots(m.first, m.first + m.pages);
      KernelTabsAre(data, k + 1);
      SlotsWithin(m.first, m.first + done, m.first + m.pages);
      KernelMisses(mem0, n0, mem, c, KernelTabs(data, k) + Slots(m.first, m.first + done), (m.first + done) / ENTRIES);
    }
  }

  lemma KernelMisses(mem0: seq<Frame>, n0: nat, mem: seq<Frame>, c: nat, added: set<nat>, i: nat)
    requires Paid(mem0, n0, mem, 0, c, added, 0) && Tabs(mem0, c) == {} && i !in Tabs(mem, c) && added + {i} <= KernelSlots()
    ensures n0 + 1 < KERNELFRAMES
  {
    hide KernelSlots, Tabs;
    assert {i} - Tabs(mem, c) == {i};
    TooFew(mem0, n0, mem, 0, c, added, 0, 0, i, KernelSlots(), 0);
    KernelSlotsSize();
    assert KernelSlots() - Tabs(mem0, c) == KernelSlots();
  }

  lemma KernelPaid(mem0: seq<Frame>, n0: nat, mem: seq<Frame>, n: nat, c: nat, data: nat)
    requires KERNLINK < data < UPAGES + NFRAMES && Paid(mem0, n0, mem, n, c, KernelTabs(data, 4), 0) && Tabs(mem0, c) == {}
    ensures n0 + 1 == n + KERNELFRAMES && IsTable(mem, c) && Tabs(mem, c) == KernelSlots()
  {
    hide Tabs, KernelSlots;
    KernelTabsAre(data, 4);
    KernelSlotsSize();
    assert KernelSlots() - Tabs(mem0, c) == KernelSlots();
    assert Tabs(mem0, c) + KernelSlots() == KernelSlots();
  }

  /** The user half needs page tables that the kernel does not. */
  lemma UserSlots(end: nat)
    requires end <= UPAGES
    ensures |Slots(0, end) - KernelSlots()| == (end + ENTRIES - 1) / ENTRIES
  {
    assert Slots(0, end) - KernelSlots() == Slots(0, end);
  }

  lemma KernelMapNext(w: Space, y: Space, c: nat, data: nat, k: nat)
    requires IsDir(w, c) && IsDir(y, c) && KERNLINK < data < UPAGES + NFRAMES && k < 4 && KernelMap(w, c, data, k)
    requires MappedTo(w, y, c, KmapOf(data, k).first, KmapOf(data, k).pages, KmapOf(data, k).frame, KmapOf(data, k).perm)
    ensures KernelMap(y, c, data, k + 1)
    ensures forall u: nat :: u < UPAGES ==> PteOf(y.mem, c, u) == PteOf(w.mem, c, u)
  {
    hide PteOf, KmapOf;
  }

  class Vm {
    const first: nat          // V2P(end) / PGSIZE rounded up, the first whole frame behind the kernel
    var mem: seq<Frame>
    var free: seq<nat>        // kmem.freelist
    ghost var owner: map<nat, Owner>

    ghost function S(): Space
      reads this
    {
      Space(mem, owner)
    }

    /** Every frame is free, once, or in use, or was never given to the allocator. */
    ghost predicate FreeOk()
      reads this
    {
      && NoDuplicates(free)
      && (forall f :: f in free ==> first <= f < NFRAMES && f !in owner)
      && (forall f :: f in owner ==> first <= f < NFRAMES)
    }

    ghost predicate Valid()
      reads this
    {
      0 < first && |mem| == NFRAMES && FreeOk() && Owned(S())
    }

    /** The frames that the allocator manages, free and in use. */
    ghost function All(): set<nat>
      reads this
    {
      owner.Keys + set f | f in free
    }

    constructor (first: nat, mem: seq<Frame>)
      requires 0 < first && |mem| == NFRAMES
      ensures Valid() && free == [] && owner == map[] && this.first == first
    {
      this.first, this.mem, free, owner := first, mem, [], map[];
    }

    /** The stores of kfree(). */
    method Push(f: nat) returns (panic: bool)
      requires |mem| == NFRAMES
      modifies this`mem, this`free
      ensures panic <==> f < first || f >= NFRAMES
      ensures panic ==> mem == old(mem) && free == old(free)
      ensures !panic ==> mem == old(mem)[f := Junk()] && free == [f] + old(free)
    {
      panic := f < first || f >= NFRAMES;
      if panic { return; }
      mem := mem[f := Junk()];
      free := [f] + free;
    }

    /** kfree(); panic is its check of the address. */
    method Kfree(f: nat) returns (panic: bool)
      requires Valid() && f !in free && (f in owner ==> owner[f] == Held)
      modifies this
      ensures panic <==> f < first || f >= NFRAMES
      ensures panic ==> S() == old(S()) && free == old(free)
      ensures !panic ==>
                && Valid() && free == [f] + old(free) && owner == old(owner) - {f} && mem == old(mem)[f := Junk()]
                && SameMap(old(S()), S())
    {
      hide Owned, SameMap;
      if first <= f < NFRAMES { HeldFrame(S(), f, Junk(), owner - {f}); }
      panic := Push(f);
      if !panic {
        owner := owner - {f};
        assert S() == Space(old(mem)[f := Junk()], old(owner) - {f});
      }
    }

    /** kalloc(): the first frame of the free list, now held by the caller. */
    method Kalloc() returns (r: Option<nat>)
      requires Valid()
      modifies this
      ensures Valid() && mem == old(mem)
      ensures r == None ==> old(free) == [] && S() == old(S()) && free == []
      ensures r.Some? ==>
                && old(free) != [] && r.value == old(free)[0] && free == old(free)[1..]
                && r.value !in old(owner) && owner == old(owner)[r.value := Held] && r.value < NFRAMES
    {
      hide Owned, NoDuplicates;
      if free == [] { return None; }
      var f := free[0];
      Popped(free);
      HeldFrame(S(), f, mem[f], owner[f := Held]);
      owner := owner[f := Held];
      free := free[1..];
      assert mem[f := mem[f]] == mem;
      assert S() == Space(old(mem)[f := old(mem)[f]], old(owner)[f := Held]);
      r := Some(f);
    }

    /** freerange() over the addresses start .. end: the whole pages in between become free. */
    method Freerange(start: nat, end: nat) returns (panic: bool)
      requires Valid() && first * PGSIZE <= start
      requires forall f: nat :: start <= f * PGSIZE && (f + 1) * PGSIZE <= end ==> f < NFRAMES && f !in free && f !in owner
      modifies this
      ensures !panic && Valid() && owner == old(owner)
      ensures forall f: nat :: f in free <==> f in old(free) || (start <= f * PGSIZE && (f + 1) * PGSIZE <= end)
      ensures |free| == |old(free)| + WholePages(start, end)
    {
      hide Owned, NoDuplicates, FreedUpTo;
      panic := false;
      var p := (start + PGSIZE - 1) / PGSIZE;
      ghost var p0 := p;
      NoneFreed(free, p0);
      while (p + 1) * PGSIZE <= end
        invariant p0 <= p && (p == p0 || p * PGSIZE <= end)
        invariant !panic && Valid() && owner == old(owner) && FreedUpTo(old(free), free, p0, p)
      {
        NotFreedYet(old(free), free, p0, p);
        panic := Kfree(p);
        p := p + 1;
      }
      FreedAre(old(free), free, p0, p);
    }

    /** The pages that lie between two addresses. */
    function WholePages(start: nat, end: nat): nat {
      if end / PGSIZE > RoundUp(start) then end / PGSIZE - RoundUp(start) else 0
    }

    /** kmemtop(): the bytes that are free. */
    method Kmemtop() returns (bytes: nat)
      ensures bytes == |free| * PGSIZE
    {
      var count, r := 0, free;
      while r != []
        invariant count + |r| == |free|
        decreases |r|
      {
        count := count + 1;
        r := r[1..];
      }
      bytes := count * PGSIZE;
    }

    // ----- page tables -----

    /** walkpgdir(): the page table for page v, created if there is none and alloc says so. */
    method Walk(d: nat, v: nat, alloc: bool) returns (r: Option<nat>)
      requires Valid() && IsDir(S(), d) && v < NPAGES
      modifies this
      ensures Valid() && IsDir(S(), d) && OnlyTables(old(S()), S(), d) && All() == old(All())
      ensures r == None ==> S() == old(S()) && free == old(free) && Pde(mem, d, v / ENTRIES) == Absent && (alloc ==> free == [])
      ensures r.Some? ==>
                Pde(mem, d, v / ENTRIES).Present? && Pde(mem, d, v / ENTRIES).frame == r.value && IsTable(mem, r.value)
      ensures !alloc || old(Pde(mem, d, v / ENTRIES)).Present? ==> S() == old(S()) && free == old(free)
      ensures r.Some? ==> Paid(old(mem), |old(free)|, mem, |free|, d, {v / ENTRIES}, 0) && r.value != d
      ensures r.Some? && old(Pde(mem, d, v / ENTRIES)) == Absent ==>
                && Pde(mem, d, v / ENTRIES) == Present(6, r.value) && forall k :: 0 <= k < ENTRIES ==> mem[r.value].entries[k] == Absent
    {
      hide Owned, OnlyTables, Paid;
      SameIsOnlyTables(S(), d);
      TableThere(S(), d, v / ENTRIES);
      var pde := Pde(mem, d, v / ENTRIES);
      if pde.Present? {
        PaidBefore(mem, |free|, d, v / ENTRIES);
        TableIsNotDir(S(), d, v / ENTRIES);
        return Some(pde.frame);
      }
      if !alloc { return None; }
      r := NewTable(d, v / ENTRIES);
    }

    /** walkpgdir() where there is no page table yet. */
    method NewTable(d: nat, i: nat) returns (r: Option<nat>)
      requires Valid() && IsDir(S(), d) && i < ENTRIES && Pde(mem, d, i) == Absent
      modifies this
      ensures Valid() && IsDir(S(), d) && OnlyTables(old(S()), S(), d) && All() == old(All())
      ensures r == None ==> S() == old(S()) && free == old(free) == []
      ensures r.Some? ==>
                && Pde(mem, d, i) == Present(6, r.value) && r.value != d && IsTable(mem, r.value)
                && forall k :: 0 <= k < ENTRIES ==> mem[r.value].entries[k] == Absent
      ensures r.Some? ==> Paid(old(mem), |old(free)|, mem, |free|, d, {i}, 0)
    {
      hide Owned, OnlyTables, Paid;
      SameIsOnlyTables(S(), d);
      r := Kalloc();
      if r.Some? {
        TablesAdded(old(S()), d, i, WU, r.value);
        mem := mem[r.value := NoEntries()];
        mem := SetEntry(mem, d, i, Present(WU, r.value));
        owner := owner[r.value := Tab(d, i)];
        assert S() == WithTable(old(S()), d, i, WU, r.value);
        TableThere(S(), d, i);
        PaidTable(old(mem), |old(free)|, mem, |free|, d, i);
      }
    }

    /** Frames from frame on that the caller holds, for the user pages among n pages from first. */
    ghost predicate Supplies(first: nat, n: nat, frame: nat)
      reads this
    {
      forall f: nat :: frame <= f < frame + n && first + (f - frame) < UPAGES ==> HeldPage(S(), f)
    }

    /** The store of mappages() for page v, in page table t. */
    method StorePte(d: nat, v: nat, t: nat, frame: nat, perm: nat, ghost s: Space, ghost w: Space, ghost first: nat, ghost frame0: nat)
      requires Valid() && first <= v && frame == frame0 + (v - first) && |mem| == |s.mem|
      requires MappedTo(s, w, d, first, v - first, frame0, perm) && OnlyTables(w, S(), d) && Vacant(S(), d, v)
      requires t == Pde(mem, d, v / ENTRIES).frame != d && (v < UPAGES ==> HeldPage(s, frame))
      modifies this`mem, this`owner
      ensures Valid() && IsDir(S(), d) && All() == old(All()) && mem[d] == old(mem)[d]
      ensures MappedTo(s, S(), d, first, v - first + 1, frame0, perm)
    {
      hide Owned, OnlyTables, MappedTo, PteOf, HeldPage;
      ghost var x, k := S(), v - first;
      mem := SetEntry(mem, t, v % ENTRIES, Present(perm, frame));
      if v < UPAGES {
        owner := owner[frame := User(d, v)];
        MappedUser(s, w, x, S(), d, first, k, frame0, perm);
      } else {
        MappedKernel(s, w, x, S(), d, first, k, frame0, perm);
      }
    }

    /** mappages(): pages from PGROUNDDOWN(va) to the one of va + size - 1. n of them have been
        mapped when it ends, all of them if it succeeds. */
    method Mappages(d: nat, va: nat, size: nat, frame0: nat, perm: nat) returns (r: MapResult, ghost n: nat)
      requires Valid() && IsDir(S(), d) && 0 < size < TWO32 && FirstPage(va) <= LastPage(va, size) < NPAGES
      requires Supplies(FirstPage(va), LastPage(va, size) - FirstPage(va) + 1, frame0)
      modifies this
      ensures Valid() && IsDir(S(), d) && All() == old(All())
      ensures MappedTo(old(S()), S(), d, FirstPage(va), n, frame0, perm) && FirstPage(va) + n <= LastPage(va, size) + 1
      ensures r == Mapped ==> FirstPage(va) + n == LastPage(va, size) + 1
      ensures r == NoMemory ==> free == [] && FirstPage(va) + n <= LastPage(va, size)
      ensures r == Remap ==> FirstPage(va) + n <= LastPage(va, size) && PteOf(old(mem), d, FirstPage(va) + n).Present?
      ensures forall u: nat :: FirstPage(va) <= u < FirstPage(va) + n ==> PteOf(old(mem), d, u) == Absent
      ensures r == Mapped ==> Paid(old(mem), |old(free)|, mem, |free|, d, Slots(FirstPage(va), LastPage(va, size) + 1), 0)
      ensures r == NoMemory ==>
                && Paid(old(mem), |old(free)|, mem, |free|, d, Slots(FirstPage(va), FirstPage(va) + n), 0)
                && (FirstPage(va) + n) / ENTRIES !in Tabs(mem, d)
    {
      hide Owned, OnlyTables, MappedTo, PteOf, HeldPage, Paid, Slots;
      var first, last := FirstPage(va), LastPage(va, size);
      var a, frame := first, frame0;
      n := 0;
      NothingMapped(S(), d, first, frame0, perm);
      PaidStart(mem, |free|, d, first);
      while true
        invariant first <= a <= last && n == a - first && frame == frame0 + n
        invariant Valid() && IsDir(S(), d) && All() == old(All()) && MappedTo(old(S()), S(), d, first, n, frame0, perm)
        invariant forall u: nat :: first <= u < a ==> PteOf(old(mem), d, u) == Absent
        invariant Paid(old(mem), |old(free)|, mem, |free|, d, Slots(first, a), 0)
        decreases last - a
      {
        ghost var w, left := S(), |free|;
        var pgtab := Walk(d, a, true);
        if pgtab == None { return NoMemory, n; }
        MappedTables(old(S()), w, S(), d, first, n, frame0, perm);
        MappedEntry(old(S()), w, S(), d, first, n, frame0, perm);
        EntryIn(S(), d, a);
        assert frame0 <= frame < frame0 + (last - first + 1);
        if mem[pgtab.value].entries[a % ENTRIES].Present? { return Remap, n; }
        ghost var x := S();
        StorePte(d, a, pgtab.value, frame, perm, old(S()), w, first, frame0);
        PaidPage(old(mem), |old(free)|, w.mem, left, x.mem, mem, |free|, d, first, a);
        n := n + 1;
        if a == last { break; }
        a := a + 1;
        frame := frame + 1;
      }
      r := Mapped;
    }

    /** deallocuvm() of page v, whose entry in page table t names frame f. */
    method FreePage(d: nat, v: nat, t: nat, f: nat, ghost s: Space, ghost from: nat)
      requires Valid() && IsDir(S(), d) && from <= v < UPAGES && Unmapped(s, S(), d, from, v) && |s.mem| == |mem|
      requires PteOf(mem, d, v).Present? && PteOf(mem, d, v).frame == f
      requires Pde(mem, d, v / ENTRIES).Present? && Pde(mem, d, v / ENTRIES).frame == t && IsTable(mem, t)
      modifies this
      ensures Valid() && IsDir(S(), d) && All() == old(All()) && Unmapped(s, S(), d, from, v + 1)
    {
      hide Owned, Unmapped, PteOf;
      ghost var w := S();
      FrameOfPage(w, d, v);
      var panic := Push(f);
      mem := SetEntry(mem, t, v % ENTRIES, Absent);
      owner := owner - {f};
      UnmappedNext(s, w, S(), d, from, v, f, Junk());
    }

    /** deallocuvm(): the pages between newsz and oldsz are gone and their frames free. Where there
        is no page table the loop skips to the next one, and misses nothing. */
    method Deallocuvm(d: nat, oldsz: nat, newsz: nat) returns (r: nat)
      requires Valid() && IsDir(S(), d) && oldsz <= UPAGES * PGSIZE
      modifies this
      ensures Valid() && IsDir(S(), d) && All() == old(All())
      ensures r == if newsz >= oldsz then oldsz else newsz
      ensures Unmapped(old(S()), S(), d, RoundUp(newsz), if newsz >= oldsz then 0 else RoundUp(oldsz))
      ensures newsz >= oldsz ==> S() == old(S()) && free == old(free)
      ensures newsz < oldsz ==>
                && (forall u: nat :: u < NPAGES ==>
                      PteOf(mem, d, u) == if RoundUp(newsz) <= u < RoundUp(oldsz) then Absent else PteOf(old(mem), d, u))
                && (forall f: nat :: f in free <==>
                      || f in old(free)
                      || (f in old(owner) && old(owner)[f].User? && old(owner)[f].d == d && RoundUp(newsz) <= old(owner)[f].v < RoundUp(oldsz)))
    {
      hide Owned, Unmapped, PteOf;
      NothingUnmapped(S(), d, RoundUp(newsz), if newsz >= oldsz then 0 else RoundUp(newsz));
      if newsz >= oldsz { return oldsz; }
      var a := RoundUp(newsz);
      ghost var from, end := a, RoundUp(oldsz);
      while a * PGSIZE < oldsz
        invariant from <= a && from <= end <= UPAGES
        invariant Valid() && IsDir(S(), d) && All() == old(All()) && Unmapped(old(S()), S(), d, from, if a < end then a else end)
      {
        var pgtab := Walk(d, a, false);
        if pgtab == None {
          var next := (a / ENTRIES + 1) * ENTRIES;
          SkipTable(old(S()), S(), d, from, a, if next < end then next else end);
          a := next - 1;
        } else {
          ghost var w := S();
          EntryIn(w, d, a);
          var pte := mem[pgtab.value].entries[a % ENTRIES];
          if pte.Present? {
            FreePage(d, a, pgtab.value, pte.frame, old(S()), from);
          } else {
            UnmappedSkip(old(S()), w, d, from, a, a + 1);
          }
        }
        a := a + 1;
      }
      UnmappedIs(old(S()), S(), d, from, end);
      FreeOrOwned(old(owner), old(free), owner, free);
      r := newsz;
    }

    /** One turn of allocuvm()'s loop: a zeroed frame at page v, or out of memory, the frame if
        there was one being held by the caller. */
    method GrowPage(d: nat, v: nat, ghost s: Space, ghost from: nat) returns (ok: bool, frame: Option<nat>)
      requires Valid() && IsDir(S(), d) && from <= v < UPAGES && |s.mem| == |mem|
      requires GrownTo(s, S(), d, from, v, {}) && PteOf(mem, d, v) == Absent
      modifies this
      ensures Valid() && IsDir(S(), d) && All() == old(All())
      ensures ok ==> GrownTo(s, S(), d, from, v + 1, {})
      ensures !ok && frame == None ==> GrownTo(s, S(), d, from, v, {})
      ensures !ok && frame.Some? ==>
                && frame.value in owner && owner[frame.value] == Held && frame.value !in s.owner
                && GrownTo(s, S(), d, from, v, {frame.value})
      ensures ok ==> Paid(old(mem), |old(free)|, mem, |free|, d, {v / ENTRIES}, 1)
      ensures !ok ==> |old(free)| < 1 + |{v / ENTRIES} - Tabs(old(mem), d)|
    {
      hide Owned, GrownTo, PteOf, MappedTo, ZeroPage, Paid, Slots, Tabs;
      frame := Kalloc();
      if frame == None { return false, None; }
      var f := frame.value;
      ghost var w := S();
      HeldFrame(w, f, ZeroPage(), owner[f := Held]);
      assert owner[f := Held] == owner;
      mem := mem[f := ZeroPage()];
      GrownHeld(s, old(S()), S(), d, from, v, f);
      ghost var mem1, left := mem, |free|;
      ok := MapFresh(d, v, f, s, from);
      PagePaid(old(mem), |old(free)|, mem1, left, mem, |free|, d, v, ok);
    }

    /** The second half of the turn: frame f holds zeros. */
    method MapFresh(d: nat, v: nat, f: nat, ghost s: Space, ghost from: nat) returns (ok: bool)
      requires Valid() && IsDir(S(), d) && from <= v < UPAGES && |s.mem| == |mem| && PteOf(mem, d, v) == Absent
      requires GrownTo(s, S(), d, from, v, {f}) && f !in s.owner && f in owner && owner[f] == Held && f < |mem| && mem[f] == ZeroPage()
      modifies this
      ensures Valid() && IsDir(S(), d) && All() == old(All())
      ensures if ok then GrownTo(s, S(), d, from, v + 1, {})
              else GrownTo(s, S(), d, from, v, {f}) && f in owner && owner[f] == Held
      ensures if ok then Paid(old(mem), |old(free)|, mem, |free|, d, {v / ENTRIES}, 0)
              else |old(free)| < |{v / ENTRIES} - Tabs(old(mem), d)|
    {
      hide Owned, GrownTo, PteOf, MappedTo, ZeroPage, Paid, Slots, Tabs;
      OnePage(v);
      ghost var x := S();
      var r, n := Mappages(d, v * PGSIZE, PGSIZE, f, WU);
      ok := r == Mapped;
      TablePaid(x.mem, |old(free)|, mem, |free|, d, v, n, r);
      GrownNext(s, x, S(), d, from, v, f, n);
    }

    /** allocuvm() out of memory: deallocate what was mapped, and free the frame that was not. */
    method RollBack(d: nat, oldsz: nat, newsz: nat, frame: Option<nat>, ghost s: Space, ghost a: nat)
      requires Valid() && IsDir(S(), d) && Owned(s) && IsDir(s, d) && oldsz < newsz < UPAGES * PGSIZE && a <= RoundUp(newsz)
      requires forall u: nat :: RoundUp(oldsz) <= u < RoundUp(newsz) ==> PteOf(s.mem, d, u) == Absent
      requires GrownTo(s, S(), d, RoundUp(oldsz), a, if frame.Some? then {frame.value} else {})
      requires frame.Some? ==> frame.value in owner && owner[frame.value] == Held && frame.value !in s.owner
      modifies this
      ensures Valid() && IsDir(S(), d) && All() == old(All()) && OnlyTables(s, S(), d)
    {
      hide Owned, GrownTo, PteOf, Unmapped, OnlyTables, TablesAnd;
      ghost var w, from, end := S(), RoundUp(oldsz), RoundUp(newsz);
      var _ := Deallocuvm(d, newsz, oldsz);
      ghost var z := S();
      GrownBack(s, w, z, d, from, a, end, if frame.Some? then {frame.value} else {});
      if frame.Some? {
        HeldAfter(w, z, d, from, end, frame.value);
        var panic := Kfree(frame.value);
        ExtraFreed(s, z, S(), d, frame.value);
      } else {
        NoExtra(s, z, d);
      }
    }

    /** allocuvm(): the pages from oldsz to newsz get zeroed frames, all different; or, out of
        memory, the address space is back as it was and the frames are free again. */
    method Allocuvm(d: nat, oldsz: nat, newsz: nat) returns (r: nat, ghost ok: bool)
      requires Valid() && IsDir(S(), d)
      requires forall u: nat :: RoundUp(oldsz) <= u < RoundUp(newsz) && u < UPAGES ==> PteOf(mem, d, u) == Absent
      modifies this
      ensures Valid() && IsDir(S(), d) && All() == old(All())
      ensures newsz >= UPAGES * PGSIZE || newsz < oldsz ==> S() == old(S()) && free == old(free)
      ensures newsz >= UPAGES * PGSIZE ==> r == 0 && !ok
      ensures newsz < UPAGES * PGSIZE && newsz < oldsz ==> r == oldsz && ok
      ensures oldsz <= newsz && ok ==> r == newsz && GrownTo(old(S()), S(), d, RoundUp(oldsz), RoundUp(newsz), {})
      ensures oldsz <= newsz && ok ==>
                forall u: nat :: RoundUp(oldsz) <= u < RoundUp(newsz) && u < UPAGES ==>
                  var e := PteOf(mem, d, u);
                  && e.Present? && e.perm == 6 && e.frame !in old(owner) && e.frame < |mem| && mem[e.frame].Page?
                  && forall k :: 0 <= k < PGSIZE ==> mem[e.frame].bytes[k] == 0
      ensures !ok ==> r == 0 && OnlyTables(old(S()), S(), d)
      ensures !ok ==> forall f: nat :: f in owner && f !in old(owner) ==> owner[f].Tab? && owner[f].d == d
      ensures !ok ==> forall u: nat :: u < NPAGES ==> PteOf(mem, d, u) == PteOf(old(mem), d, u)
      ensures oldsz <= newsz < UPAGES * PGSIZE ==> (ok <==> |old(free)| >= Frames(old(mem), d, RoundUp(oldsz), RoundUp(newsz)))
    {
      hide Owned, GrownTo, PteOf, Unmapped, OnlyTables, TablesAnd, Paid, Slots, Tabs;
      SameIsOnlyTables(S(), d);
      ok := false;
      if newsz >= UPAGES * PGSIZE { return 0, false; }
      if newsz < oldsz { return oldsz, true; }
      ghost var s, from, end := S(), RoundUp(oldsz), RoundUp(newsz);
      NothingGrown(s, d, from);
      PaidStart(mem, |free|, d, from);
      var a := RoundUp(oldsz);
      while a * PGSIZE < newsz
        invariant from <= a <= end <= UPAGES
        invariant Valid() && IsDir(S(), d) && All() == old(All()) && GrownTo(s, S(), d, from, a, {})
        invariant Paid(s.mem, |old(free)|, mem, |free|, d, Slots(from, a), a - from)
      {
        GrownEntry(s, S(), d, from, a);
        ghost var before, left := mem, |free|;
        var fits, frame := GrowPage(d, a, s, from);
        PaidTurn(s.mem, |old(free)|, before, left, mem, |free|, d, from, a, end, fits);
        if !fits {
          RollBack(d, oldsz, newsz, frame, s, a);
          OnlyTablesIs(s, S(), d);
          return 0, false;
        }
        a := a + 1;
      }
      GrownPages(s, S(), d, from, end);
      PaidAll(s.mem, |old(free)|, mem, |free|, d, Slots(from, end), end - from);
      r, ok := newsz, true;
    }

    /** The loop of freevm(): the page tables go to the free list, which the directory still names. */
    method FreeTables(d: nat)
      requires Valid() && IsDir(S(), d) && forall f: nat :: !TableBelow(S(), f, d, 0)
      modifies this`mem, this`free
      ensures |mem| == |old(mem)| && NoDuplicates(free)
      ensures forall f: nat :: f < |mem| && !TableBelow(old(S()), f, d, ENTRIES) ==> mem[f] == old(mem)[f]
      ensures forall f: nat :: f in free <==> f in old(free) || TableBelow(old(S()), f, d, ENTRIES)
    {
      hide Owned, NoDuplicates, TableBelow;
      ghost var w := S();
      for i := 0 to ENTRIES
        invariant owner == w.owner && |mem| == |w.mem| && forall f: nat :: f < |mem| && !TableBelow(w, f, d, i) ==> mem[f] == w.mem[f]
        invariant NoDuplicates(free) && forall f: nat :: f in free <==> f in old(free) || TableBelow(w, f, d, i)
      {
        TableOrNot(w, d, i);
        if mem[d].entries[i].Present? {
          var f := mem[d].entries[i].frame;
          Pushed(free, f);
          var panic := Push(f);
        }
      }
    }

    /** freevm() of an address space without user pages. */
    method FreeDir(d: nat)
      requires Valid() && IsDir(S(), d) && Bare(S(), d)
      modifies this
      ensures Valid() && All() == old(All()) && Dropped(old(S()), S(), d)
    {
      hide Owned, PteOf, Dropped, NoDuplicates, TableBelow, Without, Belongs;
      ghost var w, free0 := S(), free;
      BareFacts(w, d);
      FreeTables(d);
      Pushed(free, d);
      var panic := Push(d);
      owner := Without(owner, d);
      FramesLeft(w.owner, d);
      DirDropped(w, S(), d);
      assert forall f: nat :: f in All() <==> f in w.owner || f in free0;
    }

    /** freevm(): the frames of the address space, and no others, are free again. */
    method Freevm(d: nat)
      requires Valid() && IsDir(S(), d)
      modifies this
      ensures Valid() && All() == old(All()) && Dropped(old(S()), S(), d)
      ensures !IsDir(S(), d)
      ensures forall f: nat :: f in free <==>
                || f in old(free) || f == d
                || (f in old(owner) && ((old(owner)[f].Tab? && old(owner)[f].d == d) || (old(owner)[f].User? && old(owner)[f].d == d)))
    {
      hide Owned, Unmapped, PteOf, Dropped, NoDuplicates;
      var _ := Deallocuvm(d, UPAGES * PGSIZE, 0);
      ghost var w := S();
      BareDir(old(S()), w, d);
      FreeDir(d);
      UnmapThenDrop(old(S()), w, S(), d);
      DroppedIs(old(S()), S(), d);
      FreeOrOwned(old(owner), old(free), owner, free);
    }

    /** The freevm() of an address space that could not be completed. */
    method Abandon(c: nat, ghost s: Space)
      requires Valid() && Owned(s) && Added(s, S(), c, {}) && IsDir(S(), c) && |mem| == |s.mem|
      modifies this
      ensures Valid() && All() == old(All()) && Restored(s, S())
    {
      hide Owned, PteOf, AddedMap, AddedUse, SamePages, Dropped, Restored;
      ghost var y := S();
      Freevm(c);
      DropAdded(s, y, S(), c);
    }

    /** A turn of setupkvm()'s loop. */
    method MapKernel(c: nat, data: nat, k: nat, ghost s: Space, ghost mem1: seq<Frame>, ghost n1: nat) returns (ok: bool)
      requires Valid() && KERNLINK < data < UPAGES + NFRAMES && k < 4 && |mem| == |s.mem|
      requires Added(s, S(), c, {}) && IsDir(S(), c) && KernelMap(S(), c, data, k)
      requires IsTable(mem1, c) && Tabs(mem1, c) == {} && Paid(mem1, n1, mem, |free|, c, KernelTabs(data, k), 0)
      modifies this
      ensures Valid() && All() == old(All()) && Added(s, S(), c, {}) && IsDir(S(), c)
      ensures ok ==> KernelMap(S(), c, data, k + 1) && Paid(mem1, n1, mem, |free|, c, KernelTabs(data, k + 1), 0)
      ensures ok ==> forall u: nat :: u < UPAGES ==> PteOf(mem, c, u) == PteOf(old(mem), c, u)
      ensures !ok ==> n1 + 1 < KERNELFRAMES
    {
      hide Owned, PteOf, AddedMap, AddedUse, SamePages, MappedTo, KernelMap, Paid, Slots, Tabs, KernelTabs;
      ghost var w, left := S(), |free|;
      KmapPages(data, k);
      var m := KmapOf(data, k);
      var r, n := Mappages(c, m.first * PGSIZE, m.pages * PGSIZE, m.frame, m.perm);
      if n < m.pages { NotMappedYet(w, c, data, k, m.first + n); }
      assert r != Remap;
      PaidKernel(mem1, n1, w.mem, left, mem, |free|, c, data, k, n, r);
      AddedMore(s, w, S(), c, m.first, n, m.frame, m.perm, {});
      ok := r == Mapped;
      if ok { KernelMapNext(w, S(), c, data, k); }
    }

    /** setupkvm(): a new address space with the kernel in it and nothing else; or no memory, and
        all as it was. data is the page where the kernel's data begin. Physical memory is mapped from
        KERNBASE on, the kernel's text and read-only data without PTE_W, and the devices at the top
        where they are. */
    method Setupkvm(data: nat) returns (r: Option<nat>)
      requires Valid() && KERNLINK < data < UPAGES + NFRAMES
      modifies this
      ensures Valid() && All() == old(All())
      ensures r == None ==> Restored(old(S()), S()) && owner == old(owner) && forall f: nat :: f in free <==> f in old(free)
      ensures r.Some? ==>
                && Added(old(S()), S(), r.value, {}) && IsDir(S(), r.value) && KernelMap(S(), r.value, data, 4)
                && forall u: nat :: u < UPAGES ==> PteOf(mem, r.value, u) == Absent
      ensures r.Some? ==> forall v: nat :: 0x8_0000 <= v < 0x10_0000 ==>
                PteOf(mem, r.value, v) ==
                  if v < 0x8_E000 then Present(if 0x8_0100 <= v < data then 0 else 2, v - 0x8_0000)
                  else if v < 0xF_E000 then Absent else Present(2, v)
      ensures r.Some? <==> |old(free)| >= 65
      ensures r.Some? ==> |free| == |old(free)| - KERNELFRAMES && Tabs(mem, r.value) == KernelSlots()
    {
      hide Owned, PteOf, AddedMap, AddedUse, SamePages, MappedTo, Dropped, KernelMap, Restored, Paid, Slots, Tabs, KernelTabs, KernelSlots;
      ghost var s := S();
      r := Kalloc();
      if r == None {
        NothingChanged(s);
        return;
      }
      var c := r.value;
      DirAdded(s, S(), c);
      mem := mem[c := NoEntries()];
      owner := owner[c := Dir];
      assert S() == WithDir(Space(old(mem), old(owner)[c := Held]), c);
      NoKernelYet(S(), c, data);
      ghost var mem1, n1 := mem, |free|;
      NoTablesYet(mem1, n1, c, data);
      for k := 0 to 4
        invariant Valid() && All() == old(All()) && Added(s, S(), c, {}) && IsDir(S(), c) && KernelMap(S(), c, data, k)
        invariant forall u: nat :: u < UPAGES ==> PteOf(mem, c, u) == Absent
        invariant Paid(mem1, n1, mem, |free|, c, KernelTabs(data, k), 0)
      {
        var ok := MapKernel(c, data, k, s, mem1, n1);
        if !ok {
          Abandon(c, s);
          RestoredIs(s, S());
          FreeOrOwned(old(owner), old(free), owner, free);
          return None;
        }
      }
      KernelPaid(mem1, n1, mem, |free|, c, data);
      KernelHalf(S(), c, data);
    }

    /** One turn of copyuvm()'s loop: page n of d copied for c; else the frame that is left over,
        if there is one. */
    method CopyOne(d: nat, c: nat, n: nat, ghost s: Space) returns (ok: bool, frame: Option<nat>)
      requires Valid() && Added(s, S(), c, {}) && IsDir(s, d) && IsDir(S(), c) && CopiedTo(s, S(), d, c, n) && |s.mem| == |mem|
      requires Owned(s) && n < UPAGES && PteOf(s.mem, d, n).Present?
      modifies this
      ensures Valid() && All() == old(All()) && IsDir(S(), c) && SameKernel(old(S()), S(), c)
      ensures ok ==> Added(s, S(), c, {}) && CopiedTo(s, S(), d, c, n + 1)
      ensures !ok && frame == None ==> Added(s, S(), c, {})
      ensures !ok && frame.Some? ==>
                frame.value in owner && owner[frame.value] == Held && frame.value !in s.owner && Added(s, S(), c, {frame.value})
      ensures ok ==> Paid(old(mem), |old(free)|, mem, |free|, c, {n / ENTRIES}, 1)
      ensures !ok ==> |old(free)| < 1 + |{n / ENTRIES} - Tabs(old(mem), c)|
    {
      hide Owned, PteOf, AddedMap, AddedUse, SamePages, MappedTo, CopiedTo, OnlyTables, Paid, Slots, Tabs;
      SourcePage(s, S(), d, c, n);
      var pgtab := Walk(d, n, false);
      EntryIn(S(), d, n);
      var pte := mem[pgtab.value].entries[n % ENTRIES];
      frame := Kalloc();
      if frame == None { SameKernelSelf(S(), c); return false, None; }
      var f := frame.value;
      ghost var w := S();
      HeldFrame(w, f, mem[pte.frame], owner[f := Held]);
      assert owner[f := Held] == owner;
      mem := mem[f := mem[pte.frame]];
      CopyHeld(s, old(S()), S(), d, c, n, f, mem[pte.frame]);
      ghost var mem1, left := mem, |free|;
      ok := MapCopy(d, c, n, f, pte.perm, s);
      PagePaid(old(mem), |old(free)|, mem1, left, mem, |free|, c, n, ok);
    }

    /** The second half of the turn: frame f holds the copy. */
    method MapCopy(d: nat, c: nat, n: nat, f: nat, perm: nat, ghost s: Space) returns (ok: bool)
      requires Valid() && Added(s, S(), c, {f}) && IsDir(s, d) && IsDir(S(), c) && CopiedTo(s, S(), d, c, n) && |s.mem| == |mem|
      requires n < UPAGES && f !in s.owner && f in owner && owner[f] == Held && f < |mem|
      requires PteOf(s.mem, d, n).Present? && PteOf(s.mem, d, n).perm == perm && PteOf(s.mem, d, n).frame < |s.mem|
      requires mem[f] == s.mem[PteOf(s.mem, d, n).frame] && mem[f].Page?
      modifies this
      ensures Valid() && All() == old(All()) && IsDir(S(), c) && SameKernel(old(S()), S(), c)
      ensures Added(s, S(), c, if ok then {} else {f})
      ensures if ok then CopiedTo(s, S(), d, c, n + 1) else f in owner && owner[f] == Held
      ensures if ok then Paid(old(mem), |old(free)|, mem, |free|, c, {n / ENTRIES}, 0)
              else |old(free)| < |{n / ENTRIES} - Tabs(old(mem), c)|
    {
      hide Owned, PteOf, AddedMap, AddedUse, SamePages, MappedTo, CopiedTo, OnlyTables, Paid, Slots, Tabs;
      OnePage(n);
      ghost var x := S();
      EmptyEntry(s, x, d, c, n);
      var r, m := Mappages(c, n * PGSIZE, PGSIZE, f, perm);
      TablePaid(x.mem, |old(free)|, mem, |free|, c, n, m, r);
      CopyNext(s, x, S(), d, c, n, f, perm, m);
      ok := r == Mapped;
    }

    /** The label bad of copyuvm(), after the kfree of a frame that was not mapped. */
    method GiveUp(c: nat, frame: Option<nat>, ghost s: Space)
      requires Valid() && Owned(s) && IsDir(S(), c) && |mem| == |s.mem|
      requires Added(s, S(), c, if frame.Some? then {frame.value} else {})
      requires frame.Some? ==> frame.value in owner && owner[frame.value] == Held && frame.value !in s.owner
      modifies this
      ensures Valid() && All() == old(All()) && Restored(s, S())
    {
      hide Owned, PteOf, Added, Restored;
      if frame.Some? {
        ghost var x := S();
        var panic := Kfree(frame.value);
        ExtraGone(s, x, S(), c, frame.value);
      }
      Abandon(c, s);
    }

    /** copyuvm() of a process whose pages below sz are all mapped: a new address space with equal
        contents and flags there, on frames of its own; or no memory, and all as it was. */
    method Copyuvm(d: nat, sz: nat, data: nat) returns (r: Option<nat>)
      requires Valid() && IsDir(S(), d) && sz <= UPAGES * PGSIZE && KERNLINK < data < UPAGES + NFRAMES
      requires forall u: nat :: u < RoundUp(sz) ==> PteOf(mem, d, u).Present?
      modifies this
      ensures Valid() && All() == old(All())
      ensures r == None ==> Restored(old(S()), S()) && owner == old(owner) && forall f: nat :: f in free <==> f in old(free)
      ensures r.Some? ==>
                && Added(old(S()), S(), r.value, {}) && IsDir(S(), r.value) && KernelMap(S(), r.value, data, 4)
                && CopiedTo(old(S()), S(), d, r.value, RoundUp(sz))
      ensures r.Some? ==> forall u: nat :: u < UPAGES ==>
                var e, e' := PteOf(old(mem), d, u), PteOf(mem, r.value, u);
                if u < RoundUp(sz) then
                  && e.Present? && e'.Present? && e'.perm == e.perm && e'.frame !in old(owner)
                  && e.frame < |old(mem)| && e'.frame < |mem| && mem[e'.frame] == old(mem)[e.frame]
                else e' == Absent
      ensures r.Some? ==> forall v: nat :: 0x8_0000 <= v < 0x10_0000 ==>
                PteOf(mem, r.value, v) ==
                  if v < 0x8_E000 then Present(if 0x8_0100 <= v < data then 0 else 2, v - 0x8_0000)
                  else if v < 0xF_E000 then Absent else Present(2, v)
      ensures r.Some? <==> |old(free)| >= 65 + RoundUp(sz) + (RoundUp(sz) + 1023) / 1024
    {
      hide Owned, PteOf, AddedMap, AddedUse, SamePages, KernelMap, Restored, CopiedTo, Dropped, SameKernel, Paid, Slots, Tabs, KernelSlots;
      ghost var s := S();
      r := Setupkvm(data);
      if r == None { return; }
      var c := r.value;
      NothingCopied(s, S(), d, c);
      ghost var mem1, n1, end := mem, |free|, RoundUp(sz);
      PaidStart(mem1, n1, c, 0);
      UserSlots(end);
      var ok := CopyUser(d, c, sz, data, s, mem1, n1);
      if !ok {
        RestoredIs(s, S());
        FreeOrOwned(old(owner), old(free), owner, free);
        return None;
      }
      KernelHalf(S(), c, data);
      CopiedIs(s, S(), d, c, end);
      PaidAll(mem1, n1, mem, |free|, c, Slots(0, end), end);
    }

    /** The loop of copyuvm() over the pages below sz. */
    method CopyUser(d: nat, c: nat, sz: nat, data: nat, ghost s: Space, ghost mem1: seq<Frame>, ghost n1: nat) returns (ok: bool)
      requires Valid() && IsDir(s, d) && Owned(s) && |mem| == |s.mem| && sz <= UPAGES * PGSIZE && KERNLINK < data < UPAGES + NFRAMES
      requires forall u: nat :: u < RoundUp(sz) ==> PteOf(s.mem, d, u).Present?
      requires Added(s, S(), c, {}) && IsDir(S(), c) && KernelMap(S(), c, data, 4) && CopiedTo(s, S(), d, c, 0)
      requires mem1 == mem && n1 == |free| && Paid(mem1, n1, mem, |free|, c, Slots(0, 0), 0)
      modifies this
      ensures Valid() && All() == old(All())
      ensures ok ==>
                && Added(s, S(), c, {}) && IsDir(S(), c) && KernelMap(S(), c, data, 4) && CopiedTo(s, S(), d, c, RoundUp(sz))
                && Paid(mem1, n1, mem, |free|, c, Slots(0, RoundUp(sz)), RoundUp(sz))
      ensures !ok ==> Restored(s, S()) && n1 < RoundUp(sz) + |Slots(0, RoundUp(sz)) - Tabs(mem1, c)|
    {
      hide Owned, PteOf, AddedMap, AddedUse, SamePages, KernelMap, Restored, CopiedTo, Dropped, SameKernel, Paid, Slots, Tabs, KernelSlots;
      ghost var end := RoundUp(sz);
      ok := true;
      var i := 0;
      while i * PGSIZE < sz
        invariant Valid() && All() == old(All()) && Added(s, S(), c, {}) && IsDir(S(), c) && KernelMap(S(), c, data, 4)
        invariant i <= end == RoundUp(sz) && CopiedTo(s, S(), d, c, i) && Paid(mem1, n1, mem, |free|, c, Slots(0, i), i)
      {
        ghost var w, left := S(), |free|;
        var frame;
        ok, frame := CopyOne(d, c, i, s);
        PaidTurn(mem1, n1, w.mem, left, mem, |free|, c, 0, i, end, ok);
        KernelStays(w, S(), c, data);
        if !ok {
          GiveUp(c, frame, s);
          return;
        }
        i := i + 1;
      }
    }

    /** sys_sbrk() of a process of size sz: its answer and size, and which pages are mapped. */
    method SysSbrk(d: nat, sz: nat, n: int) returns (answer: Option<nat>, newsz: nat)
      requires Valid() && IsDir(S(), d) && sz <= UPAGES * PGSIZE && MapsBelow(S(), d, sz)
      requires -0x8000_0000 <= n < 0x8000_0000
      modifies this
      ensures Valid() && IsDir(S(), d) && All() == old(All())
      ensures var b := Sbrk(sz, n, |old(free)| >= Frames(old(mem), d, RoundUp(sz), if n > 0 then RoundUp(sz + n) else 0));
        && answer == b.answer && newsz == b.sz
        && forall u: nat :: u < UPAGES ==> (PteOf(mem, d, u).Present? <==> u < b.pages)
    {
      hide Owned, GrownTo, Unmapped, OnlyTables, PteOf, Frames;
      var ok;
      ok, newsz := Growproc(d, sz, n);
      answer := if ok then Some(sz) else None;
      if n < 0 && sz + n == 0 { NothingLeft(old(S()), S(), d, sz); }
    }

    /** growproc() of a process of size sz by n bytes; newsz is its size afterwards. The size and the
        pages that are mapped agree again, except when it asks to give up exactly all its memory:
        deallocuvm() then returns 0, which is taken for a failure after the pages have gone. */
    method Growproc(d: nat, sz: nat, n: int) returns (ok: bool, newsz: nat)
      requires Valid() && IsDir(S(), d) && sz <= UPAGES * PGSIZE && MapsBelow(S(), d, sz)
      requires -0x8000_0000 <= n < 0x8000_0000
      modifies this
      ensures Valid() && IsDir(S(), d) && All() == old(All())
      ensures newsz == if ok && sz + n >= 0 then sz + n else sz
      ensures n > 0 ==> (ok <==> Room(old(mem), |old(free)|, d, sz, n))
      ensures n > 0 && !ok ==> OnlyTables(old(S()), S(), d)
      ensures n > 0 && ok ==> GrownTo(old(S()), S(), d, RoundUp(sz), RoundUp(sz + n), {})
      ensures n <= 0 ==> ok == (n == 0 || (sz > 0 && sz + n != 0))
      ensures n <= 0 && sz + n >= 0 ==> Unmapped(old(S()), S(), d, RoundUp(sz + n), if n == 0 then 0 else RoundUp(sz))
      ensures n <= 0 && sz + n < 0 ==> S() == old(S())
      ensures MapsBelow(S(), d, newsz) <==> !(n < 0 && sz + n == 0)
    {
      hide Owned, GrownTo, Unmapped, OnlyTables, PteOf, Frames, MapsBelow, RoundUp;
      newsz, ok := sz, true;
      if n > 0 {
        ghost var grown;
        var r;
        NotMappedAbove(S(), d, sz);
        r, grown := Allocuvm(d, sz, sz + n);
        if grown { GrownMaps(old(S()), S(), d, sz, sz + n); } else { TablesMap(old(S()), S(), d, sz); }
        if r == 0 { return false, sz; }
        newsz := r;
      } else if n < 0 {
        var to := if sz + n >= 0 then sz + n else sz + n + 0x1_0000_0000;
        var r := Deallocuvm(d, sz, to);
        if to < sz { ShrunkMaps(old(S()), S(), d, sz, to); }
        if r == 0 { return false, sz; }
        newsz := r;
      } else {
        NothingUnmapped(S(), d, RoundUp(sz), 0);
      }
    }

    /** uva2ka(): the frame of user page v, if it is mapped for the user. fault is its use of the
        entry that walkpgdir() did not find. */
    method Uva2ka(d: nat, v: nat) returns (r: Option<nat>, fault: bool)
      requires Valid() && IsDir(S(), d) && v < NPAGES
      modifies this
      ensures Valid() && S() == old(S()) && free == old(free)
      ensures fault <==> Pde(mem, d, v / ENTRIES) == Absent
      ensures r == if Reaches(S(), d, v) then Some(PteOf(mem, d, v).frame) else None
      ensures var e := PteOf(mem, d, v); r == if e.Present? && e.perm / 4 % 2 == 1 then Some(e.frame) else None
    {
      hide Owned, OnlyTables;
      var pgtab := Walk(d, v, false);
      fault, r := pgtab == None, None;
      if fault { return; }
      EntryIn(S(), d, v);
      var pte := mem[pgtab.value].entries[v % ENTRIES];
      if pte.Present? && pte.perm / 4 % 2 == 1 { r := Some(pte.frame); }
    }

    /** copyout(): buf is at va0 of directory d, or the first n bytes of it are, up to the first
        page that is not mapped for the user. That is at the kernel half at the latest, so the
        addresses do not wrap. */
    method Copyout(d: nat, va0: nat, buf: seq<byte>) returns (ok: bool, fault: bool, ghost n: nat)
      requires Valid() && IsDir(S(), d) && va0 < TWO32
      requires forall v: nat :: UPAGES <= v < NPAGES ==> !Reaches(S(), d, v)
      modifies this
      ensures Valid() && IsDir(S(), d) && free == old(free) && CopiedOut(old(S()), S(), d, va0, buf, n)
      ensures forall a: nat :: va0 <= a < va0 + n ==> a / PGSIZE < UPAGES && Reaches(S(), d, a / PGSIZE)
      ensures ok <==> n == |buf|
      ensures !ok ==>
                && n < |buf| && (va0 + n) / PGSIZE < NPAGES && !Reaches(S(), d, (va0 + n) / PGSIZE)
                && (n == 0 || (va0 + n) % PGSIZE == 0)
      ensures fault <==> !ok && Pde(mem, d, (va0 + n) / PGSIZE / ENTRIES) == Absent
    {
      hide Owned, CopiedOut, SameMap, Reaches, PteOf, Pde;
      NothingOut(S(), d, va0, buf);
      var va, i := va0, 0;
      n, fault, ok := 0, false, true;
      while i < |buf|
        invariant n == i && i <= |buf| && ok && !fault
        invariant i < |buf| ==> va == va0 + i && va < NPAGES * PGSIZE && (i > 0 ==> va % PGSIZE == 0)
        invariant Valid() && IsDir(S(), d) && free == old(free) && CopiedOut(old(S()), S(), d, va0, buf, n)
        invariant forall a: nat :: va0 <= a < va0 + n ==> a / PGSIZE < UPAGES && Reaches(S(), d, a / PGSIZE)
        invariant forall v: nat :: UPAGES <= v < NPAGES ==> !Reaches(S(), d, v)
      {
        var m;
        ok, fault, m := CopyTurn(d, va, va0, buf, i, old(S()));
        if !ok { return; }
        forall a: nat | va <= a < va + m ensures a / PGSIZE == va / PGSIZE { InPage(va, m, a); }
        i, va := i + m, (va / PGSIZE + 1) * PGSIZE;
        n := i;
      }
    }

    /** One turn of copyout()'s loop, from byte i of buf. */
    method CopyTurn(d: nat, va: nat, ghost va0: nat, buf: seq<byte>, i: nat, ghost s: Space)
      returns (ok: bool, fault: bool, m: nat)
      requires Valid() && IsDir(S(), d) && i < |buf| && va == va0 + i && va < NPAGES * PGSIZE
      requires IsDir(s, d) && CopiedOut(s, S(), d, va0, buf, i)
      requires forall v: nat :: UPAGES <= v < NPAGES ==> !Reaches(S(), d, v)
      modifies this
      ensures Valid() && IsDir(S(), d) && free == old(free)
      ensures ok <==> old(Reaches(S(), d, va / PGSIZE))
      ensures fault <==> Pde(mem, d, va / PGSIZE / ENTRIES) == Absent
      ensures !ok ==> S() == old(S())
      ensures ok ==>
                && !fault && va / PGSIZE < UPAGES && va % PGSIZE + m <= PGSIZE && i + m <= |buf| && 0 < m
                && (i + m < |buf| ==> va + m == (va / PGSIZE + 1) * PGSIZE)
                && CopiedOut(s, S(), d, va0, buf, i + m)
                && forall v: nat :: v < NPAGES ==> (Reaches(S(), d, v) <==> old(Reaches(S(), d, v)))
    {
      hide Owned, CopiedOut, SameMap, PteOf, Pde;
      var v := va / PGSIZE;
      var pa0;
      pa0, fault := Uva2ka(d, v);
      ok, m := pa0.Some?, 0;
      if !ok { return; }
      MappedHasTable(S(), d, v);
      m := PGSIZE - va % PGSIZE;
      if m > |buf| - i { m := |buf| - i; }
      OutNext(s, S(), d, va0, buf, i, m);
      ghost var w := S();
      mem := mem[pa0.value := Page(Laid(mem[pa0.value].bytes, va % PGSIZE, buf, i, m))];
      assert S() == Poked(w, pa0.value, va % PGSIZE, buf, i, m);
      SameReaches(w, S(), d);
      MappedHasTable(S(), d, v);
    }
  }

  /** A frame is free when it has lost its owner. */
  lemma FreeOrOwned(owner: map<nat, Owner>, free: seq<nat>, owner': map<nat, Owner>, free': seq<nat>)
    requires owner'.Keys + (set f | f in free') == owner.Keys + (set f | f in free)
    requires (forall f :: f in free ==> f !in owner) && (forall f :: f in free' ==> f !in owner')
    ensures forall f: nat :: f in free' <==> (f in owner || f in free) && f !in owner'
  {
    forall f: nat ensures f in free' <==> (f in owner || f in free) && f !in owner' {
      assert f in owner'.Keys + (set f | f in free') <==> f in owner.Keys + (set f | f in free);
    }
  }

  lemma MappedHasTable(s: Space, d: nat, v: nat)
    requires IsDir(s, d) && v < NPAGES && PteOf(s.mem, d, v).Present?
    ensures Pde(s.mem, d, v / ENTRIES) != Absent
  {
  }

  lemma NothingCopied(s: Space, w: Space, d: nat, c: nat)
    requires IsDir(s, d) && IsDir(w, c) && forall u: nat :: u < UPAGES ==> PteOf(w.mem, c, u) == Absent
    ensures CopiedTo(s, w, d, c, 0)
  {
  }

  lemma KernelStays(w: Space, y: Space, c: nat, data: nat)
    requires IsDir(w, c) && IsDir(y, c) && SameKernel(w, y, c) && KERNLINK < data < UPAGES + NFRAMES && KernelMap(w, c, data, 4)
    ensures KernelMap(y, c, data, 4)
  {
    hide PteOf;
  }

  lemma ExtraGone(s: Space, x: Space, y: Space, c: nat, f: nat)
    requires Added(s, x, c, {f}) && SameMap(x, y) && f !in s.owner && y.owner == x.owner - {f} && |y.mem| == |x.mem| == |s.mem|
    requires forall g: nat :: g < |x.mem| && g != f ==> y.mem[g] == x.mem[g]
    requires f in x.owner && x.owner[f] == Held
    ensures Added(s, y, c, {}) && IsDir(y, c)
  {
    hide PteOf;
  }

  /** The page to copy is there, with its contents, and c has none yet. */
  lemma SourcePage(s: Space, w: Space, d: nat, c: nat, n: nat)
    requires Owned(s) && Added(s, w, c, {}) && IsDir(s, d) && IsDir(w, c) && CopiedTo(s, w, d, c, n) && n < UPAGES && PteOf(s.mem, d, n).Present?
    requires |w.mem| == |s.mem|
    ensures IsDir(w, d) && PteOf(w.mem, d, n) == PteOf(s.mem, d, n) && PteOf(w.mem, c, n) == Absent
    ensures Pde(w.mem, d, n / ENTRIES).Present? && IsTable(w.mem, Pde(w.mem, d, n / ENTRIES).frame)
    ensures var f := PteOf(s.mem, d, n).frame; f < |s.mem| && w.mem[f] == s.mem[f] && s.mem[f].Page? && f in s.owner
  {
    assert PteOwned(s, d, n);
    assert PteOf(w.mem, d, n) == PteOf(s.mem, d, n);
  }

  lemma EmptyEntry(s: Space, w: Space, d: nat, c: nat, n: nat)
    requires IsDir(s, d) && IsDir(w, c) && CopiedTo(s, w, d, c, n) && n < UPAGES
    ensures PteOf(w.mem, c, n) == Absent
  {
  }

  lemma SameKernelSelf(w: Space, c: nat)
    requires IsDir(w, c)
    ensures SameKernel(w, w, c)
  {
  }

  lemma NothingChanged(s: Space)
    ensures Restored(s, s)
  {
  }

  lemma NoKernelYet(w: Space, c: nat, data: nat)
    requires IsDir(w, c) && KERNLINK < data < UPAGES + NFRAMES && forall v: nat :: v < NPAGES ==> PteOf(w.mem, c, v) == Absent
    ensures KernelMap(w, c, data, 0)
  {
  }

  lemma Pushed(q: seq<nat>, f: nat)
    requires NoDuplicates(q) && f !in q
    ensures NoDuplicates([f] + q)
  {
  }

  /** Zeroed pages that the user can read and write. */
  lemma GrownPages(s: Space, w: Space, d: nat, from: nat, to: nat)
    requires GrownTo(s, w, d, from, to, {}) && IsDir(s, d) && IsDir(w, d) && to <= UPAGES
    ensures forall u: nat :: from <= u < to ==>
              var e := PteOf(w.mem, d, u);
              && e.Present? && e.perm == 6 && e.frame !in s.owner && e.frame < |w.mem| && w.mem[e.frame].Page?
              && forall k :: 0 <= k < PGSIZE ==> w.mem[e.frame].bytes[k] == 0
  {
    hide PteOf;
    forall u: nat | from <= u < to ensures FreshPage(s, w, d, u) {}
  }

  lemma GrownEntry(s: Space, w: Space, d: nat, from: nat, a: nat)
    requires GrownTo(s, w, d, from, a, {}) && IsDir(s, d) && a < NPAGES
    ensures IsDir(w, d) && PteOf(w.mem, d, a) == PteOf(s.mem, d, a)
  {
    hide PteOf;
  }

  lemma HeldAfter(w: Space, z: Space, d: nat, from: nat, to: nat, f: nat)
    requires Unmapped(w, z, d, from, to) && f in w.owner && w.owner[f] == Held
    ensures f in z.owner && z.owner[f] == Held
  {
  }

  lemma OnePage(v: nat)
    requires v < UPAGES
    ensures FirstPage(v * PGSIZE) == v == LastPage(v * PGSIZE, PGSIZE)
  {
    assert (v * PGSIZE + PGSIZE - 1) % TWO32 == v * PGSIZE + PGSIZE - 1;
  }

  lemma FrameOfPage(s: Space, d: nat, v: nat)
    requires Owned(s) && IsDir(s, d) && v < UPAGES && PteOf(s.mem, d, v).Present?
    ensures var f := PteOf(s.mem, d, v).frame;
            f in s.owner && f < |s.mem| && s.mem[f].Page? && s.owner[f] == User(d, v)
  {
    assert PteOwned(s, d, v);
  }

  /** The whole of a page table that does not exist. */
  lemma SkipTable(s: Space, w: Space, d: nat, from: nat, a: nat, to: nat)
    requires Owned(s) && IsDir(s, d) && IsDir(w, d) && Unmapped(s, w, d, from, a) && from <= a <= to <= UPAGES
    requires to <= (a / ENTRIES + 1) * ENTRIES && Pde(w.mem, d, a / ENTRIES) == Absent
    ensures Unmapped(s, w, d, from, to)
  {
    forall u: nat | a <= u < to ensures PteOf(w.mem, d, u) == Absent {
      assert u / ENTRIES == a / ENTRIES;
      NoTableNoPages(w, d, a, u);
    }
    UnmappedSkip(s, w, d, from, a, to);
  }

  lemma TableThere(s: Space, d: nat, i: nat)
    requires Owned(s) && IsDir(s, d) && i < ENTRIES
    ensures Pde(s.mem, d, i).Present? ==> IsTable(s.mem, Pde(s.mem, d, i).frame)
  {
    assert PdeOwned(s, d, i);
  }

  lemma SameReaches(w: Space, y: Space, d: nat)
    requires SameMap(w, y) && IsDir(w, d) && IsDir(y, d)
    ensures forall v: nat :: v < NPAGES ==> (Reaches(y, d, v) <==> Reaches(w, d, v))
  {
  }

  /** The pages below sz are mapped, and no others of the user half. */
  ghost predicate MapsBelow(s: Space, d: nat, sz: nat)
    requires IsDir(s, d)
  {
    forall u: nat :: u < UPAGES ==> (PteOf(s.mem, d, u).Present? <==> u < RoundUp(sz))
  }

  /** There are frames for n bytes more, and they are below the kernel. */
  predicate Room(mem: seq<Frame>, left: nat, d: nat, sz: nat, n: nat)
    requires IsTable(mem, d)
  {
    sz + n < KERNBASE && left >= Frames(mem, d, RoundUp(sz), RoundUp(sz + n))
  }

  lemma NothingLeft(s: Space, y: Space, d: nat, sz: nat)
    requires IsDir(s, d) && IsDir(y, d) && MapsBelow(s, d, sz) && Unmapped(s, y, d, 0, RoundUp(sz))
    ensures forall u: nat :: u < UPAGES ==> PteOf(y.mem, d, u) == Absent
  {
    hide PteOf;
  }

  lemma NotMappedAbove(s: Space, d: nat, sz: nat)
    requires IsDir(s, d) && MapsBelow(s, d, sz)
    ensures forall u: nat :: RoundUp(sz) <= u < UPAGES ==> PteOf(s.mem, d, u) == Absent
  {
  }

  lemma GrownMaps(s: Space, y: Space, d: nat, sz: nat, to: nat)
    requires IsDir(s, d) && IsDir(y, d) && MapsBelow(s, d, sz) && sz <= to
    requires GrownTo(s, y, d, RoundUp(sz), RoundUp(to), {})
    ensures MapsBelow(y, d, to)
  {
    hide PteOf;
  }

  lemma TablesMap(s: Space, y: Space, d: nat, sz: nat)
    requires IsDir(s, d) && IsDir(y, d) && MapsBelow(s, d, sz) && OnlyTables(s, y, d)
    ensures MapsBelow(y, d, sz)
  {
    hide PteOf;
  }

  lemma ShrunkMaps(s: Space, y: Space, d: nat, sz: nat, to: nat)
    requires IsDir(s, d) && IsDir(y, d) && MapsBelow(s, d, sz) && to < sz <= UPAGES * PGSIZE
    requires Unmapped(s, y, d, RoundUp(to), RoundUp(sz))
    ensures MapsBelow(y, d, to) && (to == 0 ==> !MapsBelow(y, d, sz))
  {
    hide PteOf;
    assert PteOf(y.mem, d, 0).Present? ==> 0 < RoundUp(to);
  }
}
