/** The user-space allocator of Kernighan and Ritchie, over an Arena. Addresses are in units of a
    header; whether the kernel has memory, should it be asked, is a parameter. */
module Umalloc {
  import opened Common
  import opened Arena
  import opened Break
  import opened Blocks
  import PageMap

  const HEADER: nat := 8
  /** All the addresses of 32 bits. */
  const WRAP: nat := 0x2000_0000
  const MINUNITS: nat := 4096

  function Cycle(i: nat, n: nat): nat
    requires 0 < n && i < 2 * n
  {
    if i < n then i else i - n
  }

  /** Units for nbytes, in 32 bits: a header and enough headers more. */
  function UnitsFor(nbytes: nat): (n: nat)
    ensures n >= 1
  {
    (nbytes + HEADER - 1) % TWO32 / HEADER + 1
  }

  /** The bytes after its header are enough unless the sum wraps; then there are none at all. */
  lemma UnitsAreEnough(nbytes: nat)
    requires nbytes < TWO32
    ensures (UnitsFor(nbytes) - 1) * HEADER >= nbytes <==> nbytes + HEADER - 1 < TWO32
    ensures nbytes + HEADER - 1 < TWO32 ==> (UnitsFor(nbytes) - 1) * HEADER < nbytes + HEADER
    ensures nbytes + HEADER - 1 >= TWO32 ==> UnitsFor(nbytes) == 1
  {
  }

  function CoreFor(nunits: nat): (n: nat)
    ensures n >= nunits
  {
    if nunits < MINUNITS then MINUNITS else nunits
  }

  /** What morecore() asks sbrk for: the bytes of nu units modulo 2^32, read as an int. */
  function Asked(nu: nat): int {
    var bytes := nu * HEADER % TWO32;
    if bytes < TWO32 / 2 then bytes else bytes - TWO32
  }

  /** How morecore() ends. Fresh: nu new units are in the free list. Refused: sbrk fails. For 2 GiB
      or more sbrk gives nothing, or takes pages away, and still answers with the end of memory.
      Hollow: nu units from there on are in the free list all the same. Trap: the page of their
      header, or the program's own, is not mapped. Wrap: the units end, modulo 2^32, at base, which
      free() then takes for the next block. Unasked: morecore() was not called. */
  datatype Core = Unasked | Fresh | Refused | Hollow | Trap | Wrap

  function CoreEnds(base: nat, sz: nat, nu: nat, room: bool): (e: Core)
    ensures e != Unasked
  {
    var b := Sbrk(sz, Asked(nu), room);
    if b.answer == None then if b.pages == 0 then Trap else Refused
    else if sz >= b.pages * PageMap.PGSIZE then Trap
    else if sz / HEADER + nu == base + WRAP then Wrap
    else if Asked(nu) > 0 then Fresh else Hollow
  }

  /** The tests of morecore(), in their order. */
  lemma CoreTests(base: nat, sz: nat, nu: nat, room: bool)
    ensures var e, b := CoreEnds(base, sz, nu, room), Sbrk(sz, Asked(nu), room);
      && (b.answer == None ==> e == if b.pages == 0 then Trap else Refused)
      && (b.answer.Some? ==>
            && b.answer.value == sz
            && e == if sz >= b.pages * PageMap.PGSIZE then Trap else if sz / HEADER + nu == base + WRAP then Wrap
                    else if Asked(nu) > 0 then Fresh else Hollow)
  {
  }

  /** There is memory behind the new units if and only if they are less than 2 GiB. */
  lemma CoreIsMemory(base: nat, sz: nat, nu: nat, room: bool)
    requires sz % HEADER == 0 && base * HEADER < sz <= KERNBASE && 0 < nu <= WRAP
    ensures var e, b := CoreEnds(base, sz, nu, room), Sbrk(sz, Asked(nu), room);
      && (nu * HEADER < TWO32 / 2 ==>
            && e == (if room && sz + nu * HEADER < KERNBASE then Fresh else Refused)
            && b.sz == if e == Fresh then sz + nu * HEADER else sz)
      && (e == Fresh || e == Refused ==> b.sz % HEADER == 0 && base * HEADER < b.sz <= KERNBASE && b.pages == RoundUp(b.sz))
      && (nu * HEADER >= TWO32 / 2 ==> (e == Hollow || e == Trap || e == Wrap) && b.sz <= sz && b.pages <= RoundUp(sz))
  {
    OnlyGrowthMaps(sz, Asked(nu), room);
  }

  /** malloc(0x8000_0000), with no free block that fits: sbrk maps nothing and answers. The end of
      memory is taken for 0x1000_0001 units, whose header is stored, unless it would be on a page that
      is not mapped. */
  lemma TwoGigabytes(base: nat, sz: nat, room: bool)
    requires sz % HEADER == 0 && base * HEADER < sz < 0x7FFF_FFF8
    ensures var nu := CoreFor(UnitsFor(0x8000_0000));
      && nu == 0x1000_0001 && Sbrk(sz, Asked(nu), room) == Brk(Some(sz), sz, RoundUp(sz))
      && CoreEnds(base, sz, nu, room) == if sz % PageMap.PGSIZE == 0 then Trap else Hollow
  {
    assert Asked(0x1000_0001) == -0x7FFF_FFF8;
  }

  /** Some element of the free list is followed by bp in address order. */
  lemma {:induction false} PlaceExists(a: Arena, bp: nat, m: nat) returns (k: nat)
    requires Linked(a) && a.base < bp && bp !in a.order && m < |a.order|
    requires m + 1 < |a.order| ==> bp < a.order[m + 1]
    ensures Place(a, bp, k)
    decreases m
  {
    if a.order[m] < bp {
      k := m;
    } else {
      assert a.order[m] in a.order;
      k := PlaceExists(a, bp, m - 1);
    }
  }

  lemma PlaceIsOne(a: Arena, bp: nat, i: nat, k: nat)
    requires Linked(a) && Place(a, bp, i) && Place(a, bp, k)
    ensures i == k
  {
    if i < k { Ascending(a, i, k); if i + 1 < k { Ascending(a, i + 1, k); } }
    if k < i { Ascending(a, k, i); if k + 1 < i { Ascending(a, k + 1, i); } }
  }

  lemma BlockAboveBase(a: Arena, s: nat)
    requires Good(a) && s in a.used
    ensures a.base < s && s !in a.order && s in a.hdr && a.hdr[s].size > 0
  {
    assert IsBlock(a, s) && OwnsUnits(a, s);
    assert s in a.owner;
  }

  /** The n units at x end at y as addresses exactly if they do so as numbers. */
  predicate EndsAt(x: nat, n: nat, y: nat) {
    (x + n) % WRAP == y <==> x + n == y
  }

  lemma EndBelow(x: nat, n: nat, y: nat)
    requires x + n < WRAP
    ensures EndsAt(x, n, y)
  {
  }

  lemma EndAbove(x: nat, n: nat, y: nat)
    requires y < x < WRAP && n <= WRAP && x + n != y + WRAP
    ensures EndsAt(x, n, y)
  {
    if x + n >= WRAP { assert (x + n) % WRAP == x + n - WRAP; }
  }

  /** The comparisons of free() with the ends of block bp and of the free block before it are right
      although addresses wrap. */
  ghost predicate NoWrap(a: Arena, bp: nat) {
    && bp in a.hdr
    && forall k: nat :: Place(a, bp, k) ==>
         && a.order[k] in a.hdr
         && EndsAt(bp, a.hdr[bp].size, a.hdr[a.order[k]].ptr) && EndsAt(a.order[k], a.hdr[a.order[k]].size, bp)
  }

  lemma NoWrapAt(a: Arena, bp: nat, k: nat)
    requires NoWrap(a, bp) && Place(a, bp, k)
    ensures bp in a.hdr && a.order[k] in a.hdr
    ensures EndsAt(bp, a.hdr[bp].size, a.hdr[a.order[k]].ptr) && EndsAt(a.order[k], a.hdr[a.order[k]].size, bp)
  {
  }

  /** Where an element of the free list ends. */
  lemma FreeEnd(a: Arena, k: nat, n: nat)
    requires Good(a) && k < |a.order| && a.base < n && forall u :: u in a.owner ==> u < n
    ensures a.order[k] in a.hdr && a.order[k] + a.hdr[a.order[k]].size <= n
  {
    var p := a.order[k];
    BaseFirst(a);
    if p != a.base { assert IsBlock(a, p) && OwnsUnits(a, p); assert p + a.hdr[p].size - 1 in a.owner; }
  }

  /** In an arena below 2 GiB nothing wraps. */
  lemma BelowNoWrap(a: Arena, bp: nat)
    requires Good(a) && bp in a.used && a.base < WRAP - 1 && forall u :: u in a.owner ==> u < WRAP - 1
    ensures NoWrap(a, bp)
  {
    hide Good, EndsAt;
    BlockInside(a, bp);
    forall k: nat | Place(a, bp, k)
      ensures a.order[k] in a.hdr
      ensures EndsAt(bp, a.hdr[bp].size, a.hdr[a.order[k]].ptr) && EndsAt(a.order[k], a.hdr[a.order[k]].size, bp)
    {
      FreeEnd(a, k, WRAP - 1);
      EndBelow(bp, a.hdr[bp].size, a.hdr[a.order[k]].ptr);
      EndBelow(a.order[k], a.hdr[a.order[k]].size, bp);
    }
  }

  /** Nor does it when the units at hp are new, unless they end at base. */
  lemma GrownNoWrap(a: Arena, hp: nat, nu: nat)
    requires Good(a) && a.base < hp < WRAP && 0 < nu <= WRAP && hp + nu != a.base + WRAP && forall u :: u in a.owner ==> u < hp
    ensures NoWrap(Grown(a, hp, nu), hp)
  {
    hide Good, EndsAt, Grown, Place;
    var b := Grown(a, hp, nu);
    GrownOwner(a, hp, nu);
    GrownLast(a, hp, nu);
    EndAbove(hp, nu, a.base);
    forall k: nat | Place(b, hp, k)
      ensures k < |b.order| && b.order[k] in b.hdr
      ensures EndsAt(hp, nu, b.hdr[b.order[k]].ptr) && EndsAt(b.order[k], b.hdr[b.order[k]].size, hp)
    {
      PlaceIn(b, hp, k);
      EndBelowOrAt(b.order[k], b.hdr[b.order[k]].size, hp);
    }
  }

  lemma PlaceIn(a: Arena, bp: nat, k: nat)
    requires Place(a, bp, k)
    ensures k < |a.order|
  {
  }

  lemma EndBelowOrAt(x: nat, n: nat, y: nat)
    requires x + n <= y < WRAP
    ensures EndsAt(x, n, y)
  {
  }

  /** The new units are behind the whole free list. */
  lemma GrownLast(a: Arena, hp: nat, nu: nat)
    requires Good(a) && a.base < hp && forall u :: u in a.owner ==> u < hp
    ensures var b := Grown(a, hp, nu);
      forall k: nat :: Place(b, hp, k) ==>
        a.order[k] in a.hdr && a.order[k] != hp && a.hdr[a.order[k]].ptr == a.base && a.order[k] + a.hdr[a.order[k]].size <= hp
  {
    var b := Grown(a, hp, nu);
    forall k: nat | Place(b, hp, k)
      ensures a.order[k] in a.hdr && a.order[k] != hp && a.hdr[a.order[k]].ptr == a.base && a.order[k] + a.hdr[a.order[k]].size <= hp
    {
      FreeEnd(a, k, hp);
      NextInOrder(a, k);
      if k + 1 < |a.order| { FreeEnd(a, k + 1, hp); }
    }
  }

  class Umalloc {
    const base: nat
    var freep: nat                // 0 before the first malloc
    var hdr: map<nat, Header>
    var sz: nat                   // the size of the process, in bytes
    var pages: nat                // how many of its pages are mapped
    ghost var order: seq<nat>
    ghost var used: set<nat>
    ghost var owner: map<nat, nat>

    ghost function A(): Arena
      reads this
    {
      Arena(base, hdr, order, used, owner)
    }

    ghost predicate Valid()
      reads this
    {
      && base > 0
      && (freep == 0 ==> used == {} && owner == map[])
      && (freep != 0 ==> Good(A()) && freep in order)
    }

    /** The process is sz bytes long, and its memory holds all the units of the arena. */
    ghost predicate Backed()
      reads this
    {
      && sz % HEADER == 0 && base * HEADER < sz <= KERNBASE && pages == RoundUp(sz)
      && forall u :: u in owner ==> (u + 1) * HEADER <= sz
    }

    constructor (base: nat, sz: nat)
      requires base > 0 && sz % HEADER == 0 && base * HEADER < sz <= KERNBASE
      ensures Valid() && Backed() && used == {} && owner == map[] && this.base == base && this.sz == sz
    {
      this.base, freep, hdr, this.sz, pages := base, 0, map[], sz, RoundUp(sz);
      order, used, owner := [], {}, map[];
    }

    /** The search of free(): the element of the free list after which bp belongs. */
    method Search(bp: nat) returns (p: nat, ghost k: nat)
      requires Valid() && bp in used
      ensures Place(A(), bp, k) && p == order[k]
      ensures p in hdr && (p < bp < hdr[p].ptr || (hdr[p].ptr <= p && (p < bp || bp < hdr[p].ptr)))
    {
      hide Good, Linked, Tiled;
      ghost var a := A();
      BlockAboveBase(a, bp);
      GoodFacts(a);
      k := PlaceExists(a, bp, |order| - 1);
      ghost var i :| 0 <= i < |order| && order[i] == freep;
      p := freep;
      while !(bp > p && bp < hdr[p].ptr)
        invariant 0 <= i < |order| && p == order[i]
        decreases if i <= k then k - i else |order| + k - i
      {
        SearchStops(a, bp, i);
        if p >= hdr[p].ptr && (bp > p || bp < hdr[p].ptr) { break; }
        p := hdr[p].ptr;
        i := Cycle(i + 1, |order|);
      }
      SearchStops(a, bp, i);
      PlaceIsOne(a, bp, i, k);
    }

    /** The stores of free(), with p from its search. */
    method Join(p: nat, bp: nat)
      requires p in hdr && bp in hdr && hdr[p].ptr in hdr && p != bp
      requires EndsAt(bp, hdr[bp].size, hdr[p].ptr) && EndsAt(p, hdr[p].size, bp)
      modifies this`hdr
      ensures hdr == Coalesced(old(hdr), p, bp)
    {
      hide Coalesced;
      ghost var h := hdr;
      if (bp + hdr[bp].size) % WRAP == hdr[p].ptr {
        hdr := hdr[bp := Header(hdr[hdr[p].ptr].ptr, hdr[bp].size + hdr[hdr[p].ptr].size)];
      } else {
        hdr := hdr[bp := hdr[bp].(ptr := hdr[p].ptr)];
      }
      if (p + hdr[p].size) % WRAP == bp {
        hdr := hdr[p := Header(hdr[bp].ptr, hdr[p].size + hdr[bp].size)];
      } else {
        hdr := hdr[p := hdr[p].(ptr := bp)];
      }
      CoalescedCode(h, p, bp, hdr);
    }

    /** free() of the block whose header is at bp. Its units stay in the arena, now in a free
        block, and no other allocated block changes. */
    method Free(bp: nat)
      requires Valid() && bp in used && (Backed() || NoWrap(A(), bp))
      modifies this`freep, this`hdr, this`order, this`used, this`owner
      ensures Valid() && freep != 0 && used == old(used) - {bp} && owner.Keys == old(owner).Keys
      ensures forall s :: s in used ==> s in old(hdr) && s in hdr && hdr[s] == old(hdr)[s]
      ensures bp in old(hdr) && HasFit(A(), old(hdr)[bp].size)
      ensures old(Backed()) ==> Backed()
    {
      hide Good, Linked, Tiled, Freed, HasFit, Coalesced, Place, NoWrap, EndsAt;
      ghost var a := A();
      if Backed() { BelowNoWrap(a, bp); }
      BlockAboveBase(a, bp);
      GoodFacts(a);
      var p;
      ghost var k;
      p, k := Search(bp);
      PlaceFacts(a, bp, k);
      FreedKeeps(a, bp, k);
      CoalescedIsFreed(a, bp, k);
      NoWrapAt(a, bp, k);
      Join(p, bp);
      freep := p;
      order, used, owner := Freed(a, bp, k).order, Freed(a, bp, k).used, Freed(a, bp, k).owner;
      assert A() == Freed(a, bp, k);
    }

    /** The system call. */
    method CallSbrk(n: int, room: bool) returns (answer: Option<nat>)
      modifies this`sz, this`pages
      ensures var b := Sbrk(old(sz), n, room); answer == b.answer && sz == b.sz && pages == b.pages
    {
      var b := Sbrk(sz, n, room);
      sz, pages, answer := b.sz, b.pages, b.answer;
    }

    /** morecore(): r is 0 if sbrk fails. Unless it stops, the new units are free and in one piece. */
    method Morecore(nu0: nat, room: bool) returns (r: nat, core: Core)
      requires Valid() && Backed() && freep != 0 && 0 < nu0 <= WRAP
      modifies this
      ensures core == CoreEnds(base, old(sz), CoreFor(nu0), room)
      ensures sz == Sbrk(old(sz), Asked(CoreFor(nu0)), room).sz && pages == Sbrk(old(sz), Asked(CoreFor(nu0)), room).pages
      ensures core == Fresh ==> sz == old(sz) + 8 * (if nu0 < 4096 then 4096 else nu0)
      ensures core == Refused ==> r == 0
      ensures core != Fresh && core != Hollow ==> A() == old(A()) && freep == old(freep)
      ensures core == Fresh || core == Hollow ==>
                && r == freep != 0 && Valid() && used == old(used) && HasFit(A(), CoreFor(nu0))
                && owner.Keys == old(owner).Keys + Units(old(sz) / HEADER, CoreFor(nu0))
                && forall s :: s in used ==> s in old(hdr) && s in hdr && hdr[s] == old(hdr)[s]
      ensures core == Fresh || core == Refused ==> Backed()
    {
      hide Good, HasFit, NoWrap, CoreEnds, Asked, Sbrk, Units, Grown;
      var nu := nu0;
      if nu < MINUNITS { nu := MINUNITS; }
      CoreIsMemory(base, sz, nu, room);
      CoreTests(base, sz, nu, room);
      var answer := CallSbrk(Asked(nu), room);
      if answer == None { return 0, if pages == 0 then Trap else Refused; }
      if answer.value >= pages * PageMap.PGSIZE { return 0, Trap; }
      var hp := answer.value / HEADER;
      if hp + nu == base + WRAP { return 0, Wrap; }
      AddUnits(hp, nu);
      r := freep;
      core := if Asked(nu) > 0 then Fresh else Hollow;
      if core == Fresh { BackedUnits(old(owner).Keys, owner.Keys, hp, nu); }
    }

    /** morecore() from its store to the header on: the nu units at hp go to the free list. */
    method AddUnits(hp: nat, nu: nat)
      requires Valid() && freep != 0 && base < hp < WRAP && 0 < nu <= WRAP && hp + nu != base + WRAP
      requires forall u :: u in owner ==> u < hp
      modifies this`freep, this`hdr, this`order, this`used, this`owner
      ensures Valid() && freep != 0 && used == old(used) && HasFit(A(), nu)
      ensures owner.Keys == old(owner).Keys + Units(hp, nu)
      ensures forall s :: s in used ==> s in old(hdr) && s in hdr && hdr[s] == old(hdr)[s]
    {
      hide Good, HasFit, NoWrap;
      ghost var a := A();
      GrownKeeps(a, hp, nu);
      GrownNoWrap(a, hp, nu);
      hdr := hdr[hp := Header(if hp in hdr then hdr[hp].ptr else 0, nu)];
      used, owner := Grown(a, hp, nu).used, Grown(a, hp, nu).owner;
      assert A() == Grown(a, hp, nu);
      Free(hp);
    }

    /** Take block t of the free list, whole or in part; prevp is the element before it. */
    method Take(prevp: nat, p0: nat, nunits: nat, ghost t: nat) returns (p: nat)
      requires Valid() && freep != 0 && 0 < t < |order| && order[t] == p0 && order[t - 1] == prevp
      requires nunits > 0 && p0 in hdr && hdr[p0].size >= nunits
      modifies this`freep, this`hdr, this`order, this`used, this`owner
      ensures Valid() && freep != 0 && Took(old(A()), A(), p) && hdr[p].size == nunits
    {
      hide Good, Took;
      ghost var a := A();
      GoodFacts(a);
      PrevNotZero(a, t);
      p := p0;
      if hdr[p].size == nunits {
        TakenWholeKeeps(a, t);
        hdr := hdr[prevp := hdr[prevp].(ptr := hdr[p].ptr)];
        order, used := TakenWhole(a, t).order, TakenWhole(a, t).used;
        assert A() == TakenWhole(a, t);
        assert order[t - 1] == prevp;
        TookHeader(a, t);
      } else {
        TakenTailKeeps(a, t, nunits);
        hdr := hdr[p := hdr[p].(size := hdr[p].size - nunits)];
        p := p + hdr[p].size;
        hdr := hdr[p := Header(if p in hdr then hdr[p].ptr else 0, nunits)];
        used, owner := TakenTail(a, t, nunits).used, TakenTail(a, t, nunits).owner;
        assert A() == TakenTail(a, t, nunits);
        assert order[t - 1] == prevp;
      }
      freep := prevp;
    }

    /** malloc() calls morecore(), when nothing fits. */
    method Refill(nunits: nat, room: bool, ghost a0: Arena) returns (p: nat, core: Core)
      requires Valid() && Backed() && freep != 0 && 0 < nunits <= WRAP && Extended(a0, A(), {})
      modifies this
      ensures core == CoreEnds(base, old(sz), CoreFor(nunits), room)
      ensures var b := Sbrk(old(sz), Asked(CoreFor(nunits)), room); sz == b.sz && pages == b.pages
      ensures core == Refused ==> p == 0
      ensures core != Fresh && core != Hollow ==> A() == old(A()) && freep == old(freep)
      ensures core == Fresh || core == Refused ==> Backed()
      ensures core == Fresh || core == Hollow ==>
                && p == freep != 0 && Valid() && HasFit(A(), nunits)
                && var added := Units(old(sz) / HEADER, CoreFor(nunits));
                   Extended(a0, A(), added) && Called(base, old(sz), nunits, room, core, sz, pages, added)
    {
      hide Good, HasFit, Extended, CoreFor, CoreEnds, Asked, Sbrk, Units, Called;
      ghost var a := A();
      p, core := Morecore(nunits, room);
      if core == Fresh || core == Hollow {
        FitsLess(A(), CoreFor(nunits), nunits);
        ExtendedMore(a0, a, A(), Units(old(sz) / HEADER, CoreFor(nunits)));
        CalledIs(base, old(sz), nunits, room, core, sz, pages);
      }
    }

    /** The end of malloc(): block p0 is big enough. */
    method Grant(prevp: nat, p0: nat, nunits: nat, ghost t: nat, ghost a0: Arena, ghost added: set<nat>,
                 ghost core: Core, ghost sz0: nat, ghost room: bool) returns (p: nat)
      requires Valid() && freep != 0 && 0 < t < |order| && order[t] == p0 && order[t - 1] == prevp
      requires p0 in hdr && hdr[p0].size >= nunits && Extended(a0, A(), added)
      requires 0 < nunits <= CoreFor(nunits) <= WRAP && sz0 % HEADER == 0 && base * HEADER < sz0 <= KERNBASE
      requires core == Unasked || core == Fresh || core == Hollow
      requires core == Unasked || core == Fresh ==> Backed()
      requires core != Unasked ==>
                 core == CoreEnds(base, sz0, CoreFor(nunits), room) && sz == Sbrk(sz0, Asked(CoreFor(nunits)), room).sz
      modifies this`freep, this`hdr, this`order, this`used, this`owner
      ensures Valid() && freep != 0 && Allocated(a0, A(), p, nunits) && owner.Keys == a0.owner.Keys + added
      ensures core == Unasked || core == Fresh ==> Backed()
      ensures (p + nunits) * HEADER <= sz <==> core == Unasked || CoreFor(nunits) * HEADER < TWO32 / 2
    {
      hide Good, Took, Extended, Allocated, CoreFor, CoreEnds, Asked, Sbrk;
      ghost var a := A();
      p := Take(prevp, p0, nunits, t);
      AllocatedIs(a0, a, A(), p, nunits, added);
      TookUnits(a, A(), p);
      BlockSits(A(), p, nunits, core, sz0, sz, room);
    }

    method Init()
      requires Valid() && freep == 0
      modifies this`freep, this`hdr, this`order
      ensures Valid() && freep == base && order == [base] && Extended(old(A()), A(), {})
      ensures forall n: nat :: n > 0 ==> !HasFit(A(), n)
    {
      hdr := hdr[base := Header(base, 0)];
      freep := base;
      order := [base];
      EmptyGood(base, old(hdr));
      assert A() == Empty(base, old(hdr));
    }

    /** malloc(), for every size: the payload address of a block of the units computed, which was
        free or comes from sbrk. sbrk is asked only when nothing free fits, and once at most; then
        the search ends within one lap. No other allocated block is touched. The block lies in the
        memory of the process if and only if no core was needed or the core is less than 2 GiB. */
    method Malloc(nbytes: nat, room: bool) returns (r: Option<nat>, core: Core)
      requires Valid() && Backed() && nbytes < TWO32
      modifies this
      ensures core == if old(freep) != 0 && HasFit(old(A()), UnitsFor(nbytes)) then Unasked
                      else CoreEnds(base, old(sz), CoreFor(UnitsFor(nbytes)), room)
      ensures core == Unasked ==> sz == old(sz) && pages == old(pages)
      ensures core != Unasked ==>
                var b := Sbrk(old(sz), Asked(CoreFor(UnitsFor(nbytes))), room); sz == b.sz && pages == b.pages
      ensures Valid() && freep != 0
      ensures r == None <==> core == Refused || core == Trap || core == Wrap
      ensures r == None ==> Extended(old(A()), A(), {}) && !HasFit(A(), UnitsFor(nbytes))
      ensures r.Some? ==>
                && r.value > 0 && Allocated(old(A()), A(), r.value - 1, UnitsFor(nbytes))
                && var q := r.value - 1;
                   && q !in old(used) && used == old(used) + {q} && q in hdr && hdr[q].size == UnitsFor(nbytes)
                   && (forall s :: s in old(used) ==> s in old(hdr) && s in hdr && hdr[s] == old(hdr)[s])
      ensures r.Some? ==>
                && owner.Keys == old(owner).Keys +
                     if core == Unasked then {} else Units(old(sz) / HEADER, CoreFor(UnitsFor(nbytes)))
      ensures core == Unasked || core == Fresh || core == Refused ==> Backed()
      ensures r.Some? ==>
                ((r.value - 1 + UnitsFor(nbytes)) * HEADER <= sz <==> core == Unasked || CoreFor(UnitsFor(nbytes)) * HEADER < TWO32 / 2)
    {
      hide Good, HasFit, Extended, Allocated, UnitsFor, CoreFor, CoreEnds, Asked, Sbrk, Units, Scanning, Called;
      UnitsInReach(nbytes);
      var nunits := UnitsFor(nbytes);
      ghost var a0, fits := A(), freep != 0 && HasFit(A(), nunits);
      if freep == 0 {
        Init();
      } else {
        ExtendedSelf(a0);
      }
      var p, prevp;
      ghost var f, added;
      core := Unasked;
      p, prevp, f := FirstLap(nunits);
      ghost var c := 0;
      added := {};
      while true
        invariant Valid() && freep != 0 && Scanning(A(), freep, p, prevp, f, c, nunits) && Extended(a0, A(), added)
        invariant core == Unasked ==>
                    && added == {} && Backed() && sz == old(sz) && pages == old(pages) && (HasFit(A(), nunits) <==> fits)
        invariant core != Unasked ==>
                    && !fits && HasFit(A(), nunits) && (core == Fresh ==> Backed())
                    && Called(base, old(sz), nunits, room, core, sz, pages, added)
        decreases core == Unasked, |order| - c
      {
        ScanNext(A(), freep, p, prevp, f, c, nunits);
        if hdr[p].size >= nunits {
          if core != Unasked { CalledFacts(base, old(sz), nunits, room, core, sz, pages, added); }
          p := Grant(prevp, p, nunits, Cycle(f + 1 + c, |order|), a0, added, core, old(sz), room);
          AllocatedFacts(a0, A(), p, nunits);
          return Some(p + 1), core;
        }
        if p == freep {
          p, core := Refill(nunits, room, a0);
          if core == Trap || core == Wrap || p == 0 { return None, core; }
          added := Units(old(sz) / HEADER, CoreFor(nunits));
          p, prevp, f := FirstLap(nunits);
          c := 0;
        } else {
          prevp := p;
          p := hdr[p].ptr;
          c := c + 1;
        }
      }
    }

    /** Where malloc()'s search begins, and begins again. */
    method FirstLap(nunits: nat) returns (p: nat, prevp: nat, ghost f: nat)
      requires Valid() && freep != 0
      ensures Scanning(A(), freep, p, prevp, f, 0, nunits)
    {
      hide Good, Scanning;
      prevp := freep;
      f :| f < |order| && order[f] == freep;
      ScanStarts(A(), prevp, f, nunits);
      p := hdr[prevp].ptr;
    }
  }

  lemma BlockInside(a: Arena, q: nat)
    requires Good(a) && q in a.used
    ensures q > a.base && q in a.hdr && q + a.hdr[q].size - 1 in a.owner
  {
    BlockAboveBase(a, q);
    assert IsBlock(a, q) && OwnsUnits(a, q);
  }

  /** morecore() has been called once and has come back with units. */
  ghost predicate Called(base: nat, sz0: nat, nunits: nat, room: bool, core: Core, sz: nat, pages: nat, added: set<nat>) {
    && (core == Fresh || core == Hollow) && added == Units(sz0 / HEADER, CoreFor(nunits))
    && core == CoreEnds(base, sz0, CoreFor(nunits), room)
    && var b := Sbrk(sz0, Asked(CoreFor(nunits)), room); sz == b.sz && pages == b.pages
  }

  lemma CalledIs(base: nat, sz0: nat, nunits: nat, room: bool, core: Core, sz: nat, pages: nat)
    requires (core == Fresh || core == Hollow) && core == CoreEnds(base, sz0, CoreFor(nunits), room)
    requires var b := Sbrk(sz0, Asked(CoreFor(nunits)), room); sz == b.sz && pages == b.pages
    ensures Called(base, sz0, nunits, room, core, sz, pages, Units(sz0 / HEADER, CoreFor(nunits)))
  {
  }

  lemma CalledFacts(base: nat, sz0: nat, nunits: nat, room: bool, core: Core, sz: nat, pages: nat, added: set<nat>)
    requires Called(base, sz0, nunits, room, core, sz, pages, added)
    ensures (core == Fresh || core == Hollow) && added == Units(sz0 / HEADER, CoreFor(nunits))
    ensures core == CoreEnds(base, sz0, CoreFor(nunits), room)
    ensures var b := Sbrk(sz0, Asked(CoreFor(nunits)), room); sz == b.sz && pages == b.pages
  {
  }

  lemma TookUnits(a: Arena, b: Arena, q: nat)
    requires Took(a, b, q)
    ensures b.base == a.base && b.owner.Keys == a.owner.Keys && q in b.used && q in b.hdr
  {
  }

  /** Where the block lies that malloc() hands out. */
  lemma BlockSits(a: Arena, q: nat, nunits: nat, core: Core, sz0: nat, sz: nat, room: bool)
    requires Good(a) && q in a.used && q in a.hdr && a.hdr[q].size == nunits
    requires 0 < nunits <= CoreFor(nunits) <= WRAP && sz0 % HEADER == 0 && a.base * HEADER < sz0 <= KERNBASE
    requires core == Unasked || core == Fresh ==> forall u :: u in a.owner ==> (u + 1) * HEADER <= sz
    requires core == Unasked || core == Fresh || core == Hollow
    requires core != Unasked ==>
               core == CoreEnds(a.base, sz0, CoreFor(nunits), room) && sz == Sbrk(sz0, Asked(CoreFor(nunits)), room).sz
    ensures (q + nunits) * HEADER <= sz <==> core == Unasked || CoreFor(nunits) * HEADER < TWO32 / 2
  {
    hide Good, CoreEnds, Asked, Sbrk;
    BlockInside(a, q);
    if core != Unasked { CoreIsMemory(a.base, sz0, CoreFor(nunits), room); }
  }

  lemma BackedUnits(keys: set<nat>, keys': set<nat>, hp: nat, nu: nat)
    requires keys' == keys + Units(hp, nu) && forall u :: u in keys ==> u < hp
    ensures forall u :: u in keys' ==> (u + 1) * HEADER <= hp * HEADER + nu * HEADER
  {
  }

  /** Sizes of a block that malloc() computes. */
  lemma UnitsInReach(nbytes: nat)
    requires nbytes < TWO32
    ensures 0 < UnitsFor(nbytes) <= CoreFor(UnitsFor(nbytes)) <= WRAP
  {
  }

  /** From a to b the arena has gained the units added, and the allocated blocks are the same. */
  ghost predicate Extended(a: Arena, b: Arena, added: set<nat>) {
    && b.base == a.base && b.used == a.used && b.owner.Keys == a.owner.Keys + added
    && forall s :: s in a.used ==> s in a.hdr && s in b.hdr && b.hdr[s] == a.hdr[s]
  }

  /** From a to b block q of n units has been allocated, and the others are the same. */
  ghost predicate Allocated(a: Arena, b: Arena, q: nat, n: nat) {
    && q !in a.used && b.used == a.used + {q} && q in b.hdr && b.hdr[q].size == n
    && forall s :: s in a.used ==> s in a.hdr && s in b.hdr && b.hdr[s] == a.hdr[s]
  }

  lemma AllocatedFacts(a: Arena, b: Arena, q: nat, n: nat)
    requires Allocated(a, b, q, n)
    ensures q !in a.used && b.used == a.used + {q} && q in b.hdr && b.hdr[q].size == n
    ensures forall s :: s in a.used ==> s in a.hdr && s in b.hdr && b.hdr[s] == a.hdr[s]
  {
  }

  lemma ExtendedSelf(a: Arena)
    requires Good(a)
    ensures Extended(a, a, {})
  {
    UsedHaveHeaders(a);
  }

  lemma ExtendedMore(a: Arena, b: Arena, c: Arena, added: set<nat>)
    requires Extended(a, b, {}) && c.base == b.base && c.used == b.used && c.owner.Keys == b.owner.Keys + added
    requires forall s :: s in b.used ==> s in b.hdr && s in c.hdr && c.hdr[s] == b.hdr[s]
    ensures Extended(a, c, added)
  {
  }

  lemma AllocatedIs(a: Arena, b: Arena, c: Arena, q: nat, n: nat, added: set<nat>)
    requires Extended(a, b, added) && Took(b, c, q) && c.hdr[q].size == n
    ensures Allocated(a, c, q, n) && c.owner.Keys == a.owner.Keys + added
  {
  }

  /** base is never big enough. */
  lemma FitAt(a: Arena, t: nat, n: nat)
    requires Good(a) && t < |a.order| && n > 0
    ensures a.order[t] in a.hdr && (Fits(a, t, n) <==> a.hdr[a.order[t]].size >= n) && (Fits(a, t, n) ==> t > 0)
  {
    BaseFirst(a);
  }

  lemma OneOfAKind(a: Arena, i: nat, j: nat)
    requires Good(a) && i < |a.order| && j < |a.order|
    ensures a.order[i] == a.order[j] <==> i == j
  {
    if i < j { Ascending(a, i, j); }
    if j < i { Ascending(a, j, i); }
  }

  /** When element i comes up in the lap that starts after element f. */
  function Turn(i: nat, f: nat, n: nat): nat
    requires i < n && f < n
  {
    if i > f then i - f - 1 else i + n - f - 1
  }

  /** The first c elements after element f are too small. */
  ghost predicate Tried(a: Arena, f: nat, c: nat, n: nat) {
    f < |a.order| && forall i :: 0 <= i < |a.order| && Turn(i, f, |a.order|) < c ==> !Fits(a, i, n)
  }

  /** A whole lap without a fit. */
  lemma NothingFits(a: Arena, f: nat, n: nat)
    requires Tried(a, f, |a.order|, n)
    ensures !HasFit(a, n)
  {
    forall i | 0 <= i < |a.order| ensures !Fits(a, i, n) {
      assert Turn(i, f, |a.order|) < |a.order|;
    }
  }

  /** malloc() is looking at p, after prevp, and the first c elements of the lap were too small. */
  ghost predicate Scanning(a: Arena, freep: nat, p: nat, prevp: nat, f: nat, c: nat, n: nat) {
    && f < |a.order| && c < |a.order| && a.order[f] == freep && Tried(a, f, c, n)
    && p == a.order[Cycle(f + 1 + c, |a.order|)] && prevp == a.order[Cycle(f + c, |a.order|)]
  }

  lemma ScanStarts(a: Arena, freep: nat, f: nat, n: nat)
    requires Good(a) && f < |a.order| && a.order[f] == freep
    ensures freep in a.hdr && Scanning(a, freep, a.hdr[freep].ptr, freep, f, 0, n)
  {
    NextInOrder(a, f);
  }

  /** One turn: p can be taken, or the lap goes on, or it ends without a fit. */
  lemma ScanNext(a: Arena, freep: nat, p: nat, prevp: nat, f: nat, c: nat, n: nat)
    requires Good(a) && Scanning(a, freep, p, prevp, f, c, n) && n > 0
    ensures c < |a.order| && f < |a.order| && p in a.hdr
    ensures var t := Cycle(f + 1 + c, |a.order|);
            && a.order[t] == p
            && (a.hdr[p].size >= n ==> t > 0 && a.order[t - 1] == prevp && HasFit(a, n))
            && (a.hdr[p].size < n && p == freep ==> !HasFit(a, n))
            && (a.hdr[p].size < n && p != freep ==> c + 1 < |a.order| && Scanning(a, freep, a.hdr[p].ptr, p, f, c + 1, n))
  {
    var t := Cycle(f + 1 + c, |a.order|);
    FitAt(a, t, n);
    OneOfAKind(a, t, f);
    NextInOrder(a, t);
    hide Good, Linked, HasFit;
    assert Turn(t, f, |a.order|) == c;
    if a.hdr[p].size < n && p == freep { NothingFits(a, f, n); }
  }

  lemma PrevNotZero(a: Arena, t: nat)
    requires Good(a) && 0 < t < |a.order| && a.base > 0
    ensures a.order[t - 1] > 0 && a.order[t - 1] in a.hdr && a.order[t] in a.hdr
  {
    BaseFirst(a);
    if t > 1 { Ascending(a, 0, t - 1); }
  }

  lemma TookHeader(a: Arena, t: nat)
    requires Good(a) && 0 < t < |a.order|
    ensures a.order[t] in a.hdr && a.order[t - 1] in a.hdr && TakenWhole(a, t).hdr[a.order[t]] == a.hdr[a.order[t]]
  {
    BaseFirst(a);
    Ascending(a, t - 1, t);
  }

  lemma PlaceFacts(a: Arena, bp: nat, k: nat)
    requires Good(a) && Place(a, bp, k)
    ensures k < |a.order| && a.order[k] < bp && a.order[k] >= a.base && (a.base > 0 ==> a.order[k] > 0)
  {
    BaseFirst(a);
    if k > 0 { Ascending(a, 0, k); }
  }

  lemma GoodFacts(a: Arena)
    requires Good(a)
    ensures Linked(a) && Tiled(a) && a.order != [] && a.order[0] == a.base
    ensures forall i :: 0 <= i < |a.order| ==> a.order[i] in a.hdr && a.hdr[a.order[i]].ptr in a.hdr
  {
    BaseFirst(a);
  }

  /** Where a link of the free list leads: up, or from the last element back to base. */
  lemma NextInOrder(a: Arena, i: nat)
    requires Linked(a) && i < |a.order|
    ensures a.order[i] in a.hdr && a.hdr[a.order[i]].ptr == a.order[Cycle(i + 1, |a.order|)]
    ensures if i + 1 < |a.order| then a.order[i] < a.hdr[a.order[i]].ptr else a.hdr[a.order[i]].ptr == a.base <= a.order[i]
  {
    BaseFirst(a);
    if i + 1 < |a.order| { Ascending(a, i, i + 1); }
    if i > 0 { Ascending(a, 0, i); }
  }

  /** The search of free() stops exactly where bp belongs, and else goes to the next element. */
  lemma SearchStops(a: Arena, bp: nat, i: nat)
    requires Linked(a) && i < |a.order| && a.base < bp && bp !in a.order
    ensures a.order[i] in a.hdr && a.hdr[a.order[i]].ptr == a.order[Cycle(i + 1, |a.order|)]
    ensures var p := a.order[i]; var next := a.hdr[p].ptr;
            ((bp > p && bp < next) || (p >= next && (bp > p || bp < next))) <==> Place(a, bp, i)
  {
    NextInOrder(a, i);
    assert i + 1 < |a.order| ==> a.order[i + 1] in a.order;
  }

  lemma CoalescedCode(h: map<nat, Header>, p: nat, bp: nat, h': map<nat, Header>)
    requires p in h && bp in h && h[p].ptr in h && p != bp
    requires var next := h[p].ptr;
             var h1 := if bp + h[bp].size == next then h[bp := Header(h[next].ptr, h[bp].size + h[next].size)]
                       else h[bp := h[bp].(ptr := next)];
             h' == if p + h1[p].size == bp then h1[p := Header(h1[bp].ptr, h1[p].size + h1[bp].size)]
                   else h1[p := h1[p].(ptr := bp)]
    ensures h' == Coalesced(h, p, bp)
  {
  }
}
