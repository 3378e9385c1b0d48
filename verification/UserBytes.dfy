/** The bytes of an address space, and what it means to write into them through the page tables. */
module UserBytes {
  import opened Blocks
  import opened PageMap

  /** PTE_U */
  predicate IsUser(perm: nat) {
    perm / 4 % 2 == 1
  }

  /** uva2ka() finds a page for v. */
  predicate Reaches(s: Space, d: nat, v: nat)
    requires IsDir(s, d) && v < NPAGES
  {
    var e := PteOf(s.mem, d, v);
    e.Present? && IsUser(e.perm)
  }

  /** The byte at address a. */
  function Get(s: Space, d: nat, a: nat): byte
    requires IsDir(s, d) && a / PGSIZE < NPAGES
  {
    var e := PteOf(s.mem, d, a / PGSIZE);
    if e.Present? && e.frame < |s.mem| && s.mem[e.frame].Page? then s.mem[e.frame].bytes[a % PGSIZE] else 0
  }

  /** The first n bytes of buf are in memory at va of directory d. No other byte that any address
      space maps has changed, and no mapping. */
  ghost predicate CopiedOut(s: Space, w: Space, d: nat, va: nat, buf: seq<byte>, n: nat) {
    && n <= |buf| && |w.mem| == |s.mem| && w.owner == s.owner && SameMap(s, w)
    && (forall x: nat, a: nat :: IsDir(s, x) && IsDir(w, x) && a / PGSIZE < UPAGES ==> CopiedByte(s, w, d, va, buf, n, x, a))
  }

  predicate CopiedByte(s: Space, w: Space, d: nat, va: nat, buf: seq<byte>, n: nat, x: nat, a: nat)
    requires IsDir(s, x) && IsDir(w, x) && a / PGSIZE < NPAGES && n <= |buf|
  {
    Get(w, x, a) == if x == d && va <= a < va + n then buf[a - va] else Get(s, x, a)
  }

  /** m bytes of buf from n on laid over a page at place at. */
  function Laid(b: PageBytes, at: nat, buf: seq<byte>, n: nat, m: nat): PageBytes
    requires at + m <= PGSIZE && n + m <= |buf|
  {
    b[..at] + buf[n..n + m] + b[at + m..]
  }

  /** w with those bytes stored in frame f. */
  function Poked(w: Space, f: nat, at: nat, buf: seq<byte>, n: nat, m: nat): Space
    requires f < |w.mem| && w.mem[f].Page? && at + m <= PGSIZE && n + m <= |buf|
  {
    Space(w.mem[f := Page(Laid(w.mem[f].bytes, at, buf, n, m))], w.owner)
  }

  /** A store into a page of data disturbs no page table. */
  lemma PokeKeepsMap(w: Space, f: nat, at: nat, buf: seq<byte>, n: nat, m: nat)
    requires Owned(w) && f < |w.mem| && w.mem[f].Page? && at + m <= PGSIZE && n + m <= |buf|
    ensures var y := Poked(w, f, at, buf, n, m); Owned(y) && SameMap(w, y)
  {
    var y := Poked(w, f, at, buf, n, m);
    forall d: nat | IsDir(w, d)
      ensures IsDir(y, d) && forall i: nat :: i < ENTRIES ==> Pde(y.mem, d, i) == Pde(w.mem, d, i)
      ensures forall v: nat :: v < NPAGES ==> PteOf(y.mem, d, v) == PteOf(w.mem, d, v)
    {
      forall v: nat | v < NPAGES ensures PteOf(y.mem, d, v) == PteOf(w.mem, d, v) {
        assert PdeOwned(w, d, v / ENTRIES);
      }
    }
    SameTables(w, y);
  }

  lemma NothingOut(s: Space, d: nat, va: nat, buf: seq<byte>)
    ensures CopiedOut(s, s, d, va, buf, 0)
  {
  }

  /** The byte at a of directory x after the store. */
  lemma PokedByte(w: Space, d: nat, at: nat, buf: seq<byte>, n: nat, m: nat, v: nat, x: nat, a: nat)
    requires Owned(w) && IsDir(w, d) && IsDir(w, x) && v < UPAGES && a / PGSIZE < UPAGES && PteOf(w.mem, d, v).Present?
    requires at + m <= PGSIZE && n + m <= |buf|
    ensures var f := PteOf(w.mem, d, v).frame;
      && f < |w.mem| && w.mem[f].Page?
      && var y := Poked(w, f, at, buf, n, m);
         && IsDir(y, x)
         && Get(y, x, a) == if x == d && a / PGSIZE == v && at <= a % PGSIZE < at + m then buf[n + (a % PGSIZE - at)] else Get(w, x, a)
  {
    assert PteOwned(w, d, v);
    var f := PteOf(w.mem, d, v).frame;
    PokeKeepsMap(w, f, at, buf, n, m);
    if PteOf(w.mem, x, a / PGSIZE).Present? {
      assert PteOwned(w, x, a / PGSIZE);
      FramesDistinct(w, x, a / PGSIZE, d, v);
    }
    hide Owned;
  }

  /** One turn of copyout()'s loop: m bytes into page v, which starts or contains the place. */
  lemma OutNext(s: Space, w: Space, d: nat, va: nat, buf: seq<byte>, n: nat, m: nat)
    requires Owned(w) && IsDir(s, d) && IsDir(w, d) && CopiedOut(s, w, d, va, buf, n) && n + m <= |buf|
    requires (va + n) / PGSIZE < UPAGES && (va + n) % PGSIZE + m <= PGSIZE && PteOf(w.mem, d, (va + n) / PGSIZE).Present?
    ensures var f := PteOf(w.mem, d, (va + n) / PGSIZE).frame;
      && f < |w.mem| && w.mem[f].Page?
      && var y := Poked(w, f, (va + n) % PGSIZE, buf, n, m);
         Owned(y) && IsDir(y, d) && CopiedOut(s, y, d, va, buf, n + m) && SameMap(w, y)
  {
    var v, at := (va + n) / PGSIZE, (va + n) % PGSIZE;
    assert PteOwned(w, d, v);
    var f := PteOf(w.mem, d, v).frame;
    var y, k := Poked(w, f, at, buf, n, m), n + m;
    PokeKeepsMap(w, f, at, buf, n, m);
    forall x: nat, a: nat | IsDir(s, x) && IsDir(y, x) && a / PGSIZE < UPAGES
      ensures CopiedByte(s, y, d, va, buf, k, x, a)
    {
      assert IsDir(w, x) && CopiedByte(s, w, d, va, buf, n, x, a);
      PokedByte(w, d, at, buf, n, m, v, x, a);
      hide Get, Owned, SameMap;
      InPage(va + n, m, a);
    }
  }

  /** What copyout() has stored is in the pages: each byte in the frame of its page, at its place. */
  lemma BytesOut(s: Space, w: Space, d: nat, va: nat, buf: seq<byte>, n: nat, a: nat)
    requires Owned(w) && IsDir(s, d) && IsDir(w, d) && CopiedOut(s, w, d, va, buf, n)
    requires va <= a < va + n && a / PGSIZE < UPAGES && PteOf(w.mem, d, a / PGSIZE).Present?
    ensures n <= |buf|
    ensures var f := PteOf(w.mem, d, a / PGSIZE).frame;
      f < |w.mem| && w.mem[f].Page? && w.mem[f].bytes[a % PGSIZE] == buf[a - va]
  {
    assert PteOwned(w, d, a / PGSIZE);
    assert CopiedByte(s, w, d, va, buf, n, d, a);
  }

  /** The m addresses from b on lie in one page. */
  lemma InPage(b: nat, m: nat, a: nat)
    requires b % PGSIZE + m <= PGSIZE
    ensures b <= a < b + m <==> a / PGSIZE == b / PGSIZE && b % PGSIZE <= a % PGSIZE < b % PGSIZE + m
    ensures b <= a < b + m ==> a % PGSIZE - b % PGSIZE == a - b
  {
  }
}
