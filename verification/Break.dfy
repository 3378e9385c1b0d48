/** What a process gets from sbrk: where its memory ends, and which of its pages are mapped. */
module Break {
  import opened Common
  import opened PageMap

  const KERNBASE: nat := UPAGES * PGSIZE

  /** PGROUNDUP(sz), in pages. */
  function RoundUp(sz: nat): nat { (sz + PGSIZE - 1) / PGSIZE }

  /** A page is counted exactly if it starts below sz. */
  lemma RoundUpIs(sz: nat, u: nat)
    ensures u < RoundUp(sz) <==> u * PGSIZE < sz
  {
  }

  /** sbrk's answer, None for -1; the size of the process afterwards; and how many of its pages are
      mapped, from page 0 on. */
  datatype Brk = Brk(answer: Option<nat>, sz: nat, pages: nat)

  /** sbrk(n) for a process of size sz; room tells if there is memory to grow. A negative n that the
      process does not have wraps to a size above its own, and nothing happens; but it is no failure.
      Giving up all the memory is one, although the pages go. */
  function Sbrk(sz: nat, n: int, room: bool): Brk {
    if n > 0 then
      if room && sz + n < KERNBASE then Brk(Some(sz), sz + n, RoundUp(sz + n)) else Brk(None, sz, RoundUp(sz))
    else if n == 0 || (sz > 0 && sz + n < 0) then Brk(Some(sz), sz, RoundUp(sz))
    else if sz + n > 0 then Brk(Some(sz), sz + n, RoundUp(sz + n))
    else Brk(None, sz, 0)
  }

  /** Only a positive n ever maps a page. */
  lemma OnlyGrowthMaps(sz: nat, n: int, room: bool)
    ensures n <= 0 ==> Sbrk(sz, n, room).pages <= RoundUp(sz) && Sbrk(sz, n, room).sz <= sz
    ensures var b := Sbrk(sz, n, room); b.pages > RoundUp(sz) ==> n > 0 && b.answer == Some(sz) && b.sz == sz + n
  {
  }

  /** sbrk answers with the old end of memory or fails; it fails when there is no room, and when all
      the memory is given up. The end moves by n with the answer, unless n is below -sz; and the pages
      that start below the end are mapped, but none if all the memory is given up. */
  lemma SbrkIs(sz: nat, n: int, room: bool, u: nat)
    ensures var b := Sbrk(sz, n, room);
      && (b.answer == None <==> (n > 0 && !(room && sz + n < 0x8000_0000)) || (n < 0 && (sz == 0 || sz + n == 0)))
      && (b.answer.Some? ==> b.answer == Some(sz))
      && b.sz == (if b.answer.Some? && sz + n >= 0 then sz + n else sz)
      && (u < b.pages <==> u * PGSIZE < b.sz && !(n < 0 && sz + n == 0))
  {
    RoundUpIs(Sbrk(sz, n, room).sz, u);
  }
}
