/** How many frames it takes to map pages: those of the page tables that are missing, and those of
    the pages themselves. */
module Tables {
  import opened PageMap

  /** The slots of directory d that hold a page table. */
  function Tabs(mem: seq<Frame>, d: nat): set<nat>
    requires IsTable(mem, d)
  {
    set i: nat | i < ENTRIES && Pde(mem, d, i).Present?
  }

  /** The slots that pages lo .. hi go through. */
  function Slots(lo: nat, hi: nat): set<nat> {
    if lo < hi then Between(lo / ENTRIES, (hi - 1) / ENTRIES + 1) else {}
  }

  function Between(a: nat, b: nat): (r: set<nat>)
    ensures forall i: nat :: i in r <==> a <= i < b
    ensures |r| == if a < b then b - a else 0
  {
    if a < b then Between(a, b - 1) + {b - 1} else {}
  }

  /** Frames for pages lo .. hi of d, none of which is mapped. */
  function Frames(mem: seq<Frame>, d: nat, lo: nat, hi: nat): nat
    requires IsTable(mem, d)
  {
    (if lo < hi then hi - lo else 0) + |Slots(lo, hi) - Tabs(mem, d)|
  }

  /** From mem0 with n0 free frames to mem with n: the slots in new have got page tables, those that
      had none at the cost of a frame each, and pages frames have gone for pages. */
  ghost predicate Paid(mem0: seq<Frame>, n0: nat, mem: seq<Frame>, n: nat, d: nat, added: set<nat>, pages: nat) {
    && IsTable(mem0, d) && IsTable(mem, d)
    && Tabs(mem, d) == Tabs(mem0, d) + added && n0 == n + pages + |added - Tabs(mem0, d)|
  }

  lemma PaidNothing(mem: seq<Frame>, n: nat, d: nat)
    requires IsTable(mem, d)
    ensures Paid(mem, n, mem, n, d, {}, 0)
  {
  }

  /** Only frames other than the directory have changed, and pages of those that were free are not. */
  lemma PaidPages(mem0: seq<Frame>, n0: nat, mem: seq<Frame>, n: nat, d: nat, pages: nat)
    requires IsTable(mem0, d) && IsTable(mem, d) && mem[d] == mem0[d] && n0 == n + pages
    ensures Paid(mem0, n0, mem, n, d, {}, pages)
  {
    assert Tabs(mem, d) == Tabs(mem0, d);
  }

  lemma PaidMore(mem0: seq<Frame>, n0: nat, mem1: seq<Frame>, n1: nat, mem: seq<Frame>, n: nat, d: nat,
                 added: set<nat>, pages: nat, more: set<nat>, q: nat)
    requires Paid(mem0, n0, mem1, n1, d, added, pages) && Paid(mem1, n1, mem, n, d, more, q)
    ensures Paid(mem0, n0, mem, n, d, added + more, pages + q)
  {
    hide Tabs;
    var t := Tabs(mem0, d);
    assert (added + more) - t == (added - t) + (more - (t + added));
  }

  /** A new page table in slot i, in what was a free frame. */
  lemma PaidTable(mem0: seq<Frame>, n0: nat, mem: seq<Frame>, n: nat, d: nat, i: nat)
    requires IsTable(mem0, d) && IsTable(mem, d) && i < ENTRIES && Pde(mem0, d, i) == Absent && Pde(mem, d, i).Present?
    requires forall j :: 0 <= j < ENTRIES && j != i ==> Pde(mem, d, j) == Pde(mem0, d, j)
    requires n0 == n + 1
    ensures Paid(mem0, n0, mem, n, d, {i}, 0)
  {
    assert Tabs(mem, d) == Tabs(mem0, d) + {i};
    assert {i} - Tabs(mem0, d) == {i};
  }

  /** It was there. */
  lemma PaidBefore(mem: seq<Frame>, n: nat, d: nat, i: nat)
    requires IsTable(mem, d) && i < ENTRIES && Pde(mem, d, i).Present?
    ensures Paid(mem, n, mem, n, d, {i}, 0)
  {
    assert Tabs(mem, d) == Tabs(mem, d) + {i};
    assert {i} - Tabs(mem, d) == {};
  }

  lemma SlotsNext(lo: nat, a: nat)
    requires lo <= a
    ensures Slots(lo, a + 1) == Slots(lo, a) + {a / ENTRIES}
  {
    if lo < a {
      assert (a - 1) / ENTRIES == a / ENTRIES || (a - 1) / ENTRIES + 1 == a / ENTRIES;
    }
  }

  lemma SlotsWithin(lo: nat, a: nat, hi: nat)
    requires lo <= a < hi
    ensures Slots(lo, a) + {a / ENTRIES} <= Slots(lo, hi)
  {
    SlotsNext(lo, a);
    assert a / ENTRIES <= (hi - 1) / ENTRIES;
  }

  lemma PaidAll(mem0: seq<Frame>, n0: nat, mem: seq<Frame>, n: nat, d: nat, all: set<nat>, pages: nat)
    requires Paid(mem0, n0, mem, n, d, all, pages)
    ensures n0 >= pages + |all - Tabs(mem0, d)| && Tabs(mem, d) == Tabs(mem0, d) + all
  {
  }

  /** Too few frames are left for q pages and slot i, and so there were too few. */
  lemma TooFew(mem0: seq<Frame>, n0: nat, mem: seq<Frame>, n: nat, d: nat, added: set<nat>, pages: nat, q: nat, i: nat, all: set<nat>, most: nat)
    requires Paid(mem0, n0, mem, n, d, added, pages) && added + {i} <= all && pages + q <= most && n < q + |{i} - Tabs(mem, d)|
    ensures n0 < most + |all - Tabs(mem0, d)|
  {
    hide Tabs;
    var t := Tabs(mem0, d);
    assert (added + {i}) - t == (added - t) + ({i} - (t + added));
    SubsetSize((added + {i}) - t, all - t);
  }

  lemma {:induction false} SubsetSize(a: set<nat>, b: set<nat>)
    requires a <= b
    ensures |a| <= |b|
    decreases |a|
  {
    if x :| x in a { SubsetSize(a - {x}, b - {x}); }
  }

  /** A page table is not the directory that names it. */
  lemma TableIsNotDir(s: Space, d: nat, i: nat)
    requires Owned(s) && IsDir(s, d) && i < ENTRIES && Pde(s.mem, d, i).Present?
    ensures Pde(s.mem, d, i).frame != d
  {
    assert PdeOwned(s, d, i);
  }
}
