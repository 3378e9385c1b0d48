/** Physical frames, and the two-level page tables that live in some of them: who owns each
    frame, and how that survives the stores of vm.c. Pages and frames are counted in PGSIZE. */
module PageMap {
  import opened Blocks

  const PGSIZE: nat := 4096
  const ENTRIES: nat := 1024
  const NPAGES: nat := ENTRIES * ENTRIES
  /** The first page of the kernel half, KERNBASE / PGSIZE. */
  const UPAGES: nat := 512 * ENTRIES

  /** An entry of a page directory or page table; perm are the flag bits other than PTE_P. */
  datatype Pte = Absent | Present(perm: nat, frame: nat)

  type PageBytes = b: seq<byte> | |b| == PGSIZE witness seq(PGSIZE, _ => 0)

  datatype Frame = Table(entries: seq<Pte>) | Page(bytes: PageBytes)

  /** What a frame that is not free is used for: a page directory, the page table in slot i of
      directory d, the user page v of directory d, or something outside any address space. */
  datatype Owner = Dir | Tab(d: nat, i: nat) | User(d: nat, v: nat) | Held

  datatype Space = Space(mem: seq<Frame>, owner: map<nat, Owner>)

  /** PTE_W | PTE_U */
  const WU: nat := 6

  /** What kfree fills a page with. */
  function Junk(): (f: Frame)
    ensures f.Page?
  {
    Page(seq(PGSIZE, _ => 1))
  }

  function ZeroPage(): (f: Frame)
    ensures f.Page? && forall k :: 0 <= k < PGSIZE ==> f.bytes[k] == 0
  {
    Page(seq(PGSIZE, _ => 0))
  }

  predicate IsTable(mem: seq<Frame>, f: nat) {
    f < |mem| && mem[f].Table? && |mem[f].entries| == ENTRIES
  }

  function NoEntries(): (t: Frame)
    ensures t.Table? && |t.entries| == ENTRIES && forall i :: 0 <= i < ENTRIES ==> t.entries[i] == Absent
  {
    Table(seq(ENTRIES, _ => Absent))
  }

  function Pde(mem: seq<Frame>, d: nat, i: nat): Pte
    requires IsTable(mem, d) && i < ENTRIES
  {
    mem[d].entries[i]
  }

  /** The entry for page v, Absent where there is no page table for it. */
  function PteOf(mem: seq<Frame>, d: nat, v: nat): Pte
    requires IsTable(mem, d) && v < NPAGES
  {
    var e := Pde(mem, d, v / ENTRIES);
    if e.Present? && IsTable(mem, e.frame) then mem[e.frame].entries[v % ENTRIES] else Absent
  }

  predicate IsDir(s: Space, d: nat) {
    d in s.owner && s.owner[d] == Dir && IsTable(s.mem, d)
  }

  predicate PdeOwned(s: Space, d: nat, i: nat)
    requires IsDir(s, d) && i < ENTRIES
  {
    var e := Pde(s.mem, d, i);
    e.Present? ==> e.frame in s.owner && s.owner[e.frame] == Tab(d, i) && IsTable(s.mem, e.frame)
  }

  predicate PteOwned(s: Space, d: nat, v: nat)
    requires IsDir(s, d) && v < UPAGES
  {
    var e := PteOf(s.mem, d, v);
    e.Present? ==> e.frame in s.owner && s.owner[e.frame] == User(d, v) && e.frame < |s.mem| && s.mem[e.frame].Page?
  }

  /** Frame f is used as its owner says. */
  predicate Used(s: Space, f: nat)
    requires f in s.owner
  {
    match s.owner[f]
    case Dir => IsTable(s.mem, f)
    case Tab(d, i) => IsDir(s, d) && i < ENTRIES && Pde(s.mem, d, i).Present? && Pde(s.mem, d, i).frame == f
    case User(d, v) => IsDir(s, d) && v < UPAGES && PteOf(s.mem, d, v).Present? && PteOf(s.mem, d, v).frame == f
    case Held => true
  }

  /** Every page table and every user page has a frame of its own, and every frame in use is
      accounted for. */
  ghost predicate Owned(s: Space) {
    && (forall d: nat, i: nat :: IsDir(s, d) && i < ENTRIES ==> PdeOwned(s, d, i))
    && (forall d: nat, v: nat :: IsDir(s, d) && v < UPAGES ==> PteOwned(s, d, v))
    && (forall f: nat :: f in s.owner ==> f < |s.mem| && Used(s, f))
  }

  /** No two user pages, of one address space or of two, share a frame. */
  lemma FramesDistinct(s: Space, d: nat, v: nat, d': nat, v': nat)
    requires Owned(s) && IsDir(s, d) && IsDir(s, d') && v < UPAGES && v' < UPAGES
    requires PteOf(s.mem, d, v).Present? && PteOf(s.mem, d', v').Present?
    ensures PteOf(s.mem, d, v).frame == PteOf(s.mem, d', v').frame <==> d == d' && v == v'
  {
    assert PteOwned(s, d, v) && PteOwned(s, d', v');
  }

  // ----- the stores -----

  function SetEntry(mem: seq<Frame>, t: nat, i: nat, e: Pte): seq<Frame>
    requires IsTable(mem, t) && i < ENTRIES
  {
    mem[t := Table(mem[t].entries[i := e])]
  }

  /** A frame that belongs to no address space may hold anything. */
  lemma HeldFrame(s: Space, f: nat, x: Frame, o: map<nat, Owner>)
    requires Owned(s) && f < |s.mem| && (f !in s.owner || s.owner[f] == Held)
    requires o == s.owner[f := Held] || o == s.owner - {f}
    ensures Owned(Space(s.mem[f := x], o)) && SameMap(s, Space(s.mem[f := x], o))
  {
    var s' := Space(s.mem[f := x], o);
    forall d: nat | IsDir(s, d)
      ensures IsDir(s', d) && forall i: nat :: i < ENTRIES ==> Pde(s'.mem, d, i) == Pde(s.mem, d, i)
      ensures forall v: nat :: v < NPAGES ==> PteOf(s'.mem, d, v) == PteOf(s.mem, d, v)
    {
      forall v: nat | v < NPAGES ensures PteOf(s'.mem, d, v) == PteOf(s.mem, d, v) {
        assert PdeOwned(s, d, v / ENTRIES);
      }
    }
    SameTables(s, s');
  }

  /** The same directories and entries, and the frames in use still of the right kind. */
  lemma SameTables(s: Space, s': Space)
    requires Owned(s) && |s'.mem| == |s.mem|
    requires forall d: nat :: IsDir(s', d) <==> IsDir(s, d)
    requires forall d: nat, i: nat :: IsDir(s, d) && IsDir(s', d) && i < ENTRIES ==> Pde(s'.mem, d, i) == Pde(s.mem, d, i)
    requires forall d: nat, v: nat :: IsDir(s, d) && IsDir(s', d) && v < NPAGES ==> PteOf(s'.mem, d, v) == PteOf(s.mem, d, v)
    requires forall f: nat :: f in s.owner && s.owner[f] != Held ==> f in s'.owner && s'.owner[f] == s.owner[f]
    requires forall f: nat :: f in s'.owner && s'.owner[f] != Held ==> f in s.owner && s.owner[f] == s'.owner[f]
    requires forall f: nat :: f in s.owner && s.owner[f] != Held && f < |s.mem| ==> s'.mem[f].Page? == s.mem[f].Page? && (IsTable(s.mem, f) ==> IsTable(s'.mem, f))
    requires forall f: nat :: f in s'.owner ==> f < |s'.mem|
    ensures Owned(s')
  {
    forall d: nat, i: nat | IsDir(s', d) && i < ENTRIES ensures PdeOwned(s', d, i) { assert PdeOwned(s, d, i); }
    forall d: nat, v: nat | IsDir(s', d) && v < UPAGES ensures PteOwned(s', d, v) { assert PteOwned(s, d, v); }
    forall f: nat | f in s'.owner ensures Used(s', f) {
      if s'.owner[f] != Held { assert Used(s, f); }
    }
  }

  /** kalloc() of a page directory, zeroed. */
  function WithDir(s: Space, f: nat): Space
    requires f < |s.mem|
  {
    Space(s.mem[f := NoEntries()], s.owner[f := Dir])
  }

  lemma DirOwned(s: Space, f: nat)
    requires Owned(s) && f in s.owner && s.owner[f] == Held
    ensures f < |s.mem|
    ensures var s' := WithDir(s, f);
            && Owned(s') && !IsDir(s, f) && IsDir(s', f) && (forall v: nat :: v < NPAGES ==> PteOf(s'.mem, f, v) == Absent)
            && (forall d: nat :: IsDir(s', d) <==> IsDir(s, d) || d == f)
            && forall d: nat, v: nat :: IsDir(s, d) && IsDir(s', d) && v < NPAGES ==> PteOf(s'.mem, d, v) == PteOf(s.mem, d, v)
  {
    var s' := WithDir(s, f);
    OtherFrame(s, s', f);
    forall d: nat, i: nat | IsDir(s', d) && i < ENTRIES ensures PdeOwned(s', d, i) {
      if d != f { assert IsDir(s, d) && PdeOwned(s, d, i); }
    }
    forall d: nat, v: nat | IsDir(s', d) && v < UPAGES ensures PteOwned(s', d, v) {
      if d != f { assert IsDir(s, d) && PteOwned(s, d, v); }
    }
    forall g: nat | g in s'.owner ensures g < |s'.mem| && Used(s', g) {
      if g != f { assert Used(s, g); }
    }
  }

  /** A change of a held frame f moves nothing of the directories there were. */
  lemma OtherFrame(s: Space, s': Space, f: nat)
    requires Owned(s) && f in s.owner && s.owner[f] == Held && f < |s.mem| && |s'.mem| == |s.mem|
    requires forall g: nat :: g < |s.mem| && g != f ==> s'.mem[g] == s.mem[g]
    requires forall g: nat :: g in s.owner && g != f ==> g in s'.owner && s'.owner[g] == s.owner[g]
    ensures forall d: nat :: IsDir(s, d) ==> d != f && IsDir(s', d)
    ensures forall d: nat, i: nat :: IsDir(s, d) && IsDir(s', d) && i < ENTRIES ==> Pde(s'.mem, d, i) == Pde(s.mem, d, i)
    ensures forall d: nat, v: nat :: IsDir(s, d) && IsDir(s', d) && v < NPAGES ==> PteOf(s'.mem, d, v) == PteOf(s.mem, d, v)
  {
    forall d: nat, v: nat | IsDir(s, d) && IsDir(s', d) && v < NPAGES ensures PteOf(s'.mem, d, v) == PteOf(s.mem, d, v) {
      assert PdeOwned(s, d, v / ENTRIES);
    }
  }

  /** walkpgdir()'s new page table f in slot i of directory d. */
  function WithTable(s: Space, d: nat, i: nat, perm: nat, f: nat): Space
    requires IsTable(s.mem, d) && i < ENTRIES && f < |s.mem| && f != d
  {
    Space(SetEntry(s.mem[f := NoEntries()], d, i, Present(perm, f)), s.owner[f := Tab(d, i)])
  }

  lemma TableOwned(s: Space, d: nat, i: nat, perm: nat, f: nat)
    requires Owned(s) && IsDir(s, d) && i < ENTRIES && Pde(s.mem, d, i) == Absent && f in s.owner && s.owner[f] == Held
    ensures f < |s.mem| && f != d
    ensures var s' := WithTable(s, d, i, perm, f);
            && Owned(s') && IsDir(s', d) && Pde(s'.mem, d, i) == Present(perm, f)
            && SameMap(s, s')
  {
    var s' := WithTable(s, d, i, perm, f);
    forall e: nat | IsDir(s, e)
      ensures IsDir(s', e) && forall v: nat :: v < NPAGES ==> PteOf(s'.mem, e, v) == PteOf(s.mem, e, v)
    {
      forall v: nat | v < NPAGES ensures PteOf(s'.mem, e, v) == PteOf(s.mem, e, v) {
        assert PdeOwned(s, e, v / ENTRIES);
      }
    }
    forall e: nat | IsDir(s', e) ensures IsDir(s, e) {}
    forall e: nat, j: nat | IsDir(s', e) && j < ENTRIES ensures PdeOwned(s', e, j) {
      assert PdeOwned(s, e, j);
    }
    forall e: nat, v: nat | IsDir(s', e) && v < UPAGES ensures PteOwned(s', e, v) {
      assert PteOwned(s, e, v);
    }
    forall g: nat | g in s'.owner ensures g < |s'.mem| && Used(s', g) {
      if g != f { assert Used(s, g); }
    }
  }

  /** The same address spaces, entry by entry. */
  ghost predicate SameMap(s: Space, s': Space) {
    && (forall d: nat :: IsDir(s, d) <==> IsDir(s', d))
    && forall d: nat, v: nat :: IsDir(s, d) && IsDir(s', d) && v < NPAGES ==> PteOf(s'.mem, d, v) == PteOf(s.mem, d, v)
  }

  /** Only the entry of page v of directory d may differ. */
  ghost predicate OneEntry(s: Space, s': Space, d: nat, v: nat, e: Pte) {
    && (forall x: nat :: IsDir(s, x) <==> IsDir(s', x))
    && forall x: nat, u: nat :: IsDir(s, x) && IsDir(s', x) && u < NPAGES ==>
         PteOf(s'.mem, x, u) == if x == d && u == v then e else PteOf(s.mem, x, u)
  }

  /** s with the entry for page v, in the page table that there is for it, set to e. */
  function WithPte(s: Space, d: nat, v: nat, e: Pte, o: map<nat, Owner>): Space
    requires IsTable(s.mem, d) && v < NPAGES && Pde(s.mem, d, v / ENTRIES).Present?
    requires IsTable(s.mem, Pde(s.mem, d, v / ENTRIES).frame)
  {
    Space(SetEntry(s.mem, Pde(s.mem, d, v / ENTRIES).frame, v % ENTRIES, e), o)
  }

  lemma PteSet(s: Space, d: nat, v: nat, e: Pte, o: map<nat, Owner>)
    requires Owned(s) && IsDir(s, d) && v < NPAGES && Pde(s.mem, d, v / ENTRIES).Present?
    requires forall f: nat :: f in s.owner && s.owner[f] != Held && !s.owner[f].User? ==> f in o && o[f] == s.owner[f]
    requires forall f: nat :: f in o && o[f] != Held && !o[f].User? ==> f in s.owner && o[f] == s.owner[f]
    ensures IsTable(s.mem, Pde(s.mem, d, v / ENTRIES).frame)
    ensures var s' := WithPte(s, d, v, e, o);
            Stored(s, s', d, v, e)
  {
    assert PdeOwned(s, d, v / ENTRIES);
    var s' := WithPte(s, d, v, e, o);
    forall x: nat, u: nat | IsDir(s, x) && IsDir(s', x) && u < NPAGES
      ensures PteOf(s'.mem, x, u) == if x == d && u == v then e else PteOf(s.mem, x, u)
    {
      assert PdeOwned(s, x, u / ENTRIES);
    }
  }

  /** mappages() of a held frame f at user page v. */
  lemma UserPageMapped(s: Space, d: nat, v: nat, perm: nat, f: nat)
    requires Owned(s) && IsDir(s, d) && v < UPAGES && Pde(s.mem, d, v / ENTRIES).Present? && PteOf(s.mem, d, v) == Absent
    requires f in s.owner && s.owner[f] == Held && f < |s.mem| && s.mem[f].Page?
    ensures IsTable(s.mem, Pde(s.mem, d, v / ENTRIES).frame)
    ensures var s' := WithPte(s, d, v, Present(perm, f), s.owner[f := User(d, v)]);
            Owned(s') && OneEntry(s, s', d, v, Present(perm, f))
  {
    var o := s.owner[f := User(d, v)];
    PteSet(s, d, v, Present(perm, f), o);
    PteSetOwned(s, d, v, Present(perm, f), o);
  }

  /** mappages() of a kernel page, which has no owner. */
  lemma KernelPageMapped(s: Space, d: nat, v: nat, e: Pte)
    requires Owned(s) && IsDir(s, d) && UPAGES <= v < NPAGES && Pde(s.mem, d, v / ENTRIES).Present?
    ensures IsTable(s.mem, Pde(s.mem, d, v / ENTRIES).frame)
    ensures var s' := WithPte(s, d, v, e, s.owner); Owned(s') && OneEntry(s, s', d, v, e)
  {
    PteSet(s, d, v, e, s.owner);
    PteSetOwned(s, d, v, e, s.owner);
  }

  /** deallocuvm() of one page: its frame, held again, is kfree's. */
  lemma UserPageUnmapped(s: Space, d: nat, v: nat)
    requires Owned(s) && IsDir(s, d) && v < UPAGES && PteOf(s.mem, d, v).Present?
    ensures Pde(s.mem, d, v / ENTRIES).Present? && IsTable(s.mem, Pde(s.mem, d, v / ENTRIES).frame)
    ensures var f := PteOf(s.mem, d, v).frame;
            && f in s.owner && s.owner[f] == User(d, v)
            && var s' := WithPte(s, d, v, Absent, s.owner[f := Held]); Owned(s') && OneEntry(s, s', d, v, Absent)
  {
    assert PteOwned(s, d, v);
    var o := s.owner[PteOf(s.mem, d, v).frame := Held];
    PteSet(s, d, v, Absent, o);
    PteSetOwned(s, d, v, Absent, o);
  }

  /** How a store of e for page v changes who owns what: a user page's frame is taken or given up. */
  ghost predicate Retagged(s: Space, d: nat, v: nat, e: Pte, o: map<nat, Owner>)
    requires IsTable(s.mem, d) && v < NPAGES
  {
    if v >= UPAGES then o == s.owner
    else match e
      case Absent =>
        && PteOf(s.mem, d, v).Present? && PteOf(s.mem, d, v).frame in s.owner
        && s.owner[PteOf(s.mem, d, v).frame] == User(d, v) && o == s.owner[PteOf(s.mem, d, v).frame := Held]
      case Present(_, f) =>
        && PteOf(s.mem, d, v) == Absent && f in s.owner && s.owner[f] == Held && f < |s.mem| && s.mem[f].Page?
        && o == s.owner[f := User(d, v)]
  }

  /** What a store for page v leaves of the rest of the space. */
  ghost predicate Stored(s: Space, s': Space, d: nat, v: nat, e: Pte) {
    && OneEntry(s, s', d, v, e) && |s'.mem| == |s.mem|
    && (forall x: nat, i: nat :: IsDir(s, x) && IsDir(s', x) && i < ENTRIES ==> Pde(s'.mem, x, i) == Pde(s.mem, x, i))
    && (forall f: nat :: f < |s.mem| ==> s'.mem[f].Page? == s.mem[f].Page? && (IsTable(s.mem, f) ==> IsTable(s'.mem, f)))
  }

  lemma StoredPte(s: Space, s': Space, d: nat, v: nat, e: Pte, x: nat, u: nat)
    requires Owned(s) && IsDir(s, d) && v < NPAGES && Retagged(s, d, v, e, s'.owner) && Stored(s, s', d, v, e)
    requires IsDir(s', x) && u < UPAGES
    ensures PteOwned(s', x, u)
  {
    assert IsDir(s, x) && PteOwned(s, x, u);
    hide PteOf;
  }

  lemma StoredUse(s: Space, s': Space, d: nat, v: nat, e: Pte, f: nat)
    requires Owned(s) && IsDir(s, d) && v < NPAGES && Retagged(s, d, v, e, s'.owner) && Stored(s, s', d, v, e)
    requires f in s'.owner
    ensures f < |s'.mem| && Used(s', f)
  {
    assert f in s.owner && Used(s, f);
    if v < UPAGES && e.Absent? { assert PteOwned(s, d, v); }
    hide PteOf;
  }

  lemma PteSetOwned(s: Space, d: nat, v: nat, e: Pte, o: map<nat, Owner>)
    requires Owned(s) && IsDir(s, d) && v < NPAGES && Pde(s.mem, d, v / ENTRIES).Present?
    requires IsTable(s.mem, Pde(s.mem, d, v / ENTRIES).frame)
    requires Retagged(s, d, v, e, o) && Stored(s, WithPte(s, d, v, e, o), d, v, e)
    ensures Owned(WithPte(s, d, v, e, o))
  {
    var s' := WithPte(s, d, v, e, o);
    assert s'.owner == o;
    hide WithPte, Retagged;
    forall x: nat, i: nat | IsDir(s', x) && i < ENTRIES ensures PdeOwned(s', x, i) {
      assert IsDir(s, x) && PdeOwned(s, x, i);
      TabStays(s, s', d, v, e, x, i);
    }
    forall x: nat, u: nat | IsDir(s', x) && u < UPAGES ensures PteOwned(s', x, u) { StoredPte(s, s', d, v, e, x, u); }
    forall f: nat | f in s'.owner ensures f < |s'.mem| && Used(s', f) { StoredUse(s, s', d, v, e, f); }
  }

  lemma TabStays(s: Space, s': Space, d: nat, v: nat, e: Pte, x: nat, i: nat)
    requires Owned(s) && IsDir(s, d) && v < NPAGES && Retagged(s, d, v, e, s'.owner) && Stored(s, s', d, v, e)
    requires IsDir(s, x) && IsDir(s', x) && i < ENTRIES
    ensures PdeOwned(s', x, i)
  {
    assert PdeOwned(s, x, i);
    hide PteOf;
  }

  // ----- relations between states -----

  /** The frames in use are the same but for those that o says. */
  ghost predicate SamePages(s: Space, s': Space) {
    |s'.mem| == |s.mem| && forall f: nat :: f in s.owner && f in s'.owner && f < |s.mem| && s.mem[f].Page? ==> s'.mem[f] == s.mem[f]
  }

  /** n pages of directory d from first on are mapped to the frames from frame on: the held frames
      under user pages now belong to them, and new frames in use are page tables of d. */
  ghost predicate MappedTo(s: Space, s': Space, d: nat, first: nat, n: nat, frame: nat, perm: nat) {
    MappedMap(s, s', d, first, n, frame, perm) && MappedUse(s, s', d, first, n, frame) && SamePages(s, s')
  }

  ghost predicate MappedMap(s: Space, s': Space, d: nat, first: nat, n: nat, frame: nat, perm: nat) {
    && (forall x: nat :: IsDir(s, x) <==> IsDir(s', x))
    && (forall x: nat, u: nat :: IsDir(s, x) && IsDir(s', x) && u < NPAGES ==>
          PteOf(s'.mem, x, u) == if x == d && first <= u < first + n then Present(perm, frame + (u - first)) else PteOf(s.mem, x, u))
  }

  ghost predicate MappedUse(s: Space, s': Space, d: nat, first: nat, n: nat, frame: nat) {
    && (forall f: nat :: f in s.owner ==>
          f in s'.owner && s'.owner[f] == if frame <= f < frame + n && first + (f - frame) < UPAGES
                                          then User(d, first + (f - frame)) else s.owner[f])
    && (forall f: nat :: f in s'.owner && f !in s.owner ==> s'.owner[f].Tab? && s'.owner[f].d == d)
  }

  lemma NothingMapped(s: Space, d: nat, first: nat, frame: nat, perm: nat)
    ensures MappedTo(s, s, d, first, 0, frame, perm)
  {
  }

  /** The address spaces are as in s; frames not in use there are page tables of d now. */
  ghost predicate OnlyTables(s: Space, s': Space, d: nat) {
    && SameMap(s, s') && SamePages(s, s')
    && (forall f: nat :: f in s.owner ==> f in s'.owner && s'.owner[f] == s.owner[f])
    && (forall f: nat :: f in s'.owner && f !in s.owner ==> s'.owner[f].Tab? && s'.owner[f].d == d)
  }

  lemma TablesAdded(s: Space, d: nat, i: nat, perm: nat, f: nat)
    requires Owned(s) && IsDir(s, d) && i < ENTRIES && Pde(s.mem, d, i) == Absent && f !in s.owner && f < |s.mem|
    ensures f != d && Owned(Space(s.mem, s.owner[f := Held]))
    ensures var s' := WithTable(s, d, i, perm, f);
            Owned(s') && IsDir(s', d) && Pde(s'.mem, d, i) == Present(perm, f) && OnlyTables(s, s', d)
  {
    HeldFrame(s, f, s.mem[f], s.owner[f := Held]);
    assert s.mem[f := s.mem[f]] == s.mem;
    var h := Space(s.mem, s.owner[f := Held]);
    TableOwned(h, d, i, perm, f);
    assert WithTable(s, d, i, perm, f) == WithTable(h, d, i, perm, f);
    hide Owned;
  }

  /** One more page after k: a page table for it if need be, then its entry. */
  lemma MappedNext(s: Space, w: Space, x: Space, y: Space, d: nat, first: nat, k: nat, frame: nat, perm: nat)
    requires MappedTo(s, w, d, first, k, frame, perm) && OnlyTables(w, x, d) && IsDir(x, d)
    requires first + k < NPAGES && OneEntry(x, y, d, first + k, Present(perm, frame + k)) && SamePages(x, y)
    requires y.owner == if first + k < UPAGES then x.owner[frame + k := User(d, first + k)] else x.owner
    requires first + k < UPAGES ==> frame + k in s.owner
    ensures MappedTo(s, y, d, first, k + 1, frame, perm)
  {
    hide PteOf, MappedMap, SameMap, OneEntry, SamePages, IsDir;
    MappedMapNext(s, w, x, y, d, first, k, frame, perm);
    MappedUseNext(s, w, x, y, d, first, k, frame);
    SamePagesNext(s, w, x, y);
  }

  lemma SamePagesNext(s: Space, w: Space, x: Space, y: Space)
    requires SamePages(s, w) && SamePages(w, x) && SamePages(x, y)
    requires forall f: nat :: f in s.owner ==> f in w.owner && f in x.owner
    ensures SamePages(s, y)
  {
  }

  lemma MappedMapNext(s: Space, w: Space, x: Space, y: Space, d: nat, first: nat, k: nat, frame: nat, perm: nat)
    requires MappedMap(s, w, d, first, k, frame, perm) && SameMap(w, x) && OneEntry(x, y, d, first + k, Present(perm, frame + k))
    ensures MappedMap(s, y, d, first, k + 1, frame, perm)
  {
    hide PteOf;
  }

  lemma MappedUseNext(s: Space, w: Space, x: Space, y: Space, d: nat, first: nat, k: nat, frame: nat)
    requires MappedUse(s, w, d, first, k, frame)
    requires forall f: nat :: f in w.owner ==> f in x.owner && x.owner[f] == w.owner[f]
    requires forall f: nat :: f in x.owner && f !in w.owner ==> x.owner[f].Tab? && x.owner[f].d == d
    requires y.owner == if first + k < UPAGES then x.owner[frame + k := User(d, first + k)] else x.owner
    requires first + k < UPAGES ==> frame + k in s.owner
    ensures MappedUse(s, y, d, first, k + 1, frame)
  {
  }

  /** A page table that there was none of has mapped nothing. */
  lemma NoTableNoPages(s: Space, d: nat, v: nat, u: nat)
    requires IsDir(s, d) && v < NPAGES && u < NPAGES && v / ENTRIES == u / ENTRIES && Pde(s.mem, d, v / ENTRIES) == Absent
    ensures PteOf(s.mem, d, u) == Absent
  {
  }

  lemma SameIsOnlyTables(s: Space, d: nat)
    ensures OnlyTables(s, s, d)
  {
  }

  predicate HeldPage(s: Space, f: nat) {
    f in s.owner && s.owner[f] == Held && f < |s.mem| && s.mem[f].Page?
  }

  /** The entry for the page after the k that are mapped is still the old one. */
  lemma MappedEntry(s: Space, w: Space, x: Space, d: nat, first: nat, k: nat, frame: nat, perm: nat)
    requires MappedTo(s, w, d, first, k, frame, perm) && OnlyTables(w, x, d) && IsDir(x, d) && first + k < NPAGES
    ensures IsDir(s, d) && PteOf(x.mem, d, first + k) == PteOf(s.mem, d, first + k)
  {
    hide PteOf;
  }

  lemma EntryIn(s: Space, d: nat, v: nat)
    requires IsDir(s, d) && v < NPAGES && Pde(s.mem, d, v / ENTRIES).Present? && IsTable(s.mem, Pde(s.mem, d, v / ENTRIES).frame)
    ensures PteOf(s.mem, d, v) == s.mem[Pde(s.mem, d, v / ENTRIES).frame].entries[v % ENTRIES]
  {
  }

  /** x has a page table for page v of d, and no entry in it for v. */
  ghost predicate Vacant(x: Space, d: nat, v: nat) {
    && Owned(x) && IsDir(x, d) && v < NPAGES && PteOf(x.mem, d, v) == Absent
    && Pde(x.mem, d, v / ENTRIES).Present? && IsTable(x.mem, Pde(x.mem, d, v / ENTRIES).frame)
  }

  /** y is x after a store of e in the page table for page v, with ownership o. */
  ghost predicate IsStore(x: Space, y: Space, d: nat, v: nat, e: Pte, o: map<nat, Owner>) {
    && IsTable(x.mem, d) && v < NPAGES && Pde(x.mem, d, v / ENTRIES).Present?
    && IsTable(x.mem, Pde(x.mem, d, v / ENTRIES).frame) && y == WithPte(x, d, v, e, o)
  }

  /** The store of mappages() for a user page ... */
  lemma MappedUser(s: Space, w: Space, x: Space, y: Space, d: nat, first: nat, k: nat, frame: nat, perm: nat)
    requires MappedTo(s, w, d, first, k, frame, perm) && OnlyTables(w, x, d) && |x.mem| == |s.mem|
    requires Vacant(x, d, first + k) && first + k < UPAGES && HeldPage(s, frame + k)
    requires IsStore(x, y, d, first + k, Present(perm, frame + k), x.owner[frame + k := User(d, first + k)])
    ensures Owned(y) && IsDir(y, d) && y.owner.Keys == x.owner.Keys && MappedTo(s, y, d, first, k + 1, frame, perm)
  {
    hide PteOf, Owned, MappedTo, OnlyTables, WithPte, SamePages;
    HeldStill(s, w, x, d, first, k, frame, perm);
    StoreFacts(x, y, d, first + k, Present(perm, frame + k), x.owner[frame + k := User(d, first + k)]);
    UserPageMapped(x, d, first + k, perm, frame + k);
    MappedNext(s, w, x, y, d, first, k, frame, perm);
  }

  /** ... and for a kernel page. */
  lemma MappedKernel(s: Space, w: Space, x: Space, y: Space, d: nat, first: nat, k: nat, frame: nat, perm: nat)
    requires MappedTo(s, w, d, first, k, frame, perm) && OnlyTables(w, x, d) && |x.mem| == |s.mem|
    requires Vacant(x, d, first + k) && first + k >= UPAGES
    requires IsStore(x, y, d, first + k, Present(perm, frame + k), x.owner)
    ensures Owned(y) && IsDir(y, d) && y.owner.Keys == x.owner.Keys && MappedTo(s, y, d, first, k + 1, frame, perm)
  {
    hide PteOf, Owned, MappedTo, OnlyTables, WithPte, SamePages;
    StoreFacts(x, y, d, first + k, Present(perm, frame + k), x.owner);
    KernelPageMapped(x, d, first + k, Present(perm, frame + k));
    MappedNext(s, w, x, y, d, first, k, frame, perm);
  }

  lemma StoreFacts(x: Space, y: Space, d: nat, v: nat, e: Pte, o: map<nat, Owner>)
    requires IsStore(x, y, d, v, e, o)
    ensures y.owner == o && SamePages(x, y)
  {
  }

  lemma MappedTables(s: Space, w: Space, x: Space, d: nat, first: nat, k: nat, frame: nat, perm: nat)
    requires MappedTo(s, w, d, first, k, frame, perm) && OnlyTables(w, x, d)
    ensures MappedTo(s, x, d, first, k, frame, perm)
  {
    hide PteOf;
  }

  lemma HeldStill(s: Space, w: Space, x: Space, d: nat, first: nat, k: nat, frame: nat, perm: nat)
    requires MappedTo(s, w, d, first, k, frame, perm) && OnlyTables(w, x, d) && HeldPage(s, frame + k) && |x.mem| == |s.mem|
    ensures HeldPage(x, frame + k)
  {
    hide PteOf;
  }

  // ----- taking pages away -----

  predicate UserPage(o: Owner, d: nat, from: nat, to: nat) {
    o.User? && o.d == d && from <= o.v < to
  }

  /** User pages from .. to of directory d are unmapped, their frames out of use; all else stays. */
  ghost predicate Unmapped(s: Space, s': Space, d: nat, from: nat, to: nat) {
    UnmappedMap(s, s', d, from, to) && UnmappedUse(s, s', d, from, to) && SamePages(s, s')
  }

  ghost predicate UnmappedMap(s: Space, s': Space, d: nat, from: nat, to: nat) {
    && (forall x: nat :: IsDir(s, x) <==> IsDir(s', x))
    && (forall x: nat, u: nat :: IsDir(s, x) && IsDir(s', x) && u < NPAGES ==>
          PteOf(s'.mem, x, u) == if x == d && from <= u < to then Absent else PteOf(s.mem, x, u))
  }

  ghost predicate UnmappedUse(s: Space, s': Space, d: nat, from: nat, to: nat) {
    && (forall f: nat :: f in s'.owner <==> f in s.owner && !UserPage(s.owner[f], d, from, to))
    && (forall f: nat :: f in s'.owner ==> s'.owner[f] == s.owner[f])
  }

  lemma NothingUnmapped(s: Space, d: nat, from: nat, to: nat)
    requires to <= from
    ensures Unmapped(s, s, d, from, to)
  {
  }

  /** Pages that were not mapped anyway. */
  lemma UnmappedSkip(s: Space, w: Space, d: nat, from: nat, q: nat, to: nat)
    requires Owned(s) && IsDir(s, d) && Unmapped(s, w, d, from, q) && from <= q <= to <= UPAGES
    requires forall u: nat :: q <= u < to ==> PteOf(w.mem, d, u) == Absent
    ensures Unmapped(s, w, d, from, to)
  {
    forall f: nat | f in s.owner && UserPage(s.owner[f], d, from, to) ensures s.owner[f].v < q {
      assert Used(s, f);
      var v := s.owner[f].v;
      assert PteOf(w.mem, d, v) == Absent;
    }
    hide PteOf;
  }

  /** One page: its frame f is freed, then its entry cleared. */
  lemma UnmappedNext(s: Space, w: Space, y: Space, d: nat, from: nat, v: nat, f: nat, x: Frame)
    requires Unmapped(s, w, d, from, v) && from <= v < UPAGES && Owned(w) && IsDir(w, d)
    requires PteOf(w.mem, d, v).Present? && PteOf(w.mem, d, v).frame == f
    requires Pde(w.mem, d, v / ENTRIES).Present? && IsTable(w.mem, Pde(w.mem, d, v / ENTRIES).frame)
    requires |w.mem| == |s.mem|
    ensures f < |w.mem| && f in w.owner && w.owner[f] == User(d, v) && f != Pde(w.mem, d, v / ENTRIES).frame
    ensures y == Space(SetEntry(w.mem[f := x], Pde(w.mem, d, v / ENTRIES).frame, v % ENTRIES, Absent), w.owner - {f}) ==>
              Owned(y) && IsDir(y, d) && Unmapped(s, y, d, from, v + 1)
  {
    UserPageUnmapped(w, d, v);
    assert PteOwned(w, d, v);
    var t := Pde(w.mem, d, v / ENTRIES).frame;
    var h := WithPte(w, d, v, Absent, w.owner[f := Held]);
    StoreFacts(w, h, d, v, Absent, w.owner[f := Held]);
    hide Owned, Unmapped, PteOf, SamePages, OneEntry, SameMap;
    var y' := Space(h.mem[f := x], w.owner - {f});
    EitherOrder(w, t, v % ENTRIES, f, x);
    HeldFrame(h, f, x, h.owner - {f});
    UnmappedMore(s, w, h, y', d, from, v, f);
  }

  /** It makes no difference whether a frame is freed before or after its entry is cleared. */
  lemma EitherOrder(w: Space, t: nat, i: nat, f: nat, x: Frame)
    requires IsTable(w.mem, t) && i < ENTRIES && f < |w.mem| && f != t
    ensures SetEntry(w.mem[f := x], t, i, Absent) == SetEntry(w.mem, t, i, Absent)[f := x]
    ensures w.owner[f := Held] - {f} == w.owner - {f}
  {
  }

  lemma UnmappedMore(s: Space, w: Space, h: Space, y: Space, d: nat, from: nat, v: nat, f: nat)
    requires Unmapped(s, w, d, from, v) && from <= v < UPAGES && OneEntry(w, h, d, v, Absent) && SameMap(h, y)
    requires SamePages(w, h) && |y.mem| == |h.mem| == |w.mem| == |s.mem|
    requires forall g: nat :: g < |h.mem| && g != f ==> y.mem[g] == h.mem[g]
    requires f in w.owner && w.owner[f] == User(d, v) && y.owner == w.owner - {f} && h.owner == w.owner[f := Held]
    requires IsDir(w, d) && Owned(w) && PteOf(w.mem, d, v).Present? && PteOf(w.mem, d, v).frame == f
    ensures IsDir(y, d) && Unmapped(s, y, d, from, v + 1)
  {
    hide PteOf, Owned, UnmappedMap, UnmappedUse, SamePages, OneEntry, UserPage;
    OneFrameOut(w, d, v, f);
    UnmappedMapNext(s, w, h, y, d, from, v);
    UnmappedUseNext(s, w, h, y, d, from, v, f);
  }

  lemma UnmappedMapNext(s: Space, w: Space, h: Space, y: Space, d: nat, from: nat, v: nat)
    requires UnmappedMap(s, w, d, from, v) && from <= v < UPAGES && OneEntry(w, h, d, v, Absent) && SameMap(h, y) && IsDir(w, d)
    ensures IsDir(y, d) && UnmappedMap(s, y, d, from, v + 1)
  {
    hide PteOf;
  }

  lemma UnmappedUseNext(s: Space, w: Space, h: Space, y: Space, d: nat, from: nat, v: nat, f: nat)
    requires UnmappedUse(s, w, d, from, v) && SamePages(s, w) && SamePages(w, h) && from <= v
    requires |y.mem| == |h.mem| && forall g: nat :: g < |h.mem| && g != f ==> y.mem[g] == h.mem[g]
    requires f in w.owner && w.owner[f] == User(d, v) && y.owner == w.owner - {f} && h.owner == w.owner[f := Held]
    requires forall g: nat :: g in w.owner && UserPage(w.owner[g], d, v, v + 1) ==> g == f
    ensures UnmappedUse(s, y, d, from, v + 1) && SamePages(s, y)
  {
  }

  lemma OneFrameOut(w: Space, d: nat, v: nat, f: nat)
    requires Owned(w) && IsDir(w, d) && v < UPAGES && PteOf(w.mem, d, v).Present? && PteOf(w.mem, d, v).frame == f
    ensures forall g: nat :: g in w.owner && UserPage(w.owner[g], d, v, v + 1) ==> g == f
  {
    forall g: nat | g in w.owner && UserPage(w.owner[g], d, v, v + 1) ensures g == f {
      assert Used(w, g);
    }
  }

  // ----- growing -----

  /** Pages from .. to of directory d have zeroed frames that were not in use, no two the same;
      all else stays, but for new page tables of d and the frames in extra, which are held. */
  ghost predicate GrownTo(s: Space, s': Space, d: nat, from: nat, to: nat, extra: set<nat>) {
    GrownMap(s, s', d, from, to) && GrownUse(s, s', d, from, to, extra) && SamePages(s, s')
  }

  ghost predicate GrownMap(s: Space, s': Space, d: nat, from: nat, to: nat) {
    && (forall x: nat :: IsDir(s, x) <==> IsDir(s', x))
    && (forall x: nat, u: nat :: IsDir(s, x) && IsDir(s', x) && u < NPAGES ==>
          if x == d && from <= u < to then FreshPage(s, s', d, u) else PteOf(s'.mem, x, u) == PteOf(s.mem, x, u))
  }

  ghost predicate GrownUse(s: Space, s': Space, d: nat, from: nat, to: nat, extra: set<nat>) {
    && (forall f: nat :: f in s.owner ==> f in s'.owner && s'.owner[f] == s.owner[f])
    && (forall f: nat :: f in s'.owner && f !in s.owner ==>
          (s'.owner[f].Tab? && s'.owner[f].d == d) || UserPage(s'.owner[f], d, from, to) || (f in extra && s'.owner[f] == Held))
  }

  predicate FreshPage(s: Space, s': Space, d: nat, u: nat)
    requires IsDir(s', d) && u < NPAGES
  {
    var e := PteOf(s'.mem, d, u);
    e.Present? && e.perm == WU && e.frame !in s.owner && e.frame < |s'.mem| && s'.mem[e.frame] == ZeroPage()
  }

  lemma GrownHeld(s: Space, w: Space, x: Space, d: nat, from: nat, v: nat, f: nat)
    requires GrownTo(s, w, d, from, v, {}) && f !in w.owner && f < |w.mem| && x == Space(w.mem[f := ZeroPage()], w.owner[f := Held])
    requires Owned(w) && SameMap(Space(w.mem, w.owner[f := Held]), x) && IsDir(w, d) && |w.mem| == |s.mem| && v <= UPAGES
    ensures GrownTo(s, x, d, from, v, {f}) && f !in s.owner
  {
    hide PteOf, Owned, FreshPage, ZeroPage;
    forall u: nat | from <= u < v ensures IsDir(x, d) && FreshPage(s, x, d, u) { FreshBefore(s, w, x, d, from, v, f, u); }
  }

  lemma FreshBefore(s: Space, w: Space, x: Space, d: nat, from: nat, v: nat, f: nat, u: nat)
    requires GrownMap(s, w, d, from, v) && f !in w.owner && f < |w.mem| && x == Space(w.mem[f := ZeroPage()], w.owner[f := Held])
    requires Owned(w) && SameMap(Space(w.mem, w.owner[f := Held]), x) && IsDir(w, d) && from <= u < v <= UPAGES
    ensures IsDir(x, d) && FreshPage(s, x, d, u)
  {
    assert IsDir(s, d) && FreshPage(s, w, d, u) && PteOwned(w, d, u);
    assert IsDir(Space(w.mem, w.owner[f := Held]), d);
    hide PteOf, Owned, GrownMap;
  }

  /** Fresh pages stay fresh while other pages are mapped. */
  lemma FreshStays(s: Space, x: Space, y: Space, d: nat, from: nat, v: nat, f: nat, n: nat, u: nat)
    requires GrownTo(s, x, d, from, v, {f}) && MappedTo(x, y, d, v, n, f, WU) && from <= u < v < UPAGES
    requires IsDir(x, d) && Owned(x) && f in x.owner && x.owner[f] == Held
    ensures IsDir(s, d) && IsDir(y, d) && FreshPage(s, y, d, u)
  {
    assert FreshPage(s, x, d, u) && PteOwned(x, d, u);
    hide Owned, PteOf, GrownMap, GrownUse;
  }

  lemma GrownMapNext(s: Space, x: Space, y: Space, d: nat, from: nat, v: nat, f: nat, n: nat)
    requires GrownTo(s, x, d, from, v, {f}) && MappedTo(x, y, d, v, n, f, WU) && from <= v < UPAGES && n <= 1
    requires f !in s.owner && f in x.owner && x.owner[f] == Held && f < |x.mem| && x.mem[f] == ZeroPage()
    requires IsDir(x, d) && Owned(x) && |x.mem| == |s.mem|
    ensures GrownMap(s, y, d, from, v + n)
  {
    hide PteOf, Owned, FreshPage, GrownUse, SamePages;
    forall u: nat | from <= u < v ensures FreshPage(s, y, d, u) { FreshStays(s, x, y, d, from, v, f, n, u); }
    if n == 1 { NewIsFresh(s, x, y, d, v, f); }
  }

  lemma NewIsFresh(s: Space, x: Space, y: Space, d: nat, v: nat, f: nat)
    requires MappedTo(x, y, d, v, 1, f, WU) && v < UPAGES && IsDir(x, d)
    requires f !in s.owner && f in x.owner && f < |x.mem| && x.mem[f] == ZeroPage()
    ensures IsDir(y, d) && FreshPage(s, y, d, v)
  {
    hide PteOf;
  }

  lemma GrownUseNext(s: Space, x: Space, y: Space, d: nat, from: nat, v: nat, f: nat, n: nat)
    requires GrownTo(s, x, d, from, v, {f}) && MappedTo(x, y, d, v, n, f, WU) && from <= v < UPAGES && n <= 1
    requires f !in s.owner && f in x.owner && x.owner[f] == Held && |x.mem| == |s.mem|
    ensures GrownUse(s, y, d, from, v + n, if n == 1 then {} else {f}) && SamePages(s, y)
    ensures n == 0 ==> f in y.owner && y.owner[f] == Held
  {
    hide PteOf, GrownMap;
  }

  /** mappages() of the frame f at page v: mapped, or out of memory and the frame still held. */
  lemma GrownNext(s: Space, x: Space, y: Space, d: nat, from: nat, v: nat, f: nat, n: nat)
    requires GrownTo(s, x, d, from, v, {f}) && MappedTo(x, y, d, v, n, f, WU) && from <= v < UPAGES && n <= 1
    requires f !in s.owner && f in x.owner && x.owner[f] == Held && f < |x.mem| && x.mem[f] == ZeroPage()
    requires IsDir(x, d) && Owned(x) && |x.mem| == |s.mem|
    ensures GrownTo(s, y, d, from, v + n, if n == 1 then {} else {f})
    ensures n == 0 ==> f in y.owner && y.owner[f] == Held
  {
    GrownMapNext(s, x, y, d, from, v, f, n);
    GrownUseNext(s, x, y, d, from, v, f, n);
    hide GrownMap, GrownUse, MappedTo;
  }

  lemma NothingGrown(s: Space, d: nat, from: nat)
    ensures GrownTo(s, s, d, from, from, {})
  {
  }

  /** As OnlyTables, but the frames in extra may be held. */
  ghost predicate TablesAnd(s: Space, s': Space, d: nat, extra: set<nat>) {
    && SameMap(s, s') && SamePages(s, s')
    && (forall f: nat :: f in s.owner ==> f in s'.owner && s'.owner[f] == s.owner[f])
    && (forall f: nat :: f in s'.owner && f !in s.owner ==>
          (s'.owner[f].Tab? && s'.owner[f].d == d) || (f in extra && s'.owner[f] == Held))
  }

  /** Growing and then deallocating the whole range leaves the address spaces as they were. */
  lemma GrownBack(s: Space, w: Space, z: Space, d: nat, from: nat, p: nat, end: nat, extra: set<nat>)
    requires Owned(s) && GrownTo(s, w, d, from, p, extra) && Unmapped(w, z, d, from, end) && p <= end <= UPAGES
    requires IsDir(s, d) && forall u: nat :: from <= u < end ==> PteOf(s.mem, d, u) == Absent
    ensures TablesAnd(s, z, d, extra)
  {
    hide FreshPage, PteOf, Owned;
    NoPagesThere(s, d, from, end);
    GrownBackMap(s, w, z, d, from, p, end);
  }

  lemma GrownBackMap(s: Space, w: Space, z: Space, d: nat, from: nat, p: nat, end: nat)
    requires GrownMap(s, w, d, from, p) && UnmappedMap(w, z, d, from, end) && p <= end <= UPAGES
    requires IsDir(s, d) && forall u: nat :: from <= u < end ==> PteOf(s.mem, d, u) == Absent
    ensures SameMap(s, z)
  {
    hide FreshPage, PteOf;
  }

  lemma NoPagesThere(s: Space, d: nat, from: nat, end: nat)
    requires Owned(s) && IsDir(s, d) && end <= UPAGES && forall u: nat :: from <= u < end ==> PteOf(s.mem, d, u) == Absent
    ensures forall f: nat :: f in s.owner ==> !UserPage(s.owner[f], d, from, end)
  {
    forall f: nat | f in s.owner ensures !UserPage(s.owner[f], d, from, end) {
      assert Used(s, f);
    }
  }

  lemma ExtraFreed(s: Space, z: Space, y: Space, d: nat, f: nat)
    requires TablesAnd(s, z, d, {f}) && SameMap(z, y) && f !in s.owner && y.owner == z.owner - {f} && |y.mem| == |z.mem|
    requires forall g: nat :: g < |z.mem| && g != f ==> y.mem[g] == z.mem[g]
    ensures OnlyTables(s, y, d)
  {
    hide PteOf;
  }

  lemma NoExtra(s: Space, z: Space, d: nat)
    requires TablesAnd(s, z, d, {})
    ensures OnlyTables(s, z, d)
  {
  }

  // ----- dropping a directory -----

  /** Frame f is part of address space d. */
  predicate Belongs(o: Owner, f: nat, d: nat) {
    f == d || (o.Tab? && o.d == d) || (o.User? && o.d == d)
  }

  function Without(owner: map<nat, Owner>, d: nat): map<nat, Owner> {
    map f | f in owner && !Belongs(owner[f], f, d) :: owner[f]
  }

  /** Address space d is gone, with all its frames and only those. */
  ghost predicate Dropped(s: Space, s': Space, d: nat) {
    && (forall x: nat :: IsDir(s', x) <==> IsDir(s, x) && x != d)
    && (forall x: nat, u: nat :: IsDir(s, x) && IsDir(s', x) && u < NPAGES ==> PteOf(s'.mem, x, u) == PteOf(s.mem, x, u))
    && s'.owner == Without(s.owner, d) && SamePages(s, s')
  }

  /** Frame f holds the page table of d in a slot below i. */
  predicate TableBelow(s: Space, f: nat, d: nat, i: nat) {
    f in s.owner && s.owner[f].Tab? && s.owner[f].d == d && s.owner[f].i < i
  }

  lemma TableOrNot(s: Space, d: nat, i: nat)
    requires Owned(s) && IsDir(s, d) && i < ENTRIES
    ensures !TableBelow(s, d, d, i)
    ensures var e := Pde(s.mem, d, i);
            && (e.Present? ==> e.frame in s.owner && e.frame < |s.mem| && s.owner[e.frame] == Tab(d, i) && !TableBelow(s, e.frame, d, i))
            && forall f: nat :: TableBelow(s, f, d, i + 1) <==> TableBelow(s, f, d, i) || (e.Present? && f == e.frame)
  {
    assert PdeOwned(s, d, i);
    forall f: nat | TableBelow(s, f, d, i + 1) && !TableBelow(s, f, d, i) ensures Pde(s.mem, d, i) == Present(Pde(s.mem, d, i).perm, f) {
      assert Used(s, f);
    }
  }

  lemma FramesLeft(owner: map<nat, Owner>, d: nat)
    ensures forall f: nat :: f in Without(owner, d) <==> f in owner && !Belongs(owner[f], f, d)
  {
  }

  /** Only page tables, and the directory itself, are left to d. */
  ghost predicate Bare(w: Space, d: nat) {
    forall f: nat :: f in w.owner && Belongs(w.owner[f], f, d) ==> f == d || TableBelow(w, f, d, ENTRIES)
  }

  lemma BareFacts(w: Space, d: nat)
    requires Owned(w) && IsDir(w, d) && Bare(w, d)
    ensures d in w.owner && d < |w.mem| && !TableBelow(w, d, d, ENTRIES) && (forall f: nat :: !TableBelow(w, f, d, 0))
    ensures forall f: nat :: f in w.owner ==> (Belongs(w.owner[f], f, d) <==> f == d || TableBelow(w, f, d, ENTRIES))
    ensures forall f: nat :: TableBelow(w, f, d, ENTRIES) ==> f in w.owner
  {
  }

  lemma BareDir(s: Space, w: Space, d: nat)
    requires Owned(w) && IsDir(w, d) && Unmapped(s, w, d, 0, UPAGES)
    ensures Bare(w, d)
  {
    forall f: nat | f in w.owner && Belongs(w.owner[f], f, d) ensures f == d || TableBelow(w, f, d, ENTRIES) {
      assert Used(w, f);
    }
  }

  lemma DirDropped(w: Space, y: Space, d: nat)
    requires Owned(w) && IsDir(w, d) && y.owner == Without(w.owner, d) && |y.mem| == |w.mem|
    requires forall f: nat :: f < |w.mem| && f != d && !TableBelow(w, f, d, ENTRIES) ==> y.mem[f] == w.mem[f]
    ensures Owned(y) && Dropped(w, y, d)
  {
    FramesStay(w, y, d);
    DroppedMap(w, y, d);
    DroppedOwned(w, y, d);
    hide PteOf, Owned;
  }

  lemma FramesStay(w: Space, y: Space, d: nat)
    requires Owned(w) && y.owner == Without(w.owner, d) && |y.mem| == |w.mem|
    requires forall f: nat :: f < |w.mem| && f != d && !TableBelow(w, f, d, ENTRIES) ==> y.mem[f] == w.mem[f]
    ensures forall f: nat :: f in y.owner ==> f < |w.mem| && y.mem[f] == w.mem[f]
  {
    forall f: nat | f in y.owner ensures f < |w.mem| && y.mem[f] == w.mem[f] {
      assert Used(w, f);
    }
  }

  lemma DroppedMap(w: Space, y: Space, d: nat)
    requires Owned(w) && IsDir(w, d) && y.owner == Without(w.owner, d) && |y.mem| == |w.mem|
    requires forall f: nat :: f in y.owner ==> f < |w.mem| && y.mem[f] == w.mem[f]
    ensures forall x: nat :: IsDir(y, x) <==> IsDir(w, x) && x != d
    ensures forall x: nat, i: nat :: IsDir(w, x) && IsDir(y, x) && i < ENTRIES ==> Pde(y.mem, x, i) == Pde(w.mem, x, i)
    ensures forall x: nat, u: nat :: IsDir(w, x) && IsDir(y, x) && u < NPAGES ==> PteOf(y.mem, x, u) == PteOf(w.mem, x, u)
  {
    forall x: nat, u: nat | IsDir(w, x) && IsDir(y, x) && u < NPAGES ensures PteOf(y.mem, x, u) == PteOf(w.mem, x, u) {
      assert PdeOwned(w, x, u / ENTRIES) && x in y.owner;
      var e := Pde(w.mem, x, u / ENTRIES);
      assert e.Present? ==> e.frame in y.owner;
    }
  }

  lemma DroppedOwned(w: Space, y: Space, d: nat)
    requires Owned(w) && IsDir(w, d) && y.owner == Without(w.owner, d) && |y.mem| == |w.mem|
    requires forall f: nat :: f in y.owner ==> f < |w.mem| && y.mem[f] == w.mem[f]
    requires forall x: nat :: IsDir(y, x) <==> IsDir(w, x) && x != d
    requires forall x: nat, i: nat :: IsDir(w, x) && IsDir(y, x) && i < ENTRIES ==> Pde(y.mem, x, i) == Pde(w.mem, x, i)
    requires forall x: nat, u: nat :: IsDir(w, x) && IsDir(y, x) && u < NPAGES ==> PteOf(y.mem, x, u) == PteOf(w.mem, x, u)
    ensures Owned(y)
  {
    forall x: nat, i: nat | IsDir(y, x) && i < ENTRIES ensures PdeOwned(y, x, i) {
      assert IsDir(w, x) && PdeOwned(w, x, i);
      assert Pde(w.mem, x, i).Present? ==> Pde(w.mem, x, i).frame in y.owner;
    }
    hide PteOf;
    forall x: nat, v: nat | IsDir(y, x) && v < UPAGES ensures PteOwned(y, x, v) {
      assert IsDir(w, x) && PteOwned(w, x, v);
      assert PteOf(w.mem, x, v).Present? ==> PteOf(w.mem, x, v).frame in y.owner;
    }
    forall f: nat | f in y.owner ensures f < |y.mem| && Used(y, f) { assert Used(w, f); }
  }

  lemma UnmapThenDrop(s: Space, w: Space, y: Space, d: nat)
    requires Owned(s) && Unmapped(s, w, d, 0, UPAGES) && Dropped(w, y, d) && |w.mem| == |s.mem|
    ensures Dropped(s, y, d)
  {
    forall f: nat | f in s.owner && s.owner[f].User? ensures s.owner[f].v < UPAGES { assert Used(s, f); }
    hide PteOf, Owned;
    assert y.owner == Without(s.owner, d);
  }

  // ----- new address spaces -----

  /** w is s with an address space c added: the rest is the same, and the frames newly in use are
      its own, or held and in extra. */
  ghost predicate Added(s: Space, w: Space, c: nat, extra: set<nat>) {
    AddedMap(s, w, c) && AddedUse(s, w, c, extra) && SamePages(s, w)
  }

  ghost predicate AddedMap(s: Space, w: Space, c: nat) {
    && !IsDir(s, c) && IsDir(w, c) && (forall x: nat :: IsDir(w, x) <==> IsDir(s, x) || x == c)
    && (forall x: nat, u: nat :: IsDir(s, x) && IsDir(w, x) && u < NPAGES ==> PteOf(w.mem, x, u) == PteOf(s.mem, x, u))
  }

  ghost predicate AddedUse(s: Space, w: Space, c: nat, extra: set<nat>) {
    && c !in s.owner
    && (forall f: nat :: f in s.owner ==> f in w.owner && w.owner[f] == s.owner[f])
    && (forall f: nat :: f in w.owner && f !in s.owner ==> Belongs(w.owner[f], f, c) || (f in extra && w.owner[f] == Held))
  }

  lemma DirAdded(s: Space, h: Space, c: nat)
    requires Owned(h) && c !in s.owner && h == Space(s.mem, s.owner[c := Held]) && c < |s.mem|
    ensures Owned(WithDir(h, c)) && Added(s, WithDir(h, c), c, {})
    ensures forall v: nat :: v < NPAGES ==> PteOf(WithDir(h, c).mem, c, v) == Absent
  {
    hide Owned, PteOf, Pde;
    DirOwned(h, c);
    assert forall x: nat :: IsDir(h, x) <==> IsDir(s, x);
  }

  lemma AddedMore(s: Space, w: Space, y: Space, c: nat, first: nat, n: nat, frame: nat, perm: nat, extra: set<nat>)
    requires Added(s, w, c, extra) && MappedTo(w, y, c, first, n, frame, perm) && |w.mem| == |s.mem|
    requires forall f: nat :: frame <= f < frame + n && first + (f - frame) < UPAGES ==> f !in s.owner
    ensures Added(s, y, c, extra)
  {
    hide PteOf;
  }

  /** Dropping the new address space brings s back. */
  ghost predicate Restored(s: Space, z: Space) {
    SameMap(s, z) && z.owner == s.owner && SamePages(s, z)
  }

  lemma DropAdded(s: Space, w: Space, z: Space, c: nat)
    requires Owned(s) && Added(s, w, c, {}) && Dropped(w, z, c) && |w.mem| == |s.mem|
    ensures Restored(s, z)
  {
    forall f: nat | f in s.owner ensures !Belongs(s.owner[f], f, c) { assert Used(s, f); }
    hide PteOf, Owned;
    FramesLeft(w.owner, c);
    hide Belongs, Without;
    assert forall f: nat :: f in z.owner <==> f in s.owner;
    assert z.owner == s.owner;
  }

  // ----- copying -----

  /** Page u of c is a copy of page u of d in s, in a frame of its own. */
  predicate CopyPage(s: Space, w: Space, d: nat, c: nat, u: nat)
    requires IsDir(s, d) && IsDir(w, c) && u < NPAGES
  {
    var e, e' := PteOf(s.mem, d, u), PteOf(w.mem, c, u);
    && e.Present? && e'.Present? && e'.perm == e.perm && e'.frame !in s.owner
    && e.frame < |s.mem| && e'.frame < |w.mem| && w.mem[e'.frame] == s.mem[e.frame]
  }

  /** The first n pages are copied, the others of the user half empty. */
  ghost predicate CopiedTo(s: Space, w: Space, d: nat, c: nat, n: nat)
    requires IsDir(s, d) && IsDir(w, c)
  {
    forall u: nat :: u < UPAGES ==> if u < n then CopyPage(s, w, d, c, u) else PteOf(w.mem, c, u) == Absent
  }

  /** The kernel halves of c in two states agree. */
  ghost predicate SameKernel(w: Space, y: Space, c: nat)
    requires IsDir(w, c) && IsDir(y, c)
  {
    forall v: nat :: UPAGES <= v < NPAGES ==> PteOf(y.mem, c, v) == PteOf(w.mem, c, v)
  }

  lemma CopyHeld(s: Space, w: Space, x: Space, d: nat, c: nat, n: nat, f: nat, page: Frame)
    requires Added(s, w, c, {}) && IsDir(s, d) && CopiedTo(s, w, d, c, n) && f !in w.owner && f < |w.mem|
    requires x == Space(w.mem[f := page], w.owner[f := Held]) && Owned(w) && SameMap(Space(w.mem, w.owner[f := Held]), x) && |w.mem| == |s.mem|
    ensures Added(s, x, c, {f}) && IsDir(x, c) && CopiedTo(s, x, d, c, n) && SameKernel(w, x, c) && f !in s.owner
  {
    hide PteOf, Owned, AddedMap, CopyPage, SameMap;
    CopyHeldMap(s, w, x, c, f, page);
    forall u: nat | u < UPAGES ensures if u < n then CopyPage(s, x, d, c, u) else PteOf(x.mem, c, u) == Absent {
      assert if u < n then CopyPage(s, w, d, c, u) else PteOf(w.mem, c, u) == Absent;
      if u < n { CopyHeldPage(s, w, x, d, c, f, page, u); }
    }
  }

  lemma CopyHeldPage(s: Space, w: Space, x: Space, d: nat, c: nat, f: nat, page: Frame, u: nat)
    requires IsDir(s, d) && IsDir(w, c) && IsDir(x, c) && u < UPAGES && CopyPage(s, w, d, c, u) && Owned(w) && f !in w.owner && f < |w.mem|
    requires x.mem == w.mem[f := page] && PteOf(x.mem, c, u) == PteOf(w.mem, c, u)
    ensures CopyPage(s, x, d, c, u)
  {
    assert PteOwned(w, c, u);
    hide PteOf, Owned;
  }

  lemma CopyHeldMap(s: Space, w: Space, x: Space, c: nat, f: nat, page: Frame)
    requires AddedMap(s, w, c) && f !in w.owner && f < |w.mem|
    requires x == Space(w.mem[f := page], w.owner[f := Held]) && SameMap(Space(w.mem, w.owner[f := Held]), x)
    ensures AddedMap(s, x, c) && IsDir(w, c) && IsDir(x, c) && SameKernel(w, x, c)
    ensures forall u: nat :: u < NPAGES ==> PteOf(x.mem, c, u) == PteOf(w.mem, c, u)
  {
    hide PteOf;
    assert forall y: nat :: IsDir(Space(w.mem, w.owner[f := Held]), y) <==> IsDir(w, y);
  }

  lemma CopyNext(s: Space, x: Space, y: Space, d: nat, c: nat, n: nat, f: nat, perm: nat, m: nat)
    requires Owned(x) && Added(s, x, c, {f}) && IsDir(s, d) && IsDir(x, c) && CopiedTo(s, x, d, c, n) && MappedTo(x, y, c, n, m, f, perm) && m <= 1
    requires n < UPAGES && f !in s.owner && f in x.owner && x.owner[f] == Held && f < |x.mem| == |s.mem|
    requires PteOf(s.mem, d, n).Present? && PteOf(s.mem, d, n).perm == perm && PteOf(s.mem, d, n).frame < |s.mem|
    requires x.mem[f] == s.mem[PteOf(s.mem, d, n).frame] && x.mem[f].Page?
    ensures Added(s, y, c, if m == 1 then {} else {f}) && IsDir(y, c) && CopiedTo(s, y, d, c, n + m) && SameKernel(x, y, c)
    ensures m == 0 ==> f in y.owner && y.owner[f] == Held
  {
    hide PteOf, Owned, CopiedTo, Added, MappedTo;
    CopyPages(s, x, y, d, c, n, f, perm, m);
    CopyAdded(s, x, y, c, n, f, perm, m);
  }

  /** The frame that was held is the new address space's, unless it could not be mapped. */
  lemma CopyAdded(s: Space, x: Space, y: Space, c: nat, n: nat, f: nat, perm: nat, m: nat)
    requires Added(s, x, c, {f}) && MappedTo(x, y, c, n, m, f, perm) && m <= 1 && n < UPAGES && |x.mem| == |s.mem|
    requires f !in s.owner && f in x.owner && x.owner[f] == Held
    ensures Added(s, y, c, if m == 1 then {} else {f}) && IsDir(y, c) && SameKernel(x, y, c)
    ensures m == 0 ==> f in y.owner && y.owner[f] == Held
  {
    hide PteOf;
    AddedMore(s, x, y, c, n, m, f, perm, {f});
  }

  lemma CopyPages(s: Space, x: Space, y: Space, d: nat, c: nat, n: nat, f: nat, perm: nat, m: nat)
    requires Owned(x) && IsDir(s, d) && IsDir(x, c) && CopiedTo(s, x, d, c, n) && MappedTo(x, y, c, n, m, f, perm) && m <= 1
    requires n < UPAGES && f !in s.owner && f in x.owner && x.owner[f] == Held && f < |x.mem| == |s.mem|
    requires PteOf(s.mem, d, n).Present? && PteOf(s.mem, d, n).perm == perm && PteOf(s.mem, d, n).frame < |s.mem|
    requires x.mem[f] == s.mem[PteOf(s.mem, d, n).frame] && x.mem[f].Page?
    ensures IsDir(y, c) && CopiedTo(s, y, d, c, n + m)
  {
    forall u: nat | u < UPAGES ensures if u < n + m then CopyPage(s, y, d, c, u) else PteOf(y.mem, c, u) == Absent {
      assert if u < n then CopyPage(s, x, d, c, u) else PteOf(x.mem, c, u) == Absent;
      assert PteOwned(x, c, u);
      hide PteOf, Owned;
    }
  }

  // ----- what these relations mean -----

  lemma UnmappedIs(s: Space, w: Space, d: nat, from: nat, to: nat)
    requires Unmapped(s, w, d, from, to)
    ensures |w.mem| == |s.mem| && forall f: nat ::
              f in w.owner <==> f in s.owner && !(s.owner[f].User? && s.owner[f].d == d && from <= s.owner[f].v < to)
    ensures forall x: nat :: IsDir(s, x) <==> IsDir(w, x)
    ensures forall x: nat, u: nat :: IsDir(s, x) && IsDir(w, x) && u < NPAGES ==>
              PteOf(w.mem, x, u) == if x == d && from <= u < to then Absent else PteOf(s.mem, x, u)
  {
    hide PteOf;
  }

  lemma DroppedIs(s: Space, w: Space, d: nat)
    requires Dropped(s, w, d)
    ensures !IsDir(w, d) && forall f: nat ::
              f in w.owner <==> f in s.owner && f != d && !(s.owner[f].Tab? && s.owner[f].d == d) && !(s.owner[f].User? && s.owner[f].d == d)
    ensures forall x: nat, u: nat :: IsDir(s, x) && x != d && u < NPAGES ==> IsDir(w, x) && PteOf(w.mem, x, u) == PteOf(s.mem, x, u)
  {
    hide PteOf;
  }

  lemma RestoredIs(s: Space, w: Space)
    requires Restored(s, w)
    ensures w.owner == s.owner && |w.mem| == |s.mem|
    ensures forall x: nat, u: nat :: IsDir(s, x) && u < NPAGES ==> IsDir(w, x) && PteOf(w.mem, x, u) == PteOf(s.mem, x, u)
    ensures forall f: nat :: f in s.owner && f < |s.mem| && s.mem[f].Page? ==> w.mem[f] == s.mem[f]
  {
    hide PteOf;
  }

  /** The address space of a child: on frames of its own, the contents and flags of the parent's
      pages, of which it has no other. */
  lemma CopiedIs(s: Space, w: Space, d: nat, c: nat, n: nat)
    requires IsDir(s, d) && IsDir(w, c) && CopiedTo(s, w, d, c, n)
    ensures forall u: nat :: u < UPAGES ==>
              var e, e' := PteOf(s.mem, d, u), PteOf(w.mem, c, u);
              if u < n then
                && e.Present? && e'.Present? && e'.perm == e.perm && e'.frame !in s.owner
                && e.frame < |s.mem| && e'.frame < |w.mem| && w.mem[e'.frame] == s.mem[e.frame]
              else e' == Absent
  {
    hide PteOf;
    forall u: nat | u < UPAGES ensures if u < n then CopyPage(s, w, d, c, u) else PteOf(w.mem, c, u) == Absent {}
  }

  /** And every other address space is as it was. */
  lemma AddedIs(s: Space, w: Space, c: nat)
    requires Added(s, w, c, {})
    ensures forall x: nat, u: nat :: IsDir(s, x) && u < NPAGES ==> IsDir(w, x) && PteOf(w.mem, x, u) == PteOf(s.mem, x, u)
    ensures forall f: nat :: f in s.owner && f < |s.mem| && s.mem[f].Page? ==> f < |w.mem| && w.mem[f] == s.mem[f]
  {
    hide PteOf;
  }

  lemma OnlyTablesIs(s: Space, w: Space, d: nat)
    requires OnlyTables(s, w, d)
    ensures forall f: nat :: f in s.owner ==> f in w.owner && w.owner[f] == s.owner[f]
    ensures forall f: nat :: f in w.owner && f !in s.owner ==> w.owner[f].Tab? && w.owner[f].d == d
    ensures forall x: nat, u: nat :: IsDir(s, x) && u < NPAGES ==> IsDir(w, x) && PteOf(w.mem, x, u) == PteOf(s.mem, x, u)
  {
    hide PteOf;
  }
}
