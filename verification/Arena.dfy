/** The memory of the user allocator as a value: headers at addresses counted in header units, a
    circular free list in address order through base, and which block each unit belongs to. */
module Arena {

  datatype Header = Header(ptr: nat, size: nat)

  /** order is the free list from base on, used the allocated blocks, and owner maps each unit
      obtained from sbrk to the start of its block. */
  datatype Arena = Arena(base: nat, hdr: map<nat, Header>, order: seq<nat>, used: set<nat>, owner: map<nat, nat>)

  function Next(a: Arena, i: nat): nat
    requires i < |a.order|
  {
    if i + 1 < |a.order| then a.order[i + 1] else a.base
  }

  /** Element i of the free list is linked to the next one, the last to base. */
  predicate LinkOk(a: Arena, i: nat)
    requires i < |a.order|
  {
    a.order[i] in a.hdr && a.hdr[a.order[i]].ptr == Next(a, i)
  }

  /** Free block i ends at or before the start of the next. */
  predicate Apart(a: Arena, i: nat)
    requires i + 1 < |a.order|
  {
    a.order[i] in a.hdr && a.order[i] < a.order[i + 1] && a.order[i] + a.hdr[a.order[i]].size <= a.order[i + 1]
  }

  /** ... and does not touch it. */
  predicate Gap(a: Arena, i: nat)
    requires i + 1 < |a.order|
  {
    Apart(a, i) && a.order[i] + a.hdr[a.order[i]].size < a.order[i + 1]
  }

  ghost predicate Linked(a: Arena) {
    && a.order != [] && a.order[0] == a.base && a.base in a.hdr && a.hdr[a.base].size == 0
    && (forall i :: 0 <= i < |a.order| ==> LinkOk(a, i))
    && (forall i :: 0 <= i < |a.order| - 1 ==> Apart(a, i))
  }

  predicate IsBlock(a: Arena, s: nat) {
    s in a.used || (s in a.order && s != a.base)
  }

  /** Block s has units, and all of them are its own. */
  ghost predicate OwnsUnits(a: Arena, s: nat) {
    && s in a.hdr && a.hdr[s].size > 0
    && forall u :: s <= u < s + a.hdr[s].size ==> u in a.owner && a.owner[u] == s
  }

  /** Unit u lies in the block that owns it. */
  predicate InOwner(a: Arena, u: nat)
    requires u in a.owner
  {
    var s := a.owner[u];
    IsBlock(a, s) && s in a.hdr && s <= u < s + a.hdr[s].size
  }

  /** The blocks, free and allocated, tile the memory from sbrk: no two overlap and together they
      are all of it. */
  ghost predicate Tiled(a: Arena) {
    && (forall s :: IsBlock(a, s) ==> OwnsUnits(a, s))
    && (forall u :: u in a.owner ==> a.base < u && InOwner(a, u))
    && (forall s :: s in a.used ==> s !in a.order)
  }

  /** No free block touches the next, except perhaps at places x and y. */
  ghost predicate GapsBut(a: Arena, x: int, y: int) {
    forall i :: 0 <= i < |a.order| - 1 && i != x && i != y ==> Gap(a, i)
  }

  ghost predicate Good(a: Arena) {
    Linked(a) && Tiled(a) && GapsBut(a, -1, -1)
  }

  lemma {:induction false} Ascending(a: Arena, i: nat, j: nat)
    requires Linked(a) && i < j < |a.order|
    ensures a.order[i] < a.order[j]
    decreases j
  {
    assert Apart(a, j - 1);
    if i < j - 1 { Ascending(a, i, j - 1); }
  }

  // ----- free -----

  /** bp linked in after element k, not yet coalesced. */
  function Linked1(a: Arena, bp: nat, k: nat): Arena
    requires k < |a.order| && bp in a.hdr && a.order[k] in a.hdr
  {
    var h1 := a.hdr[bp := a.hdr[bp].(ptr := Next(a, k))];
    a.(hdr := h1[a.order[k] := h1[a.order[k]].(ptr := bp)],
       order := a.order[..k + 1] + [bp] + a.order[k + 1..],
       used := a.used - {bp})
  }

  /** Where the search of free() stops for bp. */
  predicate Place(a: Arena, bp: nat, k: nat) {
    k < |a.order| && a.order[k] < bp && (k + 1 < |a.order| ==> bp < a.order[k + 1])
  }

  lemma BlocksDoNotOverlap(a: Arena, s: nat, t: nat)
    requires Tiled(a) && IsBlock(a, s) && IsBlock(a, t) && s < t
    ensures s in a.hdr && s + a.hdr[s].size <= t
  {
    assert OwnsUnits(a, s) && OwnsUnits(a, t);
    assert t in a.owner && a.owner[t] == t;
  }

  lemma LinkKeeps(a: Arena, bp: nat, k: nat)
    requires Good(a) && bp in a.used && Place(a, bp, k)
    ensures bp in a.hdr && a.order[k] in a.hdr
    ensures var b := Linked1(a, bp, k);
            && Linked(b) && Tiled(b) && |b.order| == |a.order| + 1 && b.order[k] == a.order[k]
            && (forall s :: s in b.used ==> s in b.hdr && b.hdr[s] == a.hdr[s])
            && GapsBut(b, k, k + 1)
  {
    assert OwnsUnits(a, bp) && LinkOk(a, k);
    var b := Linked1(a, bp, k);
    var n := |a.order|;
    forall i | 0 <= i < |b.order| ensures LinkOk(b, i) {
      assert LinkOk(a, if i <= k then i else i - 1);
      if i < k { Ascending(a, i, k); }
      if i > k + 1 { Ascending(a, k, i - 1); }
    }
    forall i | 0 <= i < |b.order| - 1 ensures Apart(b, i) && (i != k && i != k + 1 ==> Gap(b, i)) {
      assert i < k ==> Gap(a, i);
      assert i > k + 1 ==> Gap(a, i - 1);
      if i == k && k > 0 { Ascending(a, 0, k); BlocksDoNotOverlap(a, a.order[k], bp); }
      if i == k + 1 { Ascending(a, 0, k + 1); BlocksDoNotOverlap(a, bp, a.order[k + 1]); }
    }
    TiledAfterLink(a, bp, k);
    forall s | s in b.used ensures s in b.hdr && b.hdr[s] == a.hdr[s] {
      assert OwnsUnits(a, s) && a.order[k] in a.order;
    }
  }

  lemma TiledAfterLink(a: Arena, bp: nat, k: nat)
    requires Good(a) && bp in a.used && k < |a.order| && bp in a.hdr && a.order[k] in a.hdr
    ensures Tiled(Linked1(a, bp, k))
  {
    var b := Linked1(a, bp, k);
    forall s ensures s in b.order <==> s in a.order || s == bp {
      if s in a.order {
        var i :| 0 <= i < |a.order| && a.order[i] == s;
        assert b.order[if i <= k then i else i + 1] == s;
      }
      assert b.order[k + 1] == bp;
    }
    assert OwnsUnits(a, bp) && bp != a.base;
    forall s ensures IsBlock(b, s) <==> IsBlock(a, s) {}
    forall s | IsBlock(b, s) ensures OwnsUnits(b, s) { assert OwnsUnits(a, s); }
    forall u | u in b.owner ensures b.base < u && InOwner(b, u) { assert InOwner(a, u); }
  }

  /** Element i takes over the units of element i + 1, which follows it in memory. */
  function Merged(a: Arena, i: nat): Arena
    requires i + 1 < |a.order| && a.order[i] in a.hdr && a.order[i + 1] in a.hdr
  {
    var p, q := a.order[i], a.order[i + 1];
    a.(hdr := a.hdr[p := Header(a.hdr[q].ptr, a.hdr[p].size + a.hdr[q].size)],
       order := a.order[..i + 1] + a.order[i + 2..],
       owner := map u | u in a.owner :: if a.owner[u] == q then p else a.owner[u])
  }

  /** The allocated blocks are the same, with the same headers. */
  ghost predicate SameUsed(a: Arena, b: Arena) {
    && b.base == a.base && b.used == a.used && b.owner.Keys == a.owner.Keys
    && forall s :: s in a.used ==> s in a.hdr && s in b.hdr && b.hdr[s] == a.hdr[s]
  }

  lemma UsedHaveHeaders(a: Arena)
    requires Tiled(a)
    ensures forall s :: s in a.used ==> s in a.hdr && a.hdr[s].size > 0 && s !in a.order
    ensures SameUsed(a, a)
  {
    forall s | s in a.used ensures s in a.hdr && a.hdr[s].size > 0 {
      assert IsBlock(a, s) && OwnsUnits(a, s);
    }
  }

  lemma MergeKeeps(a: Arena, i: nat, x: nat)
    requires Linked(a) && Tiled(a) && GapsBut(a, x, i) && x <= i && 0 < i && i + 1 < |a.order|
    requires a.order[i] in a.hdr && a.order[i] + a.hdr[a.order[i]].size == a.order[i + 1]
    ensures a.order[i + 1] in a.hdr
    ensures var b := Merged(a, i);
            && Linked(b) && Tiled(b) && |b.order| == |a.order| - 1 && (forall j :: 0 <= j <= i ==> b.order[j] == a.order[j])
            && SameUsed(a, b)
            && GapsBut(b, if x < i then x else -1, -1)
  {
    assert LinkOk(a, i) && LinkOk(a, i + 1);
    Ascending(a, 0, i);
    MergeLinked(a, i);
    MergeTiled(a, i);
    forall j | 0 <= j < |a.order| - 2 && !(x < i && j == x) ensures Gap(Merged(a, i), j) {
      assert Gap(a, if j < i then j else j + 1);
    }
    UsedHaveHeaders(a);
    assert a.order[i] in a.order;
  }

  lemma MergeLinked(a: Arena, i: nat)
    requires Linked(a) && 0 < i && i + 1 < |a.order|
    requires a.order[i] in a.hdr && a.order[i + 1] in a.hdr && a.order[i] + a.hdr[a.order[i]].size == a.order[i + 1]
    ensures var b := Merged(a, i);
            && Linked(b) && |b.order| == |a.order| - 1
            && forall j :: 0 <= j < |b.order| - 1 && Gap(a, if j < i then j else j + 1) ==> Gap(b, j)
  {
    var b := Merged(a, i);
    assert LinkOk(a, i + 1);
    Ascending(a, 0, i);
    forall j | 0 <= j < |b.order| ensures LinkOk(b, j) {
      assert LinkOk(a, if j <= i then j else j + 1);
      if j < i { Ascending(a, j, i); }
      if j > i { Ascending(a, i, j + 1); }
    }
    forall j | 0 <= j < |b.order| - 1 ensures Apart(b, j) {
      assert Apart(a, if j <= i then j else j + 1);
      if j < i { Ascending(a, j, i); }
      if j > i { Ascending(a, i, j + 1); }
      if j == i { assert Apart(a, i + 1); }
    }
    forall j | 0 <= j < |b.order| - 1 && Gap(a, if j < i then j else j + 1) ensures Gap(b, j) {
      assert Apart(b, j);
      if j < i { Ascending(a, j, i); }
      if j > i { Ascending(a, i, j + 1); }
    }
  }

  lemma MergeTiled(a: Arena, i: nat)
    requires Linked(a) && Tiled(a) && 0 < i && i + 1 < |a.order|
    requires a.order[i] in a.hdr && a.order[i + 1] in a.hdr && a.order[i] + a.hdr[a.order[i]].size == a.order[i + 1]
    ensures Tiled(Merged(a, i))
  {
    var b := Merged(a, i);
    var p, q := a.order[i], a.order[i + 1];
    Ascending(a, i, i + 1);
    Ascending(a, 0, i);
    forall s ensures s in b.order <==> s in a.order && s != q {
      if s in a.order && s != q {
        var j :| 0 <= j < |a.order| && a.order[j] == s;
        assert b.order[if j <= i then j else j - 1] == s;
      }
      if s in b.order {
        var j :| 0 <= j < |b.order| && b.order[j] == s;
        if j > i { Ascending(a, i + 1, j + 1); } else if j < i { Ascending(a, j, i + 1); }
      }
    }
    assert OwnsUnits(a, p) && OwnsUnits(a, q);
    forall s ensures IsBlock(b, s) <==> IsBlock(a, s) && s != q {}
    forall s | IsBlock(b, s) ensures OwnsUnits(b, s) {
      assert OwnsUnits(a, s);
      if s == p {
        forall u | p <= u < p + b.hdr[p].size ensures u in b.owner && b.owner[u] == p {
          assert u in a.owner && a.owner[u] == if u < q then p else q;
        }
      }
    }
    forall u | u in b.owner ensures b.base < u && InOwner(b, u) { assert InOwner(a, u); }
  }

  /** bp at place k + 1 takes over the free block that begins where it ends. */
  function Up(a: Arena, bp: nat, k: nat): Arena
    requires k + 1 < |a.order| && a.order[k + 1] == bp && forall i :: 0 <= i < |a.order| ==> a.order[i] in a.hdr
  {
    if k + 2 < |a.order| && bp + a.hdr[bp].size == a.order[k + 2] then Merged(a, k + 1) else a
  }

  /** The free block that ends where bp begins takes over bp. */
  function Down(a: Arena, bp: nat, k: nat): Arena
    requires k + 1 < |a.order| && a.order[k + 1] == bp && forall i :: 0 <= i < |a.order| ==> a.order[i] in a.hdr
  {
    if a.order[k] + a.hdr[a.order[k]].size == bp then Merged(a, k) else a
  }

  /** Free block i has n units or more. */
  predicate Fits(a: Arena, i: nat, n: nat)
    requires i < |a.order|
  {
    a.order[i] in a.hdr && a.hdr[a.order[i]].size >= n
  }

  ghost predicate HasFit(a: Arena, n: nat) {
    exists i :: 0 <= i < |a.order| && Fits(a, i, n)
  }

  /** There is a fit exactly if some free block has the units. */
  lemma HasFitIs(a: Arena, n: nat)
    requires Good(a) && n > 0
    ensures HasFit(a, n) <==> exists f :: f in a.order && f != a.base && f in a.hdr && a.hdr[f].size >= n
  {
    if HasFit(a, n) {
      var i :| 0 <= i < |a.order| && Fits(a, i, n);
      assert a.order[i] in a.order;
    }
    if f :| f in a.order && f != a.base && f in a.hdr && a.hdr[f].size >= n {
      var i :| 0 <= i < |a.order| && a.order[i] == f;
      assert Fits(a, i, n);
    }
  }

  /** No free block ends where another begins: free() has put them together. */
  lemma FreeBlocksApart(a: Arena, i: nat, j: nat)
    requires Good(a) && i < |a.order| && j < |a.order| && i != j && i > 0
    ensures a.order[i] in a.hdr && a.order[i] + a.hdr[a.order[i]].size != a.order[j]
  {
    if i + 1 < |a.order| { assert Gap(a, i); }
    if i + 1 < j { Ascending(a, i + 1, j); }
    if j < i { Ascending(a, j, i); }
    assert LinkOk(a, i);
  }

  /** An arena with bp in the free list after element k. */
  ghost predicate Around(a: Arena, bp: nat, k: nat) {
    Linked(a) && Tiled(a) && k + 1 < |a.order| && a.order[k + 1] == bp
  }

  lemma NotTouching(a: Arena, i: nat)
    requires Linked(a)
    ensures i + 1 < |a.order| ==>
              a.order[i] in a.hdr && (a.order[i] + a.hdr[a.order[i]].size != a.order[i + 1] ==> Gap(a, i))
  {
    if i + 1 < |a.order| { assert Apart(a, i); }
  }

  lemma GapAt(a: Arena, x: int, y: nat)
    requires GapsBut(a, x, y) && (y + 1 < |a.order| ==> Gap(a, y))
    ensures GapsBut(a, x, -1)
  {
  }

  lemma UpMerges(a: Arena, bp: nat, k: nat)
    requires Around(a, bp, k) && GapsBut(a, k, k + 1) && bp in a.hdr
    requires k + 2 < |a.order| && bp + a.hdr[bp].size == a.order[k + 2]
    ensures a.order[k + 2] in a.hdr
    ensures var b := Merged(a, k + 1);
            Around(b, bp, k) && GapsBut(b, k, -1) && b.order[k] == a.order[k] && SameUsed(a, b)
            && bp in b.hdr && b.hdr[bp].size >= a.hdr[bp].size
  {
    hide Tiled, Linked, Gap, GapsBut, SameUsed;
    MergeKeeps(a, k + 1, k);
  }

  lemma UpKeeps(a: Arena, bp: nat, k: nat)
    requires Around(a, bp, k) && GapsBut(a, k, k + 1)
    ensures forall i :: 0 <= i < |a.order| ==> a.order[i] in a.hdr
    ensures var b := Up(a, bp, k);
            Around(b, bp, k) && GapsBut(b, k, -1) && b.order[k] == a.order[k] && SameUsed(a, b)
            && bp in b.hdr && bp in a.hdr && b.hdr[bp].size >= a.hdr[bp].size
  {
    hide Merged, Around, Linked, Tiled, Gap, GapsBut, SameUsed;
    AroundFacts(a, bp, k);
    if k + 2 < |a.order| && bp + a.hdr[bp].size == a.order[k + 2] {
      UpMerges(a, bp, k);
    } else {
      NotTouching(a, k + 1);
      GapAt(a, k, k + 1);
    }
  }

  lemma AroundFacts(a: Arena, bp: nat, k: nat)
    requires Around(a, bp, k)
    ensures k + 1 < |a.order| && a.order[k + 1] == bp && Linked(a) && SameUsed(a, a)
    ensures forall i :: 0 <= i < |a.order| ==> a.order[i] in a.hdr
  {
    BaseFirst(a);
    UsedHaveHeaders(a);
  }

  lemma DownKeeps(a: Arena, bp: nat, k: nat)
    requires Around(a, bp, k) && GapsBut(a, k, -1)
    ensures forall i :: 0 <= i < |a.order| ==> a.order[i] in a.hdr
    ensures var b := Down(a, bp, k); Good(b) && k < |b.order| && b.order[k] == a.order[k] && SameUsed(a, b)
    ensures bp in a.hdr && HasFit(Down(a, bp, k), a.hdr[bp].size)
  {
    BaseFirst(a);
    UsedHaveHeaders(a);
    Ascending(a, 0, k + 1);
    if a.order[k] + a.hdr[a.order[k]].size == bp {
      assert k > 0 && GapsBut(a, k, k);
      hide Tiled, Linked, Gap, GapsBut;
      MergeKeeps(a, k, k);
      assert Fits(Merged(a, k), k, a.hdr[bp].size);
    } else {
      assert Fits(a, k + 1, a.hdr[bp].size);
      hide Tiled, Linked, Gap;
      NotTouching(a, k);
    }
  }

  lemma Halfway(a: Arena, bp: nat, k: nat)
    requires Good(a) && bp in a.used && Place(a, bp, k)
    ensures bp in a.hdr && a.order[k] in a.hdr
    ensures Around(Linked1(a, bp, k), bp, k) && GapsBut(Linked1(a, bp, k), k, k + 1)
    ensures SameUsed(a.(used := a.used - {bp}), Linked1(a, bp, k)) && Linked1(a, bp, k).hdr[bp].size == a.hdr[bp].size
    ensures Linked1(a, bp, k).order[k] == a.order[k]
  {
    LinkKeeps(a, bp, k);
    UsedHaveHeaders(a);
  }

  /** free(): link bp in after element k, and coalesce it with the free blocks it touches. */
  function Freed(a: Arena, bp: nat, k: nat): Arena
    requires Good(a) && bp in a.used && Place(a, bp, k)
  {
    Halfway(a, bp, k);
    var b := Linked1(a, bp, k);
    UpKeeps(b, bp, k);
    var c := Up(b, bp, k);
    DownKeeps(c, bp, k);
    Down(c, bp, k)
  }

  /** After free() the list is in order again, nothing adjacent, and everything tiled; the other
      allocated blocks are as they were. */
  lemma FreedKeeps(a: Arena, bp: nat, k: nat)
    requires Good(a) && bp in a.used && Place(a, bp, k)
    ensures var b := Freed(a, bp, k);
            Good(b) && k < |b.order| && b.order[k] == a.order[k] && SameUsed(a.(used := a.used - {bp}), b)
    ensures bp in a.hdr && HasFit(Freed(a, bp, k), a.hdr[bp].size)
  {
    hide HasFit, Linked1, Good, Around, GapsBut, Up, Down;
    Halfway(a, bp, k);
    var b := Linked1(a, bp, k);
    UpKeeps(b, bp, k);
    var c := Up(b, bp, k);
    DownKeeps(c, bp, k);
    AroundFacts(c, bp, k);
    FitsLess(Down(c, bp, k), c.hdr[bp].size, a.hdr[bp].size);
  }

  lemma FitsLess(a: Arena, n: nat, m: nat)
    requires HasFit(a, n) && m <= n
    ensures HasFit(a, m)
  {
    var i :| 0 <= i < |a.order| && Fits(a, i, n);
    assert Fits(a, i, m);
  }

  lemma BaseFirst(a: Arena)
    requires Linked(a)
    ensures a.order != [] && a.order[0] == a.base && a.base in a.hdr && a.hdr[a.base].size == 0
    ensures forall i :: 0 <= i < |a.order| ==> a.order[i] in a.hdr && a.hdr[a.order[i]].ptr == Next(a, i)
  {
    forall i | 0 <= i < |a.order| ensures a.order[i] in a.hdr && a.hdr[a.order[i]].ptr == Next(a, i) {
      assert LinkOk(a, i);
    }
  }

  /** The stores that free() makes, p being where its search stopped. */
  function Coalesced(h: map<nat, Header>, p: nat, bp: nat): map<nat, Header>
    requires p in h && bp in h && h[p].ptr in h
  {
    var next := h[p].ptr;
    var h1 := h[bp := if bp + h[bp].size == next then Header(h[next].ptr, h[bp].size + h[next].size) else h[bp].(ptr := next)];
    h1[p := if p + h1[p].size == bp then Header(h1[bp].ptr, h1[p].size + h1[bp].size) else h1[p].(ptr := bp)]
  }

  /** The stores in terms of the three steps: link, take over upwards, be taken over. */
  lemma CoalescedStores(h: map<nat, Header>, p: nat, bp: nat, up: bool, b: map<nat, Header>, c: map<nat, Header>, d: map<nat, Header>)
    requires p in h && bp in h && h[p].ptr in h && p < bp && h[p].ptr != bp
    requires up <==> bp + h[bp].size == h[p].ptr
    requires up ==> h[p].ptr != p
    requires b == h[bp := h[bp].(ptr := h[p].ptr)][p := h[p].(ptr := bp)]
    requires c == if up then b[bp := Header(b[h[p].ptr].ptr, b[bp].size + b[h[p].ptr].size)] else b
    requires d == if p + c[p].size == bp then c[p := Header(c[bp].ptr, c[p].size + c[bp].size)] else c
    ensures d == Coalesced(h, p, bp)
  {
  }

  lemma CoalescedIsFreed(a: Arena, bp: nat, k: nat)
    requires Good(a) && bp in a.used && Place(a, bp, k)
    ensures a.order[k] in a.hdr && bp in a.hdr && a.hdr[a.order[k]].ptr in a.hdr
    ensures Coalesced(a.hdr, a.order[k], bp) == Freed(a, bp, k).hdr
  {
    hide Good, Linked, Tiled, GapsBut, Around, SameUsed, HasFit, Linked1, Up, Down, Coalesced, Merged;
    Halfway(a, bp, k);
    NextAfterLink(a, bp, k);
    var b := Linked1(a, bp, k);
    UpKeeps(b, bp, k);
    var c := Up(b, bp, k);
    UpHeaders(b, bp, k);
    AroundFacts(c, bp, k);
    DownHeaders(c, bp, k);
    CoalescedStores(a.hdr, a.order[k], bp, k + 2 < |b.order| && bp + b.hdr[bp].size == b.order[k + 2], b.hdr, c.hdr, Down(c, bp, k).hdr);
  }

  lemma UpHeaders(a: Arena, bp: nat, k: nat)
    requires k + 1 < |a.order| && a.order[k + 1] == bp && forall i :: 0 <= i < |a.order| ==> a.order[i] in a.hdr
    ensures Up(a, bp, k).hdr == if k + 2 < |a.order| && bp + a.hdr[bp].size == a.order[k + 2]
              then a.hdr[bp := Header(a.hdr[a.order[k + 2]].ptr, a.hdr[bp].size + a.hdr[a.order[k + 2]].size)] else a.hdr
  {
  }

  lemma DownHeaders(a: Arena, bp: nat, k: nat)
    requires k + 1 < |a.order| && a.order[k + 1] == bp && forall i :: 0 <= i < |a.order| ==> a.order[i] in a.hdr
    ensures var p := a.order[k];
            Down(a, bp, k).hdr == if p + a.hdr[p].size == bp
              then a.hdr[p := Header(a.hdr[bp].ptr, a.hdr[p].size + a.hdr[bp].size)] else a.hdr
  {
  }

  /** What the list looks like around bp before coalescing. */
  lemma NextAfterLink(a: Arena, bp: nat, k: nat)
    requires Good(a) && bp in a.used && Place(a, bp, k) && bp in a.hdr && a.order[k] in a.hdr
    ensures var b := Linked1(a, bp, k);
            && b.hdr == a.hdr[bp := a.hdr[bp].(ptr := Next(a, k))][a.order[k] := a.hdr[a.order[k]].(ptr := bp)]
            && |b.order| == |a.order| + 1 && b.order[k] == a.order[k] && b.order[k + 1] == bp
            && (k + 2 < |b.order| ==> b.order[k + 2] == Next(a, k))
            && (k + 2 == |b.order| ==> Next(a, k) == a.base < bp)
    ensures a.hdr[a.order[k]].ptr == Next(a, k) && Next(a, k) in a.hdr && Next(a, k) != bp
    ensures k + 1 < |a.order| ==> Next(a, k) != a.order[k]
  {
    BaseFirst(a);
    if k > 0 { Ascending(a, 0, k); }
  }

  // ----- malloc -----

  /** Free block t handed out whole. */
  function TakenWhole(a: Arena, t: nat): Arena
    requires 0 < t < |a.order| && a.order[t] in a.hdr && a.order[t - 1] in a.hdr
  {
    var p, prev := a.order[t], a.order[t - 1];
    a.(hdr := a.hdr[prev := a.hdr[prev].(ptr := a.hdr[p].ptr)], order := a.order[..t] + a.order[t + 1..], used := a.used + {p})
  }

  lemma TakenWholeLinked(a: Arena, t: nat)
    requires Good(a) && 0 < t < |a.order| && a.order[t] in a.hdr && a.order[t - 1] in a.hdr
    ensures var b := TakenWhole(a, t); Linked(b) && GapsBut(b, -1, -1)
  {
    var b := TakenWhole(a, t);
    hide Tiled;
    forall i | 0 <= i < |b.order| ensures LinkOk(b, i) {
      assert LinkOk(a, if i < t then i else i + 1) && LinkOk(a, t);
      OtherThan(a, i, t);
    }
    forall i | 0 <= i < |b.order| - 1 ensures Apart(b, i) && Gap(b, i) {
      assert Gap(a, if i < t then i else i + 1);
      if i == t - 1 { assert Gap(a, t); }
      OtherThan(a, i, t);
    }
    OtherThan(a, 0, t);
  }

  /** Element i of the list without element t is not element t - 1, unless it is. */
  lemma OtherThan(a: Arena, i: nat, t: nat)
    requires Linked(a) && 0 < t < |a.order| && i < |a.order| - 1
    ensures var x := a.order[if i < t then i else i + 1]; x != a.order[t] && (i != t - 1 ==> x != a.order[t - 1])
  {
    if i < t { Ascending(a, i, t); } else { Ascending(a, t, i + 1); Ascending(a, t - 1, i + 1); }
    if i < t - 1 { Ascending(a, i, t - 1); }
  }

  lemma TakenWholeTiled(a: Arena, t: nat)
    requires Good(a) && 0 < t < |a.order| && a.order[t] in a.hdr && a.order[t - 1] in a.hdr
    ensures Tiled(TakenWhole(a, t)) && a.order[t] !in a.used && a.order[t] != a.base
  {
    UsedHaveHeaders(a);
    var b := TakenWhole(a, t);
    var p := a.order[t];
    Ascending(a, 0, t);
    forall s ensures s in b.order <==> s in a.order && s != p {
      if s in a.order && s != p {
        var i :| 0 <= i < |a.order| && a.order[i] == s;
        assert b.order[if i < t then i else i - 1] == s;
      }
      if s in b.order {
        var i :| 0 <= i < |b.order| && b.order[i] == s;
        OtherThan(a, i, t);
      }
    }
    forall s ensures IsBlock(b, s) <==> IsBlock(a, s) {}
    hide Linked, GapsBut;
    forall s | IsBlock(b, s) ensures OwnsUnits(b, s) { assert OwnsUnits(a, s); }
    forall u | u in b.owner ensures b.base < u && InOwner(b, u) { assert InOwner(a, u); }
  }

  lemma TakenWholeKeeps(a: Arena, t: nat)
    requires Good(a) && 0 < t < |a.order|
    ensures a.order[t] in a.hdr && a.order[t - 1] in a.hdr && a.order[t] !in a.used
    ensures var b := TakenWhole(a, t); Good(b) && b.order[t - 1] == a.order[t - 1] && Took(a, b, a.order[t])
  {
    BaseFirst(a);
    UsedHaveHeaders(a);
    TakenWholeLinked(a, t);
    TakenWholeTiled(a, t);
    OtherThan(a, t - 1, t);
    assert a.order[t - 1] in a.order;
    hide Linked, Tiled, GapsBut;
  }

  /** The step from a to b allocates block q and leaves the other allocated blocks alone. */
  ghost predicate Took(a: Arena, b: Arena, q: nat) {
    && q !in a.used && b.used == a.used + {q} && b.base == a.base && b.owner.Keys == a.owner.Keys && q in b.hdr
    && forall s :: s in a.used ==> s in a.hdr && s in b.hdr && b.hdr[s] == a.hdr[s]
  }

  /** The last n units of free block t handed out. */
  function TakenTail(a: Arena, t: nat, n: nat): Arena
    requires t < |a.order| && a.order[t] in a.hdr && n < a.hdr[a.order[t]].size
  {
    var p := a.order[t];
    var q := p + a.hdr[p].size - n;
    a.(hdr := a.hdr[p := a.hdr[p].(size := a.hdr[p].size - n)][q := Header(if q in a.hdr then a.hdr[q].ptr else 0, n)],
       used := a.used + {q},
       owner := map u | u in a.owner :: if q <= u < q + n then q else a.owner[u])
  }

  lemma TakenTailLinked(a: Arena, t: nat, n: nat)
    requires Good(a) && 0 < t < |a.order| && n > 0 && a.order[t] in a.hdr && n < a.hdr[a.order[t]].size
    requires forall i :: 0 <= i < |a.order| ==> a.order[i] != a.order[t] + a.hdr[a.order[t]].size - n
    ensures var b := TakenTail(a, t, n); Linked(b) && GapsBut(b, -1, -1)
  {
    var b := TakenTail(a, t, n);
    hide Tiled;
    BaseFirst(a);
    Ascending(a, 0, t);
    forall i | 0 <= i < |a.order| && i != t ensures a.order[i] != a.order[t] {
      if i < t { Ascending(a, i, t); } else { Ascending(a, t, i); }
    }
    forall i | 0 <= i < |b.order| ensures LinkOk(b, i) { assert LinkOk(a, i); }
    forall i | 0 <= i < |b.order| - 1 ensures Apart(b, i) && Gap(b, i) { assert Gap(a, i); }
  }

  /** The start of the tail of a free block is the start of no block. */
  lemma TailIsNoBlock(a: Arena, t: nat, n: nat)
    requires Good(a) && 0 < t < |a.order| && n > 0 && a.order[t] in a.hdr && n < a.hdr[a.order[t]].size
    ensures var q := a.order[t] + a.hdr[a.order[t]].size - n; !IsBlock(a, q) && q != a.base && q !in a.order
  {
    var p := a.order[t];
    var q := p + a.hdr[p].size - n;
    Ascending(a, 0, t);
    assert OwnsUnits(a, p);
    assert q in a.owner && a.owner[q] == p;
    assert !OwnsUnits(a, q);
  }

  /** A tail: free block t of the arena, cut so that its last n units become block q. */
  ghost predicate Tail(a: Arena, t: nat, n: nat, q: nat) {
    && 0 < t < |a.order| && a.order[t] in a.hdr && 0 < n < a.hdr[a.order[t]].size && q == a.order[t] + a.hdr[a.order[t]].size - n
    && IsBlock(a, a.order[t]) && OwnsUnits(a, a.order[t]) && !IsBlock(a, q) && q != a.base
  }

  lemma TailOwns(a: Arena, t: nat, n: nat, q: nat, s: nat)
    requires Tiled(a) && Tail(a, t, n, q) && IsBlock(TakenTail(a, t, n), s)
    ensures OwnsUnits(TakenTail(a, t, n), s)
  {
    var b := TakenTail(a, t, n);
    if s == q {
      forall u | q <= u < q + n ensures u in b.owner && b.owner[u] == q { assert u in a.owner; }
    } else {
      assert IsBlock(a, s) && OwnsUnits(a, s);
      forall u | s <= u < s + b.hdr[s].size ensures u in b.owner && b.owner[u] == s {
        assert u in a.owner && a.owner[u] == s;
      }
    }
  }

  lemma TailInOwner(a: Arena, t: nat, n: nat, q: nat, u: nat)
    requires Tiled(a) && Tail(a, t, n, q) && u in a.owner
    ensures a.base < u && InOwner(TakenTail(a, t, n), u)
  {
    assert InOwner(a, u);
  }

  lemma TakenTailTiled(a: Arena, t: nat, n: nat)
    requires Good(a) && 0 < t < |a.order| && n > 0 && a.order[t] in a.hdr && n < a.hdr[a.order[t]].size
    ensures Tiled(TakenTail(a, t, n))
  {
    var b := TakenTail(a, t, n);
    var p := a.order[t];
    var q := p + a.hdr[p].size - n;
    TailIsNoBlock(a, t, n);
    Ascending(a, 0, t);
    assert p in a.order && IsBlock(a, p) && OwnsUnits(a, p);
    assert Tail(a, t, n, q);
    forall s: nat | IsBlock(b, s) ensures OwnsUnits(b, s) { TailOwns(a, t, n, q, s); }
    hide InOwner, Tail;
    forall u: nat | u in b.owner ensures b.base < u && InOwner(b, u) { TailInOwner(a, t, n, q, u); }
  }

  lemma TakenTailKeeps(a: Arena, t: nat, n: nat)
    requires Good(a) && 0 < t < |a.order| && n > 0 && a.order[t] in a.hdr && n < a.hdr[a.order[t]].size
    ensures var b := TakenTail(a, t, n); var q := a.order[t] + a.hdr[a.order[t]].size - n;
            Good(b) && Took(a, b, q) && b.hdr[q].size == n
  {
    UsedHaveHeaders(a);
    TailIsNoBlock(a, t, n);
    TakenTailLinked(a, t, n);
    TakenTailTiled(a, t, n);
    assert a.order[t] in a.order;
    hide Linked, Tiled, GapsBut;
  }

  /** sbrk's memory at hp, entered as an allocated block of n units for free() to take. */
  function Grown(a: Arena, hp: nat, n: nat): Arena {
    a.(hdr := a.hdr[hp := Header(if hp in a.hdr then a.hdr[hp].ptr else 0, n)],
       used := a.used + {hp},
       owner := map u | u in a.owner.Keys + Units(hp, n) :: if u in a.owner then a.owner[u] else hp)
  }

  function Units(start: nat, n: nat): (r: set<nat>)
    ensures forall u: nat :: u in r <==> start <= u < start + n
  {
    if n == 0 then {} else Units(start, n - 1) + {start + n - 1}
  }

  lemma GrownKeeps(a: Arena, hp: nat, n: nat)
    requires Good(a) && a.base < hp && n > 0 && forall u :: u in a.owner ==> u < hp
    ensures Good(Grown(a, hp, n)) && hp !in a.used
    ensures forall s :: s in a.used ==> s in a.hdr && Grown(a, hp, n).hdr[s] == a.hdr[s]
  {
    UsedHaveHeaders(a);
    var b := Grown(a, hp, n);
    forall s: nat | IsBlock(a, s) ensures s < hp { assert OwnsUnits(a, s); assert s in a.owner; }
    assert !IsBlock(a, hp) && hp !in a.order;
    GrownLinked(a, hp, n);
    hide Linked, GapsBut, Grown;
    GrownOwner(a, hp, n);
    forall s ensures IsBlock(b, s) <==> IsBlock(a, s) || s == hp {}
    forall s | IsBlock(b, s) ensures OwnsUnits(b, s) { if s != hp { assert OwnsUnits(a, s); } }
    forall u | u in b.owner ensures b.base < u && InOwner(b, u) { if u in a.owner { assert InOwner(a, u); } }
  }

  lemma GrownOwner(a: Arena, hp: nat, n: nat)
    ensures var b := Grown(a, hp, n);
      && b.base == a.base && b.order == a.order && b.used == a.used + {hp} && b.hdr.Keys == a.hdr.Keys + {hp} && b.hdr[hp].size == n
      && (forall s :: s in a.hdr && s != hp ==> b.hdr[s] == a.hdr[s])
      && (forall u :: u in b.owner <==> u in a.owner || hp <= u < hp + n)
      && (forall u :: u in b.owner ==> b.owner[u] == if u in a.owner then a.owner[u] else hp)
  {
  }

  lemma GrownLinked(a: Arena, hp: nat, n: nat)
    requires Linked(a) && GapsBut(a, -1, -1) && hp !in a.order
    ensures var b := Grown(a, hp, n); Linked(b) && GapsBut(b, -1, -1)
  {
    var b := Grown(a, hp, n);
    forall i | 0 <= i < |a.order| ensures a.order[i] != hp { assert a.order[i] in a.order; }
    forall i | 0 <= i < |b.order| ensures LinkOk(b, i) { assert LinkOk(a, i); }
    forall i | 0 <= i < |b.order| - 1 ensures Apart(b, i) && Gap(b, i) { assert Gap(a, i); }
  }

  /** The arena before the first malloc has asked for memory. */
  function Empty(base: nat, hdr: map<nat, Header>): Arena {
    Arena(base, hdr[base := Header(base, 0)], [base], {}, map[])
  }

  lemma EmptyGood(base: nat, hdr: map<nat, Header>)
    ensures Good(Empty(base, hdr))
  {
  }
}
