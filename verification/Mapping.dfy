/** What bmap, readi and writei do to a volume, as relations between its states. */
module Mapping {
  import opened Blocks
  import opened BlockMap

  function Max(a: nat, b: nat): nat { if a > b then a else b }

  function Min(a: nat, b: nat): nat { if a < b then a else b }

  // ----- mapping -----

  /** Block bn of inode ino exists and is addr. */
  ghost predicate Names(v: Volume, ino: nat, bn: nat, addr: nat) {
    && ino < |v.inodes| && Shaped(v.inodes[ino]) && bn < MAXFILE
    && BlockOf(v.data, v.inodes[ino], bn) == addr && 0 < addr < |v.data|
    && addr in v.owner && v.owner[addr] == Slot(ino, SlotOf(bn))
  }

  /** What bmap() does to the block map. If block bn existed nothing has changed; else addr was a
      free block and is now zeroed and owned, and no other file block of any inode has changed. */
  ghost predicate Maps(v: Volume, v': Volume, ino: nat, bn: nat, addr: nat) {
    && Names(v', ino, bn, addr) && ino < |v.inodes| && Shaped(v.inodes[ino])
    && (BlockOf(v.data, v.inodes[ino], bn) != 0 ==> v' == v)
    && (BlockOf(v.data, v.inodes[ino], bn) == 0 ==> Adds(v, v', ino, bn, addr))
    && |v'.owner| == |v.owner| + Allocs(v.data, v.inodes[ino], bn)
  }

  ghost predicate Adds(v: Volume, v': Volume, ino: nat, bn: nat, addr: nat)
    requires Names(v', ino, bn, addr) && ino < |v.inodes| && Shaped(v.inodes[ino])
  {
    var d, d' := v.inodes[ino], v'.inodes[ino];
    && addr !in v.owner && Zeroed(v'.data[addr])
    && Untouched(v, v', ino) && d' == d.(addrs := d'.addrs)
    && (forall k: nat :: k < MAXFILE && k != bn ==> BlockOf(v'.data, d', k) == BlockOf(v.data, d, k))
    && (forall b :: b in v.owner && v.owner[b].at != NDIRECT ==>
          b < |v.data| && b in v'.owner && v'.owner[b] == v.owner[b] && v'.data[b] == v.data[b])
    && (bn < NDIRECT || d.addrs[NDIRECT] != 0 ==> d'.addrs[NDIRECT] == d.addrs[NDIRECT])
  }

  /** The indirect block of an inode, if it has one. */
  function Indirect(d: Inode): set<nat>
    requires Shaped(d)
  {
    if d.addrs[NDIRECT] == 0 then {} else {d.addrs[NDIRECT]}
  }

  /** How many blocks bmap() allocates for block bn. */
  function Allocs(data: seq<Block>, d: Inode, bn: nat): nat
    requires Shaped(d) && bn < MAXFILE
  {
    if BlockOf(data, d, bn) != 0 then 0
    else 1 + if bn >= NDIRECT && d.addrs[NDIRECT] == 0 then 1 else 0
  }

  lemma DirectMaps(v: Volume, ino: nat, bn: nat, addr: nat)
    requires Owned(v) && ino < |v.inodes| && bn < NDIRECT && 0 < addr < |v.data| && addr !in v.owner
    requires v.inodes[ino].addrs[bn] == 0
    requires var v' := WithPointer(v, ino, bn, addr);
             forall t :: 0 <= t < SLOTS && t != bn ==> Ref(v'.data, v'.inodes[ino], t) == Ref(v.data, v.inodes[ino], t)
    ensures Maps(v, WithPointer(v, ino, bn, addr), ino, bn, addr)
  {
    hide Word, Entry;
  }

  lemma EntryMaps(v: Volume, ino: nat, bn: nat, addr: nat)
    requires Owned(v) && ino < |v.inodes| && NDIRECT <= bn < MAXFILE && 0 < addr < |v.data| < TWO32 && addr !in v.owner
    requires var a := v.inodes[ino].addrs[NDIRECT];
             0 < a < |v.data| && a in v.owner && v.owner[a] == Slot(ino, NDIRECT) && a != addr
    requires Ref(v.data, v.inodes[ino], bn + 1) == 0
    requires var v' := WithEntry(v, ino, bn - NDIRECT, addr);
             && Ref(v'.data, v.inodes[ino], bn + 1) == addr
             && forall t :: 0 <= t < SLOTS && t != bn + 1 ==> Ref(v'.data, v.inodes[ino], t) == Ref(v.data, v.inodes[ino], t)
    ensures Maps(v, WithEntry(v, ino, bn - NDIRECT, addr), ino, bn, addr)
  {
    hide Word, Ref;
  }

  /** A new indirect block a, and then a new entry in it. */
  lemma IndirectMaps(v: Volume, ino: nat, bn: nat, a: nat, v': Volume, addr: nat)
    requires Owned(v) && ino < |v.inodes| && NDIRECT <= bn < MAXFILE && 0 < a < |v.data| && a !in v.owner
    requires v.inodes[ino].addrs[NDIRECT] == 0
    requires var w := WithPointer(v, ino, NDIRECT, a);
             && Maps(w, v', ino, bn, addr)
             && forall t :: 0 <= t < SLOTS && t != NDIRECT ==> Ref(w.data, w.inodes[ino], t) == Ref(v.data, v.inodes[ino], t)
    ensures Maps(v, v', ino, bn, addr)
    ensures var w := WithPointer(v, ino, NDIRECT, a);
            Allocs(w.data, w.inodes[ino], bn) + 1 == Allocs(v.data, v.inodes[ino], bn)
  {
    hide Word, Ref, RefOwned, OwnerNames, Untouched, Adds;
    var w := WithPointer(v, ino, NDIRECT, a);
    NoEntry(v.data, v.inodes[ino], bn - NDIRECT);
    assert BlockOf(v.data, v.inodes[ino], bn) == Ref(v.data, v.inodes[ino], bn + 1) == 0;
    assert BlockOf(w.data, w.inodes[ino], bn) == 0;
    IndirectAdds(v, ino, bn, a, v', addr);
  }

  lemma IndirectAdds(v: Volume, ino: nat, bn: nat, a: nat, v': Volume, addr: nat)
    requires Owned(v) && ino < |v.inodes| && NDIRECT <= bn < MAXFILE && 0 < a < |v.data| && a !in v.owner
    requires v.inodes[ino].addrs[NDIRECT] == 0
    requires var w := WithPointer(v, ino, NDIRECT, a);
             && Names(v', ino, bn, addr) && Adds(w, v', ino, bn, addr)
             && forall t :: 0 <= t < SLOTS && t != NDIRECT ==> Ref(w.data, w.inodes[ino], t) == Ref(v.data, v.inodes[ino], t)
    ensures Adds(v, v', ino, bn, addr)
  {
    hide Word, Ref;
    assert forall b :: b in v.owner ==> b < |v.data| && b != a by { forall b | b in v.owner ensures b < |v.data| { assert OwnerNames(v, b); } }
    hide Owned;
  }

  lemma NoEntry(data: seq<Block>, d: Inode, j: nat)
    requires Shaped(d) && j < NINDIRECT && d.addrs[NDIRECT] == 0
    ensures Ref(data, d, NDIRECT + 1 + j) == 0
  {
  }

  // ----- reading -----

  /** Bytes of a file that lie in one of its blocks. */
  lemma BytesInBlock(data: seq<Block>, d: Inode, i: nat, m: nat)
    requires Shaped(d) && i + m <= d.size <= MAXFILE * BSIZE && i % BSIZE + m <= BSIZE && m > 0
    requires 0 < BlockOf(data, d, i / BSIZE) < |data|
    ensures data[BlockOf(data, d, i / BSIZE)][i % BSIZE..i % BSIZE + m] == Bytes(data, d)[i..i + m]
  {
    var b := BlockOf(data, d, i / BSIZE);
    hide BlockOf;
    var x, y := data[b][i % BSIZE..i % BSIZE + m], Bytes(data, d)[i..i + m];
    forall k | 0 <= k < m ensures x[k] == y[k] {
      assert (i + k) / BSIZE == i / BSIZE && (i + k) % BSIZE == i % BSIZE + k;
    }
  }

  // ----- writing -----

  /** Bytes tot .. tot + m of src laid over block b at place at. */
  function Patched(b: Block, at: nat, src: seq<byte>, tot: nat, m: nat): (r: Block)
    requires at + m <= BSIZE && tot + m <= |src|
    ensures forall i :: 0 <= i < BSIZE ==> r[i] == if at <= i < at + m then src[tot + (i - at)] else b[i]
  {
    b[..at] + src[tot..tot + m] + b[at + m..]
  }

  /** The file block after the last one that n bytes at off lie in. */
  function BlockEnd(off: nat, n: nat): nat {
    if n == 0 then off / BSIZE else (off + n - 1) / BSIZE + 1
  }

  /** How many of the file blocks lo .. hi do not exist. */
  function Missing(data: seq<Block>, d: Inode, lo: nat, hi: nat): nat
    requires Shaped(d) && hi <= MAXFILE
  {
    if hi <= lo then 0 else Missing(data, d, lo, hi - 1) + if BlockOf(data, d, hi - 1) == 0 then 1 else 0
  }

  /** How many blocks bmap() allocates for the file blocks lo .. hi, one after the other. */
  function Needs(data: seq<Block>, d: Inode, lo: nat, hi: nat): nat
    requires Shaped(d) && hi <= MAXFILE
  {
    Missing(data, d, lo, hi) + if lo < hi && hi > NDIRECT && d.addrs[NDIRECT] == 0 then 1 else 0
  }

  lemma NeedsMore(data: seq<Block>, d: Inode, lo: nat, mid: nat, hi: nat)
    requires Shaped(d) && mid <= hi <= MAXFILE
    ensures Needs(data, d, lo, mid) <= Needs(data, d, lo, hi)
    decreases hi
  {
    hide BlockOf;
    if mid < hi { NeedsMore(data, d, lo, mid, hi - 1); }
  }

  /** From v to w the blocks lo .. hi of the file have come to exist, each that did not, and
      nothing else has changed in the block map. */
  ghost predicate Filled(v: Volume, w: Volume, ino: nat, lo: nat, hi: nat) {
    && Untouched(v, w, ino) && ino < |v.inodes| && Shaped(v.inodes[ino]) && Shaped(w.inodes[ino]) && hi <= MAXFILE
    && var d, d' := v.inodes[ino], w.inodes[ino];
       && d' == d.(addrs := d'.addrs)
       && (forall k: nat :: k < MAXFILE ==> KeptOrFilled(v, w, ino, lo, hi, k))
       && (d.addrs[NDIRECT] != 0 ==> d'.addrs[NDIRECT] == d.addrs[NDIRECT])
       && (d.addrs[NDIRECT] == 0 ==> (d'.addrs[NDIRECT] != 0 <==> lo < hi && hi > NDIRECT))
       && |w.owner| == |v.owner| + Needs(v.data, d, lo, hi)
  }

  predicate KeptOrFilled(v: Volume, w: Volume, ino: nat, lo: nat, hi: nat, k: nat)
    requires ino < |v.inodes| == |w.inodes| && Shaped(v.inodes[ino]) && Shaped(w.inodes[ino]) && k < MAXFILE
  {
    var b, b' := BlockOf(v.data, v.inodes[ino], k), BlockOf(w.data, w.inodes[ino], k);
    if b != 0 then b' == b else b' != 0 <==> lo <= k < hi
  }

  lemma NothingFilled(v: Volume, ino: nat, lo: nat)
    requires Owned(v) && ino < |v.inodes| && lo <= MAXFILE
    ensures Filled(v, v, ino, lo, lo)
  {
    hide BlockOf;
    forall b | b in v.owner ensures b < |v.data| { assert OwnerNames(v, b); }
  }

  /** bmap() of the next block. */
  lemma FillNext(v: Volume, w: Volume, w': Volume, ino: nat, lo: nat, bn: nat, addr: nat)
    requires Filled(v, w, ino, lo, bn) && lo <= bn < MAXFILE && Maps(w, w', ino, bn, addr)
    ensures Filled(v, w', ino, lo, bn + 1)
    ensures |w.owner| + Allocs(w.data, w.inodes[ino], bn) == |v.owner| + Needs(v.data, v.inodes[ino], lo, bn + 1)
  {
    hide Word, Ref, BlockOf, Needs, Allocs, Untouched, Missing;
    FillCost(v, w, ino, lo, bn);
    MapKeeps(v, w, w', ino, bn, addr);
    FilledShape(v, w, ino, lo, bn);
    if bn >= NDIRECT {
      NoEntryBelow(v.data, v.inodes[ino], bn - NDIRECT);
      NoEntryBelow(w.data, w.inodes[ino], bn - NDIRECT);
      NoEntryBelow(w'.data, w'.inodes[ino], bn - NDIRECT);
    }
    hide Maps;
    var hi := bn + 1;
    forall k: nat | k < MAXFILE ensures KeptOrFilled(v, w', ino, lo, hi, k) {
      assert KeptOrFilled(v, w, ino, lo, bn, k);
    }
  }

  /** What every bmap() keeps of the block map. */
  lemma MapKeeps(v: Volume, w: Volume, w': Volume, ino: nat, bn: nat, addr: nat)
    requires Maps(w, w', ino, bn, addr) && Untouched(v, w, ino)
    ensures Untouched(v, w', ino) && bn < MAXFILE && |w'.inodes| == |v.inodes| && Shaped(w'.inodes[ino]) && w'.inodes[ino] == w.inodes[ino].(addrs := w'.inodes[ino].addrs)
    ensures forall k: nat :: k < MAXFILE && k != bn ==>
              BlockOf(w'.data, w'.inodes[ino], k) == BlockOf(w.data, w.inodes[ino], k)
    ensures BlockOf(w'.data, w'.inodes[ino], bn) == addr != 0
    ensures BlockOf(w.data, w.inodes[ino], bn) != 0 ==> BlockOf(w.data, w.inodes[ino], bn) == addr
    ensures bn < NDIRECT || w.inodes[ino].addrs[NDIRECT] != 0 ==> w'.inodes[ino].addrs[NDIRECT] == w.inodes[ino].addrs[NDIRECT]
    ensures |w'.owner| == |w.owner| + Allocs(w.data, w.inodes[ino], bn)
  {
    hide Word, Ref, BlockOf;
    if w' != w { StillUntouched(v, w, w', ino); }
  }

  lemma StillUntouched(v: Volume, w: Volume, w': Volume, ino: nat)
    requires Untouched(v, w, ino) && Untouched(w, w', ino)
    ensures Untouched(v, w', ino)
  {
  }

  /** What bmap() asks of the free blocks for the next block, whether or not they are there. */
  lemma FillCost(v: Volume, w: Volume, ino: nat, lo: nat, bn: nat)
    requires Filled(v, w, ino, lo, bn) && lo <= bn < MAXFILE
    ensures |w.owner| + Allocs(w.data, w.inodes[ino], bn) == |v.owner| + Needs(v.data, v.inodes[ino], lo, bn + 1)
  {
    assert KeptOrFilled(v, w, ino, lo, bn, bn);
    if bn >= NDIRECT { NoEntryBelow(v.data, v.inodes[ino], bn - NDIRECT); NoEntryBelow(w.data, w.inodes[ino], bn - NDIRECT); }
    hide Word, Ref, BlockOf;
  }

  lemma NoEntryBelow(data: seq<Block>, d: Inode, j: nat)
    requires Shaped(d) && j < NINDIRECT
    ensures BlockOf(data, d, NDIRECT + j) != 0 ==> d.addrs[NDIRECT] != 0
  {
  }

  /** The same block map under other contents of the file. */
  lemma FilledSame(v: Volume, w: Volume, x: Volume, ino: nat, lo: nat, hi: nat)
    requires Filled(v, w, ino, lo, hi) && Untouched(v, x, ino) && x.inodes == w.inodes && x.owner == w.owner
    requires forall k: nat :: k < MAXFILE ==> BlockOf(x.data, x.inodes[ino], k) == BlockOf(w.data, w.inodes[ino], k)
    ensures Filled(v, x, ino, lo, hi)
  {
    hide BlockOf;
    forall k: nat | k < MAXFILE ensures KeptOrFilled(v, x, ino, lo, hi, k) {
      assert KeptOrFilled(v, w, ino, lo, hi, k);
    }
  }

  /** The pointers in the inode itself that the blocks lo .. hi go through are there already. */
  predicate PointersThere(d: Inode, lo: nat, hi: nat)
    requires Shaped(d)
  {
    && (forall k :: lo <= k < hi && k < NDIRECT ==> d.addrs[k] != 0)
    && (lo < hi && hi > NDIRECT ==> d.addrs[NDIRECT] != 0)
  }

  /** Only then is the inode as it was. */
  lemma FilledInode(v: Volume, w: Volume, ino: nat, lo: nat, hi: nat)
    requires Filled(v, w, ino, lo, hi)
    ensures w.inodes[ino] == v.inodes[ino] <==> PointersThere(v.inodes[ino], lo, hi)
  {
    var d, d' := v.inodes[ino], w.inodes[ino];
    forall k: nat | k < NDIRECT
      ensures if d.addrs[k] != 0 then d'.addrs[k] == d.addrs[k] else d'.addrs[k] != 0 <==> lo <= k < hi
    {
      assert KeptOrFilled(v, w, ino, lo, hi, k);
    }
    if PointersThere(d, lo, hi) { assert d'.addrs == d.addrs; }
  }

  /** Outside the first tot bytes of src at off0 the file has the bytes that it had. */
  ghost predicate Holding(v: Volume, w: Volume, ino: nat, off0: nat, src: seq<byte>, tot: nat)
    requires ino < |v.inodes| == |w.inodes| && Shaped(v.inodes[ino]) && Shaped(w.inodes[ino]) && tot <= |src|
  {
    forall i: nat :: i < MAXFILE * BSIZE ==>
      ByteAt(w.data, w.inodes[ino], i) == if off0 <= i < off0 + tot then src[i - off0] else ByteAt(v.data, v.inodes[ino], i)
  }

  /** writei() has stored tot bytes of src from off0 on, starting from v; size is still that of v. */
  ghost predicate Written(v: Volume, w: Volume, ino: nat, off0: nat, src: seq<byte>, tot: nat) {
    && Filled(v, w, ino, off0 / BSIZE, BlockEnd(off0, tot)) && tot <= |src|
    && Holding(v, w, ino, off0, src, tot)
  }

  lemma WriteStarts(v: Volume, ino: nat, off0: nat, src: seq<byte>)
    requires Owned(v) && ino < |v.inodes| && off0 <= MAXFILE * BSIZE
    ensures Written(v, v, ino, off0, src, 0)
  {
    NothingFilled(v, ino, off0 / BSIZE);
  }

  /** One turn of writei()'s loop, from w: map the block that holds byte off0 + tot and patch m
      bytes of it. */
  ghost predicate Turn(w: Volume, w': Volume, ino: nat, off0: nat, src: seq<byte>, tot: nat, addr: nat, m: nat) {
    && Owned(w) && Owned(w') && off0 + |src| <= MAXFILE * BSIZE && TurnSize(off0, tot, m, |src|)
    && Maps(w, w', ino, (off0 + tot) / BSIZE, addr)
  }

  function AfterTurn(w': Volume, off0: nat, src: seq<byte>, tot: nat, addr: nat, m: nat): Volume
    requires addr < |w'.data| && (off0 + tot) % BSIZE + m <= BSIZE && tot + m <= |src|
  {
    WithData(w', addr, Patched(w'.data[addr], (off0 + tot) % BSIZE, src, tot, m))
  }

  lemma TurnKeepsOwned(w: Volume, w': Volume, ino: nat, off0: nat, src: seq<byte>, tot: nat, addr: nat, m: nat)
    requires Turn(w, w', ino, off0, src, tot, addr, m)
    ensures var x := AfterTurn(w', off0, src, tot, addr, m);
            && Owned(x) && x.inodes == w'.inodes && x.owner == w'.owner
            && forall k: nat :: k < MAXFILE ==> BlockOf(x.data, x.inodes[ino], k) == BlockOf(w'.data, w'.inodes[ino], k)
  {
    DataOwned(w', addr, AfterTurn(w', off0, src, tot, addr, m).data[addr]);
  }

  /** Byte i of a file, read from its block. */
  lemma ByteIn(data: seq<Block>, d: Inode, i: nat, b: nat)
    requires Shaped(d) && i < MAXFILE * BSIZE && BlockOf(data, d, i / BSIZE) == b && 0 < b < |data|
    ensures ByteAt(data, d, i) == data[b][i % BSIZE]
  {
    hide BlockOf;
  }

  lemma SameBlock(i: nat, off: nat)
    requires i / BSIZE == off / BSIZE
    ensures i - i % BSIZE == off - off % BSIZE
  {
  }

  /** A byte of the block that the turn patches. */
  lemma PatchedByte(w: Volume, w': Volume, ino: nat, off0: nat, src: seq<byte>, tot: nat, addr: nat, m: nat, i: nat)
    requires Turn(w, w', ino, off0, src, tot, addr, m)
    requires i < MAXFILE * BSIZE && i / BSIZE == (off0 + tot) / BSIZE
    ensures var x := AfterTurn(w', off0, src, tot, addr, m); var off := off0 + tot;
            ByteAt(x.data, x.inodes[ino], i) == if off <= i < off + m then src[i - off0] else ByteAt(w.data, w.inodes[ino], i)
  {
    hide Word, Ref, Owned, BlockOf, Adds, Allocs, Untouched, ByteAt;
    var x := AfterTurn(w', off0, src, tot, addr, m);
    TurnKeepsOwned(w, w', ino, off0, src, tot, addr, m);
    MappedByte(w, w', ino, i / BSIZE, addr, i);
    ByteIn(w'.data, w'.inodes[ino], i, addr);
    ByteIn(x.data, x.inodes[ino], i, addr);
    SameBlock(i, off0 + tot);
  }

  /** A byte of another block of the file. */
  lemma UnpatchedByte(w: Volume, w': Volume, ino: nat, off0: nat, src: seq<byte>, tot: nat, addr: nat, m: nat, i: nat)
    requires Turn(w, w', ino, off0, src, tot, addr, m)
    requires i < MAXFILE * BSIZE && i / BSIZE != (off0 + tot) / BSIZE
    ensures var x := AfterTurn(w', off0, src, tot, addr, m);
            ByteAt(x.data, x.inodes[ino], i) == ByteAt(w.data, w.inodes[ino], i)
  {
    TurnKeepsOwned(w, w', ino, off0, src, tot, addr, m);
    assert RefOwned(w, ino, SlotOf(i / BSIZE));
    hide Word, Ref, Owned, Untouched;
  }

  lemma TurnHolds(w: Volume, w': Volume, ino: nat, off0: nat, src: seq<byte>, tot: nat, addr: nat, m: nat)
    requires Owned(w) && Owned(w') && off0 + |src| <= MAXFILE * BSIZE && TurnSize(off0, tot, m, |src|)
    requires Maps(w, w', ino, (off0 + tot) / BSIZE, addr)
    ensures Turn(w, w', ino, off0, src, tot, addr, m) && w'.meta <= addr < |w'.data|
  {
  }

  /** The byte at i after the turn. */
  lemma WrittenByte(w: Volume, w': Volume, ino: nat, off0: nat, src: seq<byte>, tot: nat, addr: nat, m: nat, i: nat)
    requires Turn(w, w', ino, off0, src, tot, addr, m) && i < MAXFILE * BSIZE
    ensures var x := AfterTurn(w', off0, src, tot, addr, m); var off := off0 + tot;
            ByteAt(x.data, x.inodes[ino], i) == if off <= i < off + m then src[i - off0] else ByteAt(w.data, w.inodes[ino], i)
  {
    hide Word, Ref, Owned, Untouched, Adds, BlockOf, ByteAt, AfterTurn;
    var off := off0 + tot;
    assert off - off % BSIZE == off / BSIZE * BSIZE && i - i % BSIZE == i / BSIZE * BSIZE;
    if i / BSIZE == off / BSIZE {
      PatchedByte(w, w', ino, off0, src, tot, addr, m, i);
    } else {
      UnpatchedByte(w, w', ino, off0, src, tot, addr, m, i);
    }
  }

  /** The turn changes nothing of another inode. */
  lemma StepFrame(v: Volume, w: Volume, w': Volume, ino: nat, off0: nat, src: seq<byte>, tot: nat, addr: nat, m: nat)
    requires Untouched(v, w, ino) && Turn(w, w', ino, off0, src, tot, addr, m)
    ensures Untouched(v, AfterTurn(w', off0, src, tot, addr, m), ino)
  {
    hide Word, Ref, ByteAt, BlockOf, Owned;
  }

  /** One turn of the loops of readi() and writei() takes m of n bytes: what is left of the block, or
      of the bytes. After the first turn tot is at the start of a block. */
  predicate TurnSize(off0: nat, tot: nat, m: nat, n: nat): (r: bool)
    ensures r ==> 0 < m && tot + m <= n && (off0 + tot) % BSIZE + m <= BSIZE
  {
    tot < n && (tot == 0 || (off0 + tot) % BSIZE == 0) && m == Min(n - tot, BSIZE - (off0 + tot) % BSIZE)
  }

  lemma TurnIs(off0: nat, tot: nat, m: nat, n: nat)
    requires tot < n && (tot == 0 || (off0 + tot) % BSIZE == 0) && m == Min(n - tot, BSIZE - (off0 + tot) % BSIZE)
    ensures TurnSize(off0, tot, m, n)
  {
  }

  /** Where the turn begins and ends, in blocks. */
  lemma TurnBlocks(off0: nat, tot: nat, m: nat, n: nat)
    requires TurnSize(off0, tot, m, n)
    ensures BlockEnd(off0, tot) == (off0 + tot) / BSIZE && BlockEnd(off0, tot + m) == (off0 + tot) / BSIZE + 1
    ensures off0 / BSIZE <= (off0 + tot) / BSIZE && BlockEnd(off0, tot + m) <= BlockEnd(off0, n)
    ensures tot + m == n || (off0 + tot + m) % BSIZE == 0
  {
  }

  lemma WriteStep(v: Volume, w: Volume, w': Volume, ino: nat, off0: nat, src: seq<byte>, tot: nat, addr: nat, m: nat)
    requires Written(v, w, ino, off0, src, tot) && Turn(w, w', ino, off0, src, tot, addr, m)
    ensures Written(v, AfterTurn(w', off0, src, tot, addr, m), ino, off0, src, tot + m)
    ensures Owned(AfterTurn(w', off0, src, tot, addr, m))
  {
    hide Word, Ref, ByteAt, BlockOf, Owned, Untouched, Adds, AfterTurn, Filled, BlockEnd, Needs, Holding;
    var x := AfterTurn(w', off0, src, tot, addr, m);
    var lo, bn := off0 / BSIZE, (off0 + tot) / BSIZE;
    FilledShape(v, w, ino, lo, BlockEnd(off0, tot));
    TurnKeepsOwned(w, w', ino, off0, src, tot, addr, m);
    StepFrame(v, w, w', ino, off0, src, tot, addr, m);
    TurnBlocks(off0, tot, m, |src|);
    FillNext(v, w, w', ino, lo, bn, addr);
    hide Maps;
    FilledSame(v, w', x, ino, lo, bn + 1);
    FilledShape(v, x, ino, lo, bn + 1);
    BytesStep(v, w, w', ino, off0, src, tot, addr, m);
  }

  lemma BytesStep(v: Volume, w: Volume, w': Volume, ino: nat, off0: nat, src: seq<byte>, tot: nat, addr: nat, m: nat)
    requires ino < |v.inodes| == |w.inodes| && Shaped(v.inodes[ino]) && Shaped(w.inodes[ino]) && tot <= |src|
    requires Holding(v, w, ino, off0, src, tot) && Turn(w, w', ino, off0, src, tot, addr, m)
    requires |w'.inodes| == |w.inodes| && Shaped(w'.inodes[ino])
    ensures Holding(v, AfterTurn(w', off0, src, tot, addr, m), ino, off0, src, tot + m)
  {
    hide Word, Ref, ByteAt, BlockOf, Owned, Untouched, Adds, AfterTurn;
    TurnKeepsOwned(w, w', ino, off0, src, tot, addr, m);
    var x := AfterTurn(w', off0, src, tot, addr, m);
    var end := tot + m;
    forall i: nat | i < MAXFILE * BSIZE
      ensures ByteAt(x.data, x.inodes[ino], i) == if off0 <= i < off0 + end then src[i - off0] else ByteAt(v.data, v.inodes[ino], i)
    {
      WrittenByte(w, w', ino, off0, src, tot, addr, m, i);
    }
  }

  lemma FilledShape(v: Volume, w: Volume, ino: nat, lo: nat, hi: nat)
    requires Filled(v, w, ino, lo, hi)
    ensures ino < |v.inodes| == |w.inodes| && Shaped(v.inodes[ino]) && Shaped(w.inodes[ino]) && hi <= MAXFILE
    ensures Untouched(v, w, ino) && w.inodes[ino] == v.inodes[ino].(addrs := w.inodes[ino].addrs)
    ensures |w.owner| == |v.owner| + Needs(v.data, v.inodes[ino], lo, hi)
  {
  }

  /** readi() has read tot bytes from off0 on, starting from v: blocks may have come to exist, but the
      file has the bytes that it had. */
  ghost predicate ReadThrough(v: Volume, w: Volume, ino: nat, off0: nat, tot: nat) {
    Filled(v, w, ino, off0 / BSIZE, BlockEnd(off0, tot)) && Holding(v, w, ino, 0, [], 0)
  }

  lemma ReadStarts(v: Volume, ino: nat, off0: nat)
    requires Owned(v) && ino < |v.inodes| && off0 <= MAXFILE * BSIZE
    ensures ReadThrough(v, v, ino, off0, 0)
  {
    NothingFilled(v, ino, off0 / BSIZE);
  }

  /** bmap() changes no byte of the file. */
  lemma MappedByte(w: Volume, w': Volume, ino: nat, bn: nat, addr: nat, i: nat)
    requires Owned(w) && Maps(w, w', ino, bn, addr) && i < MAXFILE * BSIZE
    ensures ByteAt(w'.data, w'.inodes[ino], i) == ByteAt(w.data, w.inodes[ino], i)
  {
    assert RefOwned(w, ino, SlotOf(i / BSIZE));
    hide Word, Ref, Owned, Untouched;
  }

  lemma ReadStep(v: Volume, w: Volume, w': Volume, ino: nat, off0: nat, tot: nat, m: nat, n: nat, addr: nat)
    requires ReadThrough(v, w, ino, off0, tot) && Owned(w) && off0 + n <= MAXFILE * BSIZE && TurnSize(off0, tot, m, n)
    requires Maps(w, w', ino, (off0 + tot) / BSIZE, addr)
    ensures ReadThrough(v, w', ino, off0, tot + m)
    ensures 0 < addr < |w'.data| && Shaped(w'.inodes[ino]) && addr == BlockOf(w'.data, w'.inodes[ino], (off0 + tot) / BSIZE)
  {
    hide Word, Ref, ByteAt, BlockOf, Owned, Untouched, Adds, Filled, BlockEnd, Needs, TurnSize, Allocs;
    TurnBlocks(off0, tot, m, n);
    FillNext(v, w, w', ino, off0 / BSIZE, (off0 + tot) / BSIZE, addr);
    FilledShape(v, w, ino, off0 / BSIZE, BlockEnd(off0, tot));
    FilledShape(v, w', ino, off0 / BSIZE, (off0 + tot) / BSIZE + 1);
    forall i: nat | i < MAXFILE * BSIZE
      ensures ByteAt(w'.data, w'.inodes[ino], i) == ByteAt(v.data, v.inodes[ino], i)
    {
      MappedByte(w, w', ino, (off0 + tot) / BSIZE, addr, i);
    }
  }

  /** ... and dst are these bytes. Unless a block had to be allocated nothing has changed. */
  ghost predicate ReadSoFar(v: Volume, w: Volume, ino: nat, off0: nat, tot: nat, dst: seq<byte>) {
    && ReadThrough(v, w, ino, off0, tot) && off0 + tot <= v.inodes[ino].size <= MAXFILE * BSIZE
    && dst == Bytes(v.data, v.inodes[ino])[off0..off0 + tot]
    && (Needs(v.data, v.inodes[ino], off0 / BSIZE, BlockEnd(off0, tot)) == 0 ==> w == v)
  }

  lemma ReadSoFarNothing(v: Volume, ino: nat, off0: nat)
    requires Owned(v) && ino < |v.inodes| && off0 <= v.inodes[ino].size <= MAXFILE * BSIZE
    ensures ReadSoFar(v, v, ino, off0, 0, [])
  {
    ReadStarts(v, ino, off0);
  }

  lemma ReadFacts(v: Volume, w: Volume, ino: nat, off0: nat, tot: nat, dst: seq<byte>)
    requires ReadSoFar(v, w, ino, off0, tot, dst)
    ensures ino < |v.inodes| == |w.inodes| && Shaped(v.inodes[ino]) && Shaped(w.inodes[ino]) && BlockEnd(off0, tot) <= MAXFILE
    ensures Untouched(v, w, ino) && w.inodes[ino] == v.inodes[ino].(addrs := w.inodes[ino].addrs)
    ensures |w.owner| == |v.owner| + Needs(v.data, v.inodes[ino], off0 / BSIZE, BlockEnd(off0, tot))
    ensures off0 + tot <= v.inodes[ino].size <= MAXFILE * BSIZE
    ensures Bytes(w.data, w.inodes[ino]) == Bytes(v.data, v.inodes[ino])
    ensures dst == Bytes(v.data, v.inodes[ino])[off0..off0 + tot] && |dst| == tot
    ensures w == v <==> Needs(v.data, v.inodes[ino], off0 / BSIZE, BlockEnd(off0, tot)) == 0
    ensures w.inodes == v.inodes <==> PointersThere(v.inodes[ino], off0 / BSIZE, BlockEnd(off0, tot))
    ensures Filled(v, w, ino, off0 / BSIZE, BlockEnd(off0, tot))
  {
    ReadInode(v, w, ino, off0, tot);
    hide ByteAt, Filled, BlockEnd, Needs;
    FilledShape(v, w, ino, off0 / BSIZE, BlockEnd(off0, tot));
  }

  /** The part of the block addr that one turn reads. */
  /** What a turn of readi()'s loop needs: no more blocks than the whole read. */
  lemma ReadAhead(v: Volume, w: Volume, ino: nat, off0: nat, tot: nat, dst: seq<byte>, m: nat, n: nat)
    requires ReadSoFar(v, w, ino, off0, tot, dst) && off0 + n <= v.inodes[ino].size && TurnSize(off0, tot, m, n)
    ensures BlockEnd(off0, n) <= MAXFILE && (off0 + tot) / BSIZE < MAXFILE && Shaped(w.inodes[ino])
    ensures |v.owner| <= |w.owner|
    ensures |w.owner| + Allocs(w.data, w.inodes[ino], (off0 + tot) / BSIZE) <=
              |v.owner| + Needs(v.data, v.inodes[ino], off0 / BSIZE, BlockEnd(off0, n))
    ensures tot + m == n || (off0 + tot + m) % BSIZE == 0
  {
    hide Word, Ref, BlockOf, Filled, Holding, BlockEnd, Needs, Allocs, TurnSize, Bytes, ReadSoFar;
    var lo, bn := off0 / BSIZE, (off0 + tot) / BSIZE;
    ReadFacts(v, w, ino, off0, tot, dst);
    TurnBlocks(off0, tot, m, n);
    EndInFile(off0, n);
    FilledShape(v, w, ino, lo, bn);
    FillCost(v, w, ino, lo, bn);
    NeedsMore(v.data, v.inodes[ino], lo, bn + 1, BlockEnd(off0, n));
  }

  lemma MapCount(w: Volume, w': Volume, ino: nat, bn: nat, addr: nat)
    requires Maps(w, w', ino, bn, addr)
    ensures ino < |w.inodes| && Shaped(w.inodes[ino]) && |w'.owner| == |w.owner| + Allocs(w.data, w.inodes[ino], bn)
  {
  }

  function Part(b: Block, at: nat, m: nat): seq<byte> {
    if at + m <= BSIZE then b[at..at + m] else []
  }

  lemma ReadOn(v: Volume, w: Volume, w': Volume, ino: nat, off0: nat, tot: nat, dst: seq<byte>, m: nat, n: nat, addr: nat)
    requires ReadSoFar(v, w, ino, off0, tot, dst) && Owned(w) && off0 + n <= v.inodes[ino].size && TurnSize(off0, tot, m, n)
    requires Maps(w, w', ino, (off0 + tot) / BSIZE, addr)
    ensures addr < |w'.data| && ReadSoFar(v, w', ino, off0, tot + m, dst + Part(w'.data[addr], (off0 + tot) % BSIZE, m))
    ensures (off0 + tot) / BSIZE < MAXFILE && Shaped(w.inodes[ino])
    ensures w' == v ==> w == v && BlockOf(w.data, w.inodes[ino], (off0 + tot) / BSIZE) != 0
  {
    hide Word, Ref, Owned, Adds, Filled, BlockEnd, Needs, Untouched, BlockOf, ByteAt, Bytes, Names, ReadThrough, PointersThere, TurnSize;
    ReadFacts(v, w, ino, off0, tot, dst);
    var d, lo, bn := v.inodes[ino], off0 / BSIZE, (off0 + tot) / BSIZE;
    TurnBlocks(off0, tot, m, n);
    FillCost(v, w, ino, lo, bn);
    if Needs(v.data, d, lo, bn + 1) == 0 { NoNeedYet(v.data, d, lo, bn); }
    ReadStep(v, w, w', ino, off0, tot, m, n, addr);
    ReadPart(v, w', ino, off0, tot, dst, m, addr);
  }

  lemma ReadPart(v: Volume, w': Volume, ino: nat, off0: nat, tot: nat, dst: seq<byte>, m: nat, addr: nat)
    requires ReadThrough(v, w', ino, off0, tot + m) && off0 + tot + m <= v.inodes[ino].size <= MAXFILE * BSIZE && m > 0
    requires dst == Bytes(v.data, v.inodes[ino])[off0..off0 + tot] && (off0 + tot) % BSIZE + m <= BSIZE
    requires 0 < addr < |w'.data| && Shaped(w'.inodes[ino]) && addr == BlockOf(w'.data, w'.inodes[ino], (off0 + tot) / BSIZE)
    ensures dst + Part(w'.data[addr], (off0 + tot) % BSIZE, m) == Bytes(v.data, v.inodes[ino])[off0..off0 + (tot + m)]
  {
    hide ByteAt, BlockOf, Needs, BlockEnd, KeptOrFilled;
    SameBytes(v, w', ino);
    BytesInBlock(w'.data, w'.inodes[ino], off0 + tot, m);
    var all := Bytes(v.data, v.inodes[ino]);
    assert all[off0..off0 + tot] + all[off0 + tot..off0 + tot + m] == all[off0..off0 + (tot + m)];
  }

  lemma SameBytes(v: Volume, w: Volume, ino: nat)
    requires ino < |v.inodes| == |w.inodes| && Shaped(v.inodes[ino]) && Shaped(w.inodes[ino])
    requires Holding(v, w, ino, 0, [], 0) && w.inodes[ino].size == v.inodes[ino].size <= MAXFILE * BSIZE
    ensures Bytes(w.data, w.inodes[ino]) == Bytes(v.data, v.inodes[ino])
  {
    hide ByteAt;
  }

  lemma WrittenFacts(v: Volume, w: Volume, ino: nat, off0: nat, src: seq<byte>, tot: nat)
    requires Written(v, w, ino, off0, src, tot)
    ensures ino < |v.inodes| == |w.inodes| && Shaped(v.inodes[ino]) && Shaped(w.inodes[ino]) && BlockEnd(off0, tot) <= MAXFILE
    ensures Untouched(v, w, ino) && w.inodes[ino] == v.inodes[ino].(addrs := w.inodes[ino].addrs)
    ensures |w.owner| == |v.owner| + Needs(v.data, v.inodes[ino], off0 / BSIZE, BlockEnd(off0, tot))
  {
  }

  lemma OneInodeDiffers(v: Volume, w: Volume, ino: nat, d: Inode)
    requires Untouched(v, w, ino) && ino < |v.inodes|
    ensures w.inodes[ino := d] == v.inodes[ino := d]
  {
  }

  /** The whole of src stored and size brought up to date: the file is overwritten at off0, and has
      no hole if it had none. */
  lemma WriteEnds(v: Volume, w: Volume, ino: nat, off0: nat, src: seq<byte>, d: Inode)
    requires Owned(v) && Owned(w) && Written(v, w, ino, off0, src, |src|)
    requires off0 <= v.inodes[ino].size <= MAXFILE * BSIZE && off0 + |src| <= MAXFILE * BSIZE
    requires d == w.inodes[ino].(size := Max(v.inodes[ino].size, off0 + |src|))
    ensures var u := w.(inodes := w.inodes[ino := d]);
            && Owned(u) && Untouched(v, u, ino) && (NoHoles(v.data, v.inodes[ino]) ==> NoHoles(u.data, d))
            && Bytes(u.data, d) == Overwritten(Bytes(v.data, v.inodes[ino]), off0, src)
            && u.inodes == v.inodes[ino := d]
  {
    hide Word, Ref, Owned, NoHoles, Bytes, Overwritten;
    OneInodeDiffers(v, w, ino, d);
    FieldsOwnNothing(w, ino, d);
    if NoHoles(v.data, v.inodes[ino]) { NoHoleMade(v, w, ino, off0, src, d); }
    WrittenBytes(v, w, ino, off0, src, d);
  }

  lemma WrittenBytes(v: Volume, w: Volume, ino: nat, off0: nat, src: seq<byte>, d: Inode)
    requires ino < |v.inodes| == |w.inodes| && Shaped(v.inodes[ino]) && Shaped(w.inodes[ino])
    requires Holding(v, w, ino, off0, src, |src|)
    requires off0 <= v.inodes[ino].size <= MAXFILE * BSIZE && off0 + |src| <= MAXFILE * BSIZE
    requires d == w.inodes[ino].(size := Max(v.inodes[ino].size, off0 + |src|))
    ensures Bytes(w.data, d) == Overwritten(Bytes(v.data, v.inodes[ino]), off0, src)
  {
    forall i: nat | i < d.size ensures ByteAt(w.data, d, i) == ByteAt(w.data, w.inodes[ino], i) {
      assert BlockOf(w.data, d, i / BSIZE) == BlockOf(w.data, w.inodes[ino], i / BSIZE);
    }
    hide ByteAt;
    assert Bytes(w.data, d) == Overwritten(Bytes(v.data, v.inodes[ino]), off0, src);
  }

  lemma NoHoleMade(v: Volume, w: Volume, ino: nat, off0: nat, src: seq<byte>, d: Inode)
    requires Written(v, w, ino, off0, src, |src|) && NoHoles(v.data, v.inodes[ino])
    requires off0 <= v.inodes[ino].size && off0 + |src| <= MAXFILE * BSIZE
    requires Shaped(d) && d.size == Max(v.inodes[ino].size, off0 + |src|)
    requires forall k: nat :: k < MAXFILE ==> BlockOf(w.data, d, k) == BlockOf(w.data, w.inodes[ino], k)
    ensures NoHoles(w.data, d)
  {
    hide BlockOf, Needs;
    forall k: nat | k < MAXFILE && k * BSIZE < d.size ensures BlockOf(w.data, d, k) != 0 {
      assert KeptOrFilled(v, w, ino, off0 / BSIZE, BlockEnd(off0, |src|), k);
    }
  }

  lemma EndInFile(off: nat, n: nat)
    requires off + n <= MAXFILE * BSIZE
    ensures off / BSIZE <= MAXFILE && off / BSIZE <= BlockEnd(off, n) <= MAXFILE
  {
  }

  lemma WrittenInode(v: Volume, w: Volume, ino: nat, off0: nat, src: seq<byte>)
    requires Written(v, w, ino, off0, src, |src|)
    ensures w.inodes[ino] == v.inodes[ino] <==> PointersThere(v.inodes[ino], off0 / BSIZE, BlockEnd(off0, |src|))
    ensures w.inodes == v.inodes <==> w.inodes[ino] == v.inodes[ino]
  {
    FilledInode(v, w, ino, off0 / BSIZE, BlockEnd(off0, |src|));
  }

  lemma ReadInode(v: Volume, w: Volume, ino: nat, off0: nat, n: nat)
    requires ReadThrough(v, w, ino, off0, n)
    ensures w.inodes == v.inodes <==> PointersThere(v.inodes[ino], off0 / BSIZE, BlockEnd(off0, n))
  {
    FilledInode(v, w, ino, off0 / BSIZE, BlockEnd(off0, n));
  }

  lemma NoNeedYet(data: seq<Block>, d: Inode, lo: nat, bn: nat)
    requires Shaped(d) && lo <= bn < MAXFILE && Needs(data, d, lo, bn + 1) == 0
    ensures Needs(data, d, lo, bn) == 0 && BlockOf(data, d, bn) != 0
  {
    hide BlockOf;
    NeedsMore(data, d, lo, bn, bn + 1);
  }

  /** A write to a file without holes allocates a pointer of the inode only if the file grows. */
  lemma WriteWithoutHoles(data: seq<Block>, d: Inode, off0: nat, n: nat)
    requires NoHoles(data, d) && off0 <= d.size && off0 + n <= MAXFILE * BSIZE
    ensures BlockEnd(off0, n) <= MAXFILE && LogCost(data, d, off0, n) <= LogBound(off0, n)
    ensures off0 + n <= d.size ==> PointersThere(d, off0 / BSIZE, BlockEnd(off0, n))
  {
    CostWithoutHoles(data, d, off0, n);
    if off0 + n <= d.size { ReadWithoutHoles(data, d, off0, n); }
  }

  lemma SpentNothing(v: Volume, ino: nat, off0: nat, before: set<nat>)
    requires ino < |v.inodes| && Shaped(v.inodes[ino]) && off0 <= MAXFILE * BSIZE
    ensures Spent(v, ino, v.inodes[ino], off0, 0, before, before, {}, {})
  {
  }

  lemma ReadWithoutHoles(data: seq<Block>, d: Inode, off0: nat, n: nat)
    requires NoHoles(data, d) && off0 + n <= d.size
    ensures BlockEnd(off0, n) <= MAXFILE && Needs(data, d, off0 / BSIZE, BlockEnd(off0, n)) == 0
    ensures PointersThere(d, off0 / BSIZE, BlockEnd(off0, n))
  {
    NoNeeds(data, d, off0 / BSIZE, BlockEnd(off0, n));
  }

  // ----- truncating -----

  function Below(n: nat): (r: set<nat>)
    ensures forall s: nat :: s in r <==> s < n
  {
    if n == 0 then {} else Below(n - 1) + {n - 1}
  }

  /** Exactly the blocks in the slots gone of inode ino have been freed. */
  ghost predicate Freed(v: Volume, ino: nat, gone: set<nat>, used: seq<bool>) {
    && |used| == |v.used|
    && forall b :: 0 <= b < |used| ==>
         (used[b] <==> v.used[b] && !(b in v.owner && v.owner[b].ino == ino && v.owner[b].at in gone))
  }

  lemma NoneFreed(v: Volume, ino: nat)
    requires |v.used| == |v.data|
    ensures Freed(v, ino, {}, v.used)
  {
  }

  /** One more slot: its block, if any, is still marked in use, and can be freed. */
  lemma FreeNext(v: Volume, ino: nat, gone: set<nat>, used: seq<bool>, s: nat)
    requires Owned(v) && ino < |v.inodes| && s < SLOTS && s !in gone && Freed(v, ino, gone, used)
    ensures var b := Ref(v.data, v.inodes[ino], s);
            && (b == 0 ==> Freed(v, ino, gone + {s}, used))
            && (b != 0 ==> b < |used| && used[b] && Freed(v, ino, gone + {s}, used[b := false]))
  {
    assert RefOwned(v, ino, s);
    hide Ref, Word;
    forall c | c in v.owner && v.owner[c] == Slot(ino, s) ensures c == Ref(v.data, v.inodes[ino], s) {
      assert OwnerNames(v, c);
    }
  }

  lemma RefOfPointer(data: seq<Block>, d: Inode, s: nat)
    requires Shaped(d) && s <= NDIRECT
    ensures Ref(data, d, s) == d.addrs[s]
  {
  }

  lemma RefOfEntry(data: seq<Block>, d: Inode, j: nat)
    requires Shaped(d) && j < NINDIRECT && 0 < d.addrs[NDIRECT] < |data|
    ensures Ref(data, d, NDIRECT + 1 + j) == Word(data[d.addrs[NDIRECT]], j)
  {
  }

  lemma PointerInRange(v: Volume, ino: nat, s: nat)
    requires Owned(v) && ino < |v.inodes| && s <= NDIRECT
    ensures Shaped(v.inodes[ino]) && v.inodes[ino].addrs[s] < |v.data|
  {
    assert RefOwned(v, ino, s);
  }

  /** Without an indirect block the pointers are all that there is to free. */
  lemma NoIndirect(v: Volume, ino: nat, gone: set<nat>, used: seq<bool>)
    requires Owned(v) && ino < |v.inodes| && Freed(v, ino, gone, used) && v.inodes[ino].addrs[NDIRECT] == 0
    requires forall s: nat :: s in gone <==> s < NDIRECT
    ensures Freed(v, ino, Below(SLOTS), used)
  {
    hide Word;
    forall b | b in v.owner && v.owner[b].ino == ino ensures v.owner[b].at < NDIRECT {
      assert OwnerNames(v, b);
    }
  }

  lemma FreedSize(v: Volume, ino: nat, gone: set<nat>, used: seq<bool>)
    requires Freed(v, ino, gone, used)
    ensures |used| == |v.used|
  {
  }

  lemma AllFreed(v: Volume, ino: nat, gone: set<nat>, used: seq<bool>, d: Inode)
    requires Owned(v) && ino < |v.inodes| && Freed(v, ino, gone, used) && forall s: nat :: s < SLOTS ==> s in gone
    requires d == v.inodes[ino].(addrs := seq(NDIRECT + 1, _ => 0), size := 0)
    ensures var w := Volume(v.data, used, v.inodes[ino := d], Disowned(v.owner, ino), v.meta);
            Owned(w) && Untouched(v, w, ino) && NoHoles(w.data, d) && Bytes(w.data, d) == []
    ensures forall b :: 0 <= b < |used| ==> (used[b] <==> v.used[b] && !(b in v.owner && v.owner[b].ino == ino))
  {
    hide Ref, Word;
    forall b | 0 <= b < |used| ensures used[b] <==> v.used[b] && !(b in v.owner && v.owner[b].ino == ino) {
      if b in v.owner { assert OwnerNames(v, b); }
    }
    TruncOwned(v, ino, used, d);
    forall b | b in v.owner ensures b < |v.data| { assert OwnerNames(v, b); }
  }

  // ----- the log -----

  /** The blocks that n bytes at off lie in. */
  function Touched(off: nat, n: nat): nat {
    if n == 0 then 0 else (off + n - 1) / BSIZE - off / BSIZE + 1
  }

  /** A bound on the distinct blocks that one writei() logs: the data blocks, a bitmap block for
      each block that is new, the indirect block and the inode. */
  function LogCost(data: seq<Block>, d: Inode, off: nat, n: nat): nat
    requires Shaped(d) && BlockEnd(off, n) <= MAXFILE
  {
    Touched(off, n) + Needs(data, d, off / BSIZE, BlockEnd(off, n)) + 2
  }

  /** The bound for a file without holes: a write that starts inside a block does not allocate that
      block. */
  function LogBound(off: nat, n: nat): int {
    2 * Touched(off, n) + 3 - if n > 0 && off % BSIZE != 0 then 1 else 0
  }

  lemma MissingAtMost(data: seq<Block>, d: Inode, lo: nat, hi: nat)
    requires Shaped(d) && lo <= hi <= MAXFILE
    ensures Missing(data, d, lo, hi) <= hi - lo - if lo < hi && BlockOf(data, d, lo) != 0 then 1 else 0
    decreases hi
  {
    hide BlockOf;
    if lo < hi { MissingAtMost(data, d, lo, hi - 1); }
  }

  /** Below the size of a file without holes nothing has to be allocated. */
  lemma NoNeeds(data: seq<Block>, d: Inode, lo: nat, hi: nat)
    requires NoHoles(data, d) && hi <= MAXFILE && (hi > lo ==> (hi - 1) * BSIZE < d.size)
    ensures Needs(data, d, lo, hi) == 0 && PointersThere(d, lo, hi)
    decreases hi
  {
    if lo < hi {
      NoNeeds(data, d, lo, hi - 1);
      if hi > NDIRECT { NoEntryBelow(data, d, hi - 1 - NDIRECT); }
    }
  }

  lemma CostWithoutHoles(data: seq<Block>, d: Inode, off: nat, n: nat)
    requires NoHoles(data, d) && off <= d.size && off + n <= MAXFILE * BSIZE
    ensures BlockEnd(off, n) <= MAXFILE && LogCost(data, d, off, n) <= LogBound(off, n)
  {
    var lo, hi := off / BSIZE, BlockEnd(off, n);
    MissingAtMost(data, d, lo, hi);
    if n > 0 && off % BSIZE != 0 { assert lo * BSIZE < d.size; }
    hide BlockOf;
  }

  /** What a write has put into the log so far: data blocks, bitmap blocks for the needs blocks that
      were allocated, and perhaps the indirect block. */
  ghost predicate Budget(d: Inode, touched: nat, needs: nat, before: set<nat>, logged: set<nat>, blocks: set<nat>, bits: set<nat>) {
    Shaped(d) && logged <= before + blocks + bits + Indirect(d) && |blocks| <= touched && |bits| <= needs
  }

  /** What the first tot bytes of a write, which has come to inode d, have put into the log. */
  ghost predicate Spent(v: Volume, ino: nat, d: Inode, off0: nat, tot: nat, before: set<nat>, logged: set<nat>,
                        blocks: set<nat>, bits: set<nat>) {
    && ino < |v.inodes| && Shaped(v.inodes[ino]) && BlockEnd(off0, tot) <= MAXFILE
    && Budget(d, Touched(off0, tot), Needs(v.data, v.inodes[ino], off0 / BSIZE, BlockEnd(off0, tot)), before, logged, blocks, bits)
  }

  lemma TouchedNext(off0: nat, tot: nat, m: nat, n: nat)
    requires TurnSize(off0, tot, m, n)
    ensures Touched(off0, tot + m) == Touched(off0, tot) + 1
  {
    TurnBlocks(off0, tot, m, n);
    hide TurnSize;
  }

  lemma IndirectStays(d: Inode, d': Inode)
    requires Shaped(d) && Shaped(d') && (d.addrs[NDIRECT] != 0 ==> d'.addrs[NDIRECT] == d.addrs[NDIRECT])
    ensures Indirect(d) <= Indirect(d')
  {
  }

  lemma SpentNext(v: Volume, w: Volume, w': Volume, ino: nat, off0: nat, tot: nat, m: nat, n: nat, addr: nat,
                  before: set<nat>, logged: set<nat>, blocks: set<nat>, bits: set<nat>, logged': set<nat>, more: set<nat>)
    requires Filled(v, w, ino, off0 / BSIZE, BlockEnd(off0, tot)) && Maps(w, w', ino, (off0 + tot) / BSIZE, addr)
    requires TurnSize(off0, tot, m, n)
    requires off0 + n <= MAXFILE * BSIZE
    requires Spent(v, ino, w.inodes[ino], off0, tot, before, logged, blocks, bits)
    requires |more| <= Allocs(w.data, w.inodes[ino], (off0 + tot) / BSIZE)
    requires logged' <= logged + more + {addr} + Indirect(w'.inodes[ino])
    ensures Spent(v, ino, w'.inodes[ino], off0, tot + m, before, logged', blocks + {addr}, bits + more)
  {
    hide Word, Ref, BlockOf, Untouched, Needs, Budget, Filled, Maps, Allocs, BlockEnd, Indirect, TurnSize, Touched;
    TurnBlocks(off0, tot, m, n);
    TouchedNext(off0, tot, m, n);
    var lo, bn := off0 / BSIZE, (off0 + tot) / BSIZE;
    SpentStep(v, w, w', ino, lo, bn, Touched(off0, tot), addr, before, logged, blocks, bits, logged', more);
  }

  /** ... with block bn. */
  lemma SpentStep(v: Volume, w: Volume, w': Volume, ino: nat, lo: nat, bn: nat, touched: nat, addr: nat,
                  before: set<nat>, logged: set<nat>, blocks: set<nat>, bits: set<nat>, logged': set<nat>, more: set<nat>)
    requires Filled(v, w, ino, lo, bn) && lo <= bn && Maps(w, w', ino, bn, addr)
    requires Budget(w.inodes[ino], touched, Needs(v.data, v.inodes[ino], lo, bn), before, logged, blocks, bits)
    requires |more| <= Allocs(w.data, w.inodes[ino], bn)
    requires logged' <= logged + more + {addr} + Indirect(w'.inodes[ino])
    ensures Budget(w'.inodes[ino], touched + 1, Needs(v.data, v.inodes[ino], lo, bn + 1), before, logged', blocks + {addr}, bits + more)
  {
    hide Word, Ref, BlockOf, Untouched, Needs, Budget, Filled, Maps, Allocs, Indirect;
    FilledShape(v, w, ino, lo, bn);
    MapKeeps(v, w, w', ino, bn, addr);
    FillCost(v, w, ino, lo, bn);
    var d := v.inodes[ino];
    IndirectStays(w.inodes[ino], w'.inodes[ino]);
    var needs, needs' := Needs(v.data, d, lo, bn), Needs(v.data, d, lo, bn + 1);
    BudgetStep(w.inodes[ino], w'.inodes[ino], touched, needs, needs', before, logged, blocks, bits, logged', addr, more);
  }

  lemma SpentBound(v: Volume, ino: nat, d: Inode, off0: nat, n: nat, before: set<nat>, logged: set<nat>,
                   blocks: set<nat>, bits: set<nat>, inode: nat)
    requires Spent(v, ino, d, off0, n, before, logged, blocks, bits)
    ensures |logged + {inode}| <= |before| + LogCost(v.data, v.inodes[ino], off0, n)
    ensures |logged| <= |before| + LogCost(v.data, v.inodes[ino], off0, n)
  {
    hide Budget;
    BudgetBound(d, Touched(off0, n), Needs(v.data, v.inodes[ino], off0 / BSIZE, BlockEnd(off0, n)), before, logged, blocks, bits, inode);
  }

  /** What a turn of writei()'s loop needs: no more blocks than the whole write. */
  lemma TurnAhead(v: Volume, w: Volume, ino: nat, off0: nat, src: seq<byte>, tot: nat, m: nat)
    requires Written(v, w, ino, off0, src, tot) && TurnSize(off0, tot, m, |src|) && off0 + |src| <= MAXFILE * BSIZE
    ensures BlockEnd(off0, |src|) <= MAXFILE && (off0 + tot) / BSIZE < MAXFILE && Shaped(w.inodes[ino])
    ensures |w.owner| + Allocs(w.data, w.inodes[ino], (off0 + tot) / BSIZE) <=
              |v.owner| + Needs(v.data, v.inodes[ino], off0 / BSIZE, BlockEnd(off0, |src|))
    ensures tot + m == |src| || (off0 + tot + m) % BSIZE == 0
  {
    hide Word, Ref, BlockOf, Filled, Holding, BlockEnd, Needs, Allocs, TurnSize;
    var lo, bn := off0 / BSIZE, (off0 + tot) / BSIZE;
    TurnBlocks(off0, tot, m, |src|);
    EndInFile(off0, |src|);
    FilledShape(v, w, ino, lo, bn);
    FillCost(v, w, ino, lo, bn);
    NeedsMore(v.data, v.inodes[ino], lo, bn + 1, BlockEnd(off0, |src|));
  }

  /** What the turn has done once block addr is mapped, patched and logged. */
  lemma TurnDone(v: Volume, w: Volume, w': Volume, ino: nat, off0: nat, src: seq<byte>, tot: nat, addr: nat, m: nat,
                 before: set<nat>, logged: set<nat>, blocks: set<nat>, bits: set<nat>, logged': set<nat>, more: set<nat>)
    requires Written(v, w, ino, off0, src, tot) && Turn(w, w', ino, off0, src, tot, addr, m)
    requires Spent(v, ino, w.inodes[ino], off0, tot, before, logged, blocks, bits)
    requires |more| <= Allocs(w.data, w.inodes[ino], (off0 + tot) / BSIZE)
    requires logged' <= logged + more + {addr} + Indirect(w'.inodes[ino])
    ensures var x := AfterTurn(w', off0, src, tot, addr, m);
            && Owned(x) && Written(v, x, ino, off0, src, tot + m) && |x.inodes| == |v.inodes|
            && Spent(v, ino, x.inodes[ino], off0, tot + m, before, logged', blocks + {addr}, bits + more)
  {
    hide Owned, Adds, Filled, Holding, BlockEnd, TurnSize, Allocs, Indirect, Spent;
    WriteStep(v, w, w', ino, off0, src, tot, addr, m);
    TurnBlocks(off0, tot, m, |src|);
    FilledShape(v, AfterTurn(w', off0, src, tot, addr, m), ino, off0 / BSIZE, BlockEnd(off0, tot + m));
    SpentNext(v, w, w', ino, off0, tot, m, |src|, addr, before, logged, blocks, bits, logged', more);
  }

  lemma UnionSize(a: set<nat>, b: set<nat>)
    ensures |a + b| <= |a| + |b|
  {
    assert |a + b| == |a| + |b| - |a * b|;
  }

  /** One turn logs a data block, and what bmap() allocates. */
  lemma BudgetStep(d: Inode, d': Inode, touched: nat, needs: nat, needs': nat, before: set<nat>, logged: set<nat>,
                   blocks: set<nat>, bits: set<nat>, logged': set<nat>, addr: nat, more: set<nat>)
    requires Budget(d, touched, needs, before, logged, blocks, bits) && Shaped(d') && Indirect(d) <= Indirect(d')
    requires logged' <= logged + more + {addr} + Indirect(d') && needs + |more| <= needs'
    ensures Budget(d', touched + 1, needs', before, logged', blocks + {addr}, bits + more)
  {
    UnionSize(blocks, {addr});
    UnionSize(bits, more);
    hide Indirect;
  }

  lemma BudgetBound(d: Inode, touched: nat, needs: nat, before: set<nat>, logged: set<nat>, blocks: set<nat>, bits: set<nat>, inode: nat)
    requires Budget(d, touched, needs, before, logged, blocks, bits)
    ensures |logged + {inode}| <= |before| + touched + needs + 2 && |logged| <= |before| + touched + needs + 2
  {
    var i := Indirect(d);
    UnionSize(before, blocks);
    UnionSize(before + blocks, bits);
    UnionSize(before + blocks + bits, i);
    UnionSize(before + blocks + bits + i, {inode});
    Subsets(logged + {inode}, before + blocks + bits + i + {inode});
    Subsets(logged, logged + {inode});
  }

  lemma {:induction false} Subsets(a: set<nat>, b: set<nat>)
    requires a <= b
    ensures |a| <= |b|
  {
    assert b == a + (b - a);
  }

  // ----- free blocks -----

  function Range(lo: nat, hi: nat): (r: set<nat>)
    ensures (forall b: nat :: b in r <==> lo <= b < hi) && |r| == if lo <= hi then hi - lo else 0
  {
    if hi <= lo then {} else Range(lo, hi - 1) + {hi - 1}
  }

  /** The owned blocks are among the data blocks; if no block is free they are all of them. */
  lemma OwnersCounted(v: Volume)
    requires Owned(v)
    ensures |v.owner| <= |v.data| - v.meta
    ensures (forall b :: 0 <= b < |v.used| ==> v.used[b]) <==> |v.owner| == |v.data| - v.meta
  {
    var all := Range(v.meta, |v.data|);
    assert |v.owner| == |v.owner.Keys|;
    assert v.owner.Keys <= all;
    Subsets(v.owner.Keys, all);
    if forall b :: 0 <= b < |v.used| ==> v.used[b] {
      assert v.owner.Keys == all;
    } else {
      var b :| 0 <= b < |v.used| && !v.used[b];
      assert v.owner.Keys <= all - {b};
      Subsets(v.owner.Keys, all - {b});
    }
  }
}
