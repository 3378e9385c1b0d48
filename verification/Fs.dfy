/** The file system below directories: allocating and freeing blocks, mapping, reading, writing
    and truncating files. Blocks are what bread returns for them; the inode cache is written
    through to the inodes on disk by iupdate. */
module Fs {
  import opened Common
  import opened Blocks
  import opened Bitmap
  import opened BlockMap
  import opened Mapping
  import opened Transaction

  /** How balloc, bmap, readi and writei end. Two are panics: OutOfBlocks of balloc, and
      NoTransaction of log_write when no operation is outstanding. */
  datatype Outcome = Done(n: nat) | Refused | OutOfBlocks | NoTransaction

  /** With spare free blocks, a call that has to allocate needs blocks finds none at some point: it
      allocates one after the other, and outside a transaction does not get past the first. */
  predicate RunsOut(spare: int, needs: nat, outstanding: nat) {
    spare < if outstanding == 0 then Min(needs, 1) else needs
  }

  /** It finds one outside a transaction. */
  predicate Outside(spare: int, needs: nat, outstanding: nat) {
    outstanding == 0 && needs > 0 && spare > 0
  }

  class Fs {
    const geo: Geometry
    var data: seq<Block>
    var bitmap: Bits
    var disk: seq<Inode>    // inodes on disk
    var mem: seq<Inode>     // their copies in the inode cache
    var outstanding: nat    // operations that have begun and not ended, in the log
    ghost var owner: map<nat, Slot>
    ghost var logged: set<nat>   // blocks given to log_write in this transaction
    ghost var begun: Content     // what the buffers held when it began

    /** Mounting a volume whose bitmap and pointers agree. */
    constructor (geo: Geometry, data: seq<Block>, bitmap: Bits, inodes: seq<Inode>, ghost owner: map<nat, Slot>)
      requires 0 < geo.meta <= geo.size < TWO32 && |data| == geo.size && Room(bitmap, geo.size)
      requires Owned(Volume(data, UsedOf(bitmap, geo.size), inodes, owner, geo.meta))
      ensures Valid() && Vol() == Volume(data, UsedOf(bitmap, geo.size), inodes, owner, geo.meta)
      ensures this.geo == geo && outstanding == 0 && logged == {} && begun == Held() == Content(data, bitmap, inodes)
    {
      this.geo := geo;
      this.data, this.bitmap, disk, mem := data, bitmap, inodes, inodes;
      this.owner, outstanding, logged, begun := owner, 0, {}, Content(data, bitmap, inodes);
    }

    ghost function Used(): (used: seq<bool>)
      requires Room(bitmap, geo.size)
      reads this
      ensures |used| == geo.size
    {
      UsedOf(bitmap, geo.size)
    }

    ghost predicate Shape()
      reads this
    {
      && 0 < geo.meta <= geo.size < TWO32 && |data| == geo.size && Room(bitmap, geo.size) && |disk| == |mem|
      && Recorded(geo, begun, Held(), logged)
    }

    /** What the buffers hold now. */
    ghost function Held(): Content
      reads this
    {
      Content(data, bitmap, disk)
    }

    ghost function Vol(): Volume
      requires Room(bitmap, geo.size)
      reads this
    {
      Volume(data, Used(), mem, owner, geo.meta)
    }

    /** Every block of the volume is metadata, free, or owned by one pointer of a cached inode. */
    ghost predicate Mapped()
      reads this
    {
      Shape() && Owned(Vol())
    }

    ghost predicate Valid()
      reads this
    {
      Mapped() && mem == disk
    }

    /** The number of free blocks. */
    ghost function Spare(): int
      reads this
    {
      geo.size - geo.meta - |owner|
    }

    /** No block is free. */
    ghost predicate Full()
      reads this
    {
      Shape() && forall b :: 0 <= b < geo.size ==> Used()[b]
    }

    method LogWrite(b: nat)
      requires outstanding > 0
      modifies this`logged
      ensures logged == old(logged) + {b}
    {
      logged := logged + {b};
    }

    /** balloc(): the first free block, zeroed. */
    method Balloc() returns (r: Outcome)
      requires Mapped()
      modifies this`data, this`bitmap, this`logged
      ensures r == OutOfBlocks ==> Full() && Vol() == old(Vol())
      ensures r != OutOfBlocks ==> !old(Full())
      ensures r != Refused && (r != OutOfBlocks ==> (r == NoTransaction <==> outstanding == 0))
      ensures r.Done? ==>
                && Shape() && r.n < geo.size && !old(Used())[r.n]
                && (forall b :: 0 <= b < r.n ==> old(Used())[b])
                && Used() == old(Used())[r.n := true]
                && data == old(data)[r.n := ZeroBlock()]
                && logged == old(logged) + {BBlock(geo, r.n), r.n}
    {
      hide Test, Set, Row, Col, Pos, Recorded, Owned, BBlock;
      FreeIsData(Vol());
      Places(bitmap, geo.size);
      var b: nat := 0;
      while b < geo.size
        invariant b % BPB == 0
        invariant forall c :: 0 <= c < b && c < geo.size ==> Used()[c]
      {
        var bi: nat := 0;
        while bi < BPB && b + bi < geo.size
          invariant bi <= BPB
          invariant forall c :: 0 <= c < b + bi && c < geo.size ==> Used()[c]
        {
          var a := b + bi;
          if !Test(bitmap[Row(a)][Col(a)], Pos(a)) {
            assert !Used()[a];
            SetBit(bitmap, geo.size, a);
            BitsRecorded(geo, begun, Held(), logged, a, Set(bitmap[Row(a)][Col(a)], Pos(a)));
            bitmap := WithByte(bitmap, a, Set(bitmap[Row(a)][Col(a)], Pos(a)));
            if outstanding == 0 { return NoTransaction; }
            LogWrite(BBlock(geo, a));
            DataRecorded(geo, begun, Held(), logged, a, ZeroBlock());
            data := data[a := ZeroBlock()];
            LogWrite(a);
            return Done(a);
          }
          bi := bi + 1;
        }
        b := b + BPB;
      }
      r := OutOfBlocks;
    }

    /** bfree(); panic reports "freeing free block". */
    method Bfree(b: nat) returns (panic: bool)
      requires Shape() && b < geo.size && outstanding > 0
      modifies this`bitmap, this`logged
      ensures panic <==> !old(Used())[b]
      ensures !panic ==> Shape() && Used() == old(Used())[b := false] && logged == old(logged) + {BBlock(geo, b)}
    {
      hide Test, Clear, Row, Col, Pos, Recorded, BBlock;
      Places(bitmap, geo.size);
      if !Test(bitmap[Row(b)][Col(b)], Pos(b)) { return true; }
      ClearBit(bitmap, geo.size, b);
      BitsRecorded(geo, begun, Held(), logged, b, Clear(bitmap[Row(b)][Col(b)], Pos(b)));
      bitmap := WithByte(bitmap, b, Clear(bitmap[Row(b)][Col(b)], Pos(b)));
      LogWrite(BBlock(geo, b));
      panic := false;
    }

    method Iupdate(ino: nat)
      requires Shape() && ino < |mem| && outstanding > 0
      modifies this`disk, this`logged
      ensures Shape() && disk == old(disk)[ino := mem[ino]] && logged == old(logged) + {IBlock(geo, ino)}
    {
      hide Recorded;
      InodeRecorded(geo, begun, Held(), logged, ino, mem[ino]);
      disk := disk[ino := mem[ino]];
      LogWrite(IBlock(geo, ino));
    }

    // ----- bmap -----

    /** ip->addrs[s] = balloc(), for a pointer that is empty. */
    method AllocDirect(ino: nat, s: nat) returns (r: Outcome)
      requires Mapped() && ino < |mem| && s <= NDIRECT && mem[ino].addrs[s] == 0
      modifies this`data, this`bitmap, this`mem, this`owner, this`logged
      ensures r == OutOfBlocks ==> Full()
      ensures r == OutOfBlocks <==> RunsOut(old(Spare()), 1, outstanding)
      ensures r == NoTransaction <==> Outside(old(Spare()), 1, outstanding)
      ensures r != Refused
      ensures r.Done? ==>
                && Mapped() && geo.meta <= r.n < geo.size && r.n !in old(owner)
                && Vol() == WithPointer(old(Vol()), ino, s, r.n)
                && (forall t :: 0 <= t < SLOTS && t != s ==> Ref(data, mem[ino], t) == Ref(old(data), old(mem)[ino], t))
                && logged == old(logged) + {BBlock(geo, r.n), r.n}
    {
      hide Ref, UsedOf, Recorded;
      OwnersCounted(Vol());
      r := Balloc();
      if r.Done? {
        PointerOwned(old(Vol()), ino, s, r.n);
        mem := mem[ino := mem[ino].(addrs := mem[ino].addrs[s := r.n])];
        owner := owner[r.n := Slot(ino, s)];
      }
    }

    /** a[j] = balloc(), for an empty entry of the indirect block a. */
    method AllocEntry(ino: nat, a: nat, j: nat) returns (r: Outcome)
      requires Mapped() && ino < |mem| && j < NINDIRECT && 0 < a == mem[ino].addrs[NDIRECT] < geo.size
      requires Word(data[a], j) == 0
      modifies this`data, this`bitmap, this`owner, this`logged
      ensures r == OutOfBlocks ==> Full()
      ensures r == OutOfBlocks <==> RunsOut(old(Spare()), 1, outstanding)
      ensures r == NoTransaction <==> Outside(old(Spare()), 1, outstanding)
      ensures r != Refused
      ensures r.Done? ==>
                && Mapped() && geo.meta <= r.n < geo.size && r.n !in old(owner) && r.n != a
                && a in old(owner) && old(owner)[a] == Slot(ino, NDIRECT)
                && Vol() == WithEntry(old(Vol()), ino, j, r.n)
                && Ref(data, mem[ino], NDIRECT + 1 + j) == r.n
                && (forall t :: 0 <= t < SLOTS && t != NDIRECT + 1 + j ==>
                      Ref(data, mem[ino], t) == Ref(old(data), mem[ino], t))
                && logged == old(logged) + {BBlock(geo, r.n), r.n, a}
    {
      hide Ref, UsedOf, Word, Recorded;
      OwnersCounted(Vol());
      r := Balloc();
      if r.Done? {
        EntryOwned(old(Vol()), ino, j, r.n);
        DataRecorded(geo, begun, Held(), logged, a, WithWord(data[a], j, r.n));
        data := data[a := WithWord(data[a], j, r.n)];
        LogWrite(a);
        owner := owner[r.n := Slot(ino, NDIRECT + 1 + j)];
      }
    }

    lemma DirectOwned(ino: nat, s: nat)
      requires Mapped() && ino < |mem| && s <= NDIRECT
      ensures Shaped(mem[ino])
      ensures var b := mem[ino].addrs[s]; b != 0 ==> geo.meta <= b < geo.size && b in owner && owner[b] == Slot(ino, s)
    {
      assert RefOwned(Vol(), ino, s);
    }

    lemma EntryInUse(ino: nat, j: nat)
      requires Mapped() && ino < |mem| && j < NINDIRECT
      ensures Shaped(mem[ino])
      ensures var b := Entry(data, mem[ino], j);
              b != 0 ==> geo.meta <= b < geo.size && b in owner && owner[b] == Slot(ino, NDIRECT + 1 + j)
    {
      assert RefOwned(Vol(), ino, NDIRECT + 1 + j);
    }

    /** bmap() for a direct block. */
    method MapDirect(ino: nat, bn: nat) returns (r: Outcome, ghost bits: set<nat>)
      requires Mapped() && ino < |mem| && bn < NDIRECT
      modifies this`data, this`bitmap, this`mem, this`owner, this`logged
      ensures r == OutOfBlocks ==> Full()
      ensures r == OutOfBlocks <==> RunsOut(old(Spare()), Allocs(old(data), old(mem)[ino], bn), outstanding)
      ensures r == NoTransaction <==> Outside(old(Spare()), Allocs(old(data), old(mem)[ino], bn), outstanding)
      ensures r != Refused
      ensures r.Done? ==> Mapped() && Maps(old(Vol()), Vol(), ino, bn, r.n)
      ensures BlockOf(old(data), old(mem)[ino], bn) != 0 ==> r.Done? && bitmap == old(bitmap) && logged == old(logged)
      ensures r.Done? ==> |bits| <= Allocs(old(data), old(mem)[ino], bn) && logged <= old(logged) + bits + {r.n}
    {
      hide UsedOf, Word, Adds, Owned, Recorded;
      OwnersCounted(Vol());
      bits := {};
      DirectOwned(ino, bn);
      if mem[ino].addrs[bn] == 0 {
        r := AllocDirect(ino, bn);
        if r.Done? {
          bits := {BBlock(geo, r.n)};
          DirectMaps(old(Vol()), ino, bn, r.n);
        }
      } else {
        r := Done(mem[ino].addrs[bn]);
      }
    }

    /** bmap() for an entry of an indirect block that exists. */
    method MapEntry(ino: nat, bn: nat) returns (r: Outcome, ghost bits: set<nat>)
      requires Mapped() && ino < |mem| && NDIRECT <= bn < MAXFILE && mem[ino].addrs[NDIRECT] != 0
      modifies this`data, this`bitmap, this`owner, this`logged
      ensures r == OutOfBlocks ==> Full()
      ensures r == OutOfBlocks <==> RunsOut(old(Spare()), Allocs(old(data), mem[ino], bn), outstanding)
      ensures r == NoTransaction <==> Outside(old(Spare()), Allocs(old(data), mem[ino], bn), outstanding)
      ensures r != Refused
      ensures r.Done? ==> Mapped() && Maps(old(Vol()), Vol(), ino, bn, r.n)
      ensures BlockOf(old(data), mem[ino], bn) != 0 ==> r.Done? && bitmap == old(bitmap) && logged == old(logged)
      ensures r.Done? ==>
                && |bits| <= Allocs(old(data), mem[ino], bn)
                && logged <= old(logged) + bits + {r.n, mem[ino].addrs[NDIRECT]}
    {
      hide UsedOf, Word, Adds, Owned, Recorded;
      OwnersCounted(Vol());
      bits := {};
      DirectOwned(ino, NDIRECT);
      var addr := mem[ino].addrs[NDIRECT];
      EntryInUse(ino, bn - NDIRECT);
      if Word(data[addr], bn - NDIRECT) == 0 {
        r := AllocEntry(ino, addr, bn - NDIRECT);
        if r.Done? {
          bits := {BBlock(geo, r.n)};
          EntryMaps(old(Vol()), ino, bn, r.n);
        }
      } else {
        r := Done(Word(data[addr], bn - NDIRECT));
      }
    }

    /** bmap(): the number of file block bn, allocated if there was none. bits are the bitmap
        blocks that the allocations went through. Refused is its panic. */
    method Bmap(ino: nat, bn: nat) returns (r: Outcome, ghost bits: set<nat>)
      requires Mapped() && ino < |mem|
      modifies this`data, this`bitmap, this`mem, this`owner, this`logged
      ensures r == Refused <==> bn >= MAXFILE
      ensures r == OutOfBlocks ==> Full()
      ensures bn < MAXFILE ==>
                && (r == OutOfBlocks <==> RunsOut(old(Spare()), Allocs(old(data), old(mem)[ino], bn), outstanding))
                && (r == NoTransaction <==> Outside(old(Spare()), Allocs(old(data), old(mem)[ino], bn), outstanding))
      ensures r.Done? ==> Mapped() && Maps(old(Vol()), Vol(), ino, bn, r.n)
      ensures bn < MAXFILE && BlockOf(old(data), old(mem)[ino], bn) != 0 ==> r.Done? && bitmap == old(bitmap) && logged == old(logged)
      ensures r.Done? ==>
                && |bits| <= Allocs(old(data), old(mem)[ino], bn)
                && logged <= old(logged) + bits + {r.n} + Indirect(mem[ino])
    {
      hide UsedOf, Word, Adds, Owned, Recorded;
      DirectOwned(ino, NDIRECT);
      OwnersCounted(Vol());
      if bn < NDIRECT {
        r, bits := MapDirect(ino, bn);
        return;
      }
      bits := {};
      if bn - NDIRECT < NINDIRECT {
        if mem[ino].addrs[NDIRECT] == 0 {
          r := AllocDirect(ino, NDIRECT);
          if !r.Done? { return; }
          ghost var a := r.n;
          bits := {BBlock(geo, a)};
          ghost var more;
          r, more := MapEntry(ino, bn);
          bits := bits + more;
          if r.Done? {
            IndirectMaps(old(Vol()), ino, bn, a, Vol(), r.n);
          }
        } else {
          r, bits := MapEntry(ino, bn);
        }
        return;
      }
      r := Refused;
    }

    // ----- reading and writing -----

    /** One turn of writei()'s loop, for the bytes from off0 + tot to the end of their block. */
    method WriteTurn(ino: nat, off0: nat, src: seq<byte>, tot: nat, ghost v: Volume, ghost before: set<nat>,
                     ghost blocks: set<nat>, ghost bits: set<nat>)
      returns (ok: bool, m: nat, ghost blocks': set<nat>, ghost bits': set<nat>)
      requires Mapped() && ino < |mem| && tot < |src| && off0 + |src| <= MAXFILE * BSIZE && outstanding > 0
      requires (tot == 0 || (off0 + tot) % BSIZE == 0) && ino < |v.inodes| && Shaped(v.inodes[ino])
      requires Written(v, Vol(), ino, off0, src, tot)
      requires Spent(v, ino, mem[ino], off0, tot, before, logged, blocks, bits)
      modifies this`data, this`bitmap, this`mem, this`owner, this`logged
      ensures BlockEnd(off0, |src|) <= MAXFILE
      ensures !ok ==> Full() && geo.size - geo.meta < |v.owner| + Needs(v.data, v.inodes[ino], off0 / BSIZE, BlockEnd(off0, |src|))
      ensures ok ==>
                && |mem| == |old(mem)| && 0 < m && tot + m <= |src|
                && (tot + m == |src| || (off0 + tot + m) % BSIZE == 0)
                && Mapped() && Written(v, Vol(), ino, off0, src, tot + m)
                && Spent(v, ino, mem[ino], off0, tot + m, before, logged, blocks', bits')
    {
      hide UsedOf, Word, Ref, Maps, BlockOf, Owned, Written, Spent, BlockEnd, Needs, Allocs, Indirect, Recorded, TurnSize;
      ghost var w, log := Vol(), logged;
      var off := off0 + tot;
      m, blocks', bits' := Min(|src| - tot, BSIZE - off % BSIZE), blocks, bits;
      assert TurnSize(off0, tot, m, |src|) by { TurnIs(off0, tot, m, |src|); }
      TurnAhead(v, w, ino, off0, src, tot, m);
      var addr, more := Bmap(ino, off / BSIZE);
      ok := addr.Done?;
      if ok {
        ghost var w' := Vol();
        TurnHolds(w, w', ino, off0, src, tot, addr.n, m);
        DataRecorded(geo, begun, Held(), logged, addr.n, Patched(data[addr.n], off % BSIZE, src, tot, m));
        data := data[addr.n := Patched(data[addr.n], off % BSIZE, src, tot, m)];
        LogWrite(addr.n);
        blocks', bits' := blocks + {addr.n}, bits + more;
        TurnDone(v, w, w', ino, off0, src, tot, addr.n, m, before, log, blocks, bits, logged, more);
        assert Vol() == AfterTurn(w', off0, src, tot, addr.n, m);
      }
    }

    /** writei() for anything but a device. An accepted write overwrites exactly the bytes
        off0 .. off0 + |src| of the file, growing it if need be; it changes no other file and makes
        no hole. It panics exactly if there are fewer free blocks than it needs. The inode goes to
        disk if the file has grown, and only then: a write that fills a hole through a pointer of
        the inode leaves that pointer in memory alone. */
    method Writei(ino: nat, src: seq<byte>, off0: nat) returns (r: Outcome)
      requires Mapped() && ino < |mem| && mem[ino].size <= MAXFILE * BSIZE && off0 < TWO32 && |src| < TWO32 && outstanding > 0
      modifies this`data, this`bitmap, this`disk, this`mem, this`owner, this`logged
      ensures r == Refused <==> off0 > old(mem)[ino].size || off0 + |src| >= TWO32 || off0 + |src| > MAXFILE * BSIZE
      ensures r == Refused ==> Mapped() && Vol() == old(Vol()) && Held() == old(Held()) && logged == old(logged)
      ensures r != Refused ==>
                && BlockEnd(off0, |src|) <= MAXFILE && Shaped(old(mem)[ino])
                && (r == OutOfBlocks <==> old(Spare()) < Needs(old(data), old(mem)[ino], off0 / BSIZE, BlockEnd(off0, |src|)))
                && r != NoTransaction
      ensures r == OutOfBlocks ==> Full()
      ensures r.Done? ==>
                && r.n == |src| && Mapped() && |mem| == |old(mem)|
                && mem[ino] == old(mem)[ino].(size := Max(old(mem)[ino].size, off0 + |src|), addrs := mem[ino].addrs)
                && Bytes(data, mem[ino]) == Overwritten(Bytes(old(data), old(mem)[ino]), off0, src)
                && Untouched(old(Vol()), Vol(), ino)
                && (NoHoles(old(data), old(mem)[ino]) ==> NoHoles(data, mem[ino]))
                && Spare() == old(Spare()) - Needs(old(data), old(mem)[ino], off0 / BSIZE, BlockEnd(off0, |src|))
      ensures r.Done? && old(Valid()) ==>
                (Valid() <==> off0 + |src| > old(mem)[ino].size || PointersThere(old(mem)[ino], off0 / BSIZE, BlockEnd(off0, |src|)))
      ensures r.Done? ==> |logged| <= |old(logged)| + LogCost(old(data), old(mem)[ino], off0, |src|)
      ensures r.Done? && NoHoles(old(data), old(mem)[ino]) ==>
                (old(Valid()) ==> Valid()) && |logged| <= |old(logged)| + LogBound(off0, |src|)
    {
      hide UsedOf, Owned, Written, Filled, Spent, Indirect, NoHoles, Bytes, Overwritten, Untouched, LogBound, LogCost, Recorded,
        BlockEnd, Needs, PointersThere, BlockOf;
      DirectOwned(ino, NDIRECT);
      OwnersCounted(Vol());
      var n := |src|;
      if off0 > mem[ino].size || (off0 + n) % TWO32 < off0 { return Refused; }
      if off0 + n > MAXFILE * BSIZE { return Refused; }

      ghost var v, blocks: set<nat>, bits: set<nat> := Vol(), {}, {};
      EndInFile(off0, n);
      WriteStarts(v, ino, off0, src);
      SpentNothing(v, ino, off0, logged);
      var tot := 0;
      while tot < n
        invariant tot <= n && (tot == 0 || tot == n || (off0 + tot) % BSIZE == 0)
        invariant Mapped() && disk == old(disk) && |mem| == |old(mem)|
        invariant Written(v, Vol(), ino, off0, src, tot)
        invariant Spent(v, ino, mem[ino], off0, tot, old(logged), logged, blocks, bits)
      {
        var ok, m;
        ok, m, blocks, bits := WriteTurn(ino, off0, src, tot, v, old(logged), blocks, bits);
        if !ok { return OutOfBlocks; }
        tot := tot + m;
      }
      ghost var w := Vol();
      OwnersCounted(w);
      WrittenFacts(v, w, ino, off0, src, n);
      WrittenInode(v, w, ino, off0, src);
      ghost var d := mem[ino].(size := Max(old(mem)[ino].size, off0 + n));
      WriteEnds(v, w, ino, off0, src, d);
      SpentBound(v, ino, mem[ino], off0, n, old(logged), logged, blocks, bits, IBlock(geo, ino));
      if NoHoles(v.data, v.inodes[ino]) { WriteWithoutHoles(v.data, v.inodes[ino], off0, n); }
      if n > 0 && off0 + n > mem[ino].size {
        mem := mem[ino := mem[ino].(size := off0 + n)];
        Iupdate(ino);
      }
      assert Vol() == w.(inodes := w.inodes[ino := d]);
      r := Done(n);
    }

    /** One turn of readi()'s loop, for the bytes from off0 + tot to the end of their block or of n. */
    method ReadTurn(ino: nat, off0: nat, tot: nat, n: nat, ghost v: Volume, ghost dst: seq<byte>) returns (r: Outcome, part: seq<byte>)
      requires Mapped() && ino < |mem| && tot < n && ino < |v.inodes| && off0 + n <= v.inodes[ino].size
      requires (tot == 0 || (off0 + tot) % BSIZE == 0) && Shaped(v.inodes[ino]) && ReadSoFar(v, Vol(), ino, off0, tot, dst)
      requires outstanding == 0 ==> |owner| == |v.owner|
      modifies this`data, this`bitmap, this`mem, this`owner, this`logged
      ensures BlockEnd(off0, n) <= MAXFILE
      ensures r != Refused && (r == OutOfBlocks ==> Full())
      ensures var spare, needs := geo.size - geo.meta - |v.owner|, Needs(v.data, v.inodes[ino], off0 / BSIZE, BlockEnd(off0, n));
        && (r == OutOfBlocks ==> RunsOut(spare, needs, outstanding))
        && (r == NoTransaction ==> Outside(spare, needs, outstanding))
      ensures r.Done? ==>
                && Mapped() && |mem| == |old(mem)| && 0 < |part| && (outstanding == 0 ==> |owner| == |v.owner|) && tot + |part| <= n
                && (tot + |part| == n || (off0 + tot + |part|) % BSIZE == 0)
                && ReadSoFar(v, Vol(), ino, off0, tot + |part|, dst + part)
      ensures r.Done? && Vol() == v ==> old(Vol()) == v && bitmap == old(bitmap) && logged == old(logged)
    {
      hide UsedOf, Word, Ref, Owned, Maps, Bytes, BlockOf, BlockEnd, Needs, Allocs, Indirect, Filled, Recorded, Untouched, ReadSoFar,
        PointersThere, TurnSize;
      ghost var w := Vol();
      var off := off0 + tot;
      var m := Min(n - tot, BSIZE - off % BSIZE);
      assert TurnSize(off0, tot, m, n) by { TurnIs(off0, tot, m, n); }
      ReadAhead(v, w, ino, off0, tot, dst, m, n);
      var addr, _ := Bmap(ino, off / BSIZE);
      r, part := addr, [];
      if addr.Done? {
        ReadOn(v, w, Vol(), ino, off0, tot, dst, m, n, addr.n);
        MapCount(w, Vol(), ino, off / BSIZE, addr.n);
        part := data[addr.n][off % BSIZE..off % BSIZE + m];
        assert part == Part(data[addr.n], off % BSIZE, m);
      }
    }

    /** The loop of readi() over n bytes below size. */
    method ReadBlocks(ino: nat, off0: nat, n: nat) returns (r: Outcome, dst: seq<byte>)
      requires Mapped() && ino < |mem| && off0 + n <= mem[ino].size <= MAXFILE * BSIZE
      modifies this`data, this`bitmap, this`mem, this`owner, this`logged
      ensures r != Refused && BlockEnd(off0, n) <= MAXFILE && Shaped(old(mem)[ino]) && (r == OutOfBlocks ==> Full())
      ensures var needs := Needs(old(data), old(mem)[ino], off0 / BSIZE, BlockEnd(off0, n));
        && (r == OutOfBlocks <==> RunsOut(old(Spare()), needs, outstanding))
        && (r == NoTransaction <==> Outside(old(Spare()), needs, outstanding))
      ensures r.Done? ==>
                && r.n == n && Mapped() && |mem| == |old(mem)| && disk == old(disk) && ReadSoFar(old(Vol()), Vol(), ino, off0, n, dst)
                && (Vol() == old(Vol()) ==> bitmap == old(bitmap) && logged == old(logged))
    {
      hide UsedOf, Owned, Bytes, Recorded, BlockEnd, Needs, Filled, Untouched, PointersThere, ReadSoFar, BlockOf;
      DirectOwned(ino, NDIRECT);
      dst := [];
      ghost var v := Vol();
      EndInFile(off0, n);
      ReadSoFarNothing(v, ino, off0);
      var tot := 0;
      while tot < n
        invariant tot <= n && (tot == 0 || tot == n || (off0 + tot) % BSIZE == 0)
        invariant Mapped() && |mem| == |old(mem)| && ReadSoFar(v, Vol(), ino, off0, tot, dst)
        invariant Vol() == v ==> bitmap == old(bitmap) && logged == old(logged)
        invariant outstanding == 0 ==> |owner| == |v.owner|
      {
        var part;
        r, part := ReadTurn(ino, off0, tot, n, v, dst);
        if !r.Done? { return r, []; }
        dst := dst + part;
        tot := tot + |part|;
      }
      ReadFacts(v, Vol(), ino, off0, n, dst);
      OwnersCounted(Vol());
      r := Done(n);
    }

    /** readi() for anything but a device: exactly the bytes that are there, clipped at size. It goes
        through bmap, which allocates a block for each hole that it meets, and so it panics exactly
        if there are fewer free blocks than that, or if there are any and it is not part of an
        operation. Without holes it changes nothing. */
    method Readi(ino: nat, off0: nat, n0: nat) returns (r: Outcome, dst: seq<byte>)
      requires Mapped() && ino < |mem| && mem[ino].size <= MAXFILE * BSIZE && off0 < TWO32 && n0 < TWO32
      modifies this`data, this`bitmap, this`mem, this`owner, this`logged
      ensures r == Refused <==> off0 > old(mem)[ino].size || off0 + n0 >= TWO32
      ensures r == Refused ==> Mapped() && Vol() == old(Vol()) && logged == old(logged)
      ensures r == OutOfBlocks ==> Full()
      ensures r != Refused ==>
                var n := Min(off0 + n0, old(mem)[ino].size) - off0;
                && BlockEnd(off0, n) <= MAXFILE && Shaped(old(mem)[ino])
                && (r == OutOfBlocks <==> RunsOut(old(Spare()), Needs(old(data), old(mem)[ino], off0 / BSIZE, BlockEnd(off0, n)), outstanding))
                && (r == NoTransaction <==> Outside(old(Spare()), Needs(old(data), old(mem)[ino], off0 / BSIZE, BlockEnd(off0, n)), outstanding))
      ensures r.Done? ==>
                && Mapped() && |mem| == |old(mem)| && Untouched(old(Vol()), Vol(), ino)
                && mem[ino] == old(mem)[ino].(addrs := mem[ino].addrs)
                && Bytes(data, mem[ino]) == Bytes(old(data), old(mem)[ino])
                && dst == Bytes(old(data), old(mem)[ino])[off0..Min(off0 + n0, old(mem)[ino].size)] && r.n == |dst|
      ensures r.Done? ==>
                && (Vol() == old(Vol()) <==> Needs(old(data), old(mem)[ino], off0 / BSIZE, BlockEnd(off0, r.n)) == 0)
                && (Vol() == old(Vol()) ==> bitmap == old(bitmap) && logged == old(logged))
                && (old(Valid()) ==> (Valid() <==> PointersThere(old(mem)[ino], off0 / BSIZE, BlockEnd(off0, r.n))))
      ensures NoHoles(old(data), old(mem)[ino]) ==> r != OutOfBlocks && r != NoTransaction && Mapped() && Vol() == old(Vol()) && logged == old(logged)
    {
      hide UsedOf, Owned, NoHoles, Bytes, Recorded, BlockEnd, Needs, Filled, Untouched, PointersThere, ReadSoFar, BlockOf;
      DirectOwned(ino, NDIRECT);
      OwnersCounted(Vol());
      dst := [];
      var n := n0;
      if off0 > mem[ino].size || (off0 + n) % TWO32 < off0 { return Refused, []; }
      if off0 + n > mem[ino].size { n := mem[ino].size - off0; }
      ghost var v := Vol();
      if NoHoles(data, mem[ino]) { ReadWithoutHoles(data, mem[ino], off0, n); }
      r, dst := ReadBlocks(ino, off0, n);
      if r.Done? { ReadFacts(v, Vol(), ino, off0, n, dst); }
    }

    /** itrunc(): frees exactly the blocks of the file. "freeing free block" is unreachable. */
    method Itrunc(ino: nat) returns (panic: bool)
      requires Valid() && ino < |mem| && outstanding > 0
      modifies this`bitmap, this`disk, this`mem, this`owner, this`logged
      ensures !panic && Valid() && |mem| == |old(mem)|
      ensures mem[ino] == old(mem)[ino].(addrs := seq(NDIRECT + 1, _ => 0), size := 0) && Bytes(data, mem[ino]) == []
      ensures Untouched(old(Vol()), Vol(), ino)
      ensures forall b :: 0 <= b < geo.size ==>
                (Used()[b] <==> old(Used())[b] && !(b in old(owner) && old(owner)[b].ino == ino))
    {
      hide UsedOf, Word, Freed, Owned, Ref, Untouched, NoHoles, Bytes, Recorded;
      ghost var v := Vol();
      ghost var gone: set<nat> := {};
      panic := false;
      DirectOwned(ino, NDIRECT);
      NoneFreed(v, ino);
      for i := 0 to NDIRECT
        invariant !panic && Shape() && |mem| == |v.inodes| && Freed(v, ino, gone, Used()) && Cleared(v, ino, i)
        invariant forall s: nat :: s in gone <==> s < i
      {
        FreeNext(v, ino, gone, Used(), i);
        RefOfPointer(v.data, v.inodes[ino], i);
        gone := gone + {i};
        if mem[ino].addrs[i] != 0 {
          panic := Bfree(mem[ino].addrs[i]);
          mem := mem[ino := mem[ino].(addrs := mem[ino].addrs[i := 0])];
        }
      }
      var a := mem[ino].addrs[NDIRECT];
      if a != 0 {
        panic, gone := FreeEntries(ino, a, v, gone);
        FreeNext(v, ino, gone, Used(), NDIRECT);
        RefOfPointer(v.data, v.inodes[ino], NDIRECT);
        gone := gone + {NDIRECT};
        panic := Bfree(a);
        mem := mem[ino := mem[ino].(addrs := mem[ino].addrs[NDIRECT := 0])];
      } else {
        NoIndirect(v, ino, gone, Used());
        gone := Below(SLOTS);
      }
      EndTrunc(ino, v, gone);
    }

    /** The end of itrunc(): all blocks are free, and all pointers 0. */
    method EndTrunc(ino: nat, ghost v: Volume, ghost gone: set<nat>)
      requires Shape() && outstanding > 0 && Owned(v) && Freed(v, ino, gone, Used()) && Cleared(v, ino, NDIRECT + 1)
      requires forall s: nat :: s < SLOTS ==> s in gone
      requires v.meta == geo.meta
      modifies this`disk, this`mem, this`owner, this`logged
      ensures Valid() && |mem| == |v.inodes| && Untouched(v, Vol(), ino)
      ensures mem[ino] == v.inodes[ino].(addrs := seq(NDIRECT + 1, _ => 0), size := 0) && Bytes(data, mem[ino]) == []
      ensures forall b :: 0 <= b < geo.size ==> (Used()[b] <==> v.used[b] && !(b in v.owner && v.owner[b].ino == ino))
    {
      hide UsedOf, Word, Freed, Owned, Ref, Untouched, NoHoles, Bytes, Recorded;
      mem := mem[ino := mem[ino].(size := 0)];
      Iupdate(ino);
      owner := Disowned(owner, ino);
      assert mem[ino].addrs == seq(NDIRECT + 1, _ => 0);
      FreedSize(v, ino, gone, Used());
      AllFreed(v, ino, gone, Used(), mem[ino]);
      assert mem == v.inodes[ino := mem[ino]] && disk == mem;
    }

    /** The loop of itrunc() over the entries of the indirect block a. */
    method FreeEntries(ino: nat, a: nat, ghost v: Volume, ghost gone0: set<nat>) returns (panic: bool, ghost gone: set<nat>)
      requires Shape() && Owned(v) && Freed(v, ino, gone0, Used()) && Cleared(v, ino, NDIRECT)
      requires a == mem[ino].addrs[NDIRECT] != 0 && outstanding > 0 && forall s: nat :: s in gone0 <==> s < NDIRECT
      modifies this`bitmap, this`logged
      ensures !panic && Shape() && Freed(v, ino, gone, Used()) && Cleared(v, ino, NDIRECT)
      ensures forall s: nat :: s in gone <==> s < SLOTS && s != NDIRECT
    {
      hide UsedOf, Word, Freed, Owned, Ref, Recorded;
      panic, gone := false, gone0;
      PointerInRange(v, ino, NDIRECT);
      for j := 0 to NINDIRECT
        invariant !panic && Shape() && Freed(v, ino, gone, Used()) && Cleared(v, ino, NDIRECT)
        invariant forall s: nat :: s in gone <==> s < NDIRECT || NDIRECT < s < NDIRECT + 1 + j
      {
        FreeNext(v, ino, gone, Used(), NDIRECT + 1 + j);
        RefOfEntry(v.data, v.inodes[ino], j);
        gone := gone + {NDIRECT + 1 + j};
        if Word(data[a], j) != 0 {
          panic := Bfree(Word(data[a], j));
        }
      }
    }

    /** itrunc has cleared the first n pointers of the inode. */
    ghost predicate Cleared(v: Volume, ino: nat, n: nat)
      reads this
    {
      && ino < |v.inodes| && |mem| == |v.inodes| && Shaped(v.inodes[ino]) && Shaped(mem[ino])
      && mem == v.inodes[ino := v.inodes[ino].(addrs := mem[ino].addrs)]
      && data == v.data && disk == v.inodes && owner == v.owner
      && forall k :: 0 <= k <= NDIRECT ==> mem[ino].addrs[k] == if k < n then 0 else v.inodes[ino].addrs[k]
    }
  }
}
