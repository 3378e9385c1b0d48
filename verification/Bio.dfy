/** The buffer cache over one disk. Each method is a critical section of bcache.lock, or work on
    a buffer by the holder of its sleep-lock; a buffer that someone refers to keeps its block. */
module Bio {
  import opened Blocks
  import opened Common
  import opened BufRing

  /** A buffer that is referred to or dirty keeps its block, its data and its holder; only i may
      change otherwise. */
  ghost predicate Kept(buf: seq<Buf>, buf': seq<Buf>, i: nat) {
    && |buf'| == |buf|
    && (forall j :: 0 <= j < |buf| && j != i ==> buf'[j] == buf[j])
    && (i < |buf| && !Recyclable(buf[i]) ==> Caches(buf'[i], buf[i].dev, buf[i].blockno))
  }

  predicate Recyclable(p: Buf) {
    p.refcnt == 0 && !p.dirty
  }

  /** How iderw() ends: the block is moved, or one of its four panics. */
  datatype Transfer = Moved | NotLocked | NothingToDo | NotDiskOne | OutOfRange

  class Bcache {
    var buf: seq<Buf>
    var next: seq<nat>
    var prev: seq<nat>
    var disk: seq<Block>
    ghost var order: seq<nat>      // most recently used first
    ghost var truth: seq<Block>

    ghost predicate Valid()
      reads this
    {
      |buf| == NBUF && Ring(order, next, prev) && Unique(buf) && Coherent(buf, disk, truth)
    }

    /** binit() */
    constructor (disk: seq<Block>)
      ensures Valid() && truth == disk == this.disk
      ensures forall i :: 0 <= i < NBUF ==> buf[i].refcnt == 0 && !buf[i].locked && !buf[i].dirty
    {
      this.disk, truth := disk, disk;
      buf := seq(NBUF, _ => Buf(false, false, 0, 0, 0, false, ZeroBlock()));
      next, prev := seq(NBUF + 1, _ => HEAD), seq(NBUF + 1, _ => HEAD);
      order := [];
      new;
      ghost var b0 := buf;
      for b := 0 to NBUF
        invariant Cycle(order, next, prev) && |order| == b && forall c: nat :: c in order <==> c < b
        invariant buf == b0 && this.disk == truth == disk
      {
        LinkFirstKeeps(order, next, prev, b);
        next := next[b := next[HEAD]];
        prev := prev[b := HEAD];
        prev := prev[next[HEAD] := b];
        next := next[HEAD := b];
        order := [b] + order;
      }
    }

    /** bget() up to its release of bcache.lock: the buffer that caches the block, or else the
        least recently used one that nobody refers to and that is not dirty. None is the panic. */
    method Bget(dev: nat, blockno: nat) returns (r: Option<nat>)
      requires Valid()
      modifies this`buf
      ensures Valid()
      ensures r == None <==> forall i :: 0 <= i < NBUF ==>
                (old(buf)[i].dev != dev || old(buf)[i].blockno != blockno) && (old(buf)[i].refcnt > 0 || old(buf)[i].dirty)
      ensures r == None ==> buf == old(buf)
      ensures r.Some? ==>
                && r.value < NBUF && Kept(old(buf), buf, r.value)
                && buf[r.value].dev == dev && buf[r.value].blockno == blockno && buf[r.value].refcnt == old(buf)[r.value].refcnt + 1
                && if Caches(old(buf)[r.value], dev, blockno)
                   then buf[r.value] == old(buf)[r.value].(refcnt := buf[r.value].refcnt)
                   else
                     && Recyclable(old(buf)[r.value]) && !buf[r.value].valid && !buf[r.value].dirty && !buf[r.value].locked
                     && (forall i :: 0 <= i < NBUF ==> !Caches(old(buf)[i], dev, blockno))
                     && exists k :: 0 <= k < NBUF && order[k] == r.value && forall m :: k < m < NBUF ==> !Recyclable(old(buf)[order[m]])
    {
      hide Coherent, Unique;
      var b := next[HEAD];
      ghost var k := 0;
      assert LinkedAt(order, next, prev, 0);
      while b != HEAD
        invariant 0 <= k <= NBUF && b == At(order, k + 1)
        invariant forall m :: 0 <= m < k ==> !Caches(buf[order[m]], dev, blockno)
        decreases NBUF - k
      {
        if buf[b].dev == dev && buf[b].blockno == blockno {
          Referred(buf, disk, truth, b);
          buf := buf[b := buf[b].(refcnt := buf[b].refcnt + 1)];
          return Some(b);
        }
        k := k + 1;
        assert LinkedAt(order, next, prev, k);
        b := next[b];
      }
      NotInRing(buf, order, next, prev, dev, blockno);
      b := prev[HEAD];
      k := NBUF;
      assert LinkedAt(order, next, prev, NBUF);
      while b != HEAD
        invariant 0 <= k <= NBUF && b == At(order, k)
        invariant forall m :: k <= m < NBUF ==> !Recyclable(buf[order[m]])
        decreases k
      {
        if buf[b].refcnt == 0 && !buf[b].dirty {
          Recycled(buf, disk, truth, b, dev, blockno);
          buf := buf[b := buf[b].(dev := dev, blockno := blockno, valid := false, dirty := false, refcnt := 1)];
          return Some(b);
        }
        k := k - 1;
        assert LinkedAt(order, next, prev, k);
        b := prev[b];
      }
      AllInRing(buf, order, next, prev);
      r := None;
    }

    /** acquiresleep() of a buffer, when it is free. */
    method Lock(i: nat)
      requires Valid() && i < NBUF && buf[i].refcnt > 0 && !buf[i].locked
      modifies this`buf
      ensures Valid() && buf == old(buf)[i := old(buf)[i].(locked := true)]
      ensures buf[i].valid ==> buf[i].blockno < |truth| && buf[i].data == truth[buf[i].blockno]
    {
      assert BufOk(buf[i], |disk|);
      buf := buf[i := buf[i].(locked := true)];
      SameDirty(old(buf), buf);
    }

    /** iderw(), with its panics in the order of their tests. */
    method Iderw(i: nat) returns (r: Transfer)
      requires i < |buf|
      modifies this`buf, this`disk
      ensures var p := old(buf)[i];
        r == if !p.locked then NotLocked else if p.valid && !p.dirty then NothingToDo
             else if p.dev != 1 then NotDiskOne else if p.blockno >= |old(disk)| then OutOfRange else Moved
      ensures r != Moved ==> buf == old(buf) && disk == old(disk)
      ensures r == Moved ==>
                var p := old(buf)[i];
                if p.dirty then disk == old(disk)[p.blockno := p.data] && buf == old(buf)[i := p.(dirty := false, valid := true)]
                else disk == old(disk) && buf == old(buf)[i := p.(data := old(disk)[p.blockno], valid := true)]
    {
      if !buf[i].locked { return NotLocked; }
      if buf[i].valid && !buf[i].dirty { return NothingToDo; }
      if buf[i].dev != 1 { return NotDiskOne; }
      if buf[i].blockno >= |disk| { return OutOfRange; }
      r := Moved;
      if buf[i].dirty {
        disk := disk[buf[i].blockno := buf[i].data];
        buf := buf[i := buf[i].(dirty := false)];
      } else {
        buf := buf[i := buf[i].(data := disk[buf[i].blockno])];
      }
      buf := buf[i := buf[i].(valid := true)];
    }

    /** bread() of a block of the disk: the contents last logged or written, in a locked buffer; or,
        while another process holds the buffer of the block, a reference to it, with which the caller
        sleeps until it can Finish(). None is the panic of bget. */
    method Bread(b: nat) returns (r: Option<nat>, sleeps: bool)
      requires Valid() && b < |disk|
      modifies this`buf, this`disk
      ensures Valid() && disk == old(disk)
      ensures r == None <==> forall i :: 0 <= i < NBUF ==>
                (old(buf)[i].dev != 1 || old(buf)[i].blockno != b) && (old(buf)[i].refcnt > 0 || old(buf)[i].dirty)
      ensures r == None ==> buf == old(buf)
      ensures r.Some? ==>
                && r.value < NBUF && Kept(old(buf), buf, r.value)
                && buf[r.value].dev == 1 && buf[r.value].blockno == b && buf[r.value].refcnt == old(buf)[r.value].refcnt + 1 && buf[r.value].locked
      ensures r.Some? && !sleeps ==> buf[r.value].valid && buf[r.value].data == truth[b] && !old(buf)[r.value].locked
      ensures sleeps <==> exists i :: 0 <= i < NBUF && Caches(old(buf)[i], 1, b) && old(buf)[i].locked
      ensures sleeps ==> r.Some? && buf == old(buf)[r.value := old(buf)[r.value].(refcnt := old(buf)[r.value].refcnt + 1)]
    {
      r := Bget(1, b);
      sleeps := false;
      if r.Some? {
        sleeps := buf[r.value].locked;
        if !sleeps { Finish(r.value, b); }
      }
    }

    /** bread() from acquiresleep() on, with a reference to a buffer that nobody holds. */
    method Finish(i: nat, b: nat)
      requires Valid() && i < NBUF && b < |disk| && Caches(buf[i], 1, b) && buf[i].refcnt > 0 && !buf[i].locked
      modifies this`buf, this`disk
      ensures Valid() && disk == old(disk)
      ensures buf == old(buf)[i := old(buf)[i].(locked := true, valid := true, data := truth[b])]
    {
      Lock(i);
      if !buf[i].valid {
        ghost var buf1 := buf;
        CleanBlock(buf, disk, truth, i);
        var _ := Iderw(i);
        SameDirty(buf1, buf);
        assert BufOk(buf1[i], |disk|);
      }
    }

    /** The holder of a buffer stores into it. */
    method Store(i: nat, x: Block)
      requires Valid() && i < NBUF && buf[i].locked
      modifies this`buf
      ensures Valid() && buf == old(buf)[i := old(buf)[i].(data := x)]
    {
      assert BufOk(buf[i], |disk|);
      buf := buf[i := buf[i].(data := x)];
      SameDirty(old(buf), buf);
    }

    /** bwrite(): the buffer goes to disk and is clean. */
    method Bwrite(i: nat) returns (ok: bool)
      requires Valid() && i < NBUF
      modifies this`buf, this`disk, this`truth
      ensures ok <==> old(buf)[i].locked && old(buf)[i].dev == 1 && old(buf)[i].blockno < |old(disk)| == |old(truth)|
      ensures ok ==>
                var p := old(buf)[i];
                && Valid() && disk == old(disk)[p.blockno := p.data] && truth == old(truth)[p.blockno := p.data]
                && buf == old(buf)[i := p.(dirty := false, valid := true)]
    {
      if !buf[i].locked { return false; }
      ghost var p, buf0 := buf[i], buf;
      buf := buf[i := buf[i].(dirty := true)];
      var r := Iderw(i);
      ok := r == Moved;
      if ok {
        truth := truth[p.blockno := p.data];
        WrittenBack(buf0, old(disk), old(truth), i);
        assert buf == buf0[i := p.(dirty := false, valid := true)];
      }
    }

    /** log_write()'s part in the cache: the buffer is pinned, and its contents are the block's. */
    method Pin(i: nat)
      requires Valid() && i < NBUF && buf[i].locked && buf[i].valid
      modifies this`buf, this`truth
      ensures Valid() && buf == old(buf)[i := old(buf)[i].(dirty := true)]
      ensures buf[i].blockno < |old(truth)| && truth == old(truth)[buf[i].blockno := buf[i].data]
    {
      Pinned(buf, disk, truth, i);
      truth := truth[buf[i].blockno := buf[i].data];
      buf := buf[i := buf[i].(dirty := true)];
    }

    /** brelse() of a buffer whose changes, if any, have been logged or written. */
    method Brelse(i: nat)
      requires Valid() && i < NBUF && buf[i].locked
      requires buf[i].valid && (buf[i].blockno < |truth| ==> buf[i].data == truth[buf[i].blockno])
      modifies this`buf, this`next, this`prev, this`order
      ensures Valid() && buf == old(buf)[i := old(buf)[i].(locked := false, refcnt := old(buf)[i].refcnt - 1)]
      ensures old(buf)[i].refcnt > 1 ==> order == old(order)
      ensures old(buf)[i].refcnt == 1 ==>
                exists k :: 0 <= k < NBUF && old(order)[k] == i && order == [i] + Without(old(order), k)
    {
      hide Unique, Coherent, Ring;
      Released(buf, disk, truth, i);
      buf := buf[i := buf[i].(locked := false, refcnt := buf[i].refcnt - 1)];
      if buf[i].refcnt == 0 {
        ghost var k := PlaceInRing(order, next, prev, i);
        MoveFirstKeeps(order, next, prev, k);
        prev := prev[next[i] := prev[i]];
        next := next[prev[i] := next[i]];
        next := next[i := next[HEAD]];
        prev := prev[i := HEAD];
        prev := prev[next[HEAD] := i];
        next := next[HEAD := i];
        order := [i] + Without(order, k);
      }
    }
  }

  lemma Referred(buf: seq<Buf>, disk: seq<Block>, truth: seq<Block>, i: nat)
    requires Unique(buf) && Coherent(buf, disk, truth) && i < |buf|
    ensures var buf' := buf[i := buf[i].(refcnt := buf[i].refcnt + 1)]; Unique(buf') && Coherent(buf', disk, truth)
  {
    var buf' := buf[i := buf[i].(refcnt := buf[i].refcnt + 1)];
    SameDirty(buf, buf');
    assert BufOk(buf[i], |disk|);
  }

  lemma Recycled(buf: seq<Buf>, disk: seq<Block>, truth: seq<Block>, i: nat, dev: nat, blockno: nat)
    requires Unique(buf) && Coherent(buf, disk, truth) && i < |buf| && Recyclable(buf[i])
    requires forall j :: 0 <= j < |buf| ==> !Caches(buf[j], dev, blockno)
    ensures !buf[i].locked
    ensures var buf' := buf[i := buf[i].(dev := dev, blockno := blockno, valid := false, dirty := false, refcnt := 1)];
            Unique(buf') && Coherent(buf', disk, truth)
  {
    var buf' := buf[i := buf[i].(dev := dev, blockno := blockno, valid := false, dirty := false, refcnt := 1)];
    assert BufOk(buf[i], |disk|);
    SameDirty(buf, buf');
  }

  /** A block whose only buffer is not valid is up to date on disk. */
  lemma CleanBlock(buf: seq<Buf>, disk: seq<Block>, truth: seq<Block>, i: nat)
    requires Unique(buf) && Coherent(buf, disk, truth) && i < |buf| && buf[i].dev == 1 && !buf[i].valid && buf[i].blockno < |disk|
    ensures disk[buf[i].blockno] == truth[buf[i].blockno]
  {
    forall j | 0 <= j < |buf| && Caches(buf[j], 1, buf[i].blockno) ensures !buf[j].dirty {
      assert BufOk(buf[j], |disk|);
      assert j == i;
    }
  }

  lemma WrittenBack(buf: seq<Buf>, disk: seq<Block>, truth: seq<Block>, i: nat)
    requires Unique(buf) && Coherent(buf, disk, truth) && i < |buf| && buf[i].locked && buf[i].dev == 1 && buf[i].blockno < |disk|
    ensures var p := buf[i]; var buf' := buf[i := p.(dirty := false, valid := true)];
            Unique(buf') && Coherent(buf', disk[p.blockno := p.data], truth[p.blockno := p.data])
  {
    var p := buf[i];
    var buf' := buf[i := p.(dirty := false, valid := true)];
    assert BufOk(p, |disk|);
    forall b: nat | b != p.blockno && DirtyFor(buf, b) ensures DirtyFor(buf', b) {
      var j :| 0 <= j < |buf| && Caches(buf[j], 1, b) && buf[j].dirty;
      assert Caches(buf'[j], 1, b) && buf'[j].dirty;
    }
  }

  lemma Pinned(buf: seq<Buf>, disk: seq<Block>, truth: seq<Block>, i: nat)
    requires Unique(buf) && Coherent(buf, disk, truth) && i < |buf| && buf[i].locked && buf[i].valid
    ensures buf[i].blockno < |truth|
    ensures Unique(buf[i := buf[i].(dirty := true)])
    ensures Coherent(buf[i := buf[i].(dirty := true)], disk, truth[buf[i].blockno := buf[i].data])
  {
    var buf' := buf[i := buf[i].(dirty := true)];
    assert BufOk(buf[i], |disk|);
    assert Caches(buf'[i], 1, buf[i].blockno) && buf'[i].dirty;
    forall b: nat | DirtyFor(buf, b) ensures DirtyFor(buf', b) {
      var j :| 0 <= j < |buf| && Caches(buf[j], 1, b) && buf[j].dirty;
      assert Caches(buf'[j], 1, b) && buf'[j].dirty;
    }
  }

  lemma Released(buf: seq<Buf>, disk: seq<Block>, truth: seq<Block>, i: nat)
    requires Unique(buf) && Coherent(buf, disk, truth) && i < |buf| && buf[i].locked && buf[i].valid
    requires buf[i].blockno < |truth| ==> buf[i].data == truth[buf[i].blockno]
    ensures buf[i].refcnt > 0
    ensures var buf' := buf[i := buf[i].(locked := false, refcnt := buf[i].refcnt - 1)]; Unique(buf') && Coherent(buf', disk, truth)
  {
    assert BufOk(buf[i], |disk|);
    SameDirty(buf, buf[i := buf[i].(locked := false, refcnt := buf[i].refcnt - 1)]);
  }

  lemma PlaceInRing(order: seq<nat>, next: seq<nat>, prev: seq<nat>, b: nat) returns (k: nat)
    requires Ring(order, next, prev) && b < NBUF
    ensures k < NBUF == |order| && order[k] == b && |next| == |prev| == NBUF + 1
  {
    assert b in order;
    k :| 0 <= k < |order| && order[k] == b;
  }

  /** Buffers that differ only while clean make the same blocks dirty. */
  lemma SameDirty(buf: seq<Buf>, buf': seq<Buf>)
    requires |buf'| == |buf|
    requires forall i :: 0 <= i < |buf| ==>
               buf'[i].dirty == buf[i].dirty && (buf[i].dirty ==> Caches(buf'[i], buf[i].dev, buf[i].blockno))
    ensures forall b: nat :: DirtyFor(buf', b) <==> DirtyFor(buf, b)
  {
    forall b: nat ensures DirtyFor(buf', b) <==> DirtyFor(buf, b) {
      if DirtyFor(buf, b) {
        var i :| 0 <= i < |buf| && Caches(buf[i], 1, b) && buf[i].dirty;
        assert Caches(buf'[i], 1, b) && buf'[i].dirty;
      }
      if DirtyFor(buf', b) {
        var i :| 0 <= i < |buf| && Caches(buf'[i], 1, b) && buf'[i].dirty;
        assert Caches(buf[i], 1, b) && buf[i].dirty;
      }
    }
  }

  lemma NotInRing(buf: seq<Buf>, order: seq<nat>, next: seq<nat>, prev: seq<nat>, dev: nat, blockno: nat)
    requires |buf| == NBUF && Ring(order, next, prev)
    requires forall m :: 0 <= m < NBUF ==> !Caches(buf[order[m]], dev, blockno)
    ensures forall i :: 0 <= i < NBUF ==> !Caches(buf[i], dev, blockno)
  {
    forall i: nat | i < NBUF ensures !Caches(buf[i], dev, blockno) {
      assert i in order;
    }
  }

  lemma AllInRing(buf: seq<Buf>, order: seq<nat>, next: seq<nat>, prev: seq<nat>)
    requires |buf| == NBUF && Ring(order, next, prev)
    requires forall m :: 0 <= m < NBUF ==> !Recyclable(buf[order[m]])
    ensures forall i :: 0 <= i < NBUF ==> !Recyclable(buf[i])
  {
    forall i: nat | i < NBUF ensures !Recyclable(buf[i]) {
      assert i in order;
    }
  }
}
