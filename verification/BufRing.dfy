/** The doubly linked ring of the buffer cache, most recently used first, and what the cached
    blocks have to do with the disk. */
module BufRing {
  import opened Blocks
  import opened Common

  const NBUF: Positive

  /** Index of bcache.head among the links. */
  const HEAD: nat := NBUF

  // ----- the ring -----

  /** Element k of the cycle head, order[0], order[1], .., head. */
  function At(order: seq<nat>, k: nat): nat
    requires k <= |order| + 1
  {
    if k == 0 || k == |order| + 1 then HEAD else order[k - 1]
  }

  predicate LinkedAt(order: seq<nat>, next: seq<nat>, prev: seq<nat>, k: nat)
    requires k <= |order|
  {
    && At(order, k) < |next| && next[At(order, k)] == At(order, k + 1)
    && At(order, k + 1) < |prev| && prev[At(order, k + 1)] == At(order, k)
  }

  /** The links form one cycle through head and the buffers of order, forwards and backwards. */
  ghost predicate Cycle(order: seq<nat>, next: seq<nat>, prev: seq<nat>) {
    && |next| == |prev| == NBUF + 1
    && (forall i :: 0 <= i < |order| ==> order[i] < NBUF)
    && (forall i, j :: 0 <= i < j < |order| ==> order[i] != order[j])
    && (forall k :: 0 <= k <= |order| ==> LinkedAt(order, next, prev, k))
  }

  /** And it has all the buffers in it. */
  ghost predicate Ring(order: seq<nat>, next: seq<nat>, prev: seq<nat>) {
    Cycle(order, next, prev) && |order| == NBUF && forall b: nat :: b < NBUF ==> b in order
  }

  /** next and prev with b taken out. */
  function Unlinked(next: seq<nat>, prev: seq<nat>, b: nat): (seq<nat>, seq<nat>)
    requires |next| == |prev| && b < |next| && next[b] < |next| && prev[b] < |next|
  {
    var prev1 := prev[next[b] := prev[b]];
    (next[prev1[b] := next[b]], prev1)
  }

  /** next and prev with b put in right after head. */
  function LinkedFirst(next: seq<nat>, prev: seq<nat>, b: nat): (seq<nat>, seq<nat>)
    requires |next| == |prev| == NBUF + 1 && b < NBUF && next[HEAD] <= NBUF
  {
    var next1 := next[b := next[HEAD]];
    var prev1 := prev[b := HEAD];
    (next1[HEAD := b], prev1[next1[HEAD] := b])
  }

  function Without(order: seq<nat>, k: nat): seq<nat>
    requires k < |order|
  {
    order[..k] + order[k + 1..]
  }

  lemma UnlinkKeeps(order: seq<nat>, next: seq<nat>, prev: seq<nat>, k: nat)
    requires Cycle(order, next, prev) && k < |order|
    ensures var b := order[k];
            && b < NBUF && next[b] <= NBUF && prev[b] <= NBUF
            && var (next', prev') := Unlinked(next, prev, b); Cycle(Without(order, k), next', prev')
    ensures order[k] !in Without(order, k)
  {
    var b := order[k];
    assert LinkedAt(order, next, prev, k) && LinkedAt(order, next, prev, k + 1);
    assert At(order, k + 1) == b;
    var (next', prev') := Unlinked(next, prev, b);
    var rest := Without(order, k);
    forall m | 0 <= m <= |rest| ensures LinkedAt(rest, next', prev', m) {
      assert LinkedAt(order, next, prev, if m <= k then m else m + 1);
    }
  }

  lemma LinkFirstKeeps(order: seq<nat>, next: seq<nat>, prev: seq<nat>, b: nat)
    requires Cycle(order, next, prev) && b < NBUF && b !in order
    ensures next[HEAD] <= NBUF
    ensures var (next', prev') := LinkedFirst(next, prev, b); Cycle([b] + order, next', prev')
  {
    assert LinkedAt(order, next, prev, 0);
    var (next', prev') := LinkedFirst(next, prev, b);
    var order' := [b] + order;
    forall m | 0 <= m <= |order'| ensures LinkedAt(order', next', prev', m) {
      if m > 0 { assert LinkedAt(order, next, prev, m - 1); }
    }
  }

  /** Moving a buffer to the front keeps every buffer in the ring, and the others in order. */
  lemma MoveFirstKeeps(order: seq<nat>, next: seq<nat>, prev: seq<nat>, k: nat)
    requires Ring(order, next, prev) && k < |order|
    ensures order[k] < NBUF && next[order[k]] <= NBUF && prev[order[k]] <= NBUF
    ensures var (next1, prev1) := Unlinked(next, prev, order[k]);
            && next1[HEAD] <= NBUF
            && var (next2, prev2) := LinkedFirst(next1, prev1, order[k]); Ring([order[k]] + Without(order, k), next2, prev2)
  {
    var b := order[k];
    UnlinkKeeps(order, next, prev, k);
    var (next1, prev1) := Unlinked(next, prev, b);
    LinkFirstKeeps(Without(order, k), next1, prev1, b);
    forall c: nat | c < NBUF ensures c in [b] + Without(order, k) {
      assert c in order;
    }
  }

  // ----- the buffers -----

  datatype Buf = Buf(valid: bool, dirty: bool, dev: nat, blockno: nat, refcnt: nat, locked: bool, data: Block)

  predicate Caches(p: Buf, dev: nat, b: nat) {
    p.dev == dev && p.blockno == b
  }

  /** No block of a device other than 0, where all buffers start, is cached twice. */
  ghost predicate Unique(buf: seq<Buf>) {
    forall i, j :: 0 <= i < j < |buf| && buf[i].dev != 0 ==> !Caches(buf[j], buf[i].dev, buf[i].blockno)
  }

  /** A buffer that is locked or dirty is in use, and dirty data are data of the disk. */
  predicate BufOk(p: Buf, disksize: nat) {
    && (p.locked ==> p.refcnt > 0)
    && (p.dirty ==> p.valid && p.dev == 1)
    && (p.valid ==> p.dev == 1 && p.blockno < disksize)
  }

  ghost predicate DirtyFor(buf: seq<Buf>, b: nat) {
    exists i :: 0 <= i < |buf| && Caches(buf[i], 1, b) && buf[i].dirty
  }

  /** truth holds, for each block, the contents last logged or written. An unlocked buffer has
      them; the disk has them unless a dirty buffer does. */
  ghost predicate Coherent(buf: seq<Buf>, disk: seq<Block>, truth: seq<Block>) {
    && |truth| == |disk|
    && (forall i :: 0 <= i < |buf| ==> BufOk(buf[i], |disk|))
    && (forall i :: 0 <= i < |buf| && buf[i].valid && !buf[i].locked ==> buf[i].data == truth[buf[i].blockno])
    && (forall b: nat :: b < |disk| && !DirtyFor(buf, b) ==> disk[b] == truth[b])
  }
}
