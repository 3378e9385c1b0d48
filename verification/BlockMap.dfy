/** The block map of a file system: which block every pointer of every inode names, who owns
    each block, and the bytes that a file's blocks hold. */
module BlockMap {
  import opened Blocks

  const NDIRECT: nat := 12
  const NINDIRECT: nat := WORDS
  const MAXFILE: nat := NDIRECT + NINDIRECT
  /** Pointers of an inode: the direct ones, the indirect block, then the entries in it. */
  const SLOTS: nat := NDIRECT + 1 + NINDIRECT

  datatype Inode = Inode(kind: int, nlink: int, size: nat, addrs: seq<nat>)

  datatype Slot = Slot(ino: nat, at: nat)

  /** What bread returns for each block, the bitmap, the cached inodes, and which slot owns each
      block in use. Blocks below meta hold metadata. */
  datatype Volume = Volume(data: seq<Block>, used: seq<bool>, inodes: seq<Inode>, owner: map<nat, Slot>, meta: nat)

  predicate Shaped(d: Inode) {
    |d.addrs| == NDIRECT + 1
  }

  /** The slot that names block k of a file. */
  function SlotOf(k: nat): (s: nat)
    ensures s != NDIRECT && (k < MAXFILE ==> s < SLOTS)
  {
    if k < NDIRECT then k else k + 1
  }

  /** Entry j of the indirect block of d, 0 when there is none. */
  function Entry(data: seq<Block>, d: Inode, j: nat): nat
    requires Shaped(d) && j < NINDIRECT
  {
    var a := d.addrs[NDIRECT];
    if 0 < a < |data| then Word(data[a], j) else 0
  }

  /** The block number in slot s of d, 0 when it holds none. */
  function Ref(data: seq<Block>, d: Inode, s: nat): nat
    requires Shaped(d) && s < SLOTS
  {
    if s <= NDIRECT then d.addrs[s] else Entry(data, d, s - NDIRECT - 1)
  }

  function BlockOf(data: seq<Block>, d: Inode, k: nat): nat
    requires Shaped(d) && k < MAXFILE
  {
    Ref(data, d, SlotOf(k))
  }

  /** The first twelve blocks of a file are named in its inode, the others in its indirect block. */
  lemma BlockOfIs(data: seq<Block>, d: Inode, k: nat)
    requires Shaped(d) && k < MAXFILE
    ensures k < 12 ==> BlockOf(data, d, k) == d.addrs[k]
    ensures k >= 12 ==>
      BlockOf(data, d, k) == if 0 < d.addrs[12] < |data| then Word(data[d.addrs[12]], k - 12) else 0
  {
  }

  // ----- ownership -----

  /** Slot s of inode i holds nothing, or a block that it owns. */
  predicate RefOwned(v: Volume, i: nat, s: nat)
    requires i < |v.inodes| && Shaped(v.inodes[i]) && s < SLOTS
  {
    var b := Ref(v.data, v.inodes[i], s);
    b != 0 ==> b in v.owner && v.owner[b] == Slot(i, s)
  }

  /** Block b is named by the slot that owns it. */
  predicate OwnerNames(v: Volume, b: nat)
    requires b in v.owner && forall i :: 0 <= i < |v.inodes| ==> Shaped(v.inodes[i])
  {
    var at := v.owner[b];
    at.ino < |v.inodes| && at.at < SLOTS && Ref(v.data, v.inodes[at.ino], at.at) == b
  }

  /** Every block has one owner at most, and a bitmap bit is set exactly for the metadata blocks
      and the owned ones. */
  ghost predicate Owned(v: Volume) {
    && |v.used| == |v.data| && 0 < v.meta <= |v.data|
    && (forall i :: 0 <= i < |v.inodes| ==> Shaped(v.inodes[i]))
    && (forall i, s :: 0 <= i < |v.inodes| && 0 <= s < SLOTS ==> RefOwned(v, i, s))
    && (forall b :: b in v.owner ==> v.meta <= b < |v.data| && OwnerNames(v, b))
    && (forall b :: 0 <= b < |v.used| ==> (v.used[b] <==> b < v.meta || b in v.owner))
  }

  /** No block number occurs twice over all direct slots, indirect pointers and indirect entries,
      and each one that occurs is a data block whose bit is set. */
  lemma EachBlockOnce(v: Volume, i: nat, s: nat, j: nat, t: nat)
    requires Owned(v) && i < |v.inodes| && j < |v.inodes| && s < SLOTS && t < SLOTS
    requires Ref(v.data, v.inodes[i], s) != 0
    ensures var b := Ref(v.data, v.inodes[i], s); v.meta <= b < |v.data| && v.used[b]
    ensures Ref(v.data, v.inodes[i], s) == Ref(v.data, v.inodes[j], t) <==> i == j && s == t
  {
    assert RefOwned(v, i, s) && RefOwned(v, j, t);
  }

  /** A set bit is that of a metadata block or of a block that some slot names. */
  lemma UsedIsNamed(v: Volume, b: nat)
    requires Owned(v) && b < |v.data|
    ensures v.used[b] <==>
              b < v.meta || exists i, s :: 0 <= i < |v.inodes| && 0 <= s < SLOTS && Ref(v.data, v.inodes[i], s) == b
  {
    if v.used[b] && b >= v.meta {
      assert OwnerNames(v, b);
    }
    if i, s :| 0 <= i < |v.inodes| && 0 <= s < SLOTS && Ref(v.data, v.inodes[i], s) == b {
      assert RefOwned(v, i, s);
    }
  }

  lemma FreeIsData(v: Volume)
    requires Owned(v)
    ensures |v.used| == |v.data| && forall b :: 0 <= b < |v.used| && !v.used[b] ==> v.meta <= b
  {
  }

  /** An inode whose indirect block has not changed has the same pointers. */
  lemma SameRefs(v: Volume, data': seq<Block>, i: nat)
    requires Owned(v) && i < |v.inodes| && |data'| == |v.data|
    requires forall b :: b in v.owner && v.owner[b] == Slot(i, NDIRECT) ==> b < |v.data| && data'[b] == v.data[b]
    ensures forall s :: 0 <= s < SLOTS ==> Ref(data', v.inodes[i], s) == Ref(v.data, v.inodes[i], s)
  {
    assert RefOwned(v, i, NDIRECT);
  }

  /** v with block b taken by the empty pointer s of inode i. */
  function WithPointer(v: Volume, i: nat, s: nat, b: nat): Volume
    requires i < |v.inodes| && Shaped(v.inodes[i]) && s <= NDIRECT && b < |v.data| == |v.used|
  {
    Volume(v.data[b := ZeroBlock()], v.used[b := true],
           v.inodes[i := v.inodes[i].(addrs := v.inodes[i].addrs[s := b])], v.owner[b := Slot(i, s)], v.meta)
  }

  lemma PointerOwned(v: Volume, i: nat, s: nat, b: nat)
    requires Owned(v) && i < |v.inodes| && s <= NDIRECT && b < |v.data|
    requires v.inodes[i].addrs[s] == 0 && !v.used[b]
    ensures Owned(WithPointer(v, i, s, b)) && b !in v.owner && b >= v.meta
    ensures var v' := WithPointer(v, i, s, b);
            forall t :: 0 <= t < SLOTS && t != s ==> Ref(v'.data, v'.inodes[i], t) == Ref(v.data, v.inodes[i], t)
  {
    var v' := WithPointer(v, i, s, b);
    forall j | 0 <= j < |v.inodes|
      ensures forall t :: 0 <= t < SLOTS && !(j == i && t == s) ==>
                Ref(v'.data, v'.inodes[j], t) == Ref(v.data, v.inodes[j], t)
    {
      SameRefs(v, v'.data, j);
      assert RefOwned(v, j, NDIRECT);
      ZeroWords();
    }
    hide Word;
    forall j, t | 0 <= j < |v'.inodes| && 0 <= t < SLOTS ensures RefOwned(v', j, t) {
      assert RefOwned(v, j, t);
    }
    forall c | c in v'.owner ensures v'.meta <= c < |v'.data| && OwnerNames(v', c) {
      if c != b { assert OwnerNames(v, c); }
    }
  }

  /** v with block b taken by the empty entry j of the indirect block of inode i. */
  function WithEntry(v: Volume, i: nat, j: nat, b: nat): Volume
    requires i < |v.inodes| && Shaped(v.inodes[i]) && v.inodes[i].addrs[NDIRECT] < |v.data| < TWO32
    requires j < NINDIRECT && b < |v.data| == |v.used|
  {
    var a := v.inodes[i].addrs[NDIRECT];
    Volume(v.data[b := ZeroBlock()][a := WithWord(v.data[a], j, b)], v.used[b := true], v.inodes,
           v.owner[b := Slot(i, NDIRECT + 1 + j)], v.meta)
  }

  lemma EntryOwned(v: Volume, i: nat, j: nat, b: nat)
    requires Owned(v) && i < |v.inodes| && j < NINDIRECT && b < |v.data| < TWO32 && !v.used[b]
    requires var a := v.inodes[i].addrs[NDIRECT]; 0 < a < |v.data| && Word(v.data[a], j) == 0
    ensures Owned(WithEntry(v, i, j, b)) && b !in v.owner && b >= v.meta
    ensures var a := v.inodes[i].addrs[NDIRECT]; b != a && a in v.owner && v.owner[a] == Slot(i, NDIRECT)
    ensures var data' := WithEntry(v, i, j, b).data;
            && Ref(data', v.inodes[i], NDIRECT + 1 + j) == b
            && forall t :: 0 <= t < SLOTS && t != NDIRECT + 1 + j ==>
                 Ref(data', v.inodes[i], t) == Ref(v.data, v.inodes[i], t)
  {
    assert RefOwned(v, i, NDIRECT);
    var v' := WithEntry(v, i, j, b);
    hide Word;
    forall m | 0 <= m < |v.inodes|
      ensures forall t :: 0 <= t < SLOTS && !(m == i && t == NDIRECT + 1 + j) ==>
                Ref(v'.data, v.inodes[m], t) == Ref(v.data, v.inodes[m], t)
    {
      assert RefOwned(v, m, NDIRECT);
    }
    forall m, t | 0 <= m < |v.inodes| && 0 <= t < SLOTS ensures RefOwned(v', m, t) {
      assert RefOwned(v, m, t);
    }
    forall c | c in v'.owner ensures v'.meta <= c < |v'.data| && OwnerNames(v', c) {
      if c != b { assert OwnerNames(v, c); }
    }
  }

  /** v with new contents in block b. */
  function WithData(v: Volume, b: nat, x: Block): Volume
    requires b < |v.data|
  {
    v.(data := v.data[b := x])
  }

  /** Storing into a block of file data disturbs no pointer. */
  lemma DataOwned(v: Volume, b: nat, x: Block)
    requires Owned(v) && b in v.owner && v.owner[b].at != NDIRECT
    ensures b < |v.data| && Owned(WithData(v, b, x))
    ensures forall i, s :: 0 <= i < |v.inodes| && 0 <= s < SLOTS ==>
              Ref(v.data[b := x], v.inodes[i], s) == Ref(v.data, v.inodes[i], s)
  {
    var v' := WithData(v, b, x);
    hide Word;
    forall i | 0 <= i < |v.inodes|
      ensures forall s :: 0 <= s < SLOTS ==> Ref(v'.data, v.inodes[i], s) == Ref(v.data, v.inodes[i], s)
    {
      SameRefs(v, v'.data, i);
    }
    forall i, s | 0 <= i < |v.inodes| && 0 <= s < SLOTS ensures RefOwned(v', i, s) {
      assert RefOwned(v, i, s);
    }
    forall c | c in v'.owner ensures v'.meta <= c < |v'.data| && OwnerNames(v', c) {
      assert OwnerNames(v, c);
    }
  }

  /** The fields of an inode other than its pointers own nothing. */
  lemma FieldsOwnNothing(v: Volume, i: nat, d': Inode)
    requires Owned(v) && i < |v.inodes| && d'.addrs == v.inodes[i].addrs
    ensures Owned(v.(inodes := v.inodes[i := d']))
    ensures forall s :: 0 <= s < SLOTS ==> Ref(v.data, d', s) == Ref(v.data, v.inodes[i], s)
  {
    var v' := v.(inodes := v.inodes[i := d']);
    hide Word;
    forall j, s | 0 <= j < |v'.inodes| && 0 <= s < SLOTS ensures RefOwned(v', j, s) {
      assert RefOwned(v, j, s);
    }
    forall c | c in v'.owner ensures v'.meta <= c < |v'.data| && OwnerNames(v', c) {
      assert OwnerNames(v, c);
    }
  }

  /** The ownership that is left when inode i gives up its blocks. */
  function Disowned(owner: map<nat, Slot>, i: nat): map<nat, Slot> {
    map b | b in owner && owner[b].ino != i :: owner[b]
  }

  /** itrunc(): the inode names nothing, and exactly its blocks have become free. */
  lemma TruncOwned(v: Volume, i: nat, used': seq<bool>, d': Inode)
    requires Owned(v) && i < |v.inodes|
    requires d'.addrs == seq(NDIRECT + 1, _ => 0) && |used'| == |v.used|
    requires forall b :: 0 <= b < |v.used| ==> (used'[b] <==> v.used[b] && !(b in v.owner && v.owner[b].ino == i))
    ensures Owned(Volume(v.data, used', v.inodes[i := d'], Disowned(v.owner, i), v.meta))
  {
    var v' := Volume(v.data, used', v.inodes[i := d'], Disowned(v.owner, i), v.meta);
    hide Word;
    forall j, s | 0 <= j < |v'.inodes| && 0 <= s < SLOTS ensures RefOwned(v', j, s) {
      assert RefOwned(v, j, s);
    }
    forall c | c in v'.owner ensures v'.meta <= c < |v'.data| && OwnerNames(v', c) {
      assert OwnerNames(v, c);
    }
  }

  // ----- bytes -----

  /** Every block that begins below size exists. */
  ghost predicate NoHoles(data: seq<Block>, d: Inode) {
    && Shaped(d) && d.size <= MAXFILE * BSIZE
    && forall k: nat :: k < MAXFILE && k * BSIZE < d.size ==> BlockOf(data, d, k) != 0
  }

  /** Byte i of the file, whether or not it is below size. */
  function ByteAt(data: seq<Block>, d: Inode, i: nat): byte
    requires Shaped(d) && i < MAXFILE * BSIZE
  {
    var b := BlockOf(data, d, i / BSIZE);
    if 0 < b < |data| then data[b][i % BSIZE] else 0
  }

  /** The file as a sequence of bytes. */
  function Bytes(data: seq<Block>, d: Inode): (r: seq<byte>)
    requires Shaped(d) && d.size <= MAXFILE * BSIZE
    ensures |r| == d.size
  {
    seq(d.size, i requires 0 <= i < d.size => ByteAt(data, d, i))
  }

  /** old' with src written over it at off. */
  function Overwritten(old': seq<byte>, off: nat, src: seq<byte>): (r: seq<byte>)
    requires off <= |old'|
    ensures |r| == (if off + |src| > |old'| then off + |src| else |old'|)
    ensures forall i :: 0 <= i < |r| ==> r[i] == if off <= i < off + |src| then src[i - off] else old'[i]
  {
    old'[..off] + src + if off + |src| < |old'| then old'[off + |src|..] else []
  }

  lemma OverwrittenTwice(x: seq<byte>, off: nat, a: seq<byte>, b: seq<byte>)
    requires off <= |x|
    ensures off + |a| <= |Overwritten(x, off, a)|
    ensures Overwritten(Overwritten(x, off, a), off + |a|, b) == Overwritten(x, off, a + b)
  {
  }

  /** The two states of the volume hold the same file in this inode. */
  ghost predicate SameFile(data: seq<Block>, data': seq<Block>, d: Inode) {
    && Shaped(d)
    && (forall k: nat :: k < MAXFILE * BSIZE ==> ByteAt(data', d, k) == ByteAt(data, d, k))
    && (NoHoles(data, d) ==> NoHoles(data', d) && Bytes(data', d) == Bytes(data, d))
  }

  /** No pointer or block of another inode has changed. */
  ghost predicate Untouched(v: Volume, v': Volume, ino: nat) {
    && |v'.data| == |v.data| && |v'.inodes| == |v.inodes| && v'.meta == v.meta
    && (forall i :: 0 <= i < |v.inodes| && i != ino ==> v'.inodes[i] == v.inodes[i])
    && (forall b :: b in v.owner && v.owner[b].ino != ino ==>
          b < |v.data| && b in v'.owner && v'.owner[b] == v.owner[b] && v'.data[b] == v.data[b])
  }

  /** Then every other inode holds the same file. */
  lemma OthersKept(v: Volume, v': Volume, ino: nat, i: nat)
    requires Owned(v) && Untouched(v, v', ino) && i < |v.inodes| && i != ino
    ensures v'.inodes[i] == v.inodes[i] && SameFile(v.data, v'.data, v.inodes[i])
    ensures forall k: nat :: k < MAXFILE * BSIZE ==> ByteAt(v'.data, v.inodes[i], k) == ByteAt(v.data, v.inodes[i], k)
  {
    hide Word;
    var d := v.inodes[i];
    SameRefs(v, v'.data, i);
    forall k: nat | k < MAXFILE * BSIZE ensures ByteAt(v'.data, d, k) == ByteAt(v.data, d, k) {
      assert RefOwned(v, i, SlotOf(k / BSIZE));
    }
    if NoHoles(v.data, d) {
      forall k: nat | k < MAXFILE && k * BSIZE < d.size ensures BlockOf(v'.data, d, k) != 0 {
        assert Ref(v'.data, d, SlotOf(k)) == Ref(v.data, d, SlotOf(k)) == BlockOf(v.data, d, k);
      }
      assert Bytes(v'.data, d) == Bytes(v.data, d);
    }
  }
}
