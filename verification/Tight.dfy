/** Volumes on which a chunk of filewrite() logs exactly as many blocks as begin_op() reserves, and
    on which a longer write, or a chunk that starts inside a hole, logs more: few free blocks, under
    bitmap blocks of their own, and a file that is about to need its indirect block. */
module Tight {
  import opened Blocks
  import opened Bitmap
  import opened BlockMap
  import opened Mapping
  import opened CrashLog
  import opened Transaction
  import opened Fs
  import opened File

  /** A full chunk; one of BSIZE bytes more; a full chunk that starts inside a hole. */
  datatype Case = Full | Longer | Hole

  const META: nat := 4095
  /** Where the write starts: the file ends here, one byte into block 11. */
  const OFF: nat := 11 * BSIZE + 1

  function Length(e: Case): nat { CHUNK + if e == Longer then BSIZE else 0 }

  /** The file block behind the write. */
  function End(e: Case): nat { if e == Longer then 16 else 15 }

  function Size(e: Case): nat {
    match e
    case Full => 12289
    case Longer => 12290
    case Hole => 16385
  }

  /** Blocks that the file has; with a hole, all but block 11. */
  function Direct(e: Case): nat { if e == Hole then 11 else NDIRECT }

  /** Other files, which own all the blocks but the free ones. */
  function Files(e: Case): nat { if e == Hole then 88 else 58 }

  /** How many slots of file f + 1 hold blocks. */
  function Held(e: Case, f: nat): nat { if f == 87 then 7 else SLOTS }

  /** The first block of those files. */
  function Base(e: Case): nat { META + 1 + Direct(e) + 1 }

  /** The free blocks, from the lowest on. */
  function FreeBlocks(e: Case): (r: seq<nat>)
    ensures |r| == 5 && forall k :: 0 <= k < 5 ==> Row(r[k]) < 5
  {
    if e == Hole then [4095, 4107, 12286, 16376, 16384] else [4095, 4108, 12287, 12288, 12289]
  }

  predicate IsFree(e: Case, b: nat) {
    var f := FreeBlocks(e);
    b == f[0] || b == f[1] || b == f[2] || b == f[3] || b == f[4]
  }

  /** How many of them the volume has. */
  function Free(e: Case): nat { if e == Full then 4 else 5 }

  // ----- blocks and their owners -----

  /** Block s of file f + 1; the free blocks are skipped. */
  function FileBlock(e: Case, f: nat, s: nat): nat {
    Base(e) + SLOTS * f + s + (if f >= 58 then 1 else 0) + (if f >= 87 then 1 else 0)
  }

  predicate InFiles(e: Case, b: nat) {
    if e == Hole then Base(e) <= b < 16384 && b != 12286 && b != 16376 else Base(e) <= b < Base(e) + SLOTS * 58
  }

  /** Where block b comes among the blocks of the files. */
  function Nth(e: Case, b: nat): nat
    requires InFiles(e, b)
  {
    b - Base(e) - (if b > 12286 then 1 else 0) - (if b > 16376 then 1 else 0)
  }

  predicate IsMine(e: Case, b: nat) { META < b < META + 1 + Direct(e) }

  function OwnerOf(e: Case, b: nat): Slot
    requires IsMine(e, b) || InFiles(e, b)
  {
    if IsMine(e, b) then Slot(0, b - (META + 1)) else Slot(1 + Nth(e, b) / SLOTS, Nth(e, b) % SLOTS)
  }

  function Owners(e: Case): (m: map<nat, Slot>)
    ensures forall b: nat :: b in m <==> IsMine(e, b) || InFiles(e, b)
    ensures forall b: nat :: b in m ==> m[b] == OwnerOf(e, b)
  {
    map b: nat | b < 16384 && (IsMine(e, b) || InFiles(e, b)) :: OwnerOf(e, b)
  }

  /** The first n entries of the indirect block a, which name the blocks behind it. */
  function Entries(a: nat, n: nat): (r: Block)
    requires n <= NINDIRECT && a + n < TWO32
    ensures forall j: nat :: j < n ==> Word(r, j) == a + 1 + j
  {
    if n == 0 then ZeroBlock() else WithWord(Entries(a, n - 1), n - 1, a + n)
  }

  predicate IsIndirect(e: Case, b: nat) {
    InFiles(e, b) && Nth(e, b) % SLOTS == NDIRECT
  }

  function DataOf(e: Case, b: nat): Block
    requires b < 20000
  {
    if IsIndirect(e, b) then Entries(b, NINDIRECT) else ZeroBlock()
  }

  function Data(e: Case): (r: seq<Block>)
    ensures |r| == Size(e) && forall b: nat :: b < Size(e) ==> r[b] == DataOf(e, b)
  {
    seq(Size(e), b requires 0 <= b < Size(e) => DataOf(e, b))
  }

  function Pointers(first: nat, n: nat): (r: seq<nat>)
    requires n <= NDIRECT + 1
    ensures |r| == NDIRECT + 1 && forall k: nat :: k <= NDIRECT ==> r[k] == if k < n then first + k else 0
  {
    seq(NDIRECT + 1, k requires 0 <= k <= NDIRECT => if k < n then first + k else 0)
  }

  function InodeOf(e: Case, i: nat): Inode {
    if i == 0 then Inode(2, 1, OFF, Pointers(META + 1, Direct(e)))
    else if Held(e, i - 1) < SLOTS then Inode(2, 1, 7 * BSIZE, Pointers(FileBlock(e, i - 1, 0), 7))
    else Inode(2, 1, MAXFILE * BSIZE, Pointers(FileBlock(e, i - 1, 0), NDIRECT + 1))
  }

  function Inodes(e: Case): (r: seq<Inode>)
    ensures |r| == Files(e) + 1 && forall i: nat :: i <= Files(e) ==> r[i] == InodeOf(e, i)
  {
    seq(Files(e) + 1, i requires 0 <= i <= Files(e) => InodeOf(e, i))
  }

  function UsedIn(e: Case): (r: seq<bool>)
    ensures |r| == Size(e) && forall b: nat :: b < Size(e) ==> (r[b] <==> !IsFree(e, b))
  {
    seq(Size(e), b requires 0 <= b < Size(e) => !IsFree(e, b))
  }

  function Vol(e: Case): Volume {
    Volume(Data(e), UsedIn(e), Inodes(e), Owners(e), META)
  }

  // ----- it is a volume -----

  lemma RefIs(e: Case, i: nat, s: nat)
    requires i <= Files(e) && s < SLOTS
    ensures var v := Vol(e); Shaped(v.inodes[i])
    ensures var v := Vol(e);
      Ref(v.data, v.inodes[i], s) ==
        if i > 0 then (if s < Held(e, i - 1) then FileBlock(e, i - 1, s) else 0)
        else if s < Direct(e) then META + 1 + s else 0
  {
    hide Entries, FreeBlocks, Word;
    if i > 0 && s > NDIRECT && Held(e, i - 1) == SLOTS {
      var a := FileBlock(e, i - 1, NDIRECT);
      InPlace(e, i - 1, NDIRECT);
      hide InFiles, Nth;
      assert Vol(e).data[a] == Entries(a, NINDIRECT);
    }
  }

  lemma InPlace(e: Case, f: nat, s: nat)
    requires f < Files(e) && s < Held(e, f)
    ensures var b := FileBlock(e, f, s); InFiles(e, b) && Nth(e, b) % SLOTS == s && Nth(e, b) / SLOTS == f && b < Size(e)
  {
    var b := FileBlock(e, f, s);
    assert SLOTS * f + s < SLOTS * (f + 1);
    assert f < 58 ==> SLOTS * f <= SLOTS * 57;
    assert f >= 58 ==> SLOTS * f >= SLOTS * 58;
    assert f < 87 ==> SLOTS * f <= SLOTS * 86;
    assert f >= 87 ==> SLOTS * f >= SLOTS * 87;
    assert InFiles(e, b) && Nth(e, b) == SLOTS * f + s;
  }

  /** Every block of the files is one of theirs. */
  lemma Placed(e: Case, b: nat)
    requires InFiles(e, b)
    ensures var (f, s) := (Nth(e, b) / SLOTS, Nth(e, b) % SLOTS); f < Files(e) && s < Held(e, f) && FileBlock(e, f, s) == b
  {
    var f := Nth(e, b) / SLOTS;
    assert Nth(e, b) == SLOTS * f + Nth(e, b) % SLOTS;
  }

  lemma VolumeOwned(e: Case)
    ensures Owned(Vol(e)) && |Vol(e).owner| == Size(e) - META - Free(e)
  {
    var v := Vol(e);
    CountOwners(e);
    VolumeShape(e);
    hide Vol, RefOwned, OwnerNames;
    forall i: nat, s: nat | i < |v.inodes| && s < SLOTS ensures RefOwned(v, i, s) { RefsOwned(e, i, s); }
    forall b: nat | b in v.owner ensures OwnerNames(v, b) { OwnersName(e, b); }
  }

  lemma VolumeShape(e: Case)
    ensures var v := Vol(e);
      && |v.used| == |v.data| == Size(e) && 0 < v.meta == META <= |v.data| && |v.inodes| == Files(e) + 1 && v.owner == Owners(e)
      && (forall i :: 0 <= i < |v.inodes| ==> Shaped(v.inodes[i]))
      && (forall b :: b in v.owner ==> v.meta <= b < |v.data|)
      && (forall b :: 0 <= b < |v.used| ==> (v.used[b] <==> b < v.meta || b in v.owner))
  {
  }

  lemma RefsOwned(e: Case, i: nat, s: nat)
    requires i <= Files(e) && s < SLOTS
    ensures Shaped(Vol(e).inodes[i]) && RefOwned(Vol(e), i, s)
  {
    RefIs(e, i, s);
    hide Ref;
    if i > 0 && s < Held(e, i - 1) { InPlace(e, i - 1, s); }
  }

  lemma OwnersName(e: Case, b: nat)
    requires b in Owners(e)
    ensures forall i :: 0 <= i < |Vol(e).inodes| ==> Shaped(Vol(e).inodes[i])
    ensures OwnerNames(Vol(e), b)
  {
    hide Ref;
    if InFiles(e, b) { Placed(e, b); }
    RefIs(e, Owners(e)[b].ino, Owners(e)[b].at);
  }

  lemma Apart(a: nat, b: nat, c: nat, d: nat)
    requires b <= c
    ensures Range(a, b) !! Range(c, d)
  {
    hide Range;
  }

  lemma FourSets(a: set<nat>, b: set<nat>, c: set<nat>, d: set<nat>)
    requires a !! b && a !! c && a !! d && b !! c && b !! d && c !! d
    ensures |a + b + c + d| == |a| + |b| + |c| + |d|
  {
    assert a + b !! c && a + b + c !! d;
  }

  /** All data blocks are owned but the free ones. */
  lemma CountOwners(e: Case)
    ensures |Owners(e)| == Size(e) - META - Free(e)
  {
    if e == Hole { CountRuns(e, Base(e), 12286, 16376, 16384); } else { CountRun(e, Base(e), 12287); }
  }

  lemma CountRun(e: Case, lo: nat, hi: nat)
    requires e != Hole && lo == Base(e) && hi == 12287
    ensures |Owners(e)| == Size(e) - META - Free(e)
  {
    hide Range;
    assert |Owners(e)| == |Owners(e).Keys|;
    assert Owners(e).Keys == Range(META + 1, lo - 1) + Range(lo, hi);
    Apart(META + 1, lo - 1, lo, hi);
  }

  lemma InRuns(e: Case, b: nat)
    requires e == Hole
    ensures IsMine(e, b) || InFiles(e, b) <==>
      META + 1 <= b < Base(e) - 1 || Base(e) <= b < 12286 || 12287 <= b < 16376 || 16377 <= b < 16384
  {
  }

  lemma RunsAre(e: Case, mine: set<nat>, a: set<nat>, b: set<nat>, c: set<nat>)
    requires e == Hole
    requires forall x: nat :: x in mine <==> META + 1 <= x < Base(e) - 1
    requires forall x: nat :: x in a <==> Base(e) <= x < 12286
    requires forall x: nat :: x in b <==> 12287 <= x < 16376
    requires forall x: nat :: x in c <==> 16377 <= x < 16384
    ensures |Owners(e)| == |mine + a + b + c|
  {
    hide Owners, IsMine, InFiles;
    forall x: nat ensures x in Owners(e) <==> x in mine + a + b + c {
      InRuns(e, x);
    }
    assert Owners(e).Keys == mine + a + b + c;
  }

  lemma CountRuns(e: Case, lo: nat, gap1: nat, gap2: nat, hi: nat)
    requires e == Hole && lo == Base(e) && gap1 == 12286 && gap2 == 16376 && hi == 16384
    ensures |Owners(e)| == Size(e) - META - Free(e)
  {
    hide Range, Owners;
    var mine, a, b, c := Range(META + 1, lo - 1), Range(lo, gap1), Range(gap1 + 1, gap2), Range(gap2 + 1, hi);
    hide Range, Owners, IsMine, InFiles;
    Apart(META + 1, lo - 1, lo, gap1);
    Apart(META + 1, lo - 1, gap1 + 1, gap2);
    Apart(META + 1, lo - 1, gap2 + 1, hi);
    Apart(lo, gap1, gap1 + 1, gap2);
    Apart(lo, gap1, gap2 + 1, hi);
    Apart(gap1 + 1, gap2, gap2 + 1, hi);
    RunsAre(e, mine, a, b, c);
    FourSets(mine, a, b, c);
  }

  // ----- its bitmap -----

  function AllOnes(): (r: Bits)
    ensures Room(r, 5 * BPB) && |r| == 5
  {
    seq(5, _ => seq(BYTES, _ => 0xFF as bv8))
  }

  lemma AllOnesUsed(n: nat)
    requires n <= 5 * BPB
    ensures Room(AllOnes(), n) && forall b: nat :: b < n ==> UsedOf(AllOnes(), n)[b]
  {
    forall k: nat | k < 8 ensures Test(0xFF, k) {}
    hide Test, Row, Col, Pos;
    Places(AllOnes(), n);
  }

  /** The bitmap with block b freed, as bfree() does it. */
  function Without(bits: Bits, b: nat): (r: Bits)
    requires Row(b) < |bits| && |bits[Row(b)]| == BYTES
    ensures |r| == |bits| && forall n: nat :: Room(bits, n) ==> Room(r, n)
  {
    WithByte(bits, b, Clear(bits[Row(b)][Col(b)], Pos(b)))
  }

  function FreeMap(e: Case): (r: Bits)
    ensures Room(r, 5 * BPB) && |r| == 5
  {
    var f := FreeBlocks(e);
    Without(Without(Without(Without(Without(AllOnes(), f[0]), f[1]), f[2]), f[3]), f[4])
  }

  lemma OneLess(bits: Bits, n: nat, b: nat)
    requires Room(bits, n) && Row(b) < |bits|
    ensures Room(Without(bits, b), n)
    ensures forall c: nat :: c < n ==> (UsedOf(Without(bits, b), n)[c] <==> c != b && UsedOf(bits, n)[c])
  {
    hide Test, Clear, Row, Col, Pos;
    Places(bits, |bits| * BPB);
    var bits' := Without(bits, b);
    forall c: nat | c < n ensures UsedOf(bits', n)[c] <==> c != b && UsedOf(bits, n)[c] {}
  }

  lemma BitmapIs(e: Case)
    ensures Room(FreeMap(e), Size(e)) && UsedOf(FreeMap(e), Size(e)) == UsedIn(e)
  {
    var n, f := Size(e), FreeBlocks(e);
    AllOnesUsed(n);
    var m0 := AllOnes();
    var m1 := Without(m0, f[0]);
    var m2 := Without(m1, f[1]);
    var m3 := Without(m2, f[2]);
    var m4 := Without(m3, f[3]);
    OneLess(m0, n, f[0]);
    OneLess(m1, n, f[1]);
    OneLess(m2, n, f[2]);
    OneLess(m3, n, f[3]);
    OneLess(m4, n, f[4]);
    hide Without, UsedOf, AllOnes;
  }

  // ----- the write -----

  /** What it asks for: all the free blocks, for file blocks up to End and the indirect block. */
  lemma WriteNeeds(e: Case)
    ensures var d := Vol(e).inodes[0];
      && Shaped(d) && d.size == OFF && |Vol(e).inodes| == Files(e) + 1 && OFF / BSIZE == 11 && BlockEnd(OFF, Length(e)) == End(e)
      && (e != Hole ==> NoHoles(Vol(e).data, d)) && !PointersThere(d, 11, End(e))
      && Needs(Vol(e).data, d, 11, End(e)) == Free(e)
  {
    var v := Vol(e);
    forall k: nat | k < MAXFILE ensures Shaped(v.inodes[0]) && (BlockOf(v.data, v.inodes[0], k) != 0 <==> k < Direct(e)) {
      RefIs(e, 0, SlotOf(k));
    }
    hide BlockOf;
    var d := v.inodes[0];
    var first := if e == Hole then 1 else 0;
    assert Missing(v.data, d, 11, 12) == first by { assert Missing(v.data, d, 11, 11) == 0; }
    assert Missing(v.data, d, 11, 13) == first + 1;
    assert Missing(v.data, d, 11, 14) == first + 2;
    assert Missing(v.data, d, 11, 15) == first + 3;
  }

  function Ones(n: nat): (r: seq<byte>)
    ensures |r| == n && forall i :: 0 <= i < n ==> r[i] == 1
  {
    seq(n, _ => 1)
  }

  function Geo(e: Case): Geometry {
    Geometry(Size(e), META, 32, 60)
  }

  /** A block that the file has come to own held zeros before. */
  lemma WasZero(e: Case, w: Volume, b: nat, s: nat)
    requires Untouched(Vol(e), w, 0) && b in w.owner && w.owner[b] == Slot(0, s) && b < Size(e)
    ensures Vol(e).data[b] == ZeroBlock()
  {
    hide Entries;
    assert b in Vol(e).owner ==> Vol(e).owner[b].ino == 0;
  }

  /** Block k of the file, and what tells that it has changed. */
  lemma DataChanged(e: Case, w: Volume, k: nat)
    requires Owned(w) && Untouched(Vol(e), w, 0) && 11 <= k < End(e)
    requires w.inodes[0].size == OFF + Length(e)
    requires Bytes(w.data, w.inodes[0]) == Overwritten(Bytes(Vol(e).data, Vol(e).inodes[0]), OFF, Ones(Length(e)))
    ensures var x := BlockOf(w.data, w.inodes[0], k);
      && META <= x < Size(e) && x in w.owner && w.owner[x] == Slot(0, SlotOf(k)) && w.data[x] != Vol(e).data[x]
  {
    var i := k * BSIZE + if k == 11 then 1 else 0;
    assert RefOwned(w, 0, SlotOf(k));
    assert i / BSIZE == k;
    var x := BlockOf(w.data, w.inodes[0], k);
    assert ByteAt(w.data, w.inodes[0], i) == Bytes(w.data, w.inodes[0])[i] == 1;
    hide Ref, Overwritten, Bytes;
    WasZero(e, w, x, SlotOf(k));
    assert w.data[x][i % BSIZE] == 1;
  }

  lemma IndirectChanged(e: Case, w: Volume)
    requires Owned(w) && Untouched(Vol(e), w, 0) && BlockOf(w.data, w.inodes[0], NDIRECT) != 0
    ensures var a := w.inodes[0].addrs[NDIRECT];
      && META <= a < Size(e) && a in w.owner && w.owner[a] == Slot(0, NDIRECT) && w.data[a] != Vol(e).data[a]
  {
    NoEntryBelow(w.data, w.inodes[0], 0);
    assert RefOwned(w, 0, NDIRECT);
    var a := w.inodes[0].addrs[NDIRECT];
    WasZero(e, w, a, NDIRECT);
    ZeroWords();
    assert Word(w.data[a], 0) == BlockOf(w.data, w.inodes[0], NDIRECT);
  }

  /** The blocks that have changed: the inode's block, four bitmap blocks or five, the indirect block,
      four data blocks or five. */
  function Changed(e: Case, w: Volume): seq<nat>
    requires |w.inodes| > 0 && Shaped(w.inodes[0])
  {
    var d := w.inodes[0];
    [32, 60, 61, 62, 63, d.addrs[NDIRECT]] + [BlockOf(w.data, d, 11), BlockOf(w.data, d, 12), BlockOf(w.data, d, 13), BlockOf(w.data, d, 14)]
      + (if e == Longer then [BlockOf(w.data, d, 15)] else if e == Hole then [64] else [])
  }

  /** t is what the buffers hold once the write has come to w. */
  ghost predicate After(e: Case, w: Volume, t: Content)
  {
    && Owned(w) && Untouched(Vol(e), w, 0) && |w.owner| == Size(e) - META
    && w.inodes[0].size == OFF + Length(e)
    && Bytes(w.data, w.inodes[0]) == Overwritten(Bytes(Vol(e).data, Vol(e).inodes[0]), OFF, Ones(Length(e)))
    && t.data == w.data && t.inodes == w.inodes && Room(t.bitmap, Size(e)) && UsedOf(t.bitmap, Size(e)) == w.used
  }

  function Before(e: Case): Content
  {
    Content(Data(e), FreeMap(e), Inodes(e))
  }

  lemma AfterShape(e: Case, w: Volume, t: Content)
    requires After(e, w, t)
    ensures |w.inodes| > 0 && Shaped(w.inodes[0])
  {
  }

  lemma BlockLogged(e: Case, w: Volume, t: Content, logged: set<nat>, k: nat)
    requires After(e, w, t) && Recorded(Geo(e), Before(e), t, logged) && 11 <= k < End(e)
    ensures |w.inodes| > 0 && Shaped(w.inodes[0]) && InNewBlock(e, w, k) && BlockOf(w.data, w.inodes[0], k) in logged
  {
    hide Overwritten, Bytes, Untouched, BlockOf, FreeMap, Inodes, Owned, UsedOf;
    AfterShape(e, w, t);
    DataChanged(e, w, k);
  }

  lemma IndirectLogged(e: Case, w: Volume, t: Content, logged: set<nat>)
    requires After(e, w, t) && Recorded(Geo(e), Before(e), t, logged)
    ensures |w.inodes| > 0 && Shaped(w.inodes[0])
    ensures var a := w.inodes[0].addrs[NDIRECT]; META <= a && a in w.owner && w.owner[a] == Slot(0, NDIRECT) && a in logged
  {
    DataChanged(e, w, NDIRECT);
    hide Overwritten, Bytes, Untouched, BlockOf, FreeMap, Inodes, Owned, UsedOf;
    IndirectChanged(e, w);
  }

  lemma MetaLogged(e: Case, w: Volume, t: Content, logged: set<nat>)
    requires After(e, w, t) && Recorded(Geo(e), Before(e), t, logged)
    ensures 32 in logged && 60 in logged && 61 in logged && 62 in logged && 63 in logged && (e == Hole ==> 64 in logged)
  {
    RowsChanged(e, w, t);
    hide Overwritten, Bytes, Untouched, BlockOf, FreeMap, Data, Owned, UsedOf;
    assert t.inodes[0].size != Inodes(e)[0].size;
    assert IBlock(Geo(e), 0) == 32;
    var r := FreeMap(e);
    assert t.bitmap[0] != r[0] && t.bitmap[1] != r[1] && t.bitmap[2] != r[2] && t.bitmap[3] != r[3] && (e == Hole ==> t.bitmap[4] != r[4]);
  }

  lemma ChangedAreLogged(e: Case, w: Volume, t: Content, logged: set<nat>)
    requires After(e, w, t) && Recorded(Geo(e), Before(e), t, logged)
    ensures |logged| >= MAXOPBLOCKS + More(e)
  {
    hide After, Recorded, BlockOf;
    MetaLogged(e, w, t, logged);
    IndirectLogged(e, w, t, logged);
    BlockLogged(e, w, t, logged, 11);
    BlockLogged(e, w, t, logged, 12);
    BlockLogged(e, w, t, logged, 13);
    BlockLogged(e, w, t, logged, 14);
    if e == Longer { BlockLogged(e, w, t, logged, 15); }
    ChangedCount(e, w, logged);
  }

  predicate InNewBlock(e: Case, w: Volume, k: nat)
    requires |w.inodes| > 0 && Shaped(w.inodes[0])
  {
    && 11 <= k < End(e)
    && var x := BlockOf(w.data, w.inodes[0], k); META <= x && x in w.owner && w.owner[x] == Slot(0, SlotOf(k))
  }

  /** The free blocks are under bitmap blocks of their own, the first four at least. */
  lemma FreeRows(e: Case)
    ensures var f := FreeBlocks(e);
      && (forall k :: 0 <= k < 4 ==> f[k] < Size(e) && Row(f[k]) == k)
      && (e == Hole ==> f[4] < Size(e) && Row(f[4]) == 4)
  {
  }

  /** With no block left free, a bit in each of these has changed. */
  lemma RowsChanged(e: Case, w: Volume, t: Content)
    requires Owned(w) && |w.data| == Size(e) && w.meta == META && |w.owner| == Size(e) - META
    requires |t.bitmap| == 5 && Room(t.bitmap, Size(e)) && UsedOf(t.bitmap, Size(e)) == w.used
    ensures forall r :: 0 <= r < (if e == Hole then 5 else 4) ==> t.bitmap[r] != FreeMap(e)[r]
  {
    hide FreeMap, Owned, UsedOf, FreeBlocks, Row;
    FreeRows(e);
    forall r: nat | r < if e == Hole then 5 else 4 ensures t.bitmap[r] != FreeMap(e)[r] { RowChanged(e, w, t, r); }
  }

  lemma FreeIsFree(e: Case, r: nat)
    requires r < 5
    ensures IsFree(e, FreeBlocks(e)[r])
  {
  }

  lemma RowChanged(e: Case, w: Volume, t: Content, r: nat)
    requires Owned(w) && |w.data| == Size(e) && w.meta == META && |w.owner| == Size(e) - META && r < 5
    requires |t.bitmap| == 5 && Room(t.bitmap, Size(e)) && UsedOf(t.bitmap, Size(e)) == w.used
    requires FreeBlocks(e)[r] < Size(e) && Row(FreeBlocks(e)[r]) == r
    ensures t.bitmap[r] != FreeMap(e)[r]
  {
    OwnersCounted(w);
    BitmapIs(e);
    FreeIsFree(e, r);
    hide FreeMap, Owned, UsedIn, UsedOf, FreeBlocks, Row, IsFree, Size;
    BitsTell(t.bitmap, FreeMap(e), Size(e), FreeBlocks(e)[r]);
  }

  lemma BitsTell(a: Bits, b: Bits, n: nat, c: nat)
    requires Room(a, n) && Room(b, n) && c < n && UsedOf(a, n)[c] != UsedOf(b, n)[c]
    ensures Row(c) < |a| && Row(c) < |b| && a[Row(c)] != b[Row(c)]
  {
    Places(a, n);
    Places(b, n);
  }

  /** The volume, and begin_op(). */
  method Mount(e: Case) returns (fs: Fs)
    ensures fresh(fs) && fs.Valid() && fs.Vol() == Vol(e) && fs.geo == Geo(e) && fs.logged == {} && fs.begun == Before(e)
    ensures fs.outstanding == 1
  {
    hide Vol, Owned, Recorded, UsedOf, FreeMap, Data, Inodes, Owners;
    VolumeOwned(e);
    BitmapIs(e);
    VolumeIs(e);
    fs := new Fs(Geo(e), Data(e), FreeMap(e), Inodes(e), Owners(e));
    fs.outstanding := 1;
  }

  /** How many blocks too many. */
  function More(e: Case): nat { if e == Full then 0 else 1 }

  /** A write of a full chunk logs exactly what begin_op() has reserved for it. One of another BSIZE
      bytes logs more, and a full chunk that starts inside a hole one block more. */
  method FullChunk(e: Case) returns (fs: Fs, r: Outcome)
    ensures r.Done? && fs.Valid() && |fs.logged| >= MAXOPBLOCKS + More(e)
    ensures e != Longer ==> |fs.logged| == MAXOPBLOCKS + More(e)
  {
    hide Vol, Owned, Recorded, Untouched, Bytes, Overwritten, BlockOf, Needs, BlockEnd, PointersThere, NoHoles, UsedOf, FreeMap,
      After, Before, Data, Inodes, Owners, LogBound, LogCost;
    fs := Mount(e);
    VolumeOwned(e);
    WriteNeeds(e);
    r := fs.Writei(0, Ones(Length(e)), OFF);
    ChunkFits(OFF, CHUNK);
    if e == Hole { HoleCost(Vol(e).data, Vol(e).inodes[0]); }
    AfterIs(e, Vol(e), fs.Vol(), fs.Held());
    ChangedAreLogged(e, fs.Vol(), fs.Held(), fs.logged);
  }

  lemma HoleCost(data: seq<Block>, d: Inode)
    requires Shaped(d) && BlockEnd(OFF, CHUNK) == 15
    ensures LogCost(data, d, OFF, CHUNK) == Needs(data, d, 11, 15) + 6
  {
    hide Needs;
  }

  lemma AfterIs(e: Case, v: Volume, w: Volume, t: Content)
    requires v == Vol(e) && Owned(w) && Untouched(v, w, 0) && |w.owner| == Size(e) - META
    requires w.inodes[0] == v.inodes[0].(size := Max(OFF, OFF + Length(e)), addrs := w.inodes[0].addrs)
    requires Bytes(w.data, w.inodes[0]) == Overwritten(Bytes(v.data, v.inodes[0]), OFF, Ones(Length(e)))
    requires t.data == w.data && t.inodes == w.inodes && Room(t.bitmap, Size(e)) && UsedOf(t.bitmap, Size(e)) == w.used
    ensures After(e, w, t)
  {
    hide Owned, Untouched, Bytes, Overwritten;
  }

  lemma VolumeIs(e: Case)
    ensures Vol(e) == Volume(Data(e), UsedIn(e), Inodes(e), Owners(e), META)
  {
  }

  lemma ChangedCount(e: Case, w: Volume, logged: set<nat>)
    requires |w.inodes| > 0 && Shaped(w.inodes[0])
    requires forall b :: b in Changed(e, w) ==> b in logged
    requires InNewBlock(e, w, 11) && InNewBlock(e, w, 12) && InNewBlock(e, w, 13) && InNewBlock(e, w, 14)
    requires e == Longer ==> InNewBlock(e, w, 15)
    requires var a := w.inodes[0].addrs[NDIRECT]; META <= a && a in w.owner && w.owner[a] == Slot(0, NDIRECT)
    ensures |logged| >= MAXOPBLOCKS + More(e)
  {
    var c := Changed(e, w);
    var all := set b | b in c;
    ListsSize(c, all);
    Subsets(all, logged);
  }
}
