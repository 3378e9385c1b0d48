/** What a transaction of the file system means for the disk: every block that it changes has been
    given to log_write, so that a crash leaves all of the change or nothing of it. */
module Transaction {
  import opened Blocks
  import opened BlockMap
  import opened CrashLog
  import Bitmap

  const IPB: nat := 8

  /** Where the parts of the volume are. Blocks from meta to size hold data. */
  datatype Geometry = Geometry(size: nat, meta: nat, inodestart: nat, bmapstart: nat)

  /** What the buffers of the volume hold: the data blocks, the bitmap, the inodes. */
  datatype Content = Content(data: seq<Block>, bitmap: Bitmap.Bits, inodes: seq<Inode>)

  function BBlock(g: Geometry, b: nat): nat { Bitmap.Row(b) + g.bmapstart }

  function IBlock(g: Geometry, ino: nat): nat { ino / IPB + g.inodestart }

  /** BBLOCK and IBLOCK. */
  lemma BlocksAre(g: Geometry, b: nat, ino: nat)
    ensures BBlock(g, b) == b / 4096 + g.bmapstart && IBlock(g, ino) == ino / 8 + g.inodestart
  {
  }

  /** Block b holds data, inodes or a part of the bitmap. */
  predicate InVolume(g: Geometry, s: Content, b: nat) {
    || g.meta <= b < g.size
    || g.inodestart <= b < g.inodestart + InodeBlocks(s)
    || g.bmapstart <= b < g.bmapstart + |s.bitmap|
  }

  function InodeBlocks(s: Content): nat { (|s.inodes| + IPB - 1) / IPB }

  /** The step from s to t changes no block that is not in logged. */
  ghost predicate Recorded(g: Geometry, s: Content, t: Content, logged: set<nat>) {
    && |t.data| == |s.data| == g.size && |t.bitmap| == |s.bitmap| && |t.inodes| == |s.inodes|
    && (forall b :: 0 <= b < g.size && t.data[b] != s.data[b] ==> b in logged)
    && (forall r {:trigger t.bitmap[r]} :: 0 <= r < |s.bitmap| && t.bitmap[r] != s.bitmap[r] ==> r + g.bmapstart in logged)
    && (forall i {:trigger t.inodes[i]} :: 0 <= i < |s.inodes| && t.inodes[i] != s.inodes[i] ==> IBlock(g, i) in logged)
    && (forall b :: b in logged ==> InVolume(g, s, b))
  }

  lemma NothingRecorded(g: Geometry, s: Content)
    requires |s.data| == g.size
    ensures Recorded(g, s, s, {})
  {
  }

  lemma DataRecorded(g: Geometry, s: Content, t: Content, logged: set<nat>, b: nat, x: Block)
    requires Recorded(g, s, t, logged) && g.meta <= b < g.size
    ensures |t.data| == g.size && Recorded(g, s, t.(data := t.data[b := x]), logged + {b})
  {
  }

  lemma BitsRecorded(g: Geometry, s: Content, t: Content, logged: set<nat>, b: nat, x: bv8)
    requires Recorded(g, s, t, logged) && Bitmap.Row(b) < |t.bitmap| && |t.bitmap[Bitmap.Row(b)]| == Bitmap.BYTES
    ensures Recorded(g, s, t.(bitmap := Bitmap.WithByte(t.bitmap, b, x)), logged + {BBlock(g, b)})
  {
  }

  lemma InodeRecorded(g: Geometry, s: Content, t: Content, logged: set<nat>, i: nat, d: Inode)
    requires Recorded(g, s, t, logged) && i < |t.inodes|
    ensures Recorded(g, s, t.(inodes := t.inodes[i := d]), logged + {IBlock(g, i)})
  {
  }

  // ----- on disk -----

  /** How the bitmap and the inodes are laid out in a block. */
  datatype Format = Format(bits: seq<bv8> -> Block, inodes: seq<Inode> -> Block)

  /** The inodes in the k-th inode block. */
  function InodesIn(s: Content, k: nat): seq<Inode>
    requires k < InodeBlocks(s)
  {
    s.inodes[k * IPB..if (k + 1) * IPB <= |s.inodes| then (k + 1) * IPB else |s.inodes|]
  }

  /** Block b of a disk that holds s. */
  function Image(g: Geometry, f: Format, s: Content, b: nat): Block
    requires b < |s.data|
  {
    if g.inodestart <= b < g.inodestart + InodeBlocks(s) then f.inodes(InodesIn(s, b - g.inodestart))
    else if g.bmapstart <= b < g.bmapstart + |s.bitmap| then f.bits(s.bitmap[b - g.bmapstart])
    else s.data[b]
  }

  /** The disk outside the log holds s. */
  ghost predicate Shows(l: Layout, g: Geometry, f: Format, d: Disk, s: Content) {
    |d| == |s.data| && forall b :: 0 <= b < |d| && Home(l, b) ==> d[b] == Image(g, f, s, b)
  }

  /** The log, the inodes, the bitmap and the data follow each other. */
  predicate Placed(l: Layout, g: Geometry, s: Content) {
    && l.start + l.size <= g.inodestart && g.inodestart + InodeBlocks(s) <= g.bmapstart
    && g.bmapstart + |s.bitmap| <= g.meta <= g.size <= TWO32
  }

  /** A block that is not logged looks the same before and after. */
  lemma SameImage(l: Layout, g: Geometry, f: Format, s: Content, t: Content, logged: set<nat>, b: nat)
    requires Recorded(g, s, t, logged) && Placed(l, g, s) && b < g.size && b !in logged
    ensures Image(g, f, t, b) == Image(g, f, s, b)
  {
    if g.inodestart <= b < g.inodestart + InodeBlocks(s) {
      var k := b - g.inodestart;
      forall i | k * IPB <= i < (k + 1) * IPB && i < |s.inodes| ensures t.inodes[i] == s.inodes[i] {
        assert IBlock(g, i) == b;
      }
      assert InodesIn(t, k) == InodesIn(s, k);
    }
  }

  /** lh.block[..n] lists the logged blocks, each once. */
  ghost predicate Lists(blocks: seq<nat>, logged: set<nat>) {
    && (forall b :: b in logged <==> b in blocks)
    && (forall i, j :: 0 <= i < j < |blocks| ==> blocks[i] != blocks[j])
  }

  lemma {:induction false} ListsSize(blocks: seq<nat>, logged: set<nat>)
    requires Lists(blocks, logged)
    ensures |blocks| == |logged|
    decreases |blocks|
  {
    if blocks == [] {
      assert logged == {};
    } else {
      var n := |blocks| - 1;
      var rest := logged - {blocks[n]};
      forall b ensures b in rest <==> b in blocks[..n] {
        if b in rest {
          var i :| 0 <= i < |blocks| && blocks[i] == b;
          assert blocks[..n][i] == b;
        }
      }
      ListsSize(blocks[..n], rest);
    }
  }

  /** Such a list is one that the log can take. */
  lemma ListIsGood(l: Layout, g: Geometry, s: Content, t: Content, logged: set<nat>, blocks: seq<nat>)
    requires Recorded(g, s, t, logged) && Placed(l, g, s) && Lists(blocks, logged)
    requires |logged| <= LOGSIZE && |logged| < l.size
    ensures GoodBlocks(l, blocks, g.size)
  {
    ListsSize(blocks, logged);
    forall i | 0 <= i < |blocks| ensures blocks[i] < g.size && Home(l, blocks[i]) {
      assert blocks[i] in logged;
      assert InVolume(g, s, blocks[i]);
    }
  }

  /** What the buffers of the listed blocks hold at the commit. */
  function Images(g: Geometry, f: Format, t: Content, blocks: seq<nat>): (p: seq<Block>)
    requires forall i :: 0 <= i < |blocks| ==> blocks[i] < |t.data|
    ensures |p| == |blocks|
  {
    seq(|blocks|, i requires 0 <= i < |blocks| => Image(g, f, t, blocks[i]))
  }

  /** With the logged blocks installed, the disk holds t. */
  lemma InstalledShows(l: Layout, g: Geometry, f: Format, d: Disk, s: Content, t: Content, logged: set<nat>, blocks: seq<nat>)
    requires Recorded(g, s, t, logged) && Placed(l, g, s) && Shows(l, g, f, d, s) && Lists(blocks, logged)
    requires GoodBlocks(l, blocks, |d|)
    ensures Shows(l, g, f, Updated(d, blocks, Images(g, f, t, blocks)), t)
  {
    var p := Images(g, f, t, blocks);
    UpdatedAt(d, blocks, p);
    var r := Updated(d, blocks, p);
    forall b: nat | b < |d| && Home(l, b) ensures r[b] == Image(g, f, t, b) {
      if b in logged {
        var i :| 0 <= i < |blocks| && blocks[i] == b;
        assert p[i] == Image(g, f, t, b);
      } else {
        SameImage(l, g, f, s, t, logged, b);
      }
    }
  }

  /** A transaction that has recorded its changes is atomic: stop its commit after any k writes and
      recovery any number of times, and the volume that the disk holds after a recovery is the one
      before the transaction or the one after it. */
  lemma TransactionIsAtomic(l: Layout, g: Geometry, f: Format, d: Disk, s: Content, t: Content,
                            logged: set<nat>, blocks: seq<nat>, k: nat, stops: seq<nat>)
    requires Quiescent(l, d) && Shows(l, g, f, d, s) && Placed(l, g, s)
    requires Recorded(g, s, t, logged) && Lists(blocks, logged) && |logged| <= LOGSIZE && |logged| < l.size
    ensures GoodBlocks(l, blocks, |d|)
    ensures var ws := CommitWrites(l, d, blocks, Images(g, f, t, blocks));
            k <= |ws| ==>
              && GoodLog(l, Apply(d, ws[..k]))
              && var crashed := Interrupted(l, Apply(d, ws[..k]), stops);
                 && GoodLog(l, crashed) && Quiescent(l, Recovered(l, crashed))
                 && Shows(l, g, f, Recovered(l, crashed), if k <= |blocks| then s else t)
  {
    hide Recorded, Lists, GoodBlocks, Quiescent, CommitWrites, Image;
    SizeIs(g, s, t, logged);
    ListIsGood(l, g, s, t, logged, blocks);
    var p := Images(g, f, t, blocks);
    if k <= |CommitWrites(l, d, blocks, p)| {
      CrashAtomicity(l, d, blocks, p, k, stops);
      InstalledShows(l, g, f, d, s, t, logged, blocks);
    }
  }

  lemma SizeIs(g: Geometry, s: Content, t: Content, logged: set<nat>)
    requires Recorded(g, s, t, logged)
    ensures |s.data| == |t.data| == g.size
  {
  }

  // ----- one transaction after another -----

  /** Transactions that took the volume through states, with what each logged, committed on the
      disks in between. */
  ghost predicate Ran(l: Layout, g: Geometry, f: Format, states: seq<Content>, logs: seq<set<nat>>, lists: seq<seq<nat>>, disks: seq<Disk>) {
    && |states| == |disks| == |logs| + 1 == |lists| + 1
    && Quiescent(l, disks[0]) && Shows(l, g, f, disks[0], states[0]) && Placed(l, g, states[0])
    && (forall k :: 0 <= k < |logs| ==> Committed(l, g, f, states[k], states[k + 1], logs[k], lists[k], disks[k], disks[k + 1]))
  }

  ghost predicate Committed(l: Layout, g: Geometry, f: Format, s: Content, t: Content, logged: set<nat>, blocks: seq<nat>, d: Disk, d': Disk) {
    && Recorded(g, s, t, logged) && Lists(blocks, logged) && |logged| <= LOGSIZE && |logged| < l.size
    && GoodBlocks(l, blocks, |d|) && |t.data| == |d|
    && d' == Apply(d, CommitWrites(l, d, blocks, Images(g, f, t, blocks)))
  }

  lemma {:induction false} RanShows(l: Layout, g: Geometry, f: Format, states: seq<Content>, logs: seq<set<nat>>,
                                    lists: seq<seq<nat>>, disks: seq<Disk>, k: nat)
    requires Ran(l, g, f, states, logs, lists, disks) && k <= |logs|
    ensures Quiescent(l, disks[k]) && Shows(l, g, f, disks[k], states[k]) && Placed(l, g, states[k])
  {
    hide Ran, Shows, Committed, Placed, Quiescent;
    RanFacts(l, g, f, states, logs, lists, disks);
    if k > 0 {
      RanShows(l, g, f, states, logs, lists, disks, k - 1);
      CommittedShows(l, g, f, states[k - 1], states[k], logs[k - 1], lists[k - 1], disks[k - 1], disks[k]);
    }
  }

  lemma RanFacts(l: Layout, g: Geometry, f: Format, states: seq<Content>, logs: seq<set<nat>>, lists: seq<seq<nat>>, disks: seq<Disk>)
    requires Ran(l, g, f, states, logs, lists, disks)
    ensures |states| == |disks| == |logs| + 1 == |lists| + 1
    ensures Quiescent(l, disks[0]) && Shows(l, g, f, disks[0], states[0]) && Placed(l, g, states[0])
    ensures forall k: nat :: k < |logs| ==> Committed(l, g, f, states[k], states[k + 1], logs[k], lists[k], disks[k], disks[k + 1])
  {
  }

  /** A commit that runs to its end, of nothing too. */
  lemma CommitEnds(l: Layout, d: Disk, blocks: seq<nat>, p: seq<Block>)
    requires Quiescent(l, d) && GoodBlocks(l, blocks, |d|) && |p| == |blocks|
    ensures InRange(Installs(blocks, p), |d|)
    ensures var d' := Apply(d, CommitWrites(l, d, blocks, p)); Quiescent(l, d') && SameHome(l, d', Updated(d, blocks, p))
  {
    hide Quiescent, GoodBlocks, Word, Header;
    if blocks != [] {
      CommitInstalls(l, d, blocks, p);
    } else {
      assert Installs(blocks, p) == [];
    }
  }

  lemma CommittedShows(l: Layout, g: Geometry, f: Format, s: Content, t: Content, logged: set<nat>, blocks: seq<nat>, d: Disk, d': Disk)
    requires Quiescent(l, d) && Shows(l, g, f, d, s) && Placed(l, g, s) && Committed(l, g, f, s, t, logged, blocks, d, d')
    ensures Quiescent(l, d') && Shows(l, g, f, d', t) && Placed(l, g, t)
  {
    hide Shows, Quiescent, CommitWrites, Image, Home, GoodBlocks, Updated, Recorded, Lists, Apply;
    SizeIs(g, s, t, logged);
    ListedInData(l, t, blocks);
    var p := Images(g, f, t, blocks);
    CommitEnds(l, d, blocks, p);
    InstalledShows(l, g, f, d, s, t, logged, blocks);
    ShowsHome(l, g, f, Updated(d, blocks, p), d', t);
    PlacedStill(l, g, s, t, logged);
  }

  lemma ListedInData(l: Layout, t: Content, blocks: seq<nat>)
    requires GoodBlocks(l, blocks, |t.data|)
    ensures forall i :: 0 <= i < |blocks| ==> blocks[i] < |t.data|
  {
  }

  lemma PlacedStill(l: Layout, g: Geometry, s: Content, t: Content, logged: set<nat>)
    requires Recorded(g, s, t, logged) && Placed(l, g, s)
    ensures Placed(l, g, t)
  {
  }

  lemma ShowsHome(l: Layout, g: Geometry, f: Format, d: Disk, d': Disk, t: Content)
    requires Shows(l, g, f, d, t) && SameHome(l, d', d)
    ensures Shows(l, g, f, d', t)
  {
    hide Image;
  }

  /** Stop the run in the commit of transaction j, after any k of its writes, and recovery any number
      of times: the disk holds the volume after the transactions before j, or after j too. */
  lemma CrashedRun(l: Layout, g: Geometry, f: Format, states: seq<Content>, logs: seq<set<nat>>, lists: seq<seq<nat>>,
                   disks: seq<Disk>, j: nat, k: nat, stops: seq<nat>)
    requires Ran(l, g, f, states, logs, lists, disks) && j < |logs|
    ensures GoodBlocks(l, lists[j], |disks[j]|) && |states[j + 1].data| == |disks[j]|
    ensures (forall i :: 0 <= i < |lists[j]| ==> lists[j][i] < |states[j + 1].data|)
    ensures var ws := CommitWrites(l, disks[j], lists[j], Images(g, f, states[j + 1], lists[j]));
            k <= |ws| ==>
              && GoodLog(l, Apply(disks[j], ws[..k]))
              && var crashed := Interrupted(l, Apply(disks[j], ws[..k]), stops);
                 && GoodLog(l, crashed) && Quiescent(l, Recovered(l, crashed))
                 && Shows(l, g, f, Recovered(l, crashed), states[if k <= |lists[j]| then j else j + 1])
  {
    hide Ran, Shows, Recorded, Lists, Quiescent, CommitWrites, Image, GoodBlocks;
    RanFacts(l, g, f, states, logs, lists, disks);
    RanShows(l, g, f, states, logs, lists, disks, j);
    SizeIs(g, states[j], states[j + 1], logs[j]);
    ListedInData(l, states[j + 1], lists[j]);
    TransactionIsAtomic(l, g, f, disks[j], states[j], states[j + 1], logs[j], lists[j], k, stops);
  }
}
