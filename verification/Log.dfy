/** struct log and the functions of log.c, written as the code is: loops over lh.block that
    read and write one buffer at a time. Their contracts name the exact writes that CrashLog
    reasons about and the control steps that GroupCommit reasons about. */
module Log {
  import opened Blocks
  import opened CrashLog
  import GC = GroupCommit

  class Log {
    const layout: Layout
    var lh: seq<nat>          // lh.block[..lh.n]
    var outstanding: nat
    var committing: bool
    var disk: Disk
    var cache: map<nat, Block>          // contents of the buffers that B_DIRTY pins
    ghost var writes: seq<Write>        // every block write so far

    ghost predicate Shape()
      reads this
    {
      && GoodBlocks(layout, lh, |disk|)
      && (forall b :: b in cache <==> b in lh)
    }

    /** Between commits: the log on disk is empty. */
    ghost predicate Valid()
      reads this
    {
      Shape() && Quiescent(layout, disk)
    }

    ghost function Control(): GC.Control
      reads this
    {
      GC.Control(lh, outstanding, committing)
    }

    /** What bread() returns: the pinned buffer, or else the disk block. */
    function View(b: nat): Block
      requires b < |disk|
      reads this
    {
      if b in cache then cache[b] else disk[b]
    }

    constructor (layout: Layout, disk: Disk)
      requires GoodLog(layout, disk)
      ensures this.layout == layout && this.disk == disk && lh == [] && cache == map[]
      ensures outstanding == 0 && !committing && writes == []
    {
      this.layout := layout;
      this.disk := disk;
      lh, outstanding, committing, cache, writes := [], 0, false, map[], [];
    }

    /** bwrite(): one disk write, after which the buffer is clean. */
    method BWrite(b: nat, data: Block)
      requires b < |disk|
      modifies this`disk, this`cache, this`writes
      ensures disk == old(disk)[b := data]
      ensures b in old(cache) ==> cache == old(cache) - {b}
      ensures b !in old(cache) ==> cache == old(cache)
      ensures writes == old(writes) + [Write(b, data)]
    {
      disk := disk[b := data];
      cache := cache - {b};
      writes := writes + [Write(b, data)];
    }

    /** write_log(); p is what the pinned buffers hold. */
    method WriteLog(ghost p: seq<Block>)
      requires Shape() && p == Payload(cache, lh)
      modifies this`disk, this`cache, this`writes
      ensures InRange(Copies(layout, p), |old(disk)|)
      ensures disk == Apply(old(disk), Copies(layout, p))
      ensures writes == old(writes) + Copies(layout, p)
      ensures cache == old(cache)
      ensures |disk| == |old(disk)| && forall k :: 0 <= k < |p| ==> disk[layout.start + 1 + k] == p[k]
    {
      ghost var d, w := disk, writes;
      CopiesStart(layout, d, p, w);
      CopiesFillLog(layout, d, p);
      hide Copied, Home, GoodBlocks;
      for tail := 0 to |lh|
        invariant |disk| == |d| && cache == old(cache) && Copied(layout, d, p, tail, w, disk, writes)
      {
        CopyStage(layout, d, p, tail, w, disk, writes);
        BWrite(layout.start + tail + 1, View(lh[tail]));
      }
      CopiesEnd(layout, d, p, w, disk, writes);
    }

    method WriteHead()
      requires Storable(lh)
      requires layout.start < |disk| && layout.start !in cache
      modifies this`disk, this`cache, this`writes
      ensures disk == old(disk)[layout.start := Header(old(disk)[layout.start], lh)]
      ensures writes == old(writes) + [Write(layout.start, disk[layout.start])]
      ensures cache == old(cache)
    {
      var hb := WithWord(View(layout.start), 0, |lh|);
      ghost var hb0 := hb;
      for i := 0 to |lh|
        invariant hb == Entries(hb0, lh, i)
      {
        hb := WithWord(hb, 1 + i, lh[i]);
      }
      BWrite(layout.start, hb);
    }

    method InstallTrans()
      requires GoodBlocks(layout, lh, |disk|)
      requires forall b :: b in cache ==> Home(layout, b)
      modifies this`disk, this`cache, this`writes
      ensures var ws := Installs(lh, Logged(layout, old(disk), |lh|));
              && InRange(ws, |old(disk)|)
              && disk == Apply(old(disk), ws)
              && writes == old(writes) + ws
      ensures forall b :: b in cache <==> b in old(cache) && b !in lh
    {
      ghost var d, blocks, w := disk, lh, writes;
      hide Installs, GoodBlocks, Home, Logged, Installed;
      InstallsStart(layout, d, blocks, w);
      for tail := 0 to |lh|
        invariant |disk| == |d| && Installed(layout, d, blocks, tail, w, disk, writes)
        invariant forall b :: b in cache <==> b in old(cache) && b !in lh[..tail]
      {
        InstallStage(layout, d, blocks, tail, w, disk, writes);
        assert lh[..tail + 1] == lh[..tail] + [lh[tail]];
        BWrite(lh[tail], View(layout.start + tail + 1));
      }
      InstallsEnd(layout, d, blocks, w, disk, writes);
    }

    /** commit(): the disk goes through exactly CommitWrites, block by block. */
    method Commit()
      requires Valid()
      modifies this`lh, this`disk, this`cache, this`writes
      ensures Valid() && lh == [] && cache == map[]
      ensures var ws := CommitWrites(layout, old(disk), old(lh), Payload(old(cache), old(lh)));
              disk == Apply(old(disk), ws) && writes == old(writes) + ws
      ensures |disk| == |old(disk)| && Word(disk[layout.start], 0) == 0
      ensures forall b :: b in old(lh) ==> b < |disk| && b in old(cache) && disk[b] == old(cache)[b]
      ensures forall b :: 0 <= b < |disk| && Home(layout, b) && b !in old(lh) ==> disk[b] == old(disk)[b]
    {
      hide Apply, Word, Copies, Installs, CommitWrites, Logged, Header, InRange, GoodBlocks, Storable, Quiescent, GoodLog, Payload, Home;
      ghost var d, blocks, w := disk, lh, writes;
      CommitFacts(cache);
      ghost var p := Payload(cache, blocks);
      CommitLeaves(layout, d, blocks, cache);
      if |lh| > 0 {
        ghost var head := Header(d[layout.start], blocks);
        ghost var clear := Write(layout.start, Header(head, []));
        StagesOfCommit(layout, d, blocks, p, head, clear);
        WriteLog(p);
        WriteHead();
        InstallTrans();
        assert cache == map[];
        lh := [];
        WriteHead();
        Regroup(w, Copies(layout, p), [Write(layout.start, head)], Installs(blocks, p), [clear]);
      }
    }

    lemma CommitFacts(c: map<nat, Block>)
      requires Valid() && c == cache
      ensures Storable(lh) && Storable([]) && GoodBlocks(layout, [], |disk|) && layout.start < |disk| && layout.start !in c
      ensures forall b :: b in c ==> Home(layout, b) && b in lh
      ensures forall k :: 0 <= k < |lh| ==> lh[k] in c
      ensures var ws := CommitWrites(layout, disk, lh, Payload(c, lh));
              Quiescent(layout, Apply(disk, ws)) && (lh == [] ==> ws == [] && Apply(disk, ws) == disk && c == map[])
    {
      if lh != [] { CommitInstalls(layout, disk, lh, Payload(c, lh)); }
    }

    method ReadHead()
      requires GoodLog(layout, disk) && cache == map[]
      modifies this`lh
      ensures lh == Listed(disk[layout.start])
    {
      var hb := View(layout.start);
      var n := Word(hb, 0);
      lh := [];
      for i := 0 to n
        invariant lh == Listed(hb)[..i]
      {
        lh := lh + [Word(hb, 1 + i)];
      }
    }

    /** recover_from_log(), run at boot with nothing cached. */
    method RecoverFromLog()
      requires GoodLog(layout, disk) && cache == map[]
      modifies this`lh, this`disk, this`cache, this`writes
      ensures Valid() && lh == [] && cache == map[]
      ensures disk == Recovered(layout, old(disk))
      ensures writes == old(writes) + RecoverWrites(layout, old(disk))
      ensures |disk| == |old(disk)| && Word(disk[layout.start], 0) == 0
      ensures var blocks := Listed(old(disk)[layout.start]);
              && layout.start + |blocks| < |disk|
              && (forall k :: 0 <= k < |blocks| ==> blocks[k] < |disk| && disk[blocks[k]] == old(disk)[layout.start + 1 + k])
              && (forall b :: 0 <= b < |disk| && Home(layout, b) && b !in blocks ==> disk[b] == old(disk)[b])
    {
      hide Apply, Word, Installs, Logged, Listed, Header, InRange, GoodBlocks, Storable, Quiescent, GoodLog, Home, RecoverWrites;
      ghost var d, w := disk, writes;
      RecoverFacts(layout, d);
      RecoveredIsQuiet(layout, d);
      RecoveredIs(layout, d);
      ReadHead();
      InstallTrans();
      lh := [];
      WriteHead();
      ghost var blocks, clear := Listed(d[layout.start]), Write(layout.start, Header(d[layout.start], []));
      ghost var installs := Installs(blocks, Logged(layout, d, |blocks|));
      assert w + installs + [clear] == w + (installs + [clear]);
    }

    /** One turn of begin_op()'s loop; when not admitted the caller sleeps and tries again. */
    method TryBeginOp() returns (admitted: bool)
      requires Valid()
      modifies this`outstanding
      ensures Valid()
      ensures admitted <==> GC.Admits(old(Control()))
      ensures admitted <==> !committing && |lh| + (old(outstanding) + 1) * MAXOPBLOCKS <= LOGSIZE
      ensures outstanding == old(outstanding) + if admitted then 1 else 0
      ensures Control() == if admitted then GC.Begun(old(Control())) else old(Control())
    {
      if committing {
        admitted := false;
      } else if |lh| + (outstanding + 1) * MAXOPBLOCKS > LOGSIZE {
        admitted := false;
      } else {
        outstanding := outstanding + 1;
        admitted := true;
      }
    }

    /** log_write() of a buffer whose holder has changed it to data. */
    method LogWrite(b: nat, data: Block) returns (panicked: bool)
      requires Valid() && b < |disk| && Home(layout, b)
      modifies this`lh, this`cache
      ensures Valid()
      ensures panicked <==> GC.LogWritePanics(old(Control()), layout.size)
      ensures panicked <==> |old(lh)| >= LOGSIZE || |old(lh)| >= layout.size - 1 || outstanding < 1
      ensures lh == if panicked || b in old(lh) then old(lh) else old(lh) + [b]
      ensures panicked ==> Control() == old(Control()) && cache == old(cache)
      ensures !panicked ==> Control() == GC.Noted(old(Control()), b)
      ensures !panicked ==> cache == old(cache)[b := data] && View(b) == data
    {
      if |lh| >= LOGSIZE || |lh| >= layout.size - 1 { return true; }
      if outstanding < 1 { return true; }
      panicked := false;
      var i := 0;
      while i < |lh|
        invariant 0 <= i <= |lh|
        invariant b !in lh[..i]
      {
        if lh[i] == b { break; }
        i := i + 1;
      }
      if i == |lh| {
        lh := lh + [b];
      } else {
        lh := lh[i := b];
        assert lh == old(lh);
      }
      cache := cache[b := data];
    }

    /** end_op(). The panic on log.committing cannot be reached (GroupCommit.CommitRunsAlone). */
    method EndOp()
      requires Valid() && outstanding > 0 && !committing
      modifies this`lh, this`outstanding, this`committing, this`disk, this`cache, this`writes
      ensures Valid()
      ensures var c := GC.Left(old(Control()));
              Control() == if c.committing then GC.Finished(c) else c
      ensures outstanding == old(outstanding) - 1 && !committing && lh == if outstanding == 0 then [] else old(lh)
      ensures old(outstanding) > 1 ==> disk == old(disk) && cache == old(cache) && writes == old(writes)
      ensures old(outstanding) == 1 ==>
                var ws := CommitWrites(layout, old(disk), old(lh), Payload(old(cache), old(lh)));
                disk == Apply(old(disk), ws) && writes == old(writes) + ws
    {
      outstanding := outstanding - 1;
      if outstanding == 0 {
        committing := true;
        Commit();
        committing := false;
      }
    }
  }

  /** What recover_from_log() finds and does, the installs and then the empty header. */
  lemma RecoverFacts(l: Layout, d: Disk)
    requires GoodLog(l, d)
    ensures l.start < |d| && Word(d[l.start], 0) <= LOGSIZE && Storable([]) && GoodBlocks(l, [], |d|)
    ensures var blocks := Listed(d[l.start]);
      && GoodBlocks(l, blocks, |d|) && l.start + 1 + |blocks| <= |d| && |Logged(l, d, |blocks|)| == |blocks|
      && var ws := Installs(blocks, Logged(l, d, |blocks|));
         var clear := Write(l.start, Header(d[l.start], []));
         && InRange(ws, |d|) && Apply(d, ws)[l.start] == d[l.start]
         && RecoverWrites(l, d) == ws + [clear]
         && Recovered(l, d) == Apply(d, ws)[l.start := clear.data]
  {
    hide Apply;
    var blocks := Listed(d[l.start]);
    var p := Logged(l, d, |blocks|);
    var ws := Installs(blocks, p);
    InstallsElsewhere(d, blocks, p, |blocks|);
    assert ws[..|blocks|] == ws;
    var all := RecoverWrites(l, d);
    assert all[..|ws|] == ws && all[..|ws| + 1] == all;
    ApplyNext(d, all, |ws|);
  }

  lemma RecoveredIsQuiet(l: Layout, d: Disk)
    requires GoodLog(l, d)
    ensures Quiescent(l, Recovered(l, d))
  {
    RecoverFacts(l, d);
    hide Apply, Installs, RecoverWrites;
    assert Listed(Recovered(l, d)[l.start]) == [];
  }
}
