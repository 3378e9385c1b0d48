/** Reading and writing through an open file: filewrite() cuts a write into transactions. */
module File {
  import opened Blocks
  import opened BlockMap
  import opened Mapping
  import opened Fs
  import opened Transaction
  import opened CrashLog

  /** The bytes that one transaction of filewrite() takes. */
  const CHUNK: nat := (MAXOPBLOCKS - 1 - 1 - 2) / 2 * 512

  /** No chunk, wherever it starts, logs more blocks than begin_op() reserved for it. */
  lemma ChunkFits(off: nat, n: nat)
    requires n <= CHUNK
    ensures LogBound(off, n) <= MAXOPBLOCKS
  {
  }

  /** In any file, a chunk may log more only if it starts inside a hole; Tight.FullChunk has one that
      does. */
  lemma ChunkFitsUnlessHole(data: seq<Block>, d: Inode, off: nat, n: nat)
    requires Shaped(d) && n <= CHUNK && off + n <= MAXFILE * BSIZE && BlockEnd(off, n) <= MAXFILE
    ensures LogCost(data, d, off, n) > MAXOPBLOCKS ==> off / BSIZE < MAXFILE && off % BSIZE != 0 && BlockOf(data, d, off / BSIZE) == 0
  {
    hide BlockOf;
    if n > 0 { MissingAtMost(data, d, off / BSIZE, BlockEnd(off, n)); }
  }

  /** From v, the first n bytes of src have been stored in inode ino at off. */
  ghost predicate Stored(v: Volume, w: Volume, ino: nat, off: nat, src: seq<byte>, n: nat) {
    && ino < |v.inodes| && Untouched(v, w, ino) && Shaped(v.inodes[ino]) && Shaped(w.inodes[ino]) && n <= |src|
    && v.inodes[ino].size <= MAXFILE * BSIZE && w.inodes[ino].size <= MAXFILE * BSIZE
    && (NoHoles(v.data, v.inodes[ino]) ==> NoHoles(w.data, w.inodes[ino]))
    && (n == 0 ==> w.inodes == v.inodes && Bytes(w.data, w.inodes[ino]) == Bytes(v.data, v.inodes[ino]))
    && (n > 0 ==>
          && off <= v.inodes[ino].size && off + n <= MAXFILE * BSIZE
          && Bytes(w.data, w.inodes[ino]) == Overwritten(Bytes(v.data, v.inodes[ino]), off, src[..n]))
  }

  lemma WritesStart(v: Volume, ino: nat, off: nat, src: seq<byte>)
    requires Owned(v) && ino < |v.inodes| && v.inodes[ino].size <= MAXFILE * BSIZE
    ensures Stored(v, v, ino, off, src, 0)
  {
    forall b | b in v.owner ensures b < |v.data| { assert OwnerNames(v, b); }
  }

  lemma StoredFacts(v: Volume, w: Volume, ino: nat, off: nat, src: seq<byte>, n: nat)
    requires Stored(v, w, ino, off, src, n)
    ensures ino < |v.inodes| == |w.inodes| && Untouched(v, w, ino) && Shaped(w.inodes[ino]) && n <= |src|
    ensures v.inodes[ino].size <= MAXFILE * BSIZE && w.inodes[ino].size <= MAXFILE * BSIZE
    ensures NoHoles(v.data, v.inodes[ino]) ==> NoHoles(w.data, w.inodes[ino])
    ensures w.inodes[ino].size == if n > 0 then Max(v.inodes[ino].size, off + n) else v.inodes[ino].size
    ensures n == 0 ==> w.inodes == v.inodes && Bytes(w.data, w.inodes[ino]) == Bytes(v.data, v.inodes[ino])
    ensures n > 0 ==>
              && off <= v.inodes[ino].size && off + n <= MAXFILE * BSIZE
              && Bytes(w.data, w.inodes[ino]) == Overwritten(Bytes(v.data, v.inodes[ino]), off, src[..n])
  {
  }

  lemma StoredMore(v: Volume, w: Volume, x: Volume, ino: nat, off: nat, src: seq<byte>, n: nat, m: nat)
    requires Stored(v, w, ino, off, src, n) && n + m <= |src| && m > 0
    requires Untouched(w, x, ino) && Shaped(x.inodes[ino]) && x.inodes[ino].size <= MAXFILE * BSIZE
    requires NoHoles(w.data, w.inodes[ino]) ==> NoHoles(x.data, x.inodes[ino])
    requires off + n <= w.inodes[ino].size && off + n + m <= MAXFILE * BSIZE
    requires Bytes(x.data, x.inodes[ino]) == Overwritten(Bytes(w.data, w.inodes[ino]), off + n, src[n..n + m])
    ensures Stored(v, x, ino, off, src, n + m)
  {
    hide NoHoles, BlockOf, ByteAt, Bytes, Overwritten;
    OverwrittenMore(Bytes(v.data, v.inodes[ino]), off, src, n, m);
  }

  lemma OverwrittenMore(x: seq<byte>, off: nat, src: seq<byte>, n: nat, m: nat)
    requires off <= |x| && n + m <= |src|
    ensures off + n <= |Overwritten(x, off, src[..n])|
    ensures Overwritten(Overwritten(x, off, src[..n]), off + n, src[n..n + m]) == Overwritten(x, off, src[..n + m])
    ensures n == 0 ==> src[n..n + m] == src[..n + m]
  {
    OverwrittenTwice(x, off, src[..n], src[n..n + m]);
    assert src[..n] + src[n..n + m] == src[..n + m];
  }

  lemma WholeChunks(off: nat, i: nat, n: int)
    requires i < n && i % CHUNK == 0 && off + i <= MAXFILE * BSIZE < off + i + Min(n - i, CHUNK)
    ensures i == (MAXFILE * BSIZE - off) / CHUNK * CHUNK
  {
  }

  /** Where filewrite() stops: at once behind the end of the file, and otherwise when the next chunk
      would go past the largest file. */
  lemma StoppedAt(v: Volume, w: Volume, ino: nat, off: nat, src: seq<byte>, i: nat, n: int)
    requires Stored(v, w, ino, off, src, i) && i < n && i % CHUNK == 0
    requires off + i + Min(n - i, CHUNK) > MAXFILE * BSIZE || (i == 0 && off > v.inodes[ino].size)
    ensures ino < |v.inodes| && i == if off <= v.inodes[ino].size then (MAXFILE * BSIZE - off) / CHUNK * CHUNK else 0
  {
    StoredFacts(v, w, ino, off, src, i);
    hide Stored, Untouched, NoHoles;
    if off <= v.inodes[ino].size { WholeChunks(off, i, n); }
  }

  // ----- what a crash can leave of a write -----

  /** As Stored, of what the buffers hold: file ino is what it was in s with the first n bytes of src
      over it at off, and every other file is what it was. */
  ghost predicate HoldsPart(s: Content, t: Content, ino: nat, off: nat, src: seq<byte>, n: nat) {
    && ino < |s.inodes| == |t.inodes| && Shaped(s.inodes[ino]) && Shaped(t.inodes[ino]) && n <= |src|
    && s.inodes[ino].size <= MAXFILE * BSIZE && t.inodes[ino].size <= MAXFILE * BSIZE
    && (n == 0 ==> Bytes(t.data, t.inodes[ino]) == Bytes(s.data, s.inodes[ino]))
    && (n > 0 ==> off <= s.inodes[ino].size && Bytes(t.data, t.inodes[ino]) == Overwritten(Bytes(s.data, s.inodes[ino]), off, src[..n]))
    && (forall i :: 0 <= i < |s.inodes| && i != ino ==> t.inodes[i] == s.inodes[i] && SameFile(s.data, t.data, s.inodes[i]))
  }

  lemma StoredIsPart(v: Volume, w: Volume, s: Content, t: Content, ino: nat, off: nat, src: seq<byte>, n: nat)
    requires Owned(v) && Stored(v, w, ino, off, src, n)
    requires s.data == v.data && s.inodes == v.inodes && t.data == w.data && t.inodes == w.inodes
    ensures HoldsPart(s, t, ino, off, src, n)
  {
    hide Bytes, Overwritten, NoHoles, SameFile, Owned;
    forall i | 0 <= i < |s.inodes| && i != ino ensures t.inodes[i] == s.inodes[i] && SameFile(s.data, t.data, s.inodes[i]) {
      OthersKept(v, w, ino, i);
    }
  }

  /** How many bytes the first k chunks of a write of done bytes take. */
  function InChunks(k: nat, done: nat): nat {
    Min(k * CHUNK, done)
  }

  /** A write of done bytes took the volume through states, one chunk and one transaction each. */
  ghost predicate Chunked(g: Geometry, ino: nat, off: nat, src: seq<byte>, done: nat, states: seq<Content>, logs: seq<set<nat>>) {
    && |states| == |logs| + 1
    && (forall k :: 0 <= k < |logs| ==> Recorded(g, states[k], states[k + 1], logs[k]) && |logs[k]| <= MAXOPBLOCKS)
    && (forall k :: 0 <= k <= |logs| ==> HoldsPart(states[0], states[k], ino, off, src, InChunks(k, done)))
  }

  lemma NextChunk(g: Geometry, ino: nat, off: nat, src: seq<byte>, done: nat, states: seq<Content>, logs: seq<set<nat>>,
                  t: Content, logged: set<nat>, m: nat)
    requires Chunked(g, ino, off, src, done, states, logs) && done == |logs| * CHUNK && 0 < m <= CHUNK
    requires Recorded(g, states[|logs|], t, logged) && |logged| <= MAXOPBLOCKS && HoldsPart(states[0], t, ino, off, src, done + m)
    ensures Chunked(g, ino, off, src, done + m, states + [t], logs + [logged])
  {
    hide Recorded, HoldsPart;
    var states', logs' := states + [t], logs + [logged];
    forall k | 0 <= k < |logs'| ensures Recorded(g, states'[k], states'[k + 1], logs'[k]) && |logs'[k]| <= MAXOPBLOCKS {
      if k < |logs| { assert Recorded(g, states[k], states[k + 1], logs[k]); }
    }
    var end := done + m;
    forall k | 0 <= k <= |logs'| ensures HoldsPart(states'[0], states'[k], ino, off, src, InChunks(k, end)) {
      if k <= |logs| {
        assert HoldsPart(states[0], states[k], ino, off, src, InChunks(k, done));
        ChunksBefore(k, |logs|, end);
      }
    }
  }

  /** filewrite() has written done of n bytes, and has come from s to t. */
  ghost predicate Through(g: Geometry, ino: nat, off: nat, src: seq<byte>, done: nat, n: int, states: seq<Content>,
                          logs: seq<set<nat>>, s: Content, t: Content) {
    && Chunked(g, ino, off, src, done, states, logs) && states[0] == s && states[|logs|] == t
    && (done == n || done == |logs| * CHUNK)
  }

  lemma ThroughStarts(v: Volume, g: Geometry, ino: nat, off: nat, src: seq<byte>, n: int, s: Content)
    requires Owned(v) && Stored(v, v, ino, off, src, 0) && s.data == v.data && s.inodes == v.inodes
    ensures Through(g, ino, off, src, 0, n, [s], [], s, s)
  {
    hide HoldsPart;
    StoredIsPart(v, v, s, s, ino, off, src, 0);
  }

  lemma ThroughNext(v: Volume, w: Volume, g: Geometry, ino: nat, off: nat, src: seq<byte>, done: nat, n: int,
                    states: seq<Content>, logs: seq<set<nat>>, s: Content, t: Content, t': Content, logged: set<nat>, m: nat)
    requires Through(g, ino, off, src, done, n, states, logs, s, t) && done < n && m == Min(n - done, CHUNK)
    requires Recorded(g, t, t', logged) && |logged| <= MAXOPBLOCKS && Owned(v) && Stored(v, w, ino, off, src, done + m)
    requires s.data == v.data && s.inodes == v.inodes && t'.data == w.data && t'.inodes == w.inodes
    ensures Through(g, ino, off, src, done + m, n, states + [t'], logs + [logged], s, t')
  {
    hide Recorded, HoldsPart, Stored, Owned;
    StoredIsPart(v, w, s, t', ino, off, src, done + m);
    hide Chunked;
    NextChunk(g, ino, off, src, done, states, logs, t', logged, m);
    assert |states| == |logs| + 1 by { ThroughEnds(g, ino, off, src, done, n, states, logs, s, t); }
  }

  lemma ThroughEnds(g: Geometry, ino: nat, off: nat, src: seq<byte>, done: nat, n: int, states: seq<Content>,
                    logs: seq<set<nat>>, s: Content, t: Content)
    requires Through(g, ino, off, src, done, n, states, logs, s, t)
    ensures Chunked(g, ino, off, src, done, states, logs) && |states| == |logs| + 1 && states[0] == s && states[|logs|] == t
  {
  }

  lemma ChunksBefore(k: nat, n: nat, done: nat)
    requires k <= n && n * CHUNK <= done
    ensures k * CHUNK <= n * CHUNK && InChunks(k, done) == InChunks(k, n * CHUNK) == k * CHUNK
  {
  }

  /** Stop the machine in any of the commits of a write, and recovery any number of times: once a
      recovery completes, the file is the old one overwritten by a whole number of chunks, those
      before the crash or one more, and every other file is what it was. */
  lemma CrashedWrite(l: Layout, g: Geometry, f: Format, ino: nat, off: nat, src: seq<byte>, done: nat, states: seq<Content>,
                     logs: seq<set<nat>>, lists: seq<seq<nat>>, disks: seq<Disk>, j: nat, k: nat, stops: seq<nat>)
    requires Chunked(g, ino, off, src, done, states, logs) && Ran(l, g, f, states, logs, lists, disks) && j < |logs|
    ensures GoodBlocks(l, lists[j], |disks[j]|) && |states[j + 1].data| == |disks[j]|
    ensures (forall i :: 0 <= i < |lists[j]| ==> lists[j][i] < |states[j + 1].data|)
    ensures var ws := CommitWrites(l, disks[j], lists[j], Images(g, f, states[j + 1], lists[j]));
            k <= |ws| ==>
              && GoodLog(l, Apply(disks[j], ws[..k]))
              && var crashed := Interrupted(l, Apply(disks[j], ws[..k]), stops);
                 && GoodLog(l, crashed) && Quiescent(l, Recovered(l, crashed))
                 && var m := if k <= |lists[j]| then j else j + 1;
                    && Shows(l, g, f, Recovered(l, crashed), states[m])
                    && HoldsPart(states[0], states[m], ino, off, src, InChunks(m, done))
  {
    hide Ran, Shows, Recorded, Quiescent, CommitWrites, GoodBlocks, HoldsPart, Images;
    CrashedRun(l, g, f, states, logs, lists, disks, j, k, stops);
    assert HoldsPart(states[0], states[j], ino, off, src, InChunks(j, done));
    assert HoldsPart(states[0], states[j + 1], ino, off, src, InChunks(j + 1, done));
  }

  /** struct file for an inode. */
  class File {
    const ino: nat
    const readable: bool
    const writable: bool
    var off: nat

    constructor (ino: nat, readable: bool, writable: bool)
      ensures this.ino == ino && this.readable == readable && this.writable == writable && off == 0
    {
      this.ino, this.readable, this.writable, off := ino, readable, writable, 0;
    }

    /** fileread() of an inode: the next bytes of the file, and the offset moves past them. A
        negative n is a large number to readi(). fileread() begins no operation, so a read that has to
        allocate a block for a hole panics exactly if a block is free and nobody else is inside an
        operation. */
    method Read(fs: Fs, n: int) returns (r: Outcome, dst: seq<byte>)
      requires fs.Mapped() && ino < |fs.mem| && fs.mem[ino].size <= MAXFILE * BSIZE && off < TWO32
      requires -0x8000_0000 <= n < 0x8000_0000
      modifies this, fs
      ensures r == Refused <==> !readable || old(off) > old(fs.mem)[ino].size || old(off) + n % TWO32 >= TWO32
      ensures r == Refused ==> fs.Mapped() && fs.Vol() == old(fs.Vol())
      ensures r == OutOfBlocks ==> fs.Full()
      ensures r != Refused ==>
                var n0 := Min(old(off) + n % TWO32, old(fs.mem)[ino].size) - old(off);
                && BlockEnd(old(off), n0) <= MAXFILE && Shaped(old(fs.mem)[ino])
                && var spare, needs := old(fs.Spare()), Needs(old(fs.data), old(fs.mem)[ino], old(off) / BSIZE, BlockEnd(old(off), n0));
                   && (r == NoTransaction <==> fs.outstanding == 0 && needs > 0 && spare > 0)
                   && (r == OutOfBlocks <==> needs > 0 && spare < if fs.outstanding == 0 then 1 else needs)
      ensures fs.outstanding == old(fs.outstanding)
      ensures !r.Done? ==> off == old(off)
      ensures r.Done? ==>
                && fs.Mapped() && |fs.mem| == |old(fs.mem)| && Untouched(old(fs.Vol()), fs.Vol(), ino)
                && off == Min(old(off) + n % TWO32, old(fs.mem)[ino].size) && r.n == |dst|
                && fs.mem[ino].size == old(fs.mem)[ino].size
                && Bytes(fs.data, fs.mem[ino]) == Bytes(old(fs.data), old(fs.mem)[ino])
                && dst == Bytes(fs.data, fs.mem[ino])[old(off)..off]
      ensures NoHoles(old(fs.data), old(fs.mem)[ino]) ==> r != OutOfBlocks && r != NoTransaction && fs.Vol() == old(fs.Vol())
    {
      hide Owned, NoHoles, Bytes, Untouched, BlockEnd, Needs, PointersThere;
      OwnersCounted(fs.Vol());
      if !readable { return Refused, []; }
      r, dst := fs.Readi(ino, off, n % TWO32);
      if r.Done? && |dst| > 0 {
        off := off + |dst|;
      }
    }

    /** filewrite() of an inode. Each chunk is a transaction of its own; logs are the blocks that
        they logged, and states what the buffers held before and after each. done bytes reach the
        file, all n of them exactly when the whole write fits in a file and starts within this one.
        Without holes no transaction logs more than begin_op() reserved for it. */
    method Write(fs: Fs, addr: seq<byte>, n: int)
      returns (r: Outcome, ghost done: nat, ghost logs: seq<set<nat>>, ghost states: seq<Content>)
      requires fs.Mapped() && ino < |fs.mem| && fs.mem[ino].size <= MAXFILE * BSIZE && off < TWO32
      requires n <= |addr| < TWO32
      modifies this, fs
      ensures r == OutOfBlocks ==> fs.Full()
      ensures r != NoTransaction
      ensures r != OutOfBlocks ==>
                && fs.outstanding == old(fs.outstanding) && fs.Mapped() && |fs.mem| == |old(fs.mem)| && fs.mem[ino].size <= MAXFILE * BSIZE
                && Untouched(old(fs.Vol()), fs.Vol(), ino) && off == old(off) + done && done <= |addr|
                && (done == 0 ==> fs.mem[ino] == old(fs.mem[ino]) && Bytes(fs.data, fs.mem[ino]) == Bytes(old(fs.data), old(fs.mem)[ino]))
                && (done > 0 ==>
                      && old(off) <= old(fs.mem)[ino].size
                      && Bytes(fs.data, fs.mem[ino]) == Overwritten(Bytes(old(fs.data), old(fs.mem)[ino]), old(off), addr[..done]))
      ensures r.Done? ==> r.n == n == done
      ensures r != OutOfBlocks ==>
                (r.Done? <==> writable && (n == 0 || (n > 0 && old(off) <= old(fs.mem)[ino].size && old(off) + n <= MAXFILE * BSIZE)))
      ensures r == Refused ==>
                done == if writable && n > 0 && old(off) <= old(fs.mem)[ino].size then (MAXFILE * BSIZE - old(off)) / 1536 * 1536 else 0
      ensures NoHoles(old(fs.data), old(fs.mem)[ino]) && old(fs.Valid()) && r != OutOfBlocks ==>
                && fs.Valid() && NoHoles(fs.data, fs.mem[ino]) && done <= |addr|
                && Chunked(fs.geo, ino, old(off), addr, done, states, logs)
                && states[0] == old(fs.Held()) && states[|logs|] == fs.Held()
    {
      hide Owned, NoHoles, Bytes, Untouched, Overwritten, Stored, Chunked, Through, Recorded;
      r, done, logs, states := Refused, 0, [], [fs.Held()];
      ghost var v, whole := fs.Vol(), NoHoles(fs.data, fs.mem[ino]) && fs.Valid();
      WritesStart(v, ino, off, addr);
      StoredFacts(v, v, ino, off, addr, 0);
      ghost var off0, held := off, fs.Held();
      if whole {
        ThroughStarts(v, fs.geo, ino, off, addr, n, held);
        ThroughEnds(fs.geo, ino, off, addr, 0, n, states, logs, held, held);
      }
      if !writable { return; }
      r, done, logs, states := WriteAll(fs, addr, n, v, whole);
      if r == OutOfBlocks { return; }
      StoredFacts(v, fs.Vol(), ino, off0, addr, done);
      if whole { ThroughEnds(fs.geo, ino, off0, addr, done, n, states, logs, held, fs.Held()); }
    }

    /** The loop of filewrite(). */
    method WriteAll(fs: Fs, addr: seq<byte>, n: int, ghost v: Volume, ghost whole: bool)
      returns (r: Outcome, ghost done: nat, ghost logs: seq<set<nat>>, ghost states: seq<Content>)
      requires fs.Mapped() && v == fs.Vol() && n <= |addr| < TWO32 && off < TWO32 && Stored(v, v, ino, off, addr, 0)
      requires ino < |v.inodes| && Shaped(v.inodes[ino])
      requires whole ==> NoHoles(v.data, v.inodes[ino]) && fs.Valid() && Through(fs.geo, ino, off, addr, 0, n, [fs.Held()], [], fs.Held(), fs.Held())
      modifies this, fs
      ensures r == OutOfBlocks ==> fs.Full()
      ensures r != NoTransaction
      ensures r.Done? ==> r.n == n == done
      ensures r != OutOfBlocks ==>
                && fs.outstanding == old(fs.outstanding) && fs.Mapped() && done <= |addr| && off == old(off) + done < TWO32
                && Stored(v, fs.Vol(), ino, old(off), addr, done)
                && (whole ==> fs.Valid() && Through(fs.geo, ino, old(off), addr, done, n, states, logs, old(fs.Held()), fs.Held()))
      ensures r == Refused ==> n < 0 || (n > 0 && (old(off) + n > MAXFILE * BSIZE || old(off) > v.inodes[ino].size))
      ensures r == Refused ==>
                done == if n > 0 && old(off) <= v.inodes[ino].size then (MAXFILE * BSIZE - old(off)) / CHUNK * CHUNK else 0
    {
      hide Owned, NoHoles, Untouched, Stored, Through, Recorded;
      ghost var off0, held := off, fs.Held();
      done, logs, states := 0, [], [held];
      var i := 0;
      while i < n
        invariant done == i && (i == 0 || i <= n) && i <= |addr| && off == off0 + i < TWO32
        invariant i == n || i % CHUNK == 0
        invariant fs.Mapped() && fs.outstanding == old(fs.outstanding) && Stored(v, fs.Vol(), ino, off0, addr, i)
        invariant whole ==> fs.Valid() && Through(fs.geo, ino, off0, addr, i, n, states, logs, held, fs.Held())
      {
        var n1 := n - i;
        if n1 > CHUNK { n1 := CHUNK; }
        r, logs, states := WriteNext(fs, addr, i, n1, n, v, off0, whole, held, logs, states);
        if r == OutOfBlocks { return; }
        if r == Refused {
          StoppedAt(v, fs.Vol(), ino, off0, addr, i, n);
          break;
        }
        i := i + n1;
        done := i;
      }
      r := if i == n then Done(n) else Refused;
    }

    /** A turn of filewrite()'s loop, and how it continues the history of the write. */
    method WriteNext(fs: Fs, addr: seq<byte>, i: nat, n1: nat, ghost n: int, ghost v: Volume, ghost off0: nat, ghost whole: bool,
                     ghost held: Content, ghost logs: seq<set<nat>>, ghost states: seq<Content>)
      returns (r: Outcome, ghost logs': seq<set<nat>>, ghost states': seq<Content>)
      requires fs.Mapped() && 0 < n1 <= CHUNK && i + n1 <= |addr| < TWO32 && off == off0 + i < TWO32
      requires Owned(v) && Stored(v, fs.Vol(), ino, off0, addr, i) && ino < |v.inodes| && Shaped(v.inodes[ino])
      requires i < n && n1 == Min(n - i, CHUNK)
      requires whole ==>
                 && held.data == v.data && held.inodes == v.inodes && NoHoles(v.data, v.inodes[ino]) && fs.Valid()
                 && Through(fs.geo, ino, off0, addr, i, n, states, logs, held, fs.Held())
      modifies this, fs
      ensures r == OutOfBlocks ==> fs.Full()
      ensures r != NoTransaction && (r != OutOfBlocks ==> fs.outstanding == old(fs.outstanding))
      ensures r == Refused ==>
                && fs.Mapped() && fs.Vol() == old(fs.Vol()) && fs.Held() == old(fs.Held()) && off == old(off)
                && (off + n1 > MAXFILE * BSIZE || (i == 0 && off > v.inodes[ino].size))
                && logs' == logs && states' == states
      ensures r.Done? ==>
                && fs.Mapped() && Stored(v, fs.Vol(), ino, off0, addr, i + n1) && off == old(off) + n1 < TWO32
                && (whole ==> fs.Valid() && Through(fs.geo, ino, off0, addr, i + n1, n, states', logs', held, fs.Held()))
    {
      hide Owned, NoHoles, Untouched, Stored, Through, Recorded;
      logs', states' := logs, states;
      ghost var before := fs.Held();
      r := WriteChunk(fs, addr, i, n1, v, off0);
      if r.Done? {
        if whole {
          ThroughNext(v, fs.Vol(), fs.geo, ino, off0, addr, i, n, states, logs, held, before, fs.Held(), fs.logged, n1);
        }
        logs', states' := logs + [fs.logged], states + [fs.Held()];
      }
    }

    /** One transaction of filewrite(). */
    method WriteChunk(fs: Fs, addr: seq<byte>, i: nat, n1: nat, ghost v: Volume, ghost off0: nat) returns (r: Outcome)
      requires fs.Mapped() && 0 < n1 <= CHUNK && i + n1 <= |addr| < TWO32 && off == off0 + i < TWO32
      requires Stored(v, fs.Vol(), ino, off0, addr, i) && ino < |v.inodes| && Shaped(v.inodes[ino])
      modifies this, fs
      ensures r == OutOfBlocks ==> fs.Full()
      ensures r != NoTransaction && (r != OutOfBlocks ==> fs.outstanding == old(fs.outstanding))
      ensures r == Refused ==>
                && fs.Mapped() && fs.Vol() == old(fs.Vol()) && fs.Held() == old(fs.Held()) && off == old(off)
                && (off + n1 > MAXFILE * BSIZE || (i == 0 && off > v.inodes[ino].size))
      ensures r.Done? ==>
                && fs.Mapped() && Stored(v, fs.Vol(), ino, off0, addr, i + n1) && off == old(off) + n1 < TWO32
                && fs.begun == old(fs.Held()) && Recorded(fs.geo, old(fs.Held()), fs.Held(), fs.logged)
      ensures r.Done? && NoHoles(v.data, v.inodes[ino]) ==> |fs.logged| <= MAXOPBLOCKS && (old(fs.Valid()) ==> fs.Valid())
      ensures r.Done? && |fs.logged| > MAXOPBLOCKS ==>
                && old(off) / BSIZE < MAXFILE && old(off) % BSIZE != 0
                && Shaped(old(fs.mem)[ino]) && BlockOf(old(fs.data), old(fs.mem)[ino], old(off) / BSIZE) == 0
    {
      hide Owned, NoHoles, Bytes, Untouched, Overwritten, LogBound, LogCost, Stored, BlockEnd, Needs, PointersThere, Recorded;
      StoredFacts(v, fs.Vol(), ino, off0, addr, i);
      NothingRecorded(fs.geo, fs.Held());
      fs.outstanding, fs.logged, fs.begun := fs.outstanding + 1, {}, fs.Held();
      ghost var w := fs.Vol();
      r := fs.Writei(ino, addr[i..i + n1], off);
      if r != OutOfBlocks { fs.outstanding := fs.outstanding - 1; }
      if r.Done? {
        fs.DirectOwned(ino, NDIRECT);
        ChunkFits(off, n1);
        ChunkFitsUnlessHole(w.data, w.inodes[ino], off, n1);
        StoredMore(v, w, fs.Vol(), ino, off0, addr, i, n1);
        off := off + r.n;
      }
    }
  }
}
