/** The on-disk redo log as a sequence of atomic block writes: what commit() and
    recover_from_log() send to the disk, and what a crash between any two of those writes
    leaves behind. */
module CrashLog {
  import opened Blocks

  const MAXOPBLOCKS: nat := 10
  const LOGSIZE: nat := MAXOPBLOCKS * 3

  type Disk = seq<Block>

  /** One iderw() of a dirty buffer: the unit that a crash cannot split. */
  datatype Write = Write(bn: nat, data: Block)

  /** The log occupies blocks start .. start+size-1, header first. */
  datatype Layout = Layout(start: nat, size: nat)

  predicate InRange(ws: seq<Write>, n: nat) {
    forall i :: 0 <= i < |ws| ==> ws[i].bn < n
  }

  function Apply(d: Disk, ws: seq<Write>): (r: Disk)
    requires InRange(ws, |d|)
    ensures |r| == |d|
  {
    if ws == [] then d
    else
      var last := ws[|ws| - 1];
      Apply(d, ws[..|ws| - 1])[last.bn := last.data]
  }

  lemma ApplySplit(d: Disk, ws: seq<Write>, vs: seq<Write>, j: nat)
    requires InRange(ws + vs, |d|) && j <= |vs|
    ensures InRange(ws, |d|) && InRange(vs[..j], |d|) && InRange((ws + vs)[..|ws| + j], |d|)
    ensures Apply(d, (ws + vs)[..|ws| + j]) == Apply(Apply(d, ws), vs[..j])
  {
    assert forall i :: 0 <= i < |ws| ==> ws[i] == (ws + vs)[i];
    assert forall i :: 0 <= i < j ==> vs[i] == (ws + vs)[|ws| + i];
    assert (ws + vs)[..|ws| + j] == ws + vs[..j];
    ApplyConcat(d, ws, vs[..j]);
  }

  lemma ApplyConcat(d: Disk, ws: seq<Write>, vs: seq<Write>)
    requires InRange(ws, |d|) && InRange(vs, |d|)
    ensures Apply(d, ws + vs) == Apply(Apply(d, ws), vs)
  {
    if vs == [] {
      assert ws + vs == ws;
    } else {
      var last := |vs| - 1;
      assert (ws + vs)[..|ws + vs| - 1] == ws + vs[..last];
      ApplyConcat(d, ws, vs[..last]);
    }
  }

  lemma Regroup(w: seq<Write>, a: seq<Write>, b: seq<Write>, c: seq<Write>, d: seq<Write>)
    ensures w + a + b + c + d == w + (a + b + c + d)
  {
    assert w + a + b == w + (a + b);
    assert w + (a + b) + c == w + (a + b + c);
  }

  lemma ApplyNext(d: Disk, ws: seq<Write>, i: nat)
    requires InRange(ws, |d|) && i < |ws|
    ensures InRange(ws[..i], |d|) && InRange(ws[..i + 1], |d|) && ws[i].bn < |d|
    ensures Apply(d, ws[..i + 1]) == Apply(d, ws[..i])[ws[i].bn := ws[i].data]
    ensures ws[..i + 1] == ws[..i] + [ws[i]]
  {
    assert ws[..i + 1][..i] == ws[..i];
  }

  /** A write list leaves every block it does not name alone. */
  lemma ApplyElsewhere(d: Disk, ws: seq<Write>, b: nat)
    requires InRange(ws, |d|) && b < |d|
    requires forall i :: 0 <= i < |ws| ==> ws[i].bn != b
    ensures Apply(d, ws)[b] == d[b]
  {
    if ws != [] { ApplyElsewhere(d, ws[..|ws| - 1], b); }
  }

  /** A write list with distinct targets stores each of its blocks. */
  lemma ApplyAt(d: Disk, ws: seq<Write>, i: nat)
    requires InRange(ws, |d|) && i < |ws|
    requires forall j, k :: 0 <= j < k < |ws| ==> ws[j].bn != ws[k].bn
    ensures Apply(d, ws)[ws[i].bn] == ws[i].data
  {
    if i < |ws| - 1 { ApplyAt(d, ws[..|ws| - 1], i); }
  }

  // ----- the header block -----

  predicate Home(l: Layout, b: nat) {
    !(l.start <= b < l.start + l.size)
  }

  /** What log_write keeps true of lh.block[..n]: distinct home blocks that fit in the log. */
  predicate GoodBlocks(l: Layout, blocks: seq<nat>, disksize: nat) {
    && |blocks| <= LOGSIZE
    && |blocks| < l.size
    && l.start + l.size <= disksize <= TWO32
    && (forall i :: 0 <= i < |blocks| ==> blocks[i] < disksize && Home(l, blocks[i]))
    && (forall i, j :: 0 <= i < j < |blocks| ==> blocks[i] != blocks[j])
  }

  predicate Storable(blocks: seq<nat>) {
    |blocks| <= LOGSIZE && forall i :: 0 <= i < |blocks| ==> blocks[i] < TWO32
  }

  /** Words 1..i of the header set to blocks[..i]. */
  function Entries(b: Block, blocks: seq<nat>, i: nat): (r: Block)
    requires i <= |blocks| && Storable(blocks)
    ensures Word(r, 0) == Word(b, 0)
    ensures forall k :: 0 <= k < i ==> Word(r, 1 + k) == blocks[k]
  {
    if i == 0 then b else WithWord(Entries(b, blocks, i - 1), i, blocks[i - 1])
  }

  function Header(b: Block, blocks: seq<nat>): (r: Block)
    requires Storable(blocks)
    ensures Word(r, 0) == |blocks|
    ensures forall k :: 0 <= k < |blocks| ==> Word(r, 1 + k) == blocks[k]
  {
    Entries(WithWord(b, 0, |blocks|), blocks, |blocks|)
  }

  function Listed(b: Block): (r: seq<nat>)
    requires Word(b, 0) <= LOGSIZE
  {
    seq(Word(b, 0), k requires 0 <= k < Word(b, 0) => Word(b, 1 + k))
  }

  lemma ListedHeader(b: Block, blocks: seq<nat>)
    requires Storable(blocks)
    ensures Listed(Header(b, blocks)) == blocks
  {
  }

  predicate GoodLog(l: Layout, d: Disk) {
    && l.start < |d|
    && Word(d[l.start], 0) <= LOGSIZE
    && GoodBlocks(l, Listed(d[l.start]), |d|)
  }

  predicate Quiescent(l: Layout, d: Disk) {
    GoodLog(l, d) && Word(d[l.start], 0) == 0
  }

  // ----- what the code writes -----

  function Copies(l: Layout, payload: seq<Block>): (ws: seq<Write>)
    ensures forall n :: l.start + |payload| < n ==> InRange(ws, n)
    ensures |ws| == |payload|
  {
    seq(|payload|, k requires 0 <= k < |payload| => Write(l.start + 1 + k, payload[k]))
  }

  lemma CopyAt(l: Layout, payload: seq<Block>, k: nat)
    requires k < |payload|
    ensures |Copies(l, payload)| == |payload| && Copies(l, payload)[k] == Write(l.start + 1 + k, payload[k])
  {
  }

  /** The pinned buffers of the listed blocks. */
  function Payload(cache: map<nat, Block>, blocks: seq<nat>): (p: seq<Block>)
    requires forall k :: 0 <= k < |blocks| ==> blocks[k] in cache
    ensures |p| == |blocks|
  {
    seq(|blocks|, k requires 0 <= k < |blocks| => cache[blocks[k]])
  }

  function Installs(blocks: seq<nat>, payload: seq<Block>): seq<Write>
    requires |blocks| == |payload|
  {
    seq(|blocks|, k requires 0 <= k < |blocks| => Write(blocks[k], payload[k]))
  }

  /** The part of commit() up to the header write, the point at which it commits. */
  function CommitHead(l: Layout, head: Block, payload: seq<Block>): (ws: seq<Write>)
    ensures |ws| == |payload| + 1
  {
    Copies(l, payload) + [Write(l.start, head)]
  }

  /** The part of commit() after the header write: home blocks, empty header. */
  function CommitTail(l: Layout, head: Block, blocks: seq<nat>, payload: seq<Block>): (ws: seq<Write>)
    requires |blocks| == |payload|
    ensures |ws| == |blocks| + 1
  {
    Installs(blocks, payload) + [Write(l.start, Header(head, []))]
  }

  /** All of commit(); an empty transaction writes nothing. */
  function CommitWrites(l: Layout, d: Disk, blocks: seq<nat>, payload: seq<Block>): (ws: seq<Write>)
    requires GoodBlocks(l, blocks, |d|) && |payload| == |blocks|
    ensures InRange(ws, |d|)
  {
    if blocks == [] then []
    else
      var head := Header(d[l.start], blocks);
      CommitHead(l, head, payload) + CommitTail(l, head, blocks, payload)
  }

  function Logged(l: Layout, d: Disk, n: nat): (payload: seq<Block>)
    requires l.start + 1 + n <= |d|
  {
    d[l.start + 1..l.start + 1 + n]
  }

  /** recover_from_log(): install what the header lists, then empty the header. */
  function RecoverWrites(l: Layout, d: Disk): (ws: seq<Write>)
    requires GoodLog(l, d)
    ensures InRange(ws, |d|)
  {
    var blocks := Listed(d[l.start]);
    Installs(blocks, Logged(l, d, |blocks|)) + [Write(l.start, Header(d[l.start], []))]
  }

  function Recovered(l: Layout, d: Disk): Disk
    requires GoodLog(l, d)
  {
    Apply(d, RecoverWrites(l, d))
  }

  /** The home blocks the transaction is meant to produce. */
  function Updated(d: Disk, blocks: seq<nat>, payload: seq<Block>): (r: Disk)
    requires |blocks| == |payload| && InRange(Installs(blocks, payload), |d|)
    ensures |r| == |d|
  {
    Apply(d, Installs(blocks, payload))
  }

  ghost predicate SameHome(l: Layout, d: Disk, h: Disk) {
    |d| == |h| && forall b :: 0 <= b < |d| && Home(l, b) ==> d[b] == h[b]
  }

  // ----- crash atomicity -----

  /** A recovery that runs to its end would leave the home blocks of h. */
  ghost predicate Recoverable(l: Layout, d: Disk, h: Disk) {
    && GoodLog(l, d) && |h| == |d|
    && var blocks := Listed(d[l.start]);
       && (forall b :: 0 <= b < |d| && Home(l, b) && b !in blocks ==> d[b] == h[b])
       && (forall k :: 0 <= k < |blocks| ==> h[blocks[k]] == d[l.start + 1 + k])
  }

  lemma QuiescentRecoverable(l: Layout, d: Disk, h: Disk)
    requires Quiescent(l, d)
    ensures Recoverable(l, d, h) <==> SameHome(l, d, h)
  {
    assert Listed(d[l.start]) == [];
  }

  lemma InstallsAt(d: Disk, blocks: seq<nat>, payload: seq<Block>, j: nat, k: nat)
    requires |blocks| == |payload| && k < j <= |blocks|
    requires forall i :: 0 <= i < |blocks| ==> blocks[i] < |d|
    requires forall i, i' :: 0 <= i < i' < |blocks| ==> blocks[i] != blocks[i']
    ensures InRange(Installs(blocks, payload)[..j], |d|)
    ensures Apply(d, Installs(blocks, payload)[..j])[blocks[k]] == payload[k]
  {
    var ws := Installs(blocks, payload)[..j];
    assert forall i :: 0 <= i < j ==> ws[i] == Write(blocks[i], payload[i]);
    hide Installs, Apply;
    ApplyAt(d, ws, k);
  }

  /** Installing listed blocks changes no other block: not the log, not the other homes. */
  lemma InstallsElsewhere(d: Disk, blocks: seq<nat>, payload: seq<Block>, j: nat)
    requires |blocks| == |payload| && j <= |blocks|
    requires forall i :: 0 <= i < |blocks| ==> blocks[i] < |d|
    ensures InRange(Installs(blocks, payload)[..j], |d|)
    ensures forall b :: 0 <= b < |d| && b !in blocks ==> Apply(d, Installs(blocks, payload)[..j])[b] == d[b]
  {
    var ws := Installs(blocks, payload)[..j];
    forall b | 0 <= b < |d| && b !in blocks ensures Apply(d, ws)[b] == d[b] { ApplyElsewhere(d, ws, b); }
  }

  /** Install k copies log block k, which lies outside the blocks that are installed. */
  lemma InstallsLogged(l: Layout, d: Disk, blocks: seq<nat>, k: nat)
    requires GoodBlocks(l, blocks, |d|) && k < |blocks|
    ensures var ws := Installs(blocks, Logged(l, d, |blocks|)); var b := l.start + k + 1;
            && b < |d| && !Home(l, b) && b !in blocks && blocks[k] < |d|
            && |ws| == |blocks| && ws[k] == Write(blocks[k], d[b]) && InRange(ws, |d|)
    ensures forall i :: 0 <= i < |blocks| ==> blocks[i] < |d|
  {
  }

  /** The disk, and the writes issued, after the first k installs. */
  ghost predicate Installed(l: Layout, d: Disk, blocks: seq<nat>, k: nat, w: seq<Write>, d': Disk, w': seq<Write>)
    requires GoodBlocks(l, blocks, |d|) && k <= |blocks|
  {
    var ws := Installs(blocks, Logged(l, d, |blocks|))[..k];
    InRange(ws, |d|) && d' == Apply(d, ws) && w' == w + ws
  }

  lemma InstallsStart(l: Layout, d: Disk, blocks: seq<nat>, w: seq<Write>)
    requires GoodBlocks(l, blocks, |d|)
    ensures Installed(l, d, blocks, 0, w, d, w)
  {
    assert Installs(blocks, Logged(l, d, |blocks|))[..0] == [];
  }

  lemma InstallsEnd(l: Layout, d: Disk, blocks: seq<nat>, w: seq<Write>, d': Disk, w': seq<Write>)
    requires GoodBlocks(l, blocks, |d|) && Installed(l, d, blocks, |blocks|, w, d', w')
    ensures var ws := Installs(blocks, Logged(l, d, |blocks|)); InRange(ws, |d|) && d' == Apply(d, ws) && w' == w + ws
    ensures blocks[..|blocks|] == blocks
  {
    var ws := Installs(blocks, Logged(l, d, |blocks|));
    assert ws[..|blocks|] == ws;
  }

  /** Installing the earlier blocks has left log block k alone, so the next install copies it. */
  lemma InstallStage(l: Layout, d: Disk, blocks: seq<nat>, k: nat, w: seq<Write>, d': Disk, w': seq<Write>)
    requires GoodBlocks(l, blocks, |d|) && k < |blocks| && Installed(l, d, blocks, k, w, d', w') && |d'| == |d|
    ensures var b := l.start + k + 1;
            && b < |d| && !Home(l, b) && blocks[k] < |d|
            && Installed(l, d, blocks, k + 1, w, d'[blocks[k] := d'[b]], w' + [Write(blocks[k], d'[b])])
  {
    var p := Logged(l, d, |blocks|);
    var ws := Installs(blocks, p);
    hide Apply, InRange, Home, GoodBlocks, Logged, Installs;
    InstallsLogged(l, d, blocks, k);
    ApplyNext(d, ws, k);
    InstallsElsewhere(d, blocks, p, k);
  }

  /** The disk, and the writes issued, after the first k buffers have been copied to the log. */
  ghost predicate Copied(l: Layout, d: Disk, p: seq<Block>, k: nat, w: seq<Write>, d': Disk, w': seq<Write>) {
    && k <= |p| == |Copies(l, p)| && InRange(Copies(l, p), |d|)
    && d' == Apply(d, Copies(l, p)[..k]) && w' == w + Copies(l, p)[..k]
  }

  lemma CopiesStart(l: Layout, d: Disk, p: seq<Block>, w: seq<Write>)
    requires l.start + |p| < |d|
    ensures Copied(l, d, p, 0, w, d, w)
  {
    assert Copies(l, p)[..0] == [];
  }

  lemma CopyStage(l: Layout, d: Disk, p: seq<Block>, k: nat, w: seq<Write>, d': Disk, w': seq<Write>)
    requires Copied(l, d, p, k, w, d', w') && k < |p| && |d'| == |d|
    ensures l.start + k + 1 < |d|
    ensures Copied(l, d, p, k + 1, w, d'[l.start + k + 1 := p[k]], w' + [Write(l.start + k + 1, p[k])])
  {
    CopyAt(l, p, k);
    hide Copies;
    ApplyNext(d, Copies(l, p), k);
  }

  lemma CopiesEnd(l: Layout, d: Disk, p: seq<Block>, w: seq<Write>, d': Disk, w': seq<Write>)
    requires Copied(l, d, p, |p|, w, d', w')
    ensures InRange(Copies(l, p), |d|) && d' == Apply(d, Copies(l, p)) && w' == w + Copies(l, p)
  {
    assert Copies(l, p)[..|p|] == Copies(l, p);
  }

  lemma InstallsComplete(l: Layout, d: Disk, h: Disk, blocks: seq<nat>, payload: seq<Block>)
    requires GoodBlocks(l, blocks, |d|) && |payload| == |blocks| && |h| == |d|
    requires forall b :: 0 <= b < |d| && Home(l, b) && b !in blocks ==> d[b] == h[b]
    requires forall k :: 0 <= k < |blocks| ==> h[blocks[k]] == payload[k]
    ensures InRange(Installs(blocks, payload), |d|)
    ensures SameHome(l, Apply(d, Installs(blocks, payload)), h)
  {
    var n := |blocks|;
    var ws := Installs(blocks, payload);
    assert ws[..n] == ws;
    InstallsElsewhere(d, blocks, payload, n);
    forall b | 0 <= b < |d| && b in blocks ensures Apply(d, ws)[b] == h[b] {
      var k :| 0 <= k < n && blocks[k] == b;
      InstallsAt(d, blocks, payload, n, k);
    }
  }

  /** Installing any prefix of the listed blocks keeps the outcome of recovery. */
  lemma InstallPrefix(l: Layout, d: Disk, h: Disk, blocks: seq<nat>, payload: seq<Block>, j: nat)
    requires Recoverable(l, d, h) && j <= |blocks|
    requires blocks == Listed(d[l.start]) && payload == Logged(l, d, |blocks|)
    ensures InRange(Installs(blocks, payload)[..j], |d|)
    ensures Recoverable(l, Apply(d, Installs(blocks, payload)[..j]), h)
    ensures Apply(d, Installs(blocks, payload)[..j])[l.start] == d[l.start]
  {
    var r := Apply(d, Installs(blocks, payload)[..j]);
    InstallsElsewhere(d, blocks, payload, j);
    assert l.start !in blocks;
    assert forall b :: l.start <= b < l.start + l.size ==> b !in blocks && r[b] == d[b];
  }

  lemma AllInstalls(blocks: seq<nat>, payload: seq<Block>)
    requires |blocks| == |payload|
    ensures Installs(blocks, payload)[..|blocks|] == Installs(blocks, payload)
  {
  }

  lemma InstallAll(l: Layout, d: Disk, h: Disk, blocks: seq<nat>, payload: seq<Block>)
    requires Recoverable(l, d, h)
    requires blocks == Listed(d[l.start]) && payload == Logged(l, d, |blocks|)
    ensures InRange(Installs(blocks, payload), |d|)
    ensures var r := Apply(d, Installs(blocks, payload)); GoodLog(l, r) && SameHome(l, r, h) && r[l.start] == d[l.start]
  {
    hide Apply, Word, Installs;
    InstallPrefix(l, d, h, blocks, payload, |blocks|);
    AllInstalls(blocks, payload);
    assert GoodBlocks(l, blocks, |d|);
    hide InRange;
    forall k | 0 <= k < |blocks| ensures h[blocks[k]] == payload[k] {
      assert payload[k] == d[l.start + 1 + k];
    }
    InstallsComplete(l, d, h, blocks, payload);
  }

  /** Emptying the header over installed home blocks ends the recovery. */
  lemma ClearHeader(l: Layout, d: Disk, h: Disk, b: Block)
    requires GoodLog(l, d) && SameHome(l, d, h) && Word(b, 0) == 0
    ensures Quiescent(l, d[l.start := b]) && Recoverable(l, d[l.start := b], h)
  {
    var r := d[l.start := b];
    assert Listed(r[l.start]) == [];
    QuiescentRecoverable(l, r, h);
  }

  /** Recovery may itself be cut short after any of its writes: the outcome is still h, and
      only the last write empties the header. */
  lemma RecoverPrefix(l: Layout, d: Disk, h: Disk, j: nat)
    requires Recoverable(l, d, h) && j <= |RecoverWrites(l, d)|
    ensures Recoverable(l, Apply(d, RecoverWrites(l, d)[..j]), h)
    ensures j == |RecoverWrites(l, d)| ==> Quiescent(l, Apply(d, RecoverWrites(l, d)[..j]))
  {
    var blocks := Listed(d[l.start]);
    var n := |blocks|;
    var payload := Logged(l, d, n);
    var installs := Installs(blocks, payload);
    var ws := RecoverWrites(l, d);
    if j <= n {
      InstallPrefix(l, d, h, blocks, payload, j);
      assert ws[..j] == installs[..j];
    } else {
      InstallAll(l, d, h, blocks, payload);
      assert ws[..j] == ws && ws[..n] == installs;
      ClearHeader(l, Apply(d, installs), h, Header(d[l.start], []));
    }
  }

  lemma CopiesOnlyTouchLog(l: Layout, d: Disk, payload: seq<Block>, k: nat)
    requires k <= |payload| < l.size && l.start + l.size <= |d|
    ensures InRange(Copies(l, payload)[..k], |d|)
    ensures var r := Apply(d, Copies(l, payload)[..k]); SameHome(l, r, d) && r[l.start] == d[l.start]
  {
    hide Apply;
    var ws := Copies(l, payload)[..k];
    forall b | 0 <= b < |d| && (Home(l, b) || b == l.start) ensures Apply(d, ws)[b] == d[b] { ApplyElsewhere(d, ws, b); }
  }

  lemma CopiesFillLog(l: Layout, d: Disk, payload: seq<Block>)
    requires |payload| < l.size && l.start + l.size <= |d|
    ensures InRange(Copies(l, payload), |d|)
    ensures forall i :: 0 <= i < |payload| ==> Apply(d, Copies(l, payload))[l.start + 1 + i] == payload[i]
  {
    hide Apply;
    var ws := Copies(l, payload);
    forall i | 0 <= i < |payload| ensures Apply(d, ws)[l.start + 1 + i] == payload[i] { ApplyAt(d, ws, i); }
  }

  /** Before the header write a crash recovers to the old home blocks. */
  lemma BeforeCommitPoint(l: Layout, d: Disk, blocks: seq<nat>, payload: seq<Block>, k: nat)
    requires Quiescent(l, d) && GoodBlocks(l, blocks, |d|) && |payload| == |blocks| && k <= |blocks|
    ensures k <= |CommitWrites(l, d, blocks, payload)|
    ensures Recoverable(l, Apply(d, CommitWrites(l, d, blocks, payload)[..k]), d)
  {
    var ws := CommitWrites(l, d, blocks, payload);
    if blocks == [] {
      QuiescentRecoverable(l, d, d);
    } else {
      CopiesOnlyTouchLog(l, d, payload, k);
      assert ws[..k] == Copies(l, payload)[..k];
      QuiescentRecoverable(l, Apply(d, ws[..k]), d);
    }
  }

  /** The header over a written log makes the transaction the log's content. */
  lemma HeaderOverCopies(l: Layout, d: Disk, blocks: seq<nat>, payload: seq<Block>, head: Block)
    requires GoodBlocks(l, blocks, |d|) && |payload| == |blocks|
    requires Word(head, 0) == |blocks| && Listed(head) == blocks
    requires forall i :: 0 <= i < |payload| ==> d[l.start + 1 + i] == payload[i]
    ensures var c := d[l.start := head];
            GoodLog(l, c) && Listed(c[l.start]) == blocks && Logged(l, c, |blocks|) == payload && SameHome(l, c, d)
  {
    var c := d[l.start := head];
    assert |Logged(l, c, |blocks|)| == |payload|;
    forall i | 0 <= i < |payload| ensures Logged(l, c, |blocks|)[i] == payload[i] {
      assert c[l.start + 1 + i] == d[l.start + 1 + i];
    }
  }

  lemma HeaderWriteCommits(l: Layout, d: Disk, blocks: seq<nat>, payload: seq<Block>, head: Block)
    requires GoodBlocks(l, blocks, |d|) && |payload| == |blocks|
    requires Word(head, 0) == |blocks| && Listed(head) == blocks
    ensures InRange(CommitHead(l, head, payload), |d|)
    ensures var c := Apply(d, CommitHead(l, head, payload));
            && c[l.start] == head
            && GoodLog(l, c) && Listed(c[l.start]) == blocks && Logged(l, c, |blocks|) == payload && SameHome(l, c, d)
  {
    var n := |blocks|;
    var copies := Copies(l, payload);
    CopiesOnlyTouchLog(l, d, payload, n);
    CopiesFillLog(l, d, payload);
    assert copies[..n] == copies;
    assert CommitHead(l, head, payload)[..n] == copies;
    var d' := Apply(d, copies);
    assert Apply(d, CommitHead(l, head, payload)) == d'[l.start := head];
    HeaderOverCopies(l, d', blocks, payload, head);
  }

  /** What an update does, block by block. */
  lemma UpdatedAt(d: Disk, blocks: seq<nat>, payload: seq<Block>)
    requires |blocks| == |payload|
    requires forall i :: 0 <= i < |blocks| ==> blocks[i] < |d|
    requires forall i, i' :: 0 <= i < i' < |blocks| ==> blocks[i] != blocks[i']
    ensures InRange(Installs(blocks, payload), |d|)
    ensures var h := Updated(d, blocks, payload);
            && (forall k :: 0 <= k < |blocks| ==> h[blocks[k]] == payload[k])
            && (forall b :: 0 <= b < |d| && b !in blocks ==> h[b] == d[b])
  {
    hide Apply, Installs, InRange;
    AllInstalls(blocks, payload);
    InstallsElsewhere(d, blocks, payload, |blocks|);
    forall k | 0 <= k < |blocks| ensures Updated(d, blocks, payload)[blocks[k]] == payload[k] {
      InstallsAt(d, blocks, payload, |blocks|, k);
    }
  }

  lemma CommittedRecoverable(l: Layout, d: Disk, c: Disk, blocks: seq<nat>, payload: seq<Block>)
    requires GoodLog(l, c) && SameHome(l, c, d) && |payload| == |blocks|
    requires Listed(c[l.start]) == blocks && Logged(l, c, |blocks|) == payload
    ensures InRange(Installs(blocks, payload), |d|)
    ensures Recoverable(l, c, Updated(d, blocks, payload))
  {
    hide Updated, Installs, InRange, Word;
    UpdatedAt(d, blocks, payload);
  }

  lemma TailPrefix(l: Layout, c: Disk, h: Disk, blocks: seq<nat>, payload: seq<Block>, j: nat, r: Disk)
    requires Recoverable(l, c, h) && j <= |blocks| + 1
    requires blocks == Listed(c[l.start]) && payload == Logged(l, c, |blocks|)
    requires InRange(CommitTail(l, c[l.start], blocks, payload)[..j], |c|)
    requires r == Apply(c, CommitTail(l, c[l.start], blocks, payload)[..j])
    ensures Recoverable(l, r, h) && (j == |blocks| + 1 ==> Quiescent(l, r))
  {
    assert RecoverWrites(l, c) == CommitTail(l, c[l.start], blocks, payload);
    RecoverPrefix(l, c, h, j);
  }

  lemma SplitAtCommitPoint(l: Layout, d: Disk, blocks: seq<nat>, payload: seq<Block>, head: Block, j: nat)
    requires GoodBlocks(l, blocks, |d|) && |payload| == |blocks| && blocks != [] && j <= |blocks| + 1
    requires head == Header(d[l.start], blocks)
    ensures |CommitWrites(l, d, blocks, payload)| == 2 * |blocks| + 2
    ensures InRange(CommitHead(l, head, payload), |d|) && InRange(CommitTail(l, head, blocks, payload)[..j], |d|)
    ensures Apply(d, CommitWrites(l, d, blocks, payload)[..|blocks| + 1 + j])
         == Apply(Apply(d, CommitHead(l, head, payload)), CommitTail(l, head, blocks, payload)[..j])
  {
    hide Word, Header, Copies, Installs, CommitHead, CommitTail, Apply;
    var before, after := CommitHead(l, head, payload), CommitTail(l, head, blocks, payload);
    assert CommitWrites(l, d, blocks, payload) == before + after;
    ApplySplit(d, before, after, j);
  }

  /** From the header write on a crash recovers to the new home blocks, and the last write
      of commit() leaves an empty log. */
  lemma AfterCommitPoint(l: Layout, d: Disk, blocks: seq<nat>, payload: seq<Block>, k: nat)
    requires Quiescent(l, d) && GoodBlocks(l, blocks, |d|) && |payload| == |blocks|
    requires |blocks| < k <= |CommitWrites(l, d, blocks, payload)|
    ensures InRange(Installs(blocks, payload), |d|)
    ensures var r := Apply(d, CommitWrites(l, d, blocks, payload)[..k]);
            && Recoverable(l, r, Updated(d, blocks, payload))
            && (k == |CommitWrites(l, d, blocks, payload)| ==> Quiescent(l, r))
  {
    hide Word, Header, Copies, CommitHead, CommitTail, Apply, Listed, Recoverable, RecoverWrites;
    var head := Header(d[l.start], blocks);
    var j := k - |blocks| - 1;
    SplitAtCommitPoint(l, d, blocks, payload, head, j);
    ListedHeader(d[l.start], blocks);
    HeaderWriteCommits(l, d, blocks, payload, head);
    var c := Apply(d, CommitHead(l, head, payload));
    CommittedRecoverable(l, d, c, blocks, payload);
    TailPrefix(l, c, Updated(d, blocks, payload), blocks, payload, j, Apply(d, CommitWrites(l, d, blocks, payload)[..k]));
  }

  /** commit() as the code runs it: four stages, each reading what the one before left. */
  lemma FirstStages(l: Layout, d: Disk, blocks: seq<nat>, payload: seq<Block>, head: Block)
    requires GoodBlocks(l, blocks, |d|) && |payload| == |blocks|
    requires head == Header(d[l.start], blocks)
    ensures InRange(Copies(l, payload), |d|) && InRange(CommitHead(l, head, payload), |d|)
    ensures var d1 := Apply(d, Copies(l, payload));
            && d1[l.start] == d[l.start]
            && d1[l.start := head] == Apply(d, CommitHead(l, head, payload))
            && Logged(l, d1[l.start := head], |blocks|) == payload
  {
    ListedHeader(d[l.start], blocks);
    hide Word, Header;
    CopiesOnlyTouchLog(l, d, payload, |blocks|);
    assert Copies(l, payload)[..|blocks|] == Copies(l, payload);
    assert CommitHead(l, head, payload)[..|blocks|] == Copies(l, payload);
    HeaderWriteCommits(l, d, blocks, payload, head);
  }

  lemma LastStages(l: Layout, d2: Disk, blocks: seq<nat>, payload: seq<Block>, head: Block)
    requires GoodBlocks(l, blocks, |d2|) && |payload| == |blocks| && d2[l.start] == head
    ensures InRange(Installs(blocks, payload), |d2|) && InRange(CommitTail(l, head, blocks, payload), |d2|)
    ensures var d3 := Apply(d2, Installs(blocks, payload));
            d3[l.start] == head && d3[l.start := Header(head, [])] == Apply(d2, CommitTail(l, head, blocks, payload))
  {
    hide Word;
    InstallsElsewhere(d2, blocks, payload, |blocks|);
    var installs := Installs(blocks, payload);
    assert installs[..|blocks|] == installs && l.start !in blocks;
    assert CommitTail(l, head, blocks, payload)[..|blocks|] == installs;
  }

  lemma CommitInstalls(l: Layout, d: Disk, blocks: seq<nat>, payload: seq<Block>)
    requires Quiescent(l, d) && GoodBlocks(l, blocks, |d|) && |payload| == |blocks| && blocks != []
    ensures InRange(Installs(blocks, payload), |d|)
    ensures var head := Header(d[l.start], blocks);
            CommitWrites(l, d, blocks, payload) == CommitHead(l, head, payload) + CommitTail(l, head, blocks, payload)
    ensures var r := Apply(d, CommitWrites(l, d, blocks, payload));
            Quiescent(l, r) && SameHome(l, r, Updated(d, blocks, payload))
  {
    hide Word, Apply, GoodBlocks;
    var ws := CommitWrites(l, d, blocks, payload);
    assert ws[..|ws|] == ws;
    AfterCommitPoint(l, d, blocks, payload, |ws|);
    QuiescentRecoverable(l, Apply(d, ws), Updated(d, blocks, payload));
  }

  /** commit() as the code runs it, n > 0: four stages, each reading what the one before left. */
  lemma StagesOfCommit(l: Layout, d: Disk, blocks: seq<nat>, payload: seq<Block>, head: Block, clear: Write)
    requires Quiescent(l, d) && GoodBlocks(l, blocks, |d|) && |payload| == |blocks| && blocks != []
    requires head == Header(d[l.start], blocks) && clear == Write(l.start, Header(head, []))
    ensures InRange(Copies(l, payload), |d|) && InRange(Installs(blocks, payload), |d|)
    ensures var d1 := Apply(d, Copies(l, payload));
            var d3 := Apply(d1[l.start := head], Installs(blocks, payload));
            && d1[l.start] == d[l.start]
            && Logged(l, d1[l.start := head], |blocks|) == payload
            && d3[l.start] == head
            && d3[l.start := clear.data] == Apply(d, CommitWrites(l, d, blocks, payload))
    ensures CommitWrites(l, d, blocks, payload)
         == Copies(l, payload) + [Write(l.start, head)] + Installs(blocks, payload) + [clear]
  {
    FirstStages(l, d, blocks, payload, head);
    CommitInstalls(l, d, blocks, payload);
    hide Word, Header, Apply;
    var before, after := CommitHead(l, head, payload), CommitTail(l, head, blocks, payload);
    LastStages(l, Apply(d, before), blocks, payload, head);
    ApplyConcat(d, before, after);
    assert before + after == before + Installs(blocks, payload) + [clear];
  }

  // ----- whole histories -----

  datatype State = State(disk: Disk, up: bool)

  /** A commit of which `written` block writes reached the disk, or a boot whose recovery
      got that far. Fewer writes than planned means that the machine stopped there. */
  datatype Event =
    | Commit(blocks: seq<nat>, payload: seq<Block>, written: nat)
    | Boot(written: nat)

  ghost predicate Next(l: Layout, s: State, e: Event, s': State) {
    GoodLog(l, s.disk) &&
    match e
    case Commit(blocks, payload, written) =>
      && s.up && GoodBlocks(l, blocks, |s.disk|) && |payload| == |blocks|
      && var ws := CommitWrites(l, s.disk, blocks, payload);
         written <= |ws| && s' == State(Apply(s.disk, ws[..written]), written == |ws|)
    case Boot(written) =>
      var ws := RecoverWrites(l, s.disk);
      written <= |ws| && s' == State(Apply(s.disk, ws[..written]), written == |ws|)
  }

  ghost predicate Run(l: Layout, states: seq<State>, events: seq<Event>) {
    && |states| == |events| + 1
    && states[0].up && Quiescent(l, states[0].disk)
    && forall i :: 0 <= i < |events| ==> Next(l, states[i], events[i], states[i + 1])
  }

  /** The durable home blocks h after one more event. */
  ghost function After(h: Disk, e: Event): (r: Disk)
    ensures |r| == |h|
  {
    match e
    case Boot(_) => h
    case Commit(blocks, payload, written) =>
      if |blocks| < written && |payload| == |blocks| && InRange(Installs(blocks, payload), |h|)
      then Updated(h, blocks, payload) else h
  }

  /** The transactions whose header write reached the disk, applied in order to d. */
  ghost function Durable(d: Disk, events: seq<Event>): (r: Disk)
    ensures |r| == |d|
  {
    if events == [] then d else After(Durable(d, events[..|events| - 1]), events[|events| - 1])
  }

  /** The home blocks that a transaction is meant to produce: its contents in its blocks, and
      everything else as it was. */
  lemma UpdatedIs(l: Layout, d: Disk, blocks: seq<nat>, payload: seq<Block>)
    requires GoodBlocks(l, blocks, |d|) && |payload| == |blocks|
    ensures InRange(Installs(blocks, payload), |d|) && |Updated(d, blocks, payload)| == |d|
    ensures forall k :: 0 <= k < |blocks| ==> blocks[k] < |d| && Updated(d, blocks, payload)[blocks[k]] == payload[k]
    ensures forall b :: 0 <= b < |d| && b !in blocks ==> Updated(d, blocks, payload)[b] == d[b]
  {
    var n := |blocks|;
    assert Installs(blocks, payload)[..n] == Installs(blocks, payload);
    InstallsElsewhere(d, blocks, payload, n);
    forall k | 0 <= k < n ensures Updated(d, blocks, payload)[blocks[k]] == payload[k] {
      InstallsAt(d, blocks, payload, n, k);
    }
  }

  /** What a completed commit leaves: the buffers' contents in their blocks, and an empty list. */
  lemma CommitLeaves(l: Layout, d: Disk, blocks: seq<nat>, cache: map<nat, Block>)
    requires Quiescent(l, d) && GoodBlocks(l, blocks, |d|) && forall k :: 0 <= k < |blocks| ==> blocks[k] in cache
    ensures var r := Apply(d, CommitWrites(l, d, blocks, Payload(cache, blocks)));
      && l.start < |r| == |d| && Word(r[l.start], 0) == 0
      && (forall b :: b in blocks ==> b < |r| && b in cache && r[b] == cache[b])
      && (forall b :: 0 <= b < |d| && Home(l, b) && b !in blocks ==> r[b] == d[b])
  {
    var p := Payload(cache, blocks);
    hide Apply, Word, Updated, CommitWrites;
    if blocks != [] {
      CommitInstalls(l, d, blocks, p);
      UpdatedIs(l, d, blocks, p);
    } else {
      NothingCommitted(l, d);
    }
  }

  lemma NothingCommitted(l: Layout, d: Disk)
    requires GoodBlocks(l, [], |d|)
    ensures Apply(d, CommitWrites(l, d, [], [])) == d
  {
  }

  lemma UpdatedCongruent(l: Layout, d: Disk, h: Disk, blocks: seq<nat>, payload: seq<Block>)
    requires SameHome(l, d, h) && GoodBlocks(l, blocks, |d|) && |payload| == |blocks|
    ensures InRange(Installs(blocks, payload), |d|)
    ensures SameHome(l, Updated(d, blocks, payload), Updated(h, blocks, payload))
  {
    var n := |blocks|;
    assert Installs(blocks, payload)[..n] == Installs(blocks, payload);
    InstallsElsewhere(h, blocks, payload, n);
    forall k | 0 <= k < n ensures Updated(h, blocks, payload)[blocks[k]] == payload[k] {
      InstallsAt(h, blocks, payload, n, k);
    }
    InstallsComplete(l, d, Updated(h, blocks, payload), blocks, payload);
  }

  lemma RecoverableCongruent(l: Layout, d: Disk, h: Disk, h': Disk)
    requires Recoverable(l, d, h) && SameHome(l, h, h')
    ensures Recoverable(l, d, h')
  {
    var blocks := Listed(d[l.start]);
    forall k | 0 <= k < |blocks| ensures h'[blocks[k]] == d[l.start + 1 + k] {
      assert Home(l, blocks[k]);
    }
  }

  /** One step of a history keeps: recovery leads to the durable transactions, and a machine
      that is up has an empty log. */
  lemma StepKeepsDurable(l: Layout, s: State, e: Event, s': State, h: Disk, h': Disk)
    requires Next(l, s, e, s') && Recoverable(l, s.disk, h) && (s.up ==> Quiescent(l, s.disk))
    requires h' == After(h, e)
    ensures Recoverable(l, s'.disk, h') && (s'.up ==> Quiescent(l, s'.disk))
  {
    match e
    case Boot(written) =>
      RecoverPrefix(l, s.disk, h, written);
    case Commit(blocks, payload, written) =>
      QuiescentRecoverable(l, s.disk, h);
      if written <= |blocks| {
        BeforeCommitPoint(l, s.disk, blocks, payload, written);
        RecoverableCongruent(l, s'.disk, s.disk, h);
      } else {
        AfterCommitPoint(l, s.disk, blocks, payload, written);
        UpdatedCongruent(l, s.disk, h, blocks, payload);
        RecoverableCongruent(l, s'.disk, Updated(s.disk, blocks, payload), h');
      }
  }

  lemma RunPrefix(l: Layout, states: seq<State>, events: seq<Event>)
    requires Run(l, states, events) && events != []
    ensures Run(l, states[..|events|], events[..|events| - 1])
    ensures Next(l, states[|events| - 1], events[|events| - 1], states[|events|])
  {
    var n := |events| - 1;
    forall i | 0 <= i < n ensures Next(l, states[..n + 1][i], events[..n][i], states[..n + 1][i + 1]) {
      assert Next(l, states[i], events[i], states[i + 1]);
    }
  }

  lemma {:induction false} HistoryRecoverable(l: Layout, states: seq<State>, events: seq<Event>)
    requires Run(l, states, events)
    ensures Recoverable(l, states[|events|].disk, Durable(states[0].disk, events))
    ensures states[|events|].up ==> Quiescent(l, states[|events|].disk)
  {
    var n := |events|;
    var d := states[0].disk;
    if n == 0 {
      QuiescentRecoverable(l, d, d);
    } else {
      RunPrefix(l, states, events);
      HistoryRecoverable(l, states[..n], events[..n - 1]);
      StepKeepsDurable(l, states[n - 1], events[n - 1], states[n], Durable(d, events[..n - 1]), Durable(d, events));
    }
  }

  lemma RecoveredHome(l: Layout, d: Disk, h: Disk)
    requires Recoverable(l, d, h)
    ensures Quiescent(l, Recovered(l, d)) && SameHome(l, Recovered(l, d), h)
  {
    var ws := RecoverWrites(l, d);
    RecoverPrefix(l, d, h, |ws|);
    assert ws[..|ws|] == ws;
    QuiescentRecoverable(l, Recovered(l, d), h);
  }

  /** What recovery leaves: each listed block holds what the log had for it, every other home block
      what it held, and the list is empty. */
  lemma RecoveredIs(l: Layout, d: Disk)
    requires GoodLog(l, d)
    ensures var r, blocks := Recovered(l, d), Listed(d[l.start]);
      && |r| == |d| && Word(r[l.start], 0) == 0 && l.start + |blocks| < |d|
      && (forall k :: 0 <= k < |blocks| ==> blocks[k] < |d| && r[blocks[k]] == d[l.start + 1 + k])
      && (forall b :: 0 <= b < |d| && Home(l, b) && b !in blocks ==> r[b] == d[b])
  {
    hide Word, Apply, Installs, RecoverWrites, Recovered, Updated;
    var blocks := Listed(d[l.start]);
    var payload := Logged(l, d, |blocks|);
    UpdatedIs(l, d, blocks, payload);
    var h := Updated(d, blocks, payload);
    RecoveredHome(l, d, h);
  }

  /** Over every history of commits and boots, each stopped after any number of
      its block writes: recovery from any point reached yields exactly the transactions whose
      header write reached the disk, whole and in order. */
  lemma HistoryIsAtomic(l: Layout, states: seq<State>, events: seq<Event>)
    requires Run(l, states, events)
    ensures var s := states[|events|]; var h := Durable(states[0].disk, events);
            && GoodLog(l, s.disk)
            && SameHome(l, Recovered(l, s.disk), h)
            && (s.up ==> Quiescent(l, s.disk) && SameHome(l, s.disk, h))
  {
    var s := states[|events|];
    var h := Durable(states[0].disk, events);
    HistoryRecoverable(l, states, events);
    RecoveredHome(l, s.disk, h);
    if s.up { QuiescentRecoverable(l, s.disk, h); }
  }

  /** The single-transaction reading: a commit stopped after k writes, then any number of
      recoveries each stopped after some of its writes, then one that completes. */
  function Interrupted(l: Layout, d: Disk, stops: seq<nat>): (r: Disk)
    requires GoodLog(l, d)
    ensures |r| == |d|
    decreases |stops|
  {
    if stops == [] then d
    else
      var ws := RecoverWrites(l, d);
      var d' := Apply(d, ws[..if stops[0] <= |ws| then stops[0] else |ws|]);
      if GoodLog(l, d') then Interrupted(l, d', stops[1..]) else d'
  }

  lemma {:induction false} InterruptedRecoverable(l: Layout, d: Disk, h: Disk, stops: seq<nat>)
    requires Recoverable(l, d, h)
    ensures Recoverable(l, Interrupted(l, d, stops), h)
    decreases |stops|
  {
    if stops != [] {
      var ws := RecoverWrites(l, d);
      var k := if stops[0] <= |ws| then stops[0] else |ws|;
      RecoverPrefix(l, d, h, k);
      InterruptedRecoverable(l, Apply(d, ws[..k]), h, stops[1..]);
    }
  }

  lemma CrashAtomicity(l: Layout, d: Disk, blocks: seq<nat>, payload: seq<Block>, k: nat, stops: seq<nat>)
    requires Quiescent(l, d) && GoodBlocks(l, blocks, |d|) && |payload| == |blocks|
    requires k <= |CommitWrites(l, d, blocks, payload)|
    ensures GoodLog(l, Apply(d, CommitWrites(l, d, blocks, payload)[..k]))
    ensures var crashed := Interrupted(l, Apply(d, CommitWrites(l, d, blocks, payload)[..k]), stops);
            && GoodLog(l, crashed) && Quiescent(l, Recovered(l, crashed))
            && SameHome(l, Recovered(l, crashed), if k <= |blocks| then d else Updated(d, blocks, payload))
  {
    var h := if k <= |blocks| then d else Updated(d, blocks, payload);
    if k <= |blocks| { BeforeCommitPoint(l, d, blocks, payload, k); }
    else { AfterCommitPoint(l, d, blocks, payload, k); }
    var stopped := Apply(d, CommitWrites(l, d, blocks, payload)[..k]);
    InterruptedRecoverable(l, stopped, h, stops);
    RecoveredHome(l, Interrupted(l, stopped, stops), h);
  }
}
