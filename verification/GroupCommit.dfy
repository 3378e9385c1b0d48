/** Group commit: begin_op, log_write, end_op and the commit as atomic steps of concurrent
    operations on struct log (each is one critical section of log.lock). */
module GroupCommit {
  import opened CrashLog

  /** The fields of struct log that the steps share; lh is lh.block[..lh.n]. */
  datatype Control = Control(lh: seq<nat>, outstanding: nat, committing: bool)

  /** begin_op() goes ahead instead of sleeping. */
  predicate Admits(c: Control) {
    !c.committing && |c.lh| + (c.outstanding + 1) * MAXOPBLOCKS <= LOGSIZE
  }

  function Begun(c: Control): Control {
    c.(outstanding := c.outstanding + 1)
  }

  /** log_write(): append the block unless it is listed already. */
  function Noted(c: Control, b: nat): Control {
    if b in c.lh then c else c.(lh := c.lh + [b])
  }

  /** The first half of end_op(): the last operation to leave starts the commit. */
  function Left(c: Control): Control
    requires c.outstanding > 0
  {
    c.(outstanding := c.outstanding - 1, committing := c.outstanding == 1)
  }

  /** The second half of end_op(), after commit() has emptied lh. */
  function Finished(c: Control): Control {
    c.(lh := [], committing := false)
  }

  /** The tests at the top of log_write(). */
  predicate LogWritePanics(c: Control, size: nat) {
    |c.lh| >= LOGSIZE || |c.lh| >= size - 1 || c.outstanding < 1
  }

  // ----- the system -----

  datatype Active = Active(op: nat, appended: nat)

  /** One commit: the blocks it wrote, and what each operation in it had logged. */
  datatype Group = Group(blocks: set<nat>, ops: map<nat, set<nat>>)

  /** wrote: every block an operation has logged in its life. open: the operations since the
      last commit with what each logged so far. */
  datatype System = System(
    ctl: Control,
    active: seq<Active>,
    open: map<nat, set<nat>>,
    commits: seq<Group>,
    wrote: map<nat, set<nat>>)

  datatype Step =
    | BeginOp(op: nat)
    | LogWrite(i: nat, b: nat)
    | EndOp(i: nat)
    | Commit

  const INIT: System := System(Control([], 0, false), [], map[], [], map[])

  /** LogWrite's last clause is what the callers promise: an operation does not append more
      than MAXOPBLOCKS blocks to lh. */
  predicate Enabled(s: System, step: Step) {
    match step
    case BeginOp(op) => Admits(s.ctl) && op !in s.wrote
    case LogWrite(i, b) => i < |s.active| && (b in s.ctl.lh || s.active[i].appended < MAXOPBLOCKS)
    case EndOp(i) => i < |s.active|
    case Commit => s.ctl.committing
  }

  function AddTo(m: map<nat, set<nat>>, op: nat, b: nat): map<nat, set<nat>> {
    m[op := (if op in m then m[op] else {}) + {b}]
  }

  function Do(s: System, step: Step): System {
    match step
    case BeginOp(op) =>
      s.(ctl := Begun(s.ctl), active := s.active + [Active(op, 0)], open := s.open[op := {}], wrote := s.wrote[op := {}])
    case LogWrite(i, b) =>
      if i < |s.active| then
        var a := s.active[i];
        s.(ctl := Noted(s.ctl, b),
           active := s.active[i := a.(appended := if b in s.ctl.lh then a.appended else a.appended + 1)],
           open := AddTo(s.open, a.op, b), wrote := AddTo(s.wrote, a.op, b))
      else s
    case EndOp(i) =>
      if i < |s.active| && s.ctl.outstanding > 0 then
        s.(ctl := Left(s.ctl), active := s.active[..i] + s.active[i + 1..])
      else s
    case Commit =>
      s.(ctl := Finished(s.ctl), open := map[], commits := s.commits + [Group(Listed(s.ctl.lh), s.open)])
  }

  function After(steps: seq<Step>): System {
    if steps == [] then INIT else Do(After(steps[..|steps| - 1]), steps[|steps| - 1])
  }

  predicate Legal(steps: seq<Step>) {
    steps == [] ||
    (Legal(steps[..|steps| - 1]) && Enabled(After(steps[..|steps| - 1]), steps[|steps| - 1]))
  }

  // ----- invariants -----

  /** Log space promised to the active operations and not used yet. */
  function Unused(active: seq<Active>): int {
    if active == [] then 0 else Unused(active[..|active| - 1]) + MAXOPBLOCKS - active[|active| - 1].appended
  }

  lemma UnusedSplit(a: seq<Active>, b: seq<Active>)
    ensures Unused(a + b) == Unused(a) + Unused(b)
  {
    if b == [] {
      assert a + b == a;
    } else {
      assert (a + b)[..|a + b| - 1] == a + b[..|b| - 1];
      UnusedSplit(a, b[..|b| - 1]);
    }
  }

  lemma UnusedAt(a: seq<Active>, i: nat)
    requires i < |a|
    ensures Unused(a) == Unused(a[..i]) + (MAXOPBLOCKS - a[i].appended) + Unused(a[i + 1..])
  {
    assert a == a[..i] + ([a[i]] + a[i + 1..]);
    assert [a[i]][..0] == [];
    UnusedSplit(a[..i], [a[i]] + a[i + 1..]);
    UnusedSplit([a[i]], a[i + 1..]);
  }

  ghost predicate Accounts(s: System) {
    && |s.active| == s.ctl.outstanding
    && (s.ctl.committing ==> s.active == [])
    && (s.ctl.outstanding == 0 && !s.ctl.committing ==> s.ctl.lh == [])
    && (forall i :: 0 <= i < |s.active| ==> s.active[i].appended <= MAXOPBLOCKS)
    && (forall i, j :: 0 <= i < j < |s.ctl.lh| ==> s.ctl.lh[i] != s.ctl.lh[j])
    && |s.ctl.lh| + Unused(s.active) <= LOGSIZE
  }

  ghost predicate UnionIs(blocks: set<nat>, ops: map<nat, set<nat>>) {
    && (forall op, b :: op in ops && b in ops[op] ==> b in blocks)
    && (forall b :: b in blocks ==> LoggedBySome(b, ops))
  }

  ghost predicate LoggedBySome(b: nat, ops: map<nat, set<nat>>) {
    exists op :: op in ops && b in ops[op]
  }

  function Listed(lh: seq<nat>): set<nat> {
    set b | b in lh
  }

  /** The operations since the last commit, with everything they have logged so far. */
  ghost predicate OpenGroup(s: System) {
    && (forall i :: 0 <= i < |s.active| ==> s.active[i].op in s.open)
    && (forall i, j :: 0 <= i < j < |s.active| ==> s.active[i].op != s.active[j].op)
    && (forall op :: op in s.open ==> op in s.wrote && s.open[op] == s.wrote[op])
    && UnionIs(Listed(s.ctl.lh), s.open)
    && (s.ctl.outstanding == 0 && !s.ctl.committing ==> s.open == map[])
  }

  /** Group g is a commit of operations that are over. */
  ghost predicate Closed(g: Group, open: map<nat, set<nat>>, wrote: map<nat, set<nat>>) {
    && UnionIs(g.blocks, g.ops)
    && forall op :: op in g.ops ==> op !in open && op in wrote && g.ops[op] == wrote[op]
  }

  ghost predicate History(s: System) {
    && (forall c :: 0 <= c < |s.commits| ==> Closed(s.commits[c], s.open, s.wrote))
    && (forall c, c' :: 0 <= c < c' < |s.commits| ==> s.commits[c].ops.Keys !! s.commits[c'].ops.Keys)
    && (forall op :: op in s.wrote && op !in s.open ==> InSomeCommit(op, s.commits))
  }

  lemma BeginAccounts(s: System, op: nat)
    requires Accounts(s) && Enabled(s, BeginOp(op))
    ensures Accounts(Do(s, BeginOp(op)))
  {
    UnusedSplit(s.active, [Active(op, 0)]);
    assert [Active(op, 0)][..0] == [];
    UnusedBound(s.active);
  }

  lemma LogWriteAccounts(s: System, i: nat, b: nat)
    requires Accounts(s) && Enabled(s, LogWrite(i, b))
    ensures Accounts(Do(s, LogWrite(i, b)))
  {
    var active := Do(s, LogWrite(i, b)).active;
    UnusedAt(s.active, i);
    UnusedAt(active, i);
    assert active[..i] == s.active[..i] && active[i + 1..] == s.active[i + 1..];
  }

  lemma EndAccounts(s: System, i: nat)
    requires Accounts(s) && Enabled(s, EndOp(i))
    ensures Accounts(Do(s, EndOp(i)))
  {
    UnusedAt(s.active, i);
    UnusedSplit(s.active[..i], s.active[i + 1..]);
  }

  lemma StepAccounts(s: System, step: Step)
    requires Accounts(s) && Enabled(s, step)
    ensures Accounts(Do(s, step))
  {
    match step
    case BeginOp(op) => BeginAccounts(s, op);
    case LogWrite(i, b) => LogWriteAccounts(s, i, b);
    case EndOp(i) => EndAccounts(s, i);
    case Commit =>
  }

  lemma UnusedOfThree(a: seq<Active>)
    requires |a| == 3
    ensures Unused(a) == LOGSIZE - a[0].appended - a[1].appended - a[2].appended
  {
    assert a[..2][..1] == a[..1] && a[..1][..0] == [];
    assert Unused(a[..1]) == MAXOPBLOCKS - a[0].appended;
  }

  lemma UnusedBound(a: seq<Active>)
    ensures Unused(a) <= |a| * MAXOPBLOCKS
  {
    if a != [] { UnusedBound(a[..|a| - 1]); }
  }

  lemma LogWriteKeepsUnion(lh: set<nat>, open: map<nat, set<nat>>, op: nat, b: nat)
    requires UnionIs(lh, open) && op in open
    ensures UnionIs(lh + {b}, AddTo(open, op, b))
  {
    var open' := AddTo(open, op, b);
    forall x | x in lh + {b} ensures LoggedBySome(x, open') {
      if x == b {
        assert op in open' && x in open'[op];
      } else {
        assert LoggedBySome(x, open);
        var o :| o in open && x in open[o];
        assert o in open' && x in open'[o];
      }
    }
  }

  lemma BeginKeepsUnion(lh: set<nat>, open: map<nat, set<nat>>, op: nat)
    requires UnionIs(lh, open) && op !in open
    ensures UnionIs(lh, open[op := {}])
  {
    forall x | x in lh ensures LoggedBySome(x, open[op := {}]) {
      assert LoggedBySome(x, open);
      var o :| o in open && x in open[o];
      assert o in open[op := {}] && x in open[op := {}][o];
    }
  }

  lemma EmptyUnion()
    ensures UnionIs({}, map[])
  {
  }

  lemma StepOpenGroup(s: System, step: Step)
    requires Accounts(s) && OpenGroup(s) && Enabled(s, step)
    ensures OpenGroup(Do(s, step))
  {
    hide UnionIs, Unused;
    match step
    case BeginOp(op) =>
      BeginKeepsUnion(Listed(s.ctl.lh), s.open, op);
    case LogWrite(i, b) =>
      LogWriteKeepsUnion(Listed(s.ctl.lh), s.open, s.active[i].op, b);
      assert Listed(Noted(s.ctl, b).lh) == Listed(s.ctl.lh) + {b};
    case EndOp(i) =>
    case Commit =>
      EmptyUnion();
      assert Listed([]) == {};
  }

  ghost predicate InSomeCommit(op: nat, commits: seq<Group>) {
    exists c :: 0 <= c < |commits| && op in commits[c].ops
  }

  lemma OpenStepHistory(s: System, step: Step)
    requires OpenGroup(s) && History(s) && Enabled(s, step) && !step.Commit?
    ensures History(Do(s, step))
  {
    hide UnionIs, InSomeCommit, Closed, Admits, Noted;
    var s' := Do(s, step);
    match step
    case BeginOp(op) => StillClosed(s, s', op);
    case LogWrite(i, b) => StillClosed(s, s', s.active[i].op);
    case EndOp(i) =>
    case Commit =>
  }

  /** The commits so far know nothing of op, which is or becomes open. */
  lemma StillClosed(s: System, s': System, op: nat)
    requires History(s) && s'.commits == s.commits && op in s'.open
    requires op in s.open || op !in s.wrote
    requires forall o :: o in s'.open <==> o in s.open || o == op
    requires forall o :: o in s'.wrote <==> o in s.wrote || o == op
    requires forall o :: o in s.wrote && o != op ==> s'.wrote[o] == s.wrote[o]
    ensures History(s')
  {
    hide UnionIs, InSomeCommit;
    forall c | 0 <= c < |s'.commits| ensures Closed(s'.commits[c], s'.open, s'.wrote) {
      assert Closed(s.commits[c], s.open, s.wrote);
    }
  }

  lemma CommitCoversOpen(open: map<nat, set<nat>>, commits: seq<Group>, g: Group, wrote: map<nat, set<nat>>)
    requires g.ops == open
    requires forall op :: op in wrote && op !in open ==> InSomeCommit(op, commits)
    ensures forall op :: op in wrote ==> InSomeCommit(op, commits + [g])
  {
    var commits' := commits + [g];
    forall op | op in wrote ensures InSomeCommit(op, commits') {
      if op in open {
        assert op in commits'[|commits|].ops;
      } else {
        assert InSomeCommit(op, commits);
        var c :| 0 <= c < |commits| && op in commits[c].ops;
        assert op in commits'[c].ops;
      }
    }
  }

  lemma CommitStepHistory(s: System)
    requires OpenGroup(s) && History(s)
    ensures History(Do(s, Step.Commit))
  {
    hide UnionIs, InSomeCommit;
    var s' := Do(s, Step.Commit);
    var last := |s.commits|;
    CommitCoversOpen(s.open, s.commits, s'.commits[last], s.wrote);
    forall c | 0 <= c <= last
      ensures Closed(s'.commits[c], s'.open, s'.wrote) && (c < last ==> s'.commits[c].ops.Keys !! s.open.Keys)
    {
      if c < last { assert Closed(s.commits[c], s.open, s.wrote); }
    }
  }

  lemma {:induction false} RunsKeepInvariants(steps: seq<Step>)
    requires Legal(steps)
    ensures Accounts(After(steps)) && OpenGroup(After(steps)) && History(After(steps))
  {
    if steps != [] {
      var before := steps[..|steps| - 1];
      RunsKeepInvariants(before);
      StepAccounts(After(before), steps[|steps| - 1]);
      StepOpenGroup(After(before), steps[|steps| - 1]);
      if steps[|steps| - 1].Commit? { CommitStepHistory(After(before)); }
      else { OpenStepHistory(After(before), steps[|steps| - 1]); }
    }
  }

  // ----- results -----

  /** Log space over every interleaving: what is used and what is still promised fit. */
  lemma ReservationFits(steps: seq<Step>)
    requires Legal(steps)
    ensures var s := After(steps);
            && |s.ctl.lh| + Unused(s.active) <= LOGSIZE
            && Unused(s.active) >= 0
  {
    RunsKeepInvariants(steps);
    UnusedNonNegative(After(steps).active);
  }

  lemma UnusedNonNegative(a: seq<Active>)
    requires forall i :: 0 <= i < |a| ==> a[i].appended <= MAXOPBLOCKS
    ensures Unused(a) >= 0
    ensures forall i :: 0 <= i < |a| ==> Unused(a) >= MAXOPBLOCKS - a[i].appended
  {
    if a != [] { UnusedNonNegative(a[..|a| - 1]); }
  }

  /** While a commit runs no operation is active and only its own end can follow: lh is
      frozen, and end_op's panic on log.committing is unreachable. */
  lemma CommitRunsAlone(steps: seq<Step>, step: Step)
    requires Legal(steps) && After(steps).ctl.committing && Enabled(After(steps), step)
    ensures After(steps).ctl.outstanding == 0 && step.Commit?
  {
    RunsKeepInvariants(steps);
  }

  /** Each commit is a union of whole operations: it holds all that its operations ever
      logged and nothing else, and no operation is in two commits or in one and still open. */
  lemma CommitsAreWholeOperations(steps: seq<Step>, c: nat)
    requires Legal(steps) && c < |After(steps).commits|
    ensures var s := After(steps); var g := s.commits[c];
            && UnionIs(g.blocks, g.ops)
            && (forall op :: op in g.ops ==> op in s.wrote && g.ops[op] == s.wrote[op] && op !in s.open)
            && (forall i :: 0 <= i < |s.active| ==> s.active[i].op !in g.ops)
            && (forall c' :: 0 <= c' < |s.commits| && c' != c ==> s.commits[c'].ops.Keys !! g.ops.Keys)
  {
    RunsKeepInvariants(steps);
    assert Closed(After(steps).commits[c], After(steps).open, After(steps).wrote);
  }

  /** Every operation that has ended is in a commit, unless one is still to come. */
  lemma EndedOperationsCommit(steps: seq<Step>, op: nat)
    requires Legal(steps) && op in After(steps).wrote
    requires After(steps).ctl.outstanding == 0 && !After(steps).ctl.committing
    ensures InSomeCommit(op, After(steps).commits)
  {
    RunsKeepInvariants(steps);
  }

  /** Which steps can follow a run: an operation begins unless a commit runs or the log could not
      hold what it and those before it may still append. */
  lemma NextIsLegal(steps: seq<Step>, op: nat, i: nat)
    requires Legal(steps)
    ensures var s := After(steps);
            && (Legal(steps + [BeginOp(op)]) <==>
                  op !in s.wrote && !s.ctl.committing && |s.ctl.lh| + (|s.active| + 1) * MAXOPBLOCKS <= LOGSIZE)
            && (Legal(steps + [EndOp(i)]) <==> i < |s.active|)
            && (Legal(steps + [Step.Commit]) <==> s.ctl.committing)
  {
    RunsKeepInvariants(steps);
    Extended(steps, BeginOp(op));
    Extended(steps, EndOp(i));
    Extended(steps, Step.Commit);
  }

  lemma Extended(steps: seq<Step>, step: Step)
    requires Legal(steps)
    ensures Legal(steps + [step]) <==> Enabled(After(steps), step)
    ensures After(steps + [step]) == Do(After(steps), step)
  {
    assert (steps + [step])[..|steps + [step]| - 1] == steps;
  }

  /** Nobody waits in begin_op for ever: once the active operations have ended, and the commit
      that the last of them starts, any operation begins. */
  lemma {:induction false} RoomAgain(steps: seq<Step>, op: nat) returns (ends: seq<Step>)
    requires Legal(steps) && op !in After(steps).wrote
    ensures forall k :: 0 <= k < |ends| ==> ends[k].EndOp? || ends[k].Commit?
    ensures |ends| <= |After(steps).active| + (if After(steps).active != [] || After(steps).ctl.committing then 1 else 0)
    ensures Legal(steps + ends + [BeginOp(op)])
    decreases |After(steps).active|, After(steps).ctl.committing
  {
    hide Legal, After;
    var s := After(steps);
    NextIsLegal(steps, op, 0);
    if s.active == [] && !s.ctl.committing {
      QuietLog(steps);
      ends := [];
      assert steps + ends == steps;
    } else {
      var step := Ending(steps);
      var rest := RoomAgain(steps + [step], op);
      ends := [step] + rest;
      assert steps + ends == steps + [step] + rest;
    }
  }

  lemma QuietLog(steps: seq<Step>)
    requires Legal(steps) && After(steps).active == [] && !After(steps).ctl.committing
    ensures After(steps).ctl.lh == []
  {
    RunsKeepInvariants(steps);
  }

  /** The next operation can end, or the commit can. */
  lemma Ending(steps: seq<Step>) returns (step: Step)
    requires Legal(steps) && (After(steps).active != [] || After(steps).ctl.committing)
    ensures step.EndOp? || step.Commit?
    ensures Legal(steps + [step]) && After(steps + [step]).wrote == After(steps).wrote
    ensures var s, s' := After(steps), After(steps + [step]);
            || |s'.active| < |s.active|
            || (s.active == s'.active == [] && s.ctl.committing && !s'.ctl.committing)
  {
    RunsKeepInvariants(steps);
    hide OpenGroup, History, Legal, After;
    step := if After(steps).ctl.committing then Step.Commit else EndOp(0);
    Extended(steps, step);
  }

  /** Exactly when a call of log_write panics. For an append the LOGSIZE test never fires;
      for a block listed already it fires once the log is full. */
  lemma LogWriteGuards(steps: seq<Step>, i: nat, b: nat, size: nat)
    requires Legal(steps) && Enabled(After(steps), LogWrite(i, b))
    ensures var c := After(steps).ctl;
            LogWritePanics(c, size) <==> |c.lh| >= size - 1 || (b in c.lh && |c.lh| == LOGSIZE)
  {
    RunsKeepInvariants(steps);
    UnusedNonNegative(After(steps).active);
  }

  // ----- log.size -----

  /** No log_write() of the run so far has panicked: the run is one that the code can reach. */
  predicate NoPanic(steps: seq<Step>, size: nat) {
    steps == [] ||
    (NoPanic(steps[..|steps| - 1], size)
     && (steps[|steps| - 1].LogWrite? ==> !LogWritePanics(After(steps[..|steps| - 1]).ctl, size)))
  }

  predicate AppendPanics(steps: seq<Step>, i: nat, b: nat, size: nat) {
    && Legal(steps) && NoPanic(steps, size) && Enabled(After(steps), LogWrite(i, b))
    && b !in After(steps).ctl.lh && LogWritePanics(After(steps).ctl, size)
  }

  predicate RewritePanics(steps: seq<Step>, i: nat, b: nat, size: nat) {
    && Legal(steps) && NoPanic(steps, size) && Enabled(After(steps), LogWrite(i, b))
    && b in After(steps).ctl.lh && LogWritePanics(After(steps).ctl, size)
  }

  lemma Extend(steps: seq<Step>, step: Step)
    requires Legal(steps) && Enabled(After(steps), step)
    ensures Legal(steps + [step]) && After(steps + [step]) == Do(After(steps), step)
    ensures forall size :: NoPanic(steps, size) && (step.LogWrite? ==> !LogWritePanics(After(steps).ctl, size)) ==>
              NoPanic(steps + [step], size)
  {
    assert (steps + [step])[..|steps|] == steps;
  }

  /** Until a panic the log lists at most as many blocks as its size has room for. */
  lemma {:induction false} PanicsKeepRoom(steps: seq<Step>, size: nat)
    requires Legal(steps) && NoPanic(steps, size)
    ensures |After(steps).ctl.lh| <= if size == 0 then 0 else size - 1
  {
    if steps != [] { PanicsKeepRoom(steps[..|steps| - 1], size); }
  }

  /** Three operations that have begun. */
  lemma ThreeBegun() returns (steps: seq<Step>)
    ensures Legal(steps) && forall size :: NoPanic(steps, size)
    ensures After(steps).ctl == Control([], 3, false) && After(steps).active == [Active(0, 0), Active(1, 0), Active(2, 0)]
  {
    Extend([], BeginOp(0));
    Extend([BeginOp(0)], BeginOp(1));
    Extend([BeginOp(0)] + [BeginOp(1)], BeginOp(2));
    steps := [BeginOp(0)] + [BeginOp(1)] + [BeginOp(2)];
  }

  /** Three concurrent operations that together have appended blocks 0 .. n-1, without a panic. */
  lemma {:induction false} ThreeWriters(n: nat, size: nat) returns (steps: seq<Step>, i: nat)
    requires n <= LOGSIZE && (n == 0 || n <= size - 1)
    ensures Legal(steps) && NoPanic(steps, size)
    ensures var s := After(steps);
            && s.ctl.outstanding == |s.active| == 3 && |s.ctl.lh| == n && Unused(s.active) == LOGSIZE - n
            && (forall b :: b in s.ctl.lh <==> 0 <= b < n)
            && i < 3 && (n < LOGSIZE ==> s.active[i].appended < MAXOPBLOCKS)
  {
    hide Enabled, Do, After, Legal, NoPanic, Unused;
    if n == 0 {
      steps := ThreeBegun();
      UnusedOfThree(After(steps).active);
      i := 0;
    } else {
      var before, j := ThreeWriters(n - 1, size);
      steps := before + [LogWrite(j, n - 1)];
      Append(before, j, n - 1);
      i := if n < LOGSIZE then RoomLeft(After(steps).active) else 0;
    }
  }

  /** An append by one of three operations. */
  lemma Append(before: seq<Step>, j: nat, b: nat)
    requires Legal(before) && j < |After(before).active| && After(before).active[j].appended < MAXOPBLOCKS
    requires b !in After(before).ctl.lh
    ensures var steps := before + [LogWrite(j, b)];
      && Enabled(After(before), LogWrite(j, b)) && Legal(steps)
      && (forall size :: NoPanic(before, size) && !LogWritePanics(After(before).ctl, size) ==> NoPanic(steps, size))
      && var (s, s') := (After(before), After(steps));
         && s'.ctl == s.ctl.(lh := s.ctl.lh + [b]) && |s'.active| == |s.active|
         && Unused(s'.active) == Unused(s.active) - 1
  {
    hide After, Legal, NoPanic, Unused;
    Extend(before, LogWrite(j, b));
    var a := After(before).active;
    var a' := a[j := a[j].(appended := a[j].appended + 1)];
    UnusedAt(a, j);
    UnusedAt(a', j);
    assert a'[..j] == a[..j] && a'[j + 1..] == a[j + 1..];
  }

  function RoomLeft(a: seq<Active>): (i: nat)
    requires |a| == 3 && Unused(a) > 0
    ensures i < 3 && a[i].appended < MAXOPBLOCKS
  {
    UnusedOfThree(a);
    if a[0].appended < MAXOPBLOCKS then 0 else if a[1].appended < MAXOPBLOCKS then 1 else 2
  }

  /** The operations' promise is enough for log_write exactly when the log on disk has room
      for a header and LOGSIZE blocks. mkfs makes nlog = LOGSIZE, one block short of that. */
  lemma AppendsAreSafeIff(size: nat)
    ensures (forall steps, i, b :: !AppendPanics(steps, i, b, size)) <==> size > LOGSIZE
  {
    if size > LOGSIZE {
      forall steps, i, b ensures !AppendPanics(steps, i, b, size) {
        if AppendPanics(steps, i, b, size) {
          LogWriteGuards(steps, i, b, size);
          ReservationFits(steps);
          RunsKeepInvariants(steps);
          UnusedNonNegative(After(steps).active);
        }
      }
    } else {
      var n := if size == 0 then 0 else size - 1;
      var steps, i := ThreeWriters(n, size);
      assert AppendPanics(steps, i, n, size);
    }
  }

  /** A block that is listed already can fail too. Some run without a panic so far gets to one,
      exactly if the log has room for a header and a block: once lh is full, even rewriting one of
      its blocks panics. */
  lemma RewritesAreSafeIff(size: nat)
    ensures (forall steps, i, b :: !RewritePanics(steps, i, b, size)) <==> size < 2
  {
    if size < 2 {
      forall steps, i, b ensures !RewritePanics(steps, i, b, size) {
        if RewritePanics(steps, i, b, size) { PanicsKeepRoom(steps, size); }
      }
    } else {
      var n := if size - 1 <= LOGSIZE then size - 1 else LOGSIZE;
      var steps, i := ThreeWriters(n, size);
      assert 0 in After(steps).ctl.lh;
      assert RewritePanics(steps, i, 0, size);
    }
  }
}
