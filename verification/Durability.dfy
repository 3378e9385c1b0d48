/** Concurrent operations, group commit and crashes together: what the disk holds after any
    interleaving, stopped anywhere, is the work of whole operations. */
module Durability {
  import opened Blocks
  import opened CrashLog
  import GC = GroupCommit

  /** One log_write(): operation op has put data into the buffer of block b. */
  datatype Entry = Entry(op: nat, b: nat, data: Block)

  /** cache: the pinned buffers. durable: the log_writes whose commit got as far as its header write;
      recent: those since the last commit; ever: all of them, with those that a crash has undone.
      lost: the operations that a crash has undone. */
  datatype Machine = Machine(
    sys: GC.System, disk: Disk, up: bool, cache: map<nat, Block>,
    durable: seq<Entry>, recent: seq<Entry>, ever: seq<Entry>, lost: set<nat>)

  /** Of a commit and of a recovery the given number of block writes reach the disk; if there are
      more to come the machine stops there. Halt stops it at any other time. */
  datatype Step =
    | BeginOp(op: nat)
    | LogWrite(i: nat, b: nat, data: Block)
    | EndOp(i: nat)
    | Commit(written: nat)
    | Halt
    | Boot(written: nat)

  // ----- histories of log_write -----

  /** The blocks after the writes es. */
  function Replay(d: Disk, es: seq<Entry>): (r: Disk)
    ensures |r| == |d|
  {
    if es == [] then d
    else
      var (before, e) := (Replay(d, es[..|es| - 1]), es[|es| - 1]);
      if e.b < |d| then before[e.b := e.data] else before
  }

  /** The writes of operation op. */
  function Of(es: seq<Entry>, op: nat): (r: seq<Entry>)
    ensures forall k :: 0 <= k < |r| ==> r[k].op == op && r[k] in es
  {
    if es == [] then []
    else Of(es[..|es| - 1], op) + if es[|es| - 1].op == op then [es[|es| - 1]] else []
  }

  lemma {:induction false} ReplayMore(d: Disk, a: seq<Entry>, b: seq<Entry>)
    ensures Replay(d, a + b) == Replay(Replay(d, a), b)
    decreases |b|
  {
    if b == [] {
      assert a + b == a;
    } else {
      assert (a + b)[..|a + b| - 1] == a + b[..|b| - 1];
      ReplayMore(d, a, b[..|b| - 1]);
    }
  }

  lemma {:induction false} OfMore(a: seq<Entry>, b: seq<Entry>, op: nat)
    ensures Of(a + b, op) == Of(a, op) + Of(b, op)
    decreases |b|
  {
    if b == [] {
      assert a + b == a;
    } else {
      assert (a + b)[..|a + b| - 1] == a + b[..|b| - 1];
      OfMore(a, b[..|b| - 1], op);
    }
  }

  /** A block that no write names is as it was. */
  lemma {:induction false} ReplayElsewhere(d: Disk, es: seq<Entry>, b: nat)
    requires b < |d| && forall k :: 0 <= k < |es| ==> es[k].b != b
    ensures Replay(d, es)[b] == d[b]
    decreases |es|
  {
    if es != [] { ReplayElsewhere(d, es[..|es| - 1], b); }
  }

  lemma ReplayLast(d: Disk, es: seq<Entry>, e: Entry)
    requires e.b < |d|
    ensures Replay(d, es + [e]) == Replay(d, es)[e.b := e.data]
  {
    assert (es + [e])[..|es|] == es;
  }

  // ----- steps -----

  /** What commit() is to write. */
  ghost function Plan(l: Layout, m: Machine): seq<Write>
    requires Running(l, m)
  {
    CommitWrites(l, m.disk, m.sys.ctl.lh, Payload(m.cache, m.sys.ctl.lh))
  }

  /** The buffers of the listed blocks are pinned, and the list is one that the log can take. */
  ghost predicate Running(l: Layout, m: Machine) {
    && m.up && GoodBlocks(l, m.sys.ctl.lh, |m.disk|)
    && (forall b :: b in m.cache <==> b in m.sys.ctl.lh)
  }

  /** An operation's log_write() is as GroupCommit has it, of a home block, and does not panic. */
  ghost predicate Enabled(l: Layout, m: Machine, step: Step) {
    match step
    case BeginOp(op) => m.up && GC.Enabled(m.sys, GC.BeginOp(op)) && op !in m.lost
    case LogWrite(i, b, data) =>
      m.up && GC.Enabled(m.sys, GC.LogWrite(i, b)) && b < |m.disk| && Home(l, b) && !GC.LogWritePanics(m.sys.ctl, l.size)
    case EndOp(i) => m.up && GC.Enabled(m.sys, GC.EndOp(i))
    case Commit(written) => Running(l, m) && m.sys.ctl.committing && written <= |Plan(l, m)|
    case Halt => m.up
    case Boot(written) => !m.up && GoodLog(l, m.disk) && written <= |RecoverWrites(l, m.disk)|
  }

  /** What a crash leaves of the operations: those since the last commit are gone. */
  function Crashed(s: GC.System): GC.System {
    GC.System(GC.Control([], 0, false), [], map[], s.commits, s.wrote - s.open.Keys)
  }

  /** The machine stops without the recent writes. */
  function Stopped(m: Machine, disk: Disk): Machine {
    Machine(Crashed(m.sys), disk, false, map[], m.durable, [], m.ever, m.lost + m.sys.open.Keys)
  }

  /** The recent writes have become durable. */
  function Kept(m: Machine, disk: Disk, up: bool): Machine {
    Machine(GC.Do(m.sys, GC.Step.Commit), disk, up, map[], m.durable + m.recent, [], m.ever, m.lost)
  }

  ghost function Do(l: Layout, m: Machine, step: Step): Machine
    requires Enabled(l, m, step)
  {
    match step
    case BeginOp(op) => m.(sys := GC.Do(m.sys, GC.BeginOp(op)))
    case LogWrite(i, b, data) =>
      var e := Entry(m.sys.active[i].op, b, data);
      m.(sys := GC.Do(m.sys, GC.LogWrite(i, b)), cache := m.cache[b := data], recent := m.recent + [e], ever := m.ever + [e])
    case EndOp(i) => m.(sys := GC.Do(m.sys, GC.EndOp(i)))
    case Commit(written) =>
      var disk := Apply(m.disk, Plan(l, m)[..written]);
      if written == |Plan(l, m)| then Kept(m, disk, true)
      else if written > |m.sys.ctl.lh| then Kept(m, disk, false)
      else Stopped(m, disk)
    case Halt => Stopped(m, m.disk)
    case Boot(written) =>
      m.(disk := Apply(m.disk, RecoverWrites(l, m.disk)[..written]), up := written == |RecoverWrites(l, m.disk)|)
  }

  // ----- what every state keeps -----

  ghost predicate Groups(s: GC.System) {
    GC.Accounts(s) && GC.OpenGroup(s) && GC.History(s)
  }

  /** The writes of an operation are all durable, all recent, or all lost. */
  ghost predicate Whole(m: Machine, op: nat) {
    && (op in m.sys.open ==> Of(m.durable, op) == [] && Of(m.recent, op) == Of(m.ever, op))
    && (op in m.sys.wrote && op !in m.sys.open ==> Of(m.durable, op) == Of(m.ever, op) && Of(m.recent, op) == [])
    && (op !in m.sys.wrote ==> Of(m.durable, op) == [] && Of(m.recent, op) == [])
    && (op !in m.sys.wrote && op !in m.lost ==> Of(m.ever, op) == [])
    && (op in m.lost ==> op !in m.sys.wrote)
  }

  /** Buffers and disk hold all writes so far; the disk with its log holds the durable ones. */
  ghost predicate Contents(l: Layout, d0: Disk, m: Machine) {
    && |m.disk| == |d0| && Recoverable(l, m.disk, Replay(d0, m.durable))
    && (m.up ==> Quiescent(l, m.disk) && Running(l, m))
    && (!m.up ==> m.recent == [] && m.cache == map[] && m.sys.ctl.lh == [])
    && (forall k :: 0 <= k < |m.recent| ==> m.recent[k].b in m.sys.ctl.lh)
    && (forall b :: b in m.cache && b < |d0| ==> m.cache[b] == Replay(d0, m.durable + m.recent)[b])
  }

  ghost predicate Inv(l: Layout, d0: Disk, m: Machine) {
    Groups(m.sys) && (m.sys.wrote.Keys !! m.lost) && (forall op :: Whole(m, op)) && Contents(l, d0, m)
  }

  lemma CrashKeepsGroups(s: GC.System)
    requires Groups(s)
    ensures Groups(Crashed(s))
  {
    hide GC.Accounts, GC.OpenGroup, GC.History;
    CrashKeepsAccounts(s);
    CrashKeepsHistory(s);
  }

  lemma CrashKeepsAccounts(s: GC.System)
    ensures GC.Accounts(Crashed(s)) && GC.OpenGroup(Crashed(s))
  {
    GC.EmptyUnion();
    assert GC.Listed([]) == {};
  }

  lemma CrashKeepsHistory(s: GC.System)
    requires GC.History(s)
    ensures GC.History(Crashed(s))
  {
    hide GC.UnionIs, GC.InSomeCommit;
    var t := Crashed(s);
    forall c | 0 <= c < |t.commits| ensures GC.Closed(t.commits[c], t.open, t.wrote) {
      assert GC.Closed(s.commits[c], s.open, s.wrote);
    }
  }

  lemma StepKeepsGroups(s: GC.System, step: GC.Step)
    requires Groups(s) && GC.Enabled(s, step)
    ensures Groups(GC.Do(s, step))
  {
    hide GC.Accounts, GC.OpenGroup, GC.History, GC.Do, GC.Enabled;
    GC.StepAccounts(s, step);
    GC.StepOpenGroup(s, step);
    if step.Commit? { GC.CommitStepHistory(s); } else { GC.OpenStepHistory(s, step); }
  }

  /** Which operations are open, and which have written, after a step. */
  lemma StepOps(s: GC.System, step: GC.Step)
    requires Groups(s) && GC.Enabled(s, step)
    ensures s.open.Keys <= s.wrote.Keys
    ensures var t := GC.Do(s, step);
      match step
      case BeginOp(op) => t.open.Keys == s.open.Keys + {op} && t.wrote.Keys == s.wrote.Keys + {op} && op !in s.wrote
      case LogWrite(i, b) => s.active[i].op in s.open && t.open.Keys == s.open.Keys && t.wrote.Keys == s.wrote.Keys
      case EndOp(i) => t.open == s.open && t.wrote == s.wrote
      case Commit => t.open == map[] && t.wrote == s.wrote && t.ctl.lh == []
  {
  }

  lemma StepKeepsWhole(l: Layout, m: Machine, step: Step, op: nat)
    requires Enabled(l, m, step) && Groups(m.sys) && Whole(m, op) && (m.sys.wrote.Keys !! m.lost)
    ensures Whole(Do(l, m, step), op)
  {
    hide Groups, GC.Do, Of, Running, Plan;
    NoneOf(op);
    match step
    case BeginOp(o) => StepOps(m.sys, GC.BeginOp(o));
    case LogWrite(i, b, data) =>
      StepOps(m.sys, GC.LogWrite(i, b));
      var e := Entry(m.sys.active[i].op, b, data);
      OneOf(m.recent, e, op);
      OneOf(m.ever, e, op);
    case EndOp(i) => StepOps(m.sys, GC.EndOp(i));
    case Commit(written) =>
      StepOps(m.sys, GC.Step.Commit);
      OfMore(m.durable, m.recent, op);
    case Halt => OpenWrote(m.sys);
    case Boot(written) =>
  }

  lemma NoneOf(op: nat)
    ensures Of([], op) == []
  {
  }

  lemma OneOf(es: seq<Entry>, e: Entry, op: nat)
    ensures Of(es + [e], op) == Of(es, op) + if e.op == op then [e] else []
  {
    assert (es + [e])[..|es|] == es;
  }

  lemma OpenWrote(s: GC.System)
    requires Groups(s)
    ensures s.open.Keys <= s.wrote.Keys
  {
  }

  // ----- contents -----

  /** What a commit makes of the disk is what the recent writes make of it. */
  lemma CommitIsReplay(l: Layout, d0: Disk, m: Machine)
    requires Contents(l, d0, m) && m.up
    ensures var (lh, p) := (m.sys.ctl.lh, Payload(m.cache, m.sys.ctl.lh)); var h := Replay(d0, m.durable);
      && InRange(Installs(lh, p), |h|)
      && SameHome(l, Updated(h, lh, p), Replay(d0, m.durable + m.recent))
  {
    hide Recoverable, Quiescent, Word;
    var lh := m.sys.ctl.lh;
    var p, h := Payload(m.cache, lh), Replay(d0, m.durable);
    UpdatedAt(h, lh, p);
    var r, full := Updated(h, lh, p), Replay(d0, m.durable + m.recent);
    ReplayMore(d0, m.durable, m.recent);
    forall b: nat | b < |r| && Home(l, b) ensures r[b] == full[b] {
      if b in lh {
        var k :| 0 <= k < |lh| && lh[k] == b;
        assert p[k] == m.cache[b];
      } else {
        ReplayElsewhere(h, m.recent, b);
      }
    }
  }

  lemma CommitContents(l: Layout, d0: Disk, m: Machine, written: nat)
    requires Contents(l, d0, m) && Enabled(l, m, Step.Commit(written))
    ensures Contents(l, d0, Do(l, m, Step.Commit(written)))
  {
    hide Recoverable, Quiescent, Word, CommitWrites, Replay, Updated, Home;
    var lh, p, h := m.sys.ctl.lh, Payload(m.cache, m.sys.ctl.lh), Replay(d0, m.durable);
    var m' := Do(l, m, Step.Commit(written));
    CommitIsReplay(l, d0, m);
    DiskAfterCommit(l, m.disk, h, lh, p, written, Replay(d0, m.durable + m.recent));
    EmptyListIsGood(l, lh, |m.disk|);
    assert m.durable + m.recent + [] == m.durable + m.recent;
  }

  lemma EmptyListIsGood(l: Layout, lh: seq<nat>, n: nat)
    requires GoodBlocks(l, lh, n)
    ensures GoodBlocks(l, [], n)
  {
  }

  /** The disk after some of the writes of a commit leads to the state before it or to full, and if
      nothing is to be written full is what it was. */
  lemma DiskAfterCommit(l: Layout, d: Disk, h: Disk, lh: seq<nat>, p: seq<Block>, written: nat, full: Disk)
    requires Quiescent(l, d) && Recoverable(l, d, h) && GoodBlocks(l, lh, |d|) && |p| == |lh|
    requires InRange(Installs(lh, p), |h|) && SameHome(l, Updated(h, lh, p), full)
    requires written <= |CommitWrites(l, d, lh, p)|
    ensures var ws := CommitWrites(l, d, lh, p); var d' := Apply(d, ws[..written]);
      && |d'| == |d| && (lh == [] ==> ws == [])
      && (written <= |lh| && lh != [] ==> written < |ws| && Recoverable(l, d', h))
      && (written > |lh| || lh == [] ==> Recoverable(l, d', full))
      && (written == |ws| ==> Quiescent(l, d'))
  {
    var ws := CommitWrites(l, d, lh, p);
    var d' := Apply(d, ws[..written]);
    var event := Event.Commit(lh, p, written);
    StepKeepsDurable(l, State(d, true), event, State(d', written == |ws|), h, CrashLog.After(h, event));
    hide Quiescent, Word, Updated, Home, GoodBlocks, Recoverable;
    if written > |lh| {
      RecoverableCongruent(l, d', Updated(h, lh, p), full);
    } else if lh == [] {
      NothingUpdated(h, p);
      RecoverableCongruent(l, d', h, full);
    }
  }

  lemma NothingUpdated(h: Disk, p: seq<Block>)
    requires |p| == 0
    ensures InRange(Installs([], p), |h|) && Updated(h, [], p) == h
  {
    assert Installs([], p) == [];
  }

  lemma WriteContents(l: Layout, d0: Disk, m: Machine, i: nat, b: nat, data: Block)
    requires Contents(l, d0, m) && Groups(m.sys) && Enabled(l, m, LogWrite(i, b, data))
    ensures Contents(l, d0, Do(l, m, LogWrite(i, b, data)))
  {
    hide Recoverable, Quiescent, Word, Replay, Groups;
    var m' := Do(l, m, LogWrite(i, b, data));
    StepKeepsGroups(m.sys, GC.LogWrite(i, b));
    ListFits(m'.sys);
    var e := Entry(m.sys.active[i].op, b, data);
    assert m'.durable + m'.recent == (m.durable + m.recent) + [e];
    ReplayLast(d0, m.durable + m.recent, e);
  }

  lemma ListFits(s: GC.System)
    requires Groups(s)
    ensures |s.ctl.lh| <= LOGSIZE && forall i, j :: 0 <= i < j < |s.ctl.lh| ==> s.ctl.lh[i] != s.ctl.lh[j]
  {
    GC.UnusedNonNegative(s.active);
  }

  lemma BootContents(l: Layout, d0: Disk, m: Machine, written: nat)
    requires Contents(l, d0, m) && Enabled(l, m, Step.Boot(written))
    ensures Contents(l, d0, Do(l, m, Step.Boot(written)))
  {
    RecoverPrefix(l, m.disk, Replay(d0, m.durable), written);
    hide Recoverable, Word, Replay, RecoverWrites;
    EmptyGoodBlocks(l, m.disk);
  }

  lemma EmptyGoodBlocks(l: Layout, d: Disk)
    requires GoodLog(l, d)
    ensures GoodBlocks(l, [], |d|)
  {
  }

  lemma StepKeepsContents(l: Layout, d0: Disk, m: Machine, step: Step)
    requires Contents(l, d0, m) && Groups(m.sys) && Enabled(l, m, step)
    ensures Contents(l, d0, Do(l, m, step))
  {
    hide Recoverable, Quiescent, Word, Replay, Groups;
    match step
    case LogWrite(i, b, data) => WriteContents(l, d0, m, i, b, data);
    case Commit(written) => CommitContents(l, d0, m, written);
    case Boot(written) => BootContents(l, d0, m, written);
    case _ =>
  }

  /** Every step, of operations, of the disk or of fate, keeps the invariant. */
  lemma StepKeepsInv(l: Layout, d0: Disk, m: Machine, step: Step)
    requires Inv(l, d0, m) && Enabled(l, m, step)
    ensures Inv(l, d0, Do(l, m, step))
  {
    hide Groups, Contents, Whole, Plan, Running;
    var m' := Do(l, m, step);
    StepKeepsContents(l, d0, m, step);
    forall op ensures Whole(m', op) { StepKeepsWhole(l, m, step, op); }
    SystemKept(l, m, step);
  }

  lemma SystemKept(l: Layout, m: Machine, step: Step)
    requires Groups(m.sys) && (m.sys.wrote.Keys !! m.lost) && Enabled(l, m, step)
    ensures var m' := Do(l, m, step); Groups(m'.sys) && (m'.sys.wrote.Keys !! m'.lost)
  {
    hide Groups, GC.Do, Plan, Running;
    match step
    case BeginOp(op) => StepKeepsGroups(m.sys, GC.BeginOp(op)); StepOps(m.sys, GC.BeginOp(op));
    case LogWrite(i, b, data) => StepKeepsGroups(m.sys, GC.LogWrite(i, b)); StepOps(m.sys, GC.LogWrite(i, b));
    case EndOp(i) => StepKeepsGroups(m.sys, GC.EndOp(i)); StepOps(m.sys, GC.EndOp(i));
    case Commit(written) =>
      StepKeepsGroups(m.sys, GC.Step.Commit);
      StepOps(m.sys, GC.Step.Commit);
      CrashKeepsGroups(m.sys);
    case Halt => CrashKeepsGroups(m.sys);
    case Boot(written) =>
  }

  // ----- runs -----

  /** A machine that is up, with nothing logged, on a disk whose log is empty. */
  function Booted(d0: Disk): Machine {
    Machine(GC.INIT, d0, true, map[], [], [], [], {})
  }

  lemma BootedInv(l: Layout, d0: Disk)
    requires Quiescent(l, d0)
    ensures Inv(l, d0, Booted(d0))
  {
    GC.EmptyUnion();
    QuiescentRecoverable(l, d0, d0);
    EmptyGoodBlocks(l, d0);
    assert GC.Listed([]) == {};
    hide Recoverable, Quiescent;
  }

  ghost predicate Run(l: Layout, d0: Disk, states: seq<Machine>, steps: seq<Step>) {
    && |states| == |steps| + 1 && Quiescent(l, d0) && states[0] == Booted(d0)
    && forall k :: 0 <= k < |steps| ==> Enabled(l, states[k], steps[k]) && states[k + 1] == Do(l, states[k], steps[k])
  }

  lemma {:induction false} RunKeepsInv(l: Layout, d0: Disk, states: seq<Machine>, steps: seq<Step>, k: nat)
    requires Run(l, d0, states, steps) && k <= |steps|
    ensures Inv(l, d0, states[k])
    decreases k
  {
    hide Inv, Enabled, Quiescent;
    if k == 0 {
      BootedInv(l, d0);
    } else {
      RunKeepsInv(l, d0, states, steps, k - 1);
      StepKeepsInv(l, d0, states[k - 1], steps[k - 1]);
    }
  }

  /** At any point of any interleaving of operations, commits, crashes and recoveries: recovery leads
      to exactly the writes whose commit reached its header write, in order; and these are the writes
      of whole operations, all that an operation ever logs or none of it. A machine that is up reads
      these and the writes since. */
  lemma WholeOperationsSurvive(l: Layout, d0: Disk, states: seq<Machine>, steps: seq<Step>, k: nat)
    requires Run(l, d0, states, steps) && k <= |steps|
    ensures var m := states[k];
      && GoodLog(l, m.disk) && Quiescent(l, Recovered(l, m.disk))
      && SameHome(l, Recovered(l, m.disk), Replay(d0, m.durable))
      && (forall op :: Of(m.durable, op) == [] || Of(m.durable, op) == Of(m.ever, op))
      && (m.up ==> forall b: nat :: b < |m.disk| && Home(l, b) ==>
            (if b in m.cache then m.cache[b] else m.disk[b]) == Replay(d0, m.durable + m.recent)[b])
  {
    RunKeepsInv(l, d0, states, steps, k);
    var m := states[k];
    RecoveredHome(l, m.disk, Replay(d0, m.durable));
    if m.up { ViewIs(l, d0, m); }
    forall op ensures Of(m.durable, op) == [] || Of(m.durable, op) == Of(m.ever, op) {
      assert Whole(m, op);
    }
    hide Contents, Replay, Home, Quiescent, Recoverable;
  }

  /** The record of log_writes is that of the run: each adds its operation, block and contents, and
      is what the buffer holds afterwards; nothing else adds or takes away. */
  lemma EverIsLogged(l: Layout, d0: Disk, states: seq<Machine>, steps: seq<Step>, k: nat)
    requires Run(l, d0, states, steps) && k < |steps|
    ensures |states| == |steps| + 1
    ensures var m, m' := states[k], states[k + 1];
      match steps[k]
      case LogWrite(i, b, data) =>
        && i < |m.sys.active| && m'.ever == m.ever + [Entry(m.sys.active[i].op, b, data)]
        && b in m'.cache && m'.cache[b] == data
      case _ => m'.ever == m.ever
  {
    hide Plan;
    assert Enabled(l, states[k], steps[k]) && states[k + 1] == Do(l, states[k], steps[k]);
  }

  lemma ViewIs(l: Layout, d0: Disk, m: Machine)
    requires Contents(l, d0, m) && m.up
    ensures |m.disk| == |d0|
    ensures forall b: nat :: b < |m.disk| && Home(l, b) ==>
              (if b in m.cache then m.cache[b] else m.disk[b]) == Replay(d0, m.durable + m.recent)[b]
  {
    QuiescentRecoverable(l, m.disk, Replay(d0, m.durable));
    ReplayMore(d0, m.durable, m.recent);
    hide Recoverable, Quiescent, Replay, Home;
    forall b: nat | b < |m.disk| && Home(l, b)
      ensures (if b in m.cache then m.cache[b] else m.disk[b]) == Replay(d0, m.durable + m.recent)[b]
    {
      if b !in m.cache { ReplayElsewhere(Replay(d0, m.durable), m.recent, b); }
    }
  }

  /** What has become durable stays so. */
  lemma {:induction false} DurableForever(l: Layout, d0: Disk, states: seq<Machine>, steps: seq<Step>, j: nat, k: nat)
    requires Run(l, d0, states, steps) && j <= k <= |steps|
    ensures states[j].durable <= states[k].durable && states[j].ever <= states[k].ever
    decreases k - j
  {
    hide Enabled, Quiescent;
    if j < k {
      DurableForever(l, d0, states, steps, j, k - 1);
      StepKeepsDurables(l, states[k - 1], steps[k - 1]);
    }
  }

  lemma StepKeepsDurables(l: Layout, m: Machine, step: Step)
    requires Enabled(l, m, step)
    ensures m.durable <= Do(l, m, step).durable && m.ever <= Do(l, m, step).ever
  {
    hide Plan, Running, GC.Do;
  }

  /** Once no operation is active and no commit under way, every operation that no crash has undone is
      durable with all its writes. */
  lemma EndedIsDurable(l: Layout, d0: Disk, states: seq<Machine>, steps: seq<Step>, k: nat, op: nat)
    requires Run(l, d0, states, steps) && k <= |steps|
    requires var m := states[k]; m.up && m.sys.ctl.outstanding == 0 && !m.sys.ctl.committing && op in m.sys.wrote
    ensures Of(states[k].durable, op) == Of(states[k].ever, op)
  {
    RunKeepsInv(l, d0, states, steps, k);
    assert Whole(states[k], op);
  }
}
