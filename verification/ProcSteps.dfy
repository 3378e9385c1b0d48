/** The process table as a value, and the critical sections of ptable.lock as steps on it:
    who is whose parent, who sleeps where, who has exited and who has been reaped. */
module ProcSteps {
  import opened Common
  import opened PQueue
  import opened MultiQueue

  datatype ProcState = UNUSED | EMBRYO | SLEEPING | RUNNABLE | RUNNING | ZOMBIE

  /** The #ifdef that picks the scheduler. */
  datatype Policy = FCFS | MLQ | DMLQ

  /** p->chan: a process address (wait), or any other kernel address. */
  datatype Chan = NoChan | ProcChan(slot: nat) | Other(id: int)

  datatype Proc = Proc(
    state: ProcState, pid: nat, parent: Option<nat>, chan: Chan, killed: bool, priority: int,
    created: nat, scheduled: nat, run: nat, ready: nat, slept: nat)

  /** exited and reaped record history: the pids that called exit, and those returned by wait. */
  datatype System = System(t: seq<Proc>, nextpid: nat, init: nat, ticks: nat, exited: set<nat>, reaped: seq<nat>)

  // ----- steps -----

  predicate IsRunning(t: seq<Proc>, cur: nat) {
    cur < |t| && t[cur].state == RUNNING
  }

  predicate SleepsOn(p: Proc, chan: Chan) {
    p.state == SLEEPING && p.chan == chan
  }

  /** A sleeper made runnable by wakeup1 or kill. */
  function Woken(policy: Policy, p: Proc): Proc {
    p.(state := RUNNABLE, priority := if policy == DMLQ then HIPR else p.priority)
  }

  function Notified(policy: Policy, p: Proc, chan: Chan): Proc {
    if SleepsOn(p, chan) then Woken(policy, p) else p
  }

  /** wakeup1() */
  function Wake(policy: Policy, t: seq<Proc>, chan: Chan): (r: seq<Proc>)
    ensures |r| == |t|
  {
    seq(|t|, i requires 0 <= i < |t| => Notified(policy, t[i], chan))
  }

  /** allocproc() in the free slot i. */
  function Alloc(s: System, i: nat): System
    requires i < |s.t|
  {
    s.(t := s.t[i := s.t[i].(state := EMBRYO, pid := s.nextpid, created := s.ticks, ready := 0, run := 0, slept := 0)],
       nextpid := s.nextpid + 1)
  }

  /** fork() gives up on the new process. */
  function Abort(s: System, i: nat): System
    requires i < |s.t|
  {
    s.(t := s.t[i := s.t[i].(state := UNUSED)])
  }

  /** fork() completes: the child of cur becomes runnable. */
  function Launch(policy: Policy, s: System, cur: nat, i: nat): System
    requires i < |s.t| && cur < |s.t|
  {
    var priority := if policy == FCFS then s.t[i].priority else s.t[cur].priority;
    s.(t := s.t[i := s.t[i].(parent := Some(cur), priority := priority, state := RUNNABLE)])
  }

  predicate HasZombieChild(t: seq<Proc>, q: nat) {
    exists i :: 0 <= i < |t| && t[i].parent == Some(q) && t[i].state == ZOMBIE
  }

  function Adopted(p: Proc, cur: nat, init: nat): Proc {
    if p.parent == Some(cur) then p.(parent := Some(init)) else p
  }

  /** exit() on slot i: the parent is woken, children pass to init, init is woken if one of
      them is a zombie, and the process itself becomes one. */
  function ExitSlot(policy: Policy, s: System, cur: nat, i: nat): Proc
    requires cur < |s.t| && i < |s.t|
  {
    var p1 := if s.t[cur].parent.Some? then Notified(policy, s.t[i], ProcChan(s.t[cur].parent.value)) else s.t[i];
    var p2 := Adopted(p1, cur, s.init);
    var p3 := if HasZombieChild(s.t, cur) then Notified(policy, p2, ProcChan(s.init)) else p2;
    if i == cur then p3.(state := ZOMBIE) else p3
  }

  function Exited(policy: Policy, s: System, cur: nat): System
    requires cur < |s.t|
  {
    s.(t := seq(|s.t|, i requires 0 <= i < |s.t| => ExitSlot(policy, s, cur, i)), exited := s.exited + {s.t[cur].pid})
  }

  /** wait() frees the zombie child i and returns its pid. */
  function Reaped(s: System, i: nat): System
    requires i < |s.t|
  {
    s.(t := s.t[i := s.t[i].(pid := 0, parent := None, killed := false, state := UNUSED)],
       reaped := s.reaped + [s.t[i].pid])
  }

  function Slept(s: System, cur: nat, chan: Chan): System
    requires cur < |s.t|
  {
    s.(t := s.t[cur := s.t[cur].(chan := chan, state := SLEEPING)])
  }

  function Killed(policy: Policy, s: System, i: nat): System
    requires i < |s.t|
  {
    var p := s.t[i].(killed := true);
    s.(t := s.t[i := if p.state == SLEEPING then Woken(policy, p) else p])
  }

  function Yielded(s: System, cur: nat): System
    requires cur < |s.t|
  {
    s.(t := s.t[cur := s.t[cur].(state := RUNNABLE)])
  }

  function Dispatched(s: System, i: nat): System
    requires i < |s.t|
  {
    s.(t := s.t[i := s.t[i].(state := RUNNING, scheduled := s.ticks)])
  }

  function Prioritized(s: System, i: nat, priority: int): System
    requires i < |s.t|
  {
    s.(t := s.t[i := s.t[i].(priority := priority)])
  }

  /** updateprocesstimes() on one process. */
  function Timed(p: Proc): Proc {
    if p.state == RUNNING then p.(run := p.run + 1)
    else if p.state == RUNNABLE then p.(ready := p.ready + 1)
    else if p.state == SLEEPING then p.(slept := p.slept + 1)
    else p
  }

  function Ticked(s: System): System {
    s.(t := seq(|s.t|, i requires 0 <= i < |s.t| => Timed(s.t[i])), ticks := s.ticks + 1)
  }

  datatype Step =
    | AllocStep(i: nat)
    | AbortStep(i: nat)
    | LaunchStep(cur: nat, i: nat)
    | ExitStep(cur: nat)
    | ReapStep(cur: nat, i: nat)
    | WaitSleepStep(cur: nat)
    | SleepStep(cur: nat, id: int)
    | WakeStep(chan: Chan)
    | KillStep(i: nat)
    | YieldStep(cur: nat)
    | DispatchStep(i: nat)
    | PriorityStep(i: nat, priority: int)
    | TickStep

  predicate IsChild(t: seq<Proc>, i: nat, q: nat) {
    i < |t| && t[i].parent == Some(q)
  }

  /** When the code can take the step. */
  predicate Enabled(s: System, step: Step) {
    match step
    case AllocStep(i) => i < |s.t| && s.t[i].state == UNUSED
    case AbortStep(i) => i < |s.t| && s.t[i].state == EMBRYO
    case LaunchStep(cur, i) => IsRunning(s.t, cur) && i < |s.t| && s.t[i].state == EMBRYO
    case ExitStep(cur) => IsRunning(s.t, cur) && cur != s.init
    case ReapStep(cur, i) => IsRunning(s.t, cur) && IsChild(s.t, i, cur) && s.t[i].state == ZOMBIE
    case WaitSleepStep(cur) => IsRunning(s.t, cur) && !HasZombieChild(s.t, cur)
    case SleepStep(cur, id) => IsRunning(s.t, cur)
    case WakeStep(chan) => true
    case KillStep(i) => i < |s.t|
    case YieldStep(cur) => IsRunning(s.t, cur)
    case DispatchStep(i) => i < |s.t| && s.t[i].state == RUNNABLE
    case PriorityStep(i, priority) => i < |s.t|
    case TickStep => true
  }

  function Do(policy: Policy, s: System, step: Step): System
    requires Enabled(s, step)
  {
    match step
    case AllocStep(i) => Alloc(s, i)
    case AbortStep(i) => Abort(s, i)
    case LaunchStep(cur, i) => Launch(policy, s, cur, i)
    case ExitStep(cur) => Exited(policy, s, cur)
    case ReapStep(cur, i) => Reaped(s, i)
    case WaitSleepStep(cur) => Slept(s, cur, ProcChan(cur))
    case SleepStep(cur, id) => Slept(s, cur, Other(id))
    case WakeStep(chan) => s.(t := Wake(policy, s.t, chan))
    case KillStep(i) => Killed(policy, s, i)
    case YieldStep(cur) => Yielded(s, cur)
    case DispatchStep(i) => Dispatched(s, i)
    case PriorityStep(i, priority) => Prioritized(s, i, priority)
    case TickStep => Ticked(s)
  }

  // ----- the process tree -----

  predicate Adult(p: Proc) {
    p.state == SLEEPING || p.state == RUNNABLE || p.state == RUNNING
  }

  ghost predicate Pids(s: System) {
    && (forall i :: 0 <= i < |s.t| ==> s.t[i].pid < s.nextpid)
    && (forall i :: 0 <= i < |s.t| && s.t[i].state != UNUSED ==> s.t[i].pid > 0 && s.t[i].pid !in s.reaped)
    && (forall i, j :: 0 <= i < j < |s.t| && s.t[i].pid > 0 ==> s.t[i].pid != s.t[j].pid)
    && (forall pid :: pid in s.exited || pid in s.reaped ==> pid < s.nextpid)
  }

  ghost predicate Parents(s: System) {
    && s.init < |s.t| && Adult(s.t[s.init]) && s.t[s.init].parent == None
    && (forall i :: 0 <= i < |s.t| ==> ParentOk(s, i))
  }

  predicate ParentOk(s: System, i: nat)
    requires i < |s.t|
  {
    var p := s.t[i];
    && (p.parent.Some? ==> p.parent.value < |s.t| && p.parent.value != i && Adult(s.t[p.parent.value]))
    && (p.state == UNUSED || p.state == EMBRYO ==> p.parent == None)
    && (p.state == ZOMBIE || Adult(p) ==> i == s.init || p.parent.Some?)
  }

  /** No process sleeps in wait while it has a zombie child. */
  ghost predicate Waiters(s: System) {
    forall i, q :: 0 <= i < |s.t| && 0 <= q < |s.t| && IsChild(s.t, i, q) && s.t[i].state == ZOMBIE ==>
      !SleepsOn(s.t[q], ProcChan(q))
  }

  ghost predicate Exits(s: System) {
    && (forall i :: 0 <= i < |s.t| && s.t[i].state == ZOMBIE ==> s.t[i].pid in s.exited)
    && (forall i :: 0 <= i < |s.t| && s.t[i].state != UNUSED && s.t[i].state != ZOMBIE ==> s.t[i].pid !in s.exited)
    && (forall i, j :: 0 <= i < j < |s.reaped| ==> s.reaped[i] != s.reaped[j])
    && (forall pid :: pid in s.reaped ==> pid in s.exited)
  }

  ghost predicate Tree(s: System) {
    Pids(s) && Parents(s) && Waiters(s) && Exits(s)
  }

  /** The table that userinit leaves: one runnable process in slot 0. */
  function Booted(policy: Policy, ticks: nat): System {
    var unused := Proc(UNUSED, 0, None, NoChan, false, 0, 0, 0, 0, 0, 0);
    System([Proc(RUNNABLE, 1, None, NoChan, false, if policy == FCFS then 0 else MDPR, ticks, 0, 0, 0, 0)] + seq(NPROC - 1, _ => unused), 2, 0, ticks, {}, [])
  }

  lemma BootedTree(policy: Policy, ticks: nat)
    ensures Tree(Booted(policy, ticks)) && |Booted(policy, ticks).t| == NPROC
  {
  }

  /** p' in place of p can disturb neither pids nor parents nor waiters. */
  predicate Harmless(p: Proc, p': Proc) {
    && p'.pid == p.pid && p'.parent == p.parent
    && (Adult(p) <==> Adult(p'))
    && (!Adult(p) ==> p'.state == p.state)
    && (p'.state == SLEEPING ==> p.state == SLEEPING && p'.chan == p.chan)
  }

  lemma HarmlessKeepsTree(s: System, s': System)
    requires Tree(s) && |s'.t| == |s.t|
    requires s'.nextpid == s.nextpid && s'.init == s.init && s'.exited == s.exited && s'.reaped == s.reaped
    requires forall i :: 0 <= i < |s.t| ==> Harmless(s.t[i], s'.t[i])
    ensures Tree(s')
  {
    forall j | 0 <= j < |s'.t| ensures ParentOk(s', j) { assert ParentOk(s, j) && Harmless(s.t[j], s'.t[j]); }
    forall i, q | 0 <= i < |s'.t| && 0 <= q < |s'.t| && IsChild(s'.t, i, q) && s'.t[i].state == ZOMBIE
      ensures !SleepsOn(s'.t[q], ProcChan(q))
    {
      assert Harmless(s.t[i], s'.t[i]) && Harmless(s.t[q], s'.t[q]) && IsChild(s.t, i, q);
    }
  }

  lemma AllocKeepsTree(s: System, i: nat)
    requires Tree(s) && Enabled(s, AllocStep(i))
    ensures Tree(Alloc(s, i))
  {
    var s' := Alloc(s, i);
    forall j | 0 <= j < |s'.t| ensures ParentOk(s', j) { assert ParentOk(s, j); }
    forall j, q | 0 <= j < |s'.t| && 0 <= q < |s'.t| && IsChild(s'.t, j, q) && s'.t[j].state == ZOMBIE
      ensures !SleepsOn(s'.t[q], ProcChan(q))
    {
      assert IsChild(s.t, j, q);
    }
  }

  lemma AbortKeepsTree(s: System, i: nat)
    requires Tree(s) && Enabled(s, AbortStep(i))
    ensures Tree(Abort(s, i))
  {
    var s' := Abort(s, i);
    forall j | 0 <= j < |s'.t| ensures ParentOk(s', j) { assert ParentOk(s, j); }
    forall j, q | 0 <= j < |s'.t| && 0 <= q < |s'.t| && IsChild(s'.t, j, q) && s'.t[j].state == ZOMBIE
      ensures !SleepsOn(s'.t[q], ProcChan(q))
    {
      assert IsChild(s.t, j, q);
    }
  }

  lemma LaunchKeepsTree(policy: Policy, s: System, cur: nat, i: nat)
    requires Tree(s) && Enabled(s, LaunchStep(cur, i))
    ensures Tree(Launch(policy, s, cur, i))
  {
    var s' := Launch(policy, s, cur, i);
    forall j | 0 <= j < |s'.t| ensures ParentOk(s', j) { assert ParentOk(s, j); }
    forall j, q | 0 <= j < |s'.t| && 0 <= q < |s'.t| && IsChild(s'.t, j, q) && s'.t[j].state == ZOMBIE
      ensures !SleepsOn(s'.t[q], ProcChan(q))
    {
      assert IsChild(s.t, j, q);
    }
  }

  lemma ReapKeepsTree(s: System, cur: nat, i: nat)
    requires Tree(s) && Enabled(s, ReapStep(cur, i))
    ensures Tree(Reaped(s, i))
  {
    ReapPids(s, cur, i);
    hide Pids, Exits;
    var s' := Reaped(s, i);
    forall j | 0 <= j < |s'.t| ensures ParentOk(s', j) { assert ParentOk(s, j); }
    forall j, q | 0 <= j < |s'.t| && 0 <= q < |s'.t| && IsChild(s'.t, j, q) && s'.t[j].state == ZOMBIE
      ensures !SleepsOn(s'.t[q], ProcChan(q))
    {
      assert IsChild(s.t, j, q);
    }
  }

  lemma ReapPids(s: System, cur: nat, i: nat)
    requires Pids(s) && Exits(s) && Enabled(s, ReapStep(cur, i))
    ensures Pids(Reaped(s, i)) && Exits(Reaped(s, i))
  {
  }

  lemma SleepKeepsTree(s: System, cur: nat, chan: Chan)
    requires Tree(s) && IsRunning(s.t, cur)
    requires chan.Other? || (chan == ProcChan(cur) && !HasZombieChild(s.t, cur))
    ensures Tree(Slept(s, cur, chan))
  {
    var s' := Slept(s, cur, chan);
    forall j | 0 <= j < |s'.t| ensures ParentOk(s', j) { assert ParentOk(s, j); }
    forall j, q | 0 <= j < |s'.t| && 0 <= q < |s'.t| && IsChild(s'.t, j, q) && s'.t[j].state == ZOMBIE
      ensures !SleepsOn(s'.t[q], ProcChan(q))
    {
      assert IsChild(s.t, j, q) && s.t[j].state == ZOMBIE;
    }
  }

  lemma WakeKeepsTree(policy: Policy, s: System, chan: Chan)
    requires Tree(s)
    ensures Tree(s.(t := Wake(policy, s.t, chan)))
  {
    HarmlessKeepsTree(s, s.(t := Wake(policy, s.t, chan)));
  }

  /** Slot by slot, what exit() does to a table: the exiting process becomes a zombie, its
      children init's, and nobody it could owe a wakeup stays asleep in wait. */
  lemma ExitedSlots(policy: Policy, s: System, cur: nat, i: nat)
    requires Parents(s) && Enabled(s, ExitStep(cur)) && i < |s.t|
    ensures |Exited(policy, s, cur).t| == |s.t|
    ensures var p, p' := s.t[i], Exited(policy, s, cur).t[i];
            && p'.pid == p.pid
            && p'.parent == (if p.parent == Some(cur) then Some(s.init) else p.parent)
            && (i == cur ==> p'.state == ZOMBIE)
            && (i != cur ==> (Adult(p) <==> Adult(p')) && (!Adult(p) ==> p'.state == p.state))
            && (p'.state == SLEEPING ==> p.state == SLEEPING && p'.chan == p.chan)
            && (Some(i) == s.t[cur].parent ==> !SleepsOn(p', ProcChan(i)))
            && (i == s.init && HasZombieChild(s.t, cur) ==> !SleepsOn(p', ProcChan(i)))
  {
    hide HasZombieChild;
    assert ParentOk(s, cur);
    assert Exited(policy, s, cur).t[i] == ExitSlot(policy, s, cur, i);
  }

  lemma ExitKeepsTree(policy: Policy, s: System, cur: nat)
    requires Tree(s) && Enabled(s, ExitStep(cur))
    ensures Tree(Exited(policy, s, cur))
  {
    ExitParents(policy, s, cur);
    ExitWaiters(policy, s, cur);
    ExitPids(policy, s, cur);
  }

  lemma ExitPids(policy: Policy, s: System, cur: nat)
    requires Tree(s) && Enabled(s, ExitStep(cur))
    ensures Pids(Exited(policy, s, cur)) && Exits(Exited(policy, s, cur))
  {
    hide Exited, HasZombieChild, Parents;
    var s' := Exited(policy, s, cur);
    ExitHistory(policy, s, cur);
    forall i | 0 <= i < |s.t|
      ensures |s'.t| == |s.t| && s'.t[i].pid == s.t[i].pid
      ensures if i == cur then s'.t[i].state == ZOMBIE
              else (s'.t[i].state == UNUSED <==> s.t[i].state == UNUSED) && (s'.t[i].state == ZOMBIE <==> s.t[i].state == ZOMBIE)
    {
      ExitedSlots(policy, s, cur, i);
    }
  }

  lemma ExitHistory(policy: Policy, s: System, cur: nat)
    requires cur < |s.t|
    ensures var s' := Exited(policy, s, cur);
            s'.nextpid == s.nextpid && s'.init == s.init && s'.reaped == s.reaped && s'.exited == s.exited + {s.t[cur].pid}
  {
  }

  lemma ExitParents(policy: Policy, s: System, cur: nat)
    requires Tree(s) && Enabled(s, ExitStep(cur))
    ensures Parents(Exited(policy, s, cur))
  {
    hide Exited, HasZombieChild, Pids, Waiters, Exits;
    var s' := Exited(policy, s, cur);
    ExitHistory(policy, s, cur);
    ExitedSlots(policy, s, cur, s.init);
    assert ParentOk(s, s.init);
    forall i | 0 <= i < |s'.t| ensures ParentOk(s', i) {
      ExitedSlots(policy, s, cur, i);
      assert ParentOk(s, i);
      if s.t[i].parent.Some? { ExitedSlots(policy, s, cur, s.t[i].parent.value); }
    }
  }

  lemma ExitWaiters(policy: Policy, s: System, cur: nat)
    requires Tree(s) && Enabled(s, ExitStep(cur))
    ensures Waiters(Exited(policy, s, cur))
  {
    hide Exited, Pids, Exits;
    ExitedSlots(policy, s, cur, cur);
    ExitHistory(policy, s, cur);
    var s' := Exited(policy, s, cur);
    forall i, q | 0 <= i < |s'.t| && 0 <= q < |s'.t| && IsChild(s'.t, i, q) && s'.t[i].state == ZOMBIE
      ensures !SleepsOn(s'.t[q], ProcChan(q))
    {
      ExitedSlots(policy, s, cur, cur);
      ExitedSlots(policy, s, cur, i);
      ExitedSlots(policy, s, cur, q);
      assert ParentOk(s, cur);
      if s.t[i].parent == Some(cur) {
        assert s.t[i].state == ZOMBIE && HasZombieChild(s.t, cur);
      } else {
        assert IsChild(s.t, i, q);
      }
    }
  }

  /** Every step of every scheduler keeps the process tree. */
  lemma StepKeepsTree(policy: Policy, s: System, step: Step)
    requires Tree(s) && Enabled(s, step)
    ensures Tree(Do(policy, s, step)) && |Do(policy, s, step).t| == |s.t|
  {
    hide Tree;
    match step
    case AllocStep(i) => AllocKeepsTree(s, i);
    case AbortStep(i) => AbortKeepsTree(s, i);
    case LaunchStep(cur, i) => LaunchKeepsTree(policy, s, cur, i);
    case ExitStep(cur) => ExitKeepsTree(policy, s, cur);
    case ReapStep(cur, i) => ReapKeepsTree(s, cur, i);
    case WaitSleepStep(cur) => SleepKeepsTree(s, cur, ProcChan(cur));
    case SleepStep(cur, id) => SleepKeepsTree(s, cur, Other(id));
    case WakeStep(chan) => WakeKeepsTree(policy, s, chan);
    case KillStep(i) => HarmlessKeepsTree(s, Killed(policy, s, i));
    case YieldStep(cur) => HarmlessKeepsTree(s, Yielded(s, cur));
    case DispatchStep(i) => HarmlessKeepsTree(s, Dispatched(s, i));
    case PriorityStep(i, priority) => HarmlessKeepsTree(s, Prioritized(s, i, priority));
    case TickStep => HarmlessKeepsTree(s, Ticked(s));
  }

  // ----- runs -----

  ghost predicate Run(policy: Policy, states: seq<System>, steps: seq<Step>) {
    && |states| == |steps| + 1
    && (exists ticks :: states[0] == Booted(policy, ticks))
    && forall k :: 0 <= k < |steps| ==> Enabled(states[k], steps[k]) && states[k + 1] == Do(policy, states[k], steps[k])
  }

  lemma {:induction false} RunsKeepTree(policy: Policy, states: seq<System>, steps: seq<Step>, k: nat)
    requires Run(policy, states, steps) && k <= |steps|
    ensures Tree(states[k]) && |states[k].t| == NPROC
    decreases k
  {
    if k == 0 {
      var ticks :| states[0] == Booted(policy, ticks);
      BootedTree(policy, ticks);
    } else {
      RunsKeepTree(policy, states, steps, k - 1);
      StepKeepsTree(policy, states[k - 1], steps[k - 1]);
    }
  }

  /** The promises about the process tree at every point of every run. */
  lemma ProcessTree(policy: Policy, states: seq<System>, steps: seq<Step>, k: nat)
    requires Run(policy, states, steps) && k <= |steps|
    ensures var t := states[k].t;
            && (forall i, j :: 0 <= i < j < |t| && t[i].state != UNUSED && t[j].state != UNUSED ==> t[i].pid != t[j].pid)
            && (forall i :: 0 <= i < |t| && t[i].parent.Some? ==>
                  t[i].parent.value < |t| && t[t[i].parent.value].state != UNUSED && t[t[i].parent.value].state != ZOMBIE)
            && (forall q :: 0 <= q < |t| && HasZombieChild(t, q) ==> !SleepsOn(t[q], ProcChan(q)))
            && (forall i, j :: 0 <= i < j < |states[k].reaped| ==> states[k].reaped[i] != states[k].reaped[j])
            && (forall pid :: pid in states[k].reaped ==> pid in states[k].exited)
  {
    RunsKeepTree(policy, states, steps, k);
    var t := states[k].t;
    forall i | 0 <= i < |t| && t[i].parent.Some?
      ensures t[i].parent.value < |t| && t[t[i].parent.value].state != UNUSED && t[t[i].parent.value].state != ZOMBIE
    {
      assert ParentOk(states[k], i);
    }
    forall q | 0 <= q < |t| && HasZombieChild(t, q) ensures !SleepsOn(t[q], ProcChan(q)) {
      var i :| 0 <= i < |t| && t[i].parent == Some(q) && t[i].state == ZOMBIE;
      assert IsChild(t, i, q);
    }
  }

  /** exit() leaves a zombie whose parent is awake, and nobody with the exited process as parent. */
  lemma ExitReachesParent(policy: Policy, s: System, cur: nat)
    requires Tree(s) && Enabled(s, ExitStep(cur))
    ensures var q := s.t[cur].parent; var s' := Exited(policy, s, cur);
            && q.Some? && q.value < |s'.t| && Adult(s'.t[q.value]) && !SleepsOn(s'.t[q.value], ProcChan(q.value))
            && s'.t[cur].state == ZOMBIE && s'.t[cur].parent == q
            && (forall i :: 0 <= i < |s'.t| ==> s'.t[i].parent != Some(cur))
  {
    ExitedSlots(policy, s, cur, cur);
    assert ParentOk(s, cur) && ParentOk(s, s.init);
    hide Exited, HasZombieChild, Pids, Waiters, Exits;
    forall i | 0 <= i < |s.t| ensures Exited(policy, s, cur).t[i].parent != Some(cur) {
      ExitedSlots(policy, s, cur, i);
    }
    ExitedSlots(policy, s, cur, s.t[cur].parent.value);
  }

  /** Slot i holds the zombie with this pid, whose parent is awake, or it has been reaped. */
  predicate Noticed(s: System, i: nat, pid: nat) {
    || pid in s.reaped
    || (i < |s.t| && s.t[i].state == ZOMBIE && s.t[i].pid == pid && s.t[i].parent.Some?
        && s.t[i].parent.value < |s.t| && Adult(s.t[s.t[i].parent.value])
        && !SleepsOn(s.t[s.t[i].parent.value], ProcChan(s.t[i].parent.value)))
  }

  /** From its exit on a process is a zombie with a parent that does not sleep in wait, until that
      parent, or init in its place, has reaped it: whatever the others do meanwhile. */
  lemma {:induction false} ExitIsNoticed(policy: Policy, states: seq<System>, steps: seq<Step>, k: nat, m: nat, i: nat)
    requires Run(policy, states, steps) && k < m <= |steps| && steps[k] == ExitStep(i)
    ensures i < |states[k].t| && Noticed(states[m], i, states[k].t[i].pid)
    decreases m
  {
    hide Run, Tree, Do, Enabled, Noticed, Exited;
    RunsKeepTree(policy, states, steps, m - 1);
    RunStep(policy, states, steps, k);
    RunStep(policy, states, steps, m - 1);
    if m == k + 1 {
      ExitNoticed(policy, states[k], i);
    } else {
      ExitIsNoticed(policy, states, steps, k, m - 1, i);
      StepNoticed(policy, states[m - 1], steps[m - 1], i, states[k].t[i].pid);
    }
  }

  lemma RunStep(policy: Policy, states: seq<System>, steps: seq<Step>, k: nat)
    requires Run(policy, states, steps) && k < |steps|
    ensures |states| == |steps| + 1 && Enabled(states[k], steps[k]) && states[k + 1] == Do(policy, states[k], steps[k])
    ensures forall cur: nat :: steps[k] == ExitStep(cur) ==>
              cur < |states[k].t| && Enabled(states[k], ExitStep(cur)) && states[k + 1] == Exited(policy, states[k], cur)
  {
  }

  lemma StillNoticed(s: System, i: nat, pid: nat)
    requires Tree(s) && (pid in s.reaped || (i < |s.t| && s.t[i].state == ZOMBIE && s.t[i].pid == pid))
    ensures Noticed(s, i, pid)
  {
    hide Tree;
    if pid !in s.reaped { AwakeParent(s, i); }
  }

  lemma ExitNoticed(policy: Policy, s: System, i: nat)
    requires Tree(s) && Enabled(s, ExitStep(i))
    ensures Noticed(Exited(policy, s, i), i, s.t[i].pid)
  {
    ExitReachesParent(policy, s, i);
    ExitedSlots(policy, s, i, i);
  }

  lemma StepNoticed(policy: Policy, s: System, step: Step, i: nat, pid: nat)
    requires Tree(s) && Enabled(s, step) && Noticed(s, i, pid)
    ensures Noticed(Do(policy, s, step), i, pid)
  {
    ZombieStays(policy, s, step, i, pid);
    StepKeepsTree(policy, s, step);
    StillNoticed(Do(policy, s, step), i, pid);
  }

  /** No step but its reaping changes a zombie. */
  lemma ZombieStays(policy: Policy, s: System, step: Step, i: nat, pid: nat)
    requires Tree(s) && Enabled(s, step) && Noticed(s, i, pid)
    ensures var s' := Do(policy, s, step);
      pid in s'.reaped || (i < |s'.t| && s'.t[i].state == ZOMBIE && s'.t[i].pid == pid)
  {
    hide Tree, Adult;
    match step
    case ExitStep(cur) => if i < |s.t| { ExitedZombie(policy, s, cur, i); }
    case _ =>
  }

  lemma ExitedZombie(policy: Policy, s: System, cur: nat, i: nat)
    requires Tree(s) && Enabled(s, ExitStep(cur)) && i < |s.t|
    ensures var s' := Exited(policy, s, cur);
      && s'.reaped == s.reaped && |s'.t| == |s.t|
      && (s.t[i].state == ZOMBIE ==> s'.t[i].state == ZOMBIE && s'.t[i].pid == s.t[i].pid)
  {
    ExitedSlots(policy, s, cur, i);
  }

  lemma AwakeParent(s: System, i: nat)
    requires Tree(s) && i < |s.t| && s.t[i].state == ZOMBIE
    ensures s.t[i].parent.Some? && s.t[i].parent.value < |s.t|
    ensures Adult(s.t[s.t[i].parent.value]) && !SleepsOn(s.t[s.t[i].parent.value], ProcChan(s.t[i].parent.value))
  {
    assert ParentOk(s, i) && ParentOk(s, s.init);
    if s.t[i].parent.Some? { assert IsChild(s.t, i, s.t[i].parent.value); }
  }
}
