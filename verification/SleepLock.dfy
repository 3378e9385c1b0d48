/** Sleep locks over sleep() and wakeup(): processes on any number of CPUs that interleave between
    any two steps, where a step is at most one operation on a spinlock, one turn of wakeup1()'s loop
    or one update of fields that a held spinlock protects. */
module SleepLock {
  import opened Common

  /** Where a process is. All but the first are inside acquiresleep(), releasesleep() or
      holdingsleep() of lock l, or in a call of sleep() or wakeup() made there. */
  datatype Pc =
    | Outside
    | Acquiring(l: nat)           // about to acquire lk->lk, at first or at the end of sleep()
    | Testing(l: nat)             // the while loop's test
    | FallingAsleep(l: nat)       // in sleep(), about to acquire ptable.lock
    | Handing(l: nat)             // holds both spinlocks, about to release lk->lk
    | Switching(l: nat)           // about to set chan and state and call sched()
    | Asleep(l: nat)              // in sched(), or just back from it
    | Taking(l: nat)              // about to set locked and pid
    | Leaving(l: nat)             // about to release lk->lk
    | Releasing(l: nat)           // releasesleep(), about to acquire lk->lk
    | Clearing(l: nat)            // about to clear locked and pid
    | Waking(l: nat)              // in wakeup(), about to acquire ptable.lock
    | Scanning(l: nat, next: nat) // in wakeup1(), at process number next
    | Asking(l: nat)              // holdingsleep(), about to acquire lk->lk
    | Reading(l: nat)             // reads locked and pid

  datatype State = RUNNABLE | RUNNING | SLEEPING

  datatype Chan = NoChan | Lock(l: nat) | Other

  /** switched: inside sched(), so that ptable.lock is to be released first. held: the locks it
      took in acquiresleep() and has not cleared in releasesleep(). */
  datatype Proc = Proc(pid: int, pc: Pc, state: State, chan: Chan, switched: bool, held: set<nat>)

  datatype SleepLock = SleepLock(lk: Option<nat>, locked: bool, pid: int)

  datatype Owner = Nobody | Process(i: nat) | Scheduler

  datatype System = System(procs: seq<Proc>, locks: seq<SleepLock>, ptable: Owner)

  datatype Step =
    | Call(i: nat, pc: Pc) // process i calls one of the three functions
    | Go(i: nat)           // process i goes on in it
    | Resume(i: nat)       // process i, back in sched(), goes on
    | Yield(i: nat)        // a timer interrupt takes the CPU from process i
    | Wait(i: nat)         // process i sleeps on another channel
    | Wakeup(i: nat)       // another channel's wakeup reaches process i
    | Kill(i: nat, j: nat) // process i kills process j
    | Choose               // a scheduler acquires ptable.lock
    | Run(i: nat)          // and switches to process i
    | Release              // or releases ptable.lock

  // ----- steps -----

  /** Process i holds no spinlock, so interrupts are on. */
  predicate Interruptible(p: Proc) {
    !p.switched && (p.pc.Outside? || p.pc.Acquiring? || p.pc.Releasing? || p.pc.Asking?)
  }

  predicate HasLock(s: System, pc: Pc) {
    !pc.Outside? ==> pc.l < |s.locks|
  }

  predicate Wellformed(s: System) {
    forall i :: 0 <= i < |s.procs| ==> HasLock(s, s.procs[i].pc)
  }

  predicate Free(s: System, l: nat) {
    l < |s.locks| && s.locks[l].lk.None?
  }

  predicate Can(s: System, step: Step)
    requires Wellformed(s)
  {
    match step
    case Call(i, pc) =>
      && i < |s.procs| && s.procs[i].state == RUNNING && !s.procs[i].switched && s.procs[i].pc.Outside?
      && HasLock(s, pc)
      && (pc.Acquiring? || pc.Asking? || (pc.Releasing? && pc.l in s.procs[i].held))
    case Go(i) => Steps(s, i)
    case Resume(i) => i < |s.procs| && s.procs[i].state == RUNNING && s.procs[i].switched
    case Yield(i) =>
      i < |s.procs| && s.procs[i].state == RUNNING && Interruptible(s.procs[i]) && s.ptable == Nobody
    case Wait(i) =>
      && i < |s.procs| && s.procs[i].state == RUNNING && !s.procs[i].switched && s.procs[i].pc.Outside?
      && s.ptable == Nobody
    case Wakeup(i) => i < |s.procs| && s.procs[i].state == SLEEPING && s.procs[i].chan == Other && s.ptable == Nobody
    case Kill(i, j) =>
      && i < |s.procs| && s.procs[i].state == RUNNING && !s.procs[i].switched && s.procs[i].pc.Outside?
      && j < |s.procs| && s.ptable == Nobody
    case Choose => s.ptable == Nobody
    case Run(i) => s.ptable == Scheduler && i < |s.procs| && s.procs[i].state == RUNNABLE
    case Release => s.ptable == Scheduler
  }

  /** A process at pc waits for nothing: acquire() spins while the spinlock is taken. */
  predicate CanGo(s: System, pc: Pc)
    requires HasLock(s, pc)
  {
    match pc
    case Outside | Asleep(_) => false
    case Acquiring(l) => Free(s, l)
    case Releasing(l) => Free(s, l)
    case Asking(l) => Free(s, l)
    case FallingAsleep(_) => s.ptable == Nobody
    case Waking(_) => s.ptable == Nobody
    case _ => true
  }

  predicate Steps(s: System, i: nat) {
    && i < |s.procs| && s.procs[i].state == RUNNING && !s.procs[i].switched
    && HasLock(s, s.procs[i].pc) && CanGo(s, s.procs[i].pc)
  }

  function SetPc(s: System, i: nat, pc: Pc): System
    requires i < |s.procs|
  {
    s.(procs := s.procs[i := s.procs[i].(pc := pc)])
  }

  function SetProc(s: System, i: nat, p: Proc): System
    requires i < |s.procs|
  {
    s.(procs := s.procs[i := p])
  }

  /** acquire(&lk->lk) and release(&lk->lk) */
  function SetOwner(s: System, l: nat, lk: Option<nat>): System
    requires l < |s.locks|
  {
    s.(locks := s.locks[l := s.locks[l].(lk := lk)])
  }

  function SetLocked(s: System, l: nat, locked: bool, pid: int): System
    requires l < |s.locks|
  {
    s.(locks := s.locks[l := s.locks[l].(locked := locked, pid := pid)])
  }

  /** One turn of wakeup1()'s loop. */
  function Woken(p: Proc, l: nat): Proc {
    if p.state == SLEEPING && p.chan == Lock(l) then p.(state := RUNNABLE) else p
  }

  function Gone(s: System, i: nat): System
    requires i < |s.procs| && HasLock(s, s.procs[i].pc)
  {
    var p := s.procs[i];
    match p.pc
    case Outside => s
    case Asleep(_) => s
    case Acquiring(l) => SetOwner(SetPc(s, i, Testing(l)), l, Some(i))
    case Testing(l) => SetPc(s, i, if s.locks[l].locked then FallingAsleep(l) else Taking(l))
    case FallingAsleep(l) => SetPc(s, i, Handing(l)).(ptable := Process(i))
    case Handing(l) => SetOwner(SetPc(s, i, Switching(l)), l, None)
    case Switching(l) =>
      SetProc(s, i, p.(pc := Asleep(l), chan := Lock(l), state := SLEEPING, switched := true)).(ptable := Scheduler)
    case Taking(l) => SetLocked(SetProc(s, i, p.(pc := Leaving(l), held := p.held + {l})), l, true, p.pid)
    case Leaving(l) => SetOwner(SetPc(s, i, Outside), l, None)
    case Releasing(l) => SetOwner(SetPc(s, i, Clearing(l)), l, Some(i))
    case Clearing(l) => SetLocked(SetProc(s, i, p.(pc := Waking(l), held := p.held - {l})), l, false, 0)
    case Waking(l) => SetPc(s, i, Scanning(l, 0)).(ptable := Process(i))
    case Scanning(l, j) =>
      if j < |s.procs| then SetPc(SetProc(s, j, Woken(s.procs[j], l)), i, Scanning(l, j + 1))
      else SetPc(s, i, Leaving(l)).(ptable := Nobody)
    case Asking(l) => SetOwner(SetPc(s, i, Reading(l)), l, Some(i))
    case Reading(l) => SetPc(s, i, Leaving(l))
  }

  function Next(s: System, step: Step): System
    requires Wellformed(s) && Can(s, step)
  {
    match step
    case Call(i, pc) => SetPc(s, i, pc)
    case Go(i) => Gone(s, i)
    case Resume(i) =>
      var p := s.procs[i].(switched := false);
      SetProc(s, i, if p.pc.Asleep? then p.(pc := Acquiring(p.pc.l), chan := NoChan) else p.(chan := NoChan))
        .(ptable := Nobody)
    case Yield(i) => SetProc(s, i, s.procs[i].(state := RUNNABLE, switched := true)).(ptable := Scheduler)
    case Wait(i) =>
      SetProc(s, i, s.procs[i].(state := SLEEPING, chan := Other, switched := true)).(ptable := Scheduler)
    case Wakeup(i) => SetProc(s, i, s.procs[i].(state := RUNNABLE))
    case Kill(i, j) =>
      if s.procs[j].state == SLEEPING then SetProc(s, j, s.procs[j].(state := RUNNABLE)) else s
    case Choose => s.(ptable := Scheduler)
    case Run(i) => SetProc(s, i, s.procs[i].(state := RUNNING)).(ptable := Process(i))
    case Release => s.(ptable := Nobody)
  }

  // ----- what every state keeps -----

  /** A process at pc holds the spinlock of lock l. */
  predicate HoldsLk(pc: Pc, l: nat) {
    && !pc.Outside? && pc.l == l
    && !pc.Acquiring? && !pc.Switching? && !pc.Asleep? && !pc.Releasing? && !pc.Asking?
  }

  predicate HoldsPtable(p: Proc) {
    p.pc.Handing? || p.pc.Switching? || p.pc.Scanning? || (p.switched && p.state == RUNNING)
  }

  /** What holds of one process by itself. */
  predicate ProcOk(p: Proc) {
    && (p.pc.Asleep? ==> p.switched)
    && (p.switched ==> p.pc.Asleep? || Interruptible(p.(switched := false)))
    && (p.state != RUNNING ==> p.switched)
    && (p.state == SLEEPING ==> p.chan == (if p.pc.Asleep? then Lock(p.pc.l) else Other))
    && (p.pc.Releasing? || p.pc.Clearing? ==> p.pc.l in p.held)
  }

  /** Lock l of a process inside the window of releasesleep() between clearing locked and the turn
      of wakeup1()'s loop that reaches process j. */
  predicate InWindow(s: System, l: nat, j: nat)
    requires l < |s.locks|
  {
    && s.locks[l].lk.Some? && s.locks[l].lk.value < |s.procs|
    && var pc := s.procs[s.locks[l].lk.value].pc;
       pc == Waking(l) || (pc.Scanning? && pc.l == l && pc.next <= j)
  }

  /** What holds of process i's place with respect to the locks. */
  predicate PlaceOk(s: System, i: nat)
    requires i < |s.procs|
  {
    var p := s.procs[i];
    && HasLock(s, p.pc)
    && (p.pc.FallingAsleep? || p.pc.Handing? ==> s.locks[p.pc.l].locked)
    && (p.pc.Taking? || p.pc.Waking? || p.pc.Scanning? ==> !s.locks[p.pc.l].locked)
    && (p.pc.Switching? && !s.locks[p.pc.l].locked ==> InWindow(s, p.pc.l, 0))
    && (p.pc.Asleep? && p.state == SLEEPING && !s.locks[p.pc.l].locked ==> InWindow(s, p.pc.l, i))
  }

  predicate HeldOk(s: System, i: nat, l: nat)
    requires i < |s.procs| && l < |s.locks|
  {
    && (HoldsLk(s.procs[i].pc, l) <==> s.locks[l].lk == Some(i))
    && (l in s.procs[i].held <==> s.locks[l].locked && s.locks[l].pid == s.procs[i].pid)
  }

  predicate Pids(s: System) {
    forall i, j :: 0 <= i < |s.procs| && 0 <= j < |s.procs| && i != j ==> s.procs[i].pid != s.procs[j].pid
  }

  predicate OwnerOk(s: System, l: nat)
    requires l < |s.locks|
  {
    && (s.locks[l].lk.Some? ==> s.locks[l].lk.value < |s.procs|)
    && (s.locks[l].locked ==> exists i :: 0 <= i < |s.procs| && l in s.procs[i].held)
  }

  predicate PtableOk(s: System, i: nat)
    requires i < |s.procs|
  {
    HoldsPtable(s.procs[i]) <==> s.ptable == Process(i)
  }

  predicate Inv(s: System) {
    && Pids(s)
    && (forall i :: 0 <= i < |s.procs| ==> ProcOk(s.procs[i]) && PlaceOk(s, i) && PtableOk(s, i))
    && (forall i, l :: 0 <= i < |s.procs| && 0 <= l < |s.locks| ==> HeldOk(s, i, l))
    && (forall l :: 0 <= l < |s.locks| ==> OwnerOk(s, l))
    && (s.ptable.Process? ==> s.ptable.i < |s.procs|)
  }

  lemma GoKeepsHeld(s: System, i: nat, j: nat, l: nat)
    requires Steps(s, i) && j < |s.procs| && l < |s.locks|
    requires HeldOk(s, i, l) && HeldOk(s, j, l) && PlaceOk(s, i) && ProcOk(s.procs[i])
    requires i != j ==> s.procs[i].pid != s.procs[j].pid
    ensures HeldOk(Gone(s, i), j, l)
  {
  }

  lemma GoKeepsOwner(s: System, i: nat, l: nat)
    requires Inv(s) && Steps(s, i) && l < |s.locks|
    ensures OwnerOk(Gone(s, i), l)
  {
    hide PlaceOk, ProcOk, PtableOk;
    assert OwnerOk(s, l);
    var t := Gone(s, i);
    if t.locks[l].locked {
      if s.locks[l].locked {
        var k :| 0 <= k < |s.procs| && l in s.procs[k].held;
        assert HeldOk(s, k, l) && HeldOk(s, i, l);
        assert l in t.procs[k].held;
      } else {
        assert l in t.procs[i].held;
      }
    }
  }

  lemma GoKeepsProc(s: System, i: nat, j: nat)
    requires Inv(s) && Steps(s, i) && j < |s.procs|
    ensures ProcOk(Gone(s, i).procs[j]) && PtableOk(Gone(s, i), j)
  {
    hide PlaceOk, OwnerOk, HeldOk;
    assert ProcOk(s.procs[i]) && ProcOk(s.procs[j]) && PtableOk(s, i) && PtableOk(s, j);
  }

  /** While lock l stays taken by a process that does not take this step, the window stays open. */
  lemma WindowKept(s: System, i: nat, l: nat, j: nat)
    requires Steps(s, i) && l < |s.locks| && InWindow(s, l, j) && j < |s.procs|
    requires HeldOk(s, i, l) && HeldOk(s, i, s.procs[i].pc.l)
    ensures var t := Gone(s, i);
      InWindow(t, l, j) || (s.procs[i].pc.Scanning? && s.procs[i].pc.l == l && s.procs[i].pc.next == j)
  {
  }

  lemma GoKeepsOwnPlace(s: System, i: nat)
    requires Inv(s) && Steps(s, i)
    ensures PlaceOk(Gone(s, i), i)
  {
    hide OwnerOk, PtableOk;
    var l := s.procs[i].pc.l;
    assert PlaceOk(s, i) && ProcOk(s.procs[i]) && HeldOk(s, i, l);
  }

  /** What a step of process i does to another process and to a lock. */
  lemma GoElsewhere(s: System, i: nat, j: nat, l: nat)
    requires Steps(s, i) && j < |s.procs| && j != i && l < |s.locks|
    ensures var t := Gone(s, i);
      && |t.procs| == |s.procs| && |t.locks| == |s.locks|
      && t.procs[j] == (if s.procs[i].pc.Scanning? && s.procs[i].pc.next == j then Woken(s.procs[j], s.procs[i].pc.l)
                        else s.procs[j])
      && t.locks[l].locked == (s.procs[i].pc == Taking(l) || (s.procs[i].pc != Clearing(l) && s.locks[l].locked))
      && (s.procs[i].pc == Clearing(l) && HeldOk(s, i, l) ==> InWindow(t, l, j) && InWindow(t, l, 0))
  {
  }

  lemma GoKeepsPlace(s: System, i: nat, j: nat)
    requires Steps(s, i) && j < |s.procs| && j != i
    requires PlaceOk(s, i) && PlaceOk(s, j) && ProcOk(s.procs[i]) && ProcOk(s.procs[j])
    requires PtableOk(s, i) && PtableOk(s, j) && HeldOk(s, i, s.procs[i].pc.l) && HeldOk(s, j, s.procs[i].pc.l)
    requires !s.procs[j].pc.Outside? ==> HeldOk(s, i, s.procs[j].pc.l) && HeldOk(s, j, s.procs[j].pc.l)
    ensures PlaceOk(Gone(s, i), j)
  {
    hide Gone, InWindow;
    GoElsewhere(s, i, j, s.procs[i].pc.l);
    if !s.procs[j].pc.Outside? {
      var l := s.procs[j].pc.l;
      GoElsewhere(s, i, j, l);
      if InWindow(s, l, 0) { WindowKept(s, i, l, 0); }
      if InWindow(s, l, j) { WindowKept(s, i, l, j); }
    }
  }

  lemma GoKeepsInv(s: System, i: nat)
    requires Inv(s) && Steps(s, i)
    ensures Inv(Gone(s, i))
  {
    hide Gone, HeldOk, OwnerOk, PlaceOk, PtableOk, ProcOk, CanGo;
    var t := Gone(s, i);
    GoKeepsShape(s, i);
    var li := s.procs[i].pc.l;
    forall j | 0 <= j < |s.procs| ensures ProcOk(t.procs[j]) && PlaceOk(t, j) && PtableOk(t, j) {
      GoKeepsProc(s, i, j);
      if i == j {
        GoKeepsOwnPlace(s, i);
      } else {
        assert HeldOk(s, i, li) && HeldOk(s, j, li);
        PlaceHasLock(s, j);
        GoKeepsPlace(s, i, j);
      }
    }
    forall j, l | 0 <= j < |s.procs| && 0 <= l < |s.locks| ensures HeldOk(t, j, l) {
      GoKeepsHeld(s, i, j, l);
    }
    forall l | 0 <= l < |s.locks| ensures OwnerOk(t, l) {
      GoKeepsOwner(s, i, l);
    }
  }

  lemma PlaceHasLock(s: System, j: nat)
    requires j < |s.procs| && PlaceOk(s, j)
    ensures HasLock(s, s.procs[j].pc)
  {
  }

  lemma GoKeepsShape(s: System, i: nat)
    requires Steps(s, i) && Pids(s) && (s.ptable.Process? ==> s.ptable.i < |s.procs|)
    ensures var t := Gone(s, i);
      && !s.procs[i].pc.Outside? && |t.procs| == |s.procs| && |t.locks| == |s.locks| && Pids(t)
      && (t.ptable.Process? ==> t.ptable.i < |t.procs|)
  {
    hide Pids;
    var t := Gone(s, i);
    assert forall j :: 0 <= j < |s.procs| ==> t.procs[j].pid == s.procs[j].pid;
    SamePids(s, t);
  }

  lemma SamePids(s: System, t: System)
    requires Pids(s) && |t.procs| == |s.procs| && forall j :: 0 <= j < |s.procs| ==> t.procs[j].pid == s.procs[j].pid
    ensures Pids(t)
  {
  }

  /** A step that changes only a process outside the locks' code and who has ptable.lock. */
  lemma OtherKeepsPlace(s: System, step: Step, j: nat)
    requires Inv(s) && Wellformed(s) && Can(s, step) && !step.Go? && j < |s.procs|
    ensures PlaceOk(Next(s, step), j)
  {
    hide HeldOk, OwnerOk;
    assert PlaceOk(s, j) && ProcOk(s.procs[j]) && PtableOk(s, j);
    if !s.procs[j].pc.Outside? {
      var l := s.procs[j].pc.l;
      if InWindow(s, l, 0) { OtherKeepsWindow(s, step, l, 0); }
      if InWindow(s, l, j) { OtherKeepsWindow(s, step, l, j); }
    }
  }

  lemma OtherKeepsWindow(s: System, step: Step, l: nat, j: nat)
    requires Inv(s) && Wellformed(s) && Can(s, step) && !step.Go? && l < |s.locks| && InWindow(s, l, j)
    ensures InWindow(Next(s, step), l, j)
  {
    hide HeldOk, OwnerOk, PlaceOk, PtableOk;
    assert ProcOk(s.procs[s.locks[l].lk.value]);
  }

  lemma OtherKeepsProc(s: System, step: Step, j: nat)
    requires Inv(s) && Wellformed(s) && Can(s, step) && !step.Go? && j < |s.procs|
    ensures ProcOk(Next(s, step).procs[j]) && PtableOk(Next(s, step), j)
  {
    hide HeldOk, OwnerOk, PlaceOk;
    assert ProcOk(s.procs[j]) && PtableOk(s, j);
  }

  lemma OtherKeepsHeld(s: System, step: Step, j: nat, l: nat)
    requires Inv(s) && Wellformed(s) && Can(s, step) && !step.Go? && j < |s.procs| && l < |s.locks|
    ensures HeldOk(Next(s, step), j, l) && OwnerOk(Next(s, step), l)
  {
    hide PtableOk, PlaceOk;
    assert ProcOk(s.procs[j]) && HeldOk(s, j, l) && OwnerOk(s, l);
    OtherKeepsOwner(s, step, l);
  }

  lemma OtherKeepsOwner(s: System, step: Step, l: nat)
    requires Wellformed(s) && Can(s, step) && !step.Go? && l < |s.locks| && OwnerOk(s, l)
    ensures OwnerOk(Next(s, step), l)
  {
    var t := Next(s, step);
    if s.locks[l].locked {
      var k :| 0 <= k < |s.procs| && l in s.procs[k].held;
      assert l in t.procs[k].held;
    }
  }

  /** Every step keeps the invariant. */
  lemma StepKeepsInv(s: System, step: Step)
    requires Inv(s) && Wellformed(s) && Can(s, step)
    ensures Inv(Next(s, step)) && Wellformed(Next(s, step))
  {
    hide HeldOk, OwnerOk, PlaceOk, PtableOk, ProcOk, Gone, CanGo;
    var t := Next(s, step);
    if step.Go? {
      GoKeepsInv(s, step.i);
    } else {
      assert |t.procs| == |s.procs| && t.locks == s.locks;
      forall j | 0 <= j < |s.procs| ensures ProcOk(t.procs[j]) && PlaceOk(t, j) && PtableOk(t, j) {
        OtherKeepsProc(s, step, j);
        OtherKeepsPlace(s, step, j);
      }
      forall j, l | 0 <= j < |s.procs| && 0 <= l < |s.locks| ensures HeldOk(t, j, l) {
        OtherKeepsHeld(s, step, j, l);
      }
      forall l | 0 <= l < |s.locks| ensures OwnerOk(t, l) {
        assert OwnerOk(s, l);
        OtherKeepsOwner(s, step, l);
      }
    }
    forall j | 0 <= j < |t.procs| ensures HasLock(t, t.procs[j].pc) {
      assert PlaceOk(t, j);
      PlaceHasLock(t, j);
    }
  }

  // ----- runs -----

  /** initsleeplock() for every lock, and processes that have not started. */
  predicate Initial(s: System) {
    && Pids(s) && s.ptable == Nobody
    && (forall i :: 0 <= i < |s.procs| ==>
          s.procs[i] == Proc(s.procs[i].pid, Outside, RUNNABLE, NoChan, true, {}))
    && (forall l :: 0 <= l < |s.locks| ==> s.locks[l] == SleepLock(None, false, 0))
  }

  lemma InitialIsOk(s: System)
    requires Initial(s)
    ensures Inv(s) && Wellformed(s)
  {
  }

  /** t is reached from s by the steps of run. */
  predicate Leads(s: System, run: seq<Step>, t: System)
    decreases |run|
  {
    if run == [] then t == s
    else Wellformed(s) && Can(s, run[0]) && Leads(Next(s, run[0]), run[1..], t)
  }

  lemma {:induction false} RunKeepsInv(s: System, run: seq<Step>, t: System)
    requires Inv(s) && Wellformed(s) && Leads(s, run, t)
    ensures Inv(t) && Wellformed(t)
    decreases |run|
  {
    hide Inv, Next, Can;
    if run != [] {
      StepKeepsInv(s, run[0]);
      RunKeepsInv(Next(s, run[0]), run[1..], t);
    }
  }

  /** At most one process holds a sleep lock, at any time of any run. */
  lemma OneHolder(s: System, run: seq<Step>, t: System, i: nat, j: nat, l: nat)
    requires Initial(s) && Leads(s, run, t)
    requires i < |t.procs| && j < |t.procs| && l in t.procs[i].held && l in t.procs[j].held && l < |t.locks|
    ensures i == j
  {
    InitialIsOk(s);
    RunKeepsInv(s, run, t);
    assert HeldOk(t, i, l) && HeldOk(t, j, l);
  }

  /** No process is asleep on a free lock, except inside the releaser's window. */
  lemma NoLostWakeup(s: System, run: seq<Step>, t: System, j: nat)
    requires Initial(s) && Leads(s, run, t)
    requires j < |t.procs| && t.procs[j].state == SLEEPING && t.procs[j].chan.Lock?
    ensures var l := t.procs[j].chan.l;
      l < |t.locks| && (t.locks[l].locked || InWindow(t, l, j))
  {
    InitialIsOk(s);
    RunKeepsInv(s, run, t);
    assert PlaceOk(t, j) && ProcOk(t.procs[j]);
  }

  /** locked and pid tell who holds the lock: holdingsleep() returns 1 exactly to the holder. */
  lemma HoldingIsExact(s: System, run: seq<Step>, t: System, i: nat, l: nat)
    requires Initial(s) && Leads(s, run, t) && i < |t.procs| && l < |t.locks|
    ensures (t.locks[l].locked && t.locks[l].pid == t.procs[i].pid) <==> l in t.procs[i].held
    ensures t.locks[l].locked <==> exists k :: 0 <= k < |t.procs| && l in t.procs[k].held
  {
    InitialIsOk(s);
    RunKeepsInv(s, run, t);
    assert HeldOk(t, i, l) && OwnerOk(t, l);
    if k :| 0 <= k < |t.procs| && l in t.procs[k].held {
      assert HeldOk(t, k, l);
    }
  }

  /** acquire() never finds that its caller has the spinlock, release() never that it has not, and
      sched() is entered with ptable.lock and no other spinlock. */
  lemma SpinlocksAreOrdered(s: System, run: seq<Step>, t: System, i: nat, l: nat)
    requires Initial(s) && Leads(s, run, t) && i < |t.procs| && l < |t.locks|
    ensures var pc := t.procs[i].pc;
      && (pc == Acquiring(l) || pc == Releasing(l) || pc == Asking(l) ==> t.locks[l].lk != Some(i))
      && (pc == Handing(l) || pc == Leaving(l) ==> t.locks[l].lk == Some(i))
      && (pc.FallingAsleep? || pc.Waking? ==> t.ptable != Process(i))
      && (pc.Scanning? ==> t.ptable == Process(i))
      && (pc.Switching? ==> t.ptable == Process(i) && t.locks[l].lk != Some(i))
  {
    InitialIsOk(s);
    RunKeepsInv(s, run, t);
    assert HeldOk(t, i, l) && PtableOk(t, i) && ProcOk(t.procs[i]);
  }

  // ----- what a call does for its caller -----

  /** The last call that process i has made in a run. */
  function LastCall(run: seq<Step>, i: nat): Option<Pc> {
    if run == [] then None
    else match run[|run| - 1]
      case Call(j, pc) => if j == i then Some(pc) else LastCall(run[..|run| - 1], i)
      case _ => LastCall(run[..|run| - 1], i)
  }

  /** How far a process has come in the call, and what it has achieved so far. */
  predicate CallOk(p: Proc, last: Option<Pc>) {
    match last
    case None => p.pc.Outside?
    case Some(Acquiring(l)) =>
      if p.pc.Outside? then l in p.held
      else p.pc.l == l && (if p.pc.Leaving? then l in p.held
                           else p.pc.Acquiring? || p.pc.Testing? || p.pc.FallingAsleep? || p.pc.Handing? || p.pc.Switching?
                                || p.pc.Asleep? || p.pc.Taking?)
    case Some(Releasing(l)) =>
      if p.pc.Outside? then l !in p.held
      else p.pc.l == l && (if p.pc.Waking? || p.pc.Scanning? || p.pc.Leaving? then l !in p.held
                           else p.pc.Releasing? || p.pc.Clearing?)
    case Some(Asking(l)) => p.pc.Outside? || (p.pc.l == l && (p.pc.Asking? || p.pc.Reading? || p.pc.Leaving?))
    case Some(_) => false
  }

  lemma StepKeepsCall(s: System, step: Step, i: nat, last: Option<Pc>)
    requires Wellformed(s) && Can(s, step) && i < |s.procs| && CallOk(s.procs[i], last)
    ensures |Next(s, step).procs| == |s.procs|
    ensures CallOk(Next(s, step).procs[i], if step.Call? && step.i == i then Some(step.pc) else last)
  {
  }

  /** A run without its last step. */
  lemma {:induction false} LeadsLast(s: System, run: seq<Step>, t: System) returns (u: System)
    requires run != [] && Leads(s, run, t)
    ensures Leads(s, run[..|run| - 1], u) && Wellformed(u) && Can(u, run[|run| - 1]) && t == Next(u, run[|run| - 1])
    decreases |run|
  {
    hide Next, Can;
    if |run| == 1 {
      u := s;
    } else {
      u := LeadsLast(Next(s, run[0]), run[1..], t);
      assert run[1..][..|run| - 2] == run[..|run| - 1][1..];
    }
  }

  lemma {:induction false} CallsAreOk(s: System, run: seq<Step>, t: System, i: nat)
    requires Initial(s) && Leads(s, run, t) && i < |t.procs|
    ensures |t.procs| == |s.procs| && CallOk(t.procs[i], LastCall(run, i))
    decreases |run|
  {
    hide Next, Can, Leads, CallOk;
    if run == [] {
      assert t == s && CallOk(t.procs[i], None) by { NoCall(s, t, i); }
    } else {
      var u := LeadsLast(s, run, t);
      SameProcs(u, run[|run| - 1]);
      CallsAreOk(s, run[..|run| - 1], u, i);
      StepKeepsCall(u, run[|run| - 1], i, LastCall(run[..|run| - 1], i));
    }
  }

  lemma NoCall(s: System, t: System, i: nat)
    requires Initial(s) && Leads(s, [], t) && i < |t.procs|
    ensures t == s && CallOk(t.procs[i], None)
  {
  }

  lemma SameProcs(s: System, step: Step)
    requires Wellformed(s) && Can(s, step)
    ensures |Next(s, step).procs| == |s.procs|
  {
  }

  /** Whoever is back from acquiresleep() has the lock, and whoever is back from releasesleep() has
      it no more, whatever the others have done meanwhile. */
  lemma CallsKeepTheirWord(s: System, run: seq<Step>, t: System, i: nat, l: nat)
    requires Initial(s) && Leads(s, run, t) && i < |t.procs| && t.procs[i].pc == Outside
    ensures LastCall(run, i) == Some(Acquiring(l)) ==> l in t.procs[i].held
    ensures LastCall(run, i) == Some(Releasing(l)) ==> l !in t.procs[i].held
  {
    CallsAreOk(s, run, t, i);
  }

  /** n steps of process i. */
  function Goes(i: nat, n: nat): seq<Step> {
    seq(n, _ => Go(i))
  }

  lemma {:induction false} LeadsOn(s: System, run: seq<Step>, t: System, more: seq<Step>, u: System)
    requires Leads(s, run, t) && Leads(t, more, u)
    ensures Leads(s, run + more, u)
    decreases |run|
  {
    hide Next, Can;
    if run == [] {
      assert run + more == more;
    } else {
      LeadsOn(Next(s, run[0]), run[1..], t, more, u);
      assert (run + more)[1..] == run[1..] + more;
    }
  }

  lemma OneGo(s: System, i: nat)
    requires Wellformed(s) && Steps(s, i)
    ensures Leads(s, [Go(i)], Gone(s, i))
  {
    assert [Go(i)][1..] == [];
  }

  /** Process i alone, n steps and one more. */
  lemma GoOn(s: System, i: nat, n: nat, t: System)
    requires Inv(s) && Wellformed(s) && Leads(s, Goes(i, n), t) && Steps(t, i)
    ensures Leads(s, Goes(i, n + 1), Gone(t, i)) && Inv(t) && Wellformed(t)
  {
    hide Inv, Leads, Gone;
    RunKeepsInv(s, Goes(i, n), t);
    OneGo(t, i);
    LeadsOn(s, Goes(i, n), t, [Go(i)], Gone(t, i));
    assert Goes(i, n) + [Go(i)] == Goes(i, n + 1);
  }

  /** With nobody in its way a process that calls acquiresleep() on a free lock has it four steps
      later ... */
  lemma AcquireFree(s: System, i: nat, l: nat) returns (t: System)
    requires Inv(s) && Wellformed(s) && i < |s.procs| && s.procs[i].pc == Acquiring(l)
    requires s.procs[i].state == RUNNING && !s.procs[i].switched && s.locks[l].lk == None && !s.locks[l].locked
    ensures Leads(s, Goes(i, 4), t)
    ensures t == s.(procs := s.procs[i := s.procs[i].(pc := Outside, held := s.procs[i].held + {l})],
                    locks := s.locks[l := SleepLock(None, true, s.procs[i].pid)])
  {
    hide Inv;
    var a := Gone(s, i);
    var b := Gone(a, i);
    var c := Gone(b, i);
    t := Gone(c, i);
    assert Leads(s, Goes(i, 0), s);
    GoOn(s, i, 0, s);
    GoOn(s, i, 1, a);
    GoOn(s, i, 2, b);
    GoOn(s, i, 3, c);
  }

  /** ... and on one that is taken it is asleep five steps later, having given back lk->lk, with
      ptable.lock handed to the scheduler. */
  lemma AcquireTaken(s: System, i: nat, l: nat) returns (t: System)
    requires Inv(s) && Wellformed(s) && i < |s.procs| && s.procs[i].pc == Acquiring(l) && s.ptable == Nobody
    requires s.procs[i].state == RUNNING && !s.procs[i].switched && s.locks[l].lk == None && s.locks[l].locked
    ensures Leads(s, Goes(i, 5), t)
    ensures t == s.(procs := s.procs[i := s.procs[i].(pc := Asleep(l), chan := Lock(l), state := SLEEPING, switched := true)],
                    ptable := Scheduler)
  {
    hide Inv;
    var a := Gone(s, i);
    var b := Gone(a, i);
    var c := Gone(b, i);
    var d := Gone(c, i);
    t := Gone(d, i);
    assert Leads(s, Goes(i, 0), s);
    GoOn(s, i, 0, s);
    GoOn(s, i, 1, a);
    GoOn(s, i, 2, b);
    GoOn(s, i, 3, c);
    GoOn(s, i, 4, d);
  }

  /** A process that calls releasesleep() has given up the lock, with every sleeper awake, one step
      for each process and five more later. */
  lemma ReleaseWakes(s: System, i: nat, l: nat) returns (t: System)
    requires Inv(s) && Wellformed(s) && i < |s.procs| && s.procs[i].pc == Releasing(l) && s.ptable == Nobody
    requires s.procs[i].state == RUNNING && !s.procs[i].switched && s.locks[l].lk == None
    ensures Leads(s, Goes(i, |s.procs| + 5), t)
    ensures t.locks == s.locks[l := SleepLock(None, false, 0)] && t.ptable == Nobody && |t.procs| == |s.procs|
    ensures forall j :: 0 <= j < |s.procs| ==>
              var p := s.procs[j];
              t.procs[j] == if j == i then p.(pc := Outside, held := p.held - {l})
                            else if p.state == SLEEPING && p.chan == Lock(l) then p.(state := RUNNABLE) else p
  {
    hide Inv, Leads;
    var c := ScanStarts(s, i, l);
    var d := ScanAll(s, i, l, c, |s.procs|);
    var e := Gone(d, i);
    GoOn(s, i, |s.procs| + 3, d);
    t := Gone(e, i);
    GoOn(s, i, |s.procs| + 4, e);
  }

  lemma ScanStarts(s: System, i: nat, l: nat) returns (c: System)
    requires Inv(s) && Wellformed(s) && i < |s.procs| && s.procs[i].pc == Releasing(l) && s.ptable == Nobody
    requires s.procs[i].state == RUNNING && !s.procs[i].switched && s.locks[l].lk == None
    ensures Leads(s, Goes(i, 3), c)
    ensures c == s.(procs := s.procs[i := s.procs[i].(pc := Scanning(l, 0), held := s.procs[i].held - {l})],
                    locks := s.locks[l := SleepLock(Some(i), false, 0)], ptable := Process(i))
  {
    hide Inv;
    var a := Gone(s, i);
    var b := Gone(a, i);
    c := Gone(b, i);
    assert Leads(s, Goes(i, 0), s);
    GoOn(s, i, 0, s);
    GoOn(s, i, 1, a);
    GoOn(s, i, 2, b);
  }

  /** n turns of wakeup1()'s loop. */
  lemma {:induction false} ScanAll(s: System, i: nat, l: nat, c: System, n: nat) returns (t: System)
    requires Inv(s) && Wellformed(s) && Leads(s, Goes(i, 3), c) && i < |c.procs| && n <= |c.procs| && l < |c.locks|
    requires c.procs[i].pc == Scanning(l, 0) && c.procs[i].state == RUNNING && !c.procs[i].switched
    ensures Leads(s, Goes(i, 3 + n), t) && t.locks == c.locks && t.ptable == c.ptable && |t.procs| == |c.procs|
    ensures forall j :: 0 <= j < |c.procs| ==>
              var p := c.procs[j];
              t.procs[j] == if j == i then p.(pc := Scanning(l, n))
                            else if j < n && p.state == SLEEPING && p.chan == Lock(l) then p.(state := RUNNABLE) else p
    decreases n
  {
    hide Inv, Leads;
    if n == 0 {
      t := c;
    } else {
      var u := ScanAll(s, i, l, c, n - 1);
      t := Gone(u, i);
      GoOn(s, i, 2 + n, u);
    }
  }
}
