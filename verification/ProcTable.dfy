/** ptable with its ready queue: the critical sections of proc.c and the timer's yield, as
    methods that loop over the table as the code does. The policy is the scheduler that the
    kernel was compiled with. Each method is one step of ProcSteps, and each keeps the ready
    queue equal to the set of runnable processes. */
module ProcTable {
  import opened Common
  import opened PQueue
  import opened MultiQueue
  import opened ProcSteps
  import opened Ready

  const QUANTA: nat := 5

  /** Every ring has only grown at its tail. */
  ghost predicate Extends(old': seq<seq<nat>>, new': seq<seq<nat>>) {
    |old'| == |new'| && forall l :: 0 <= l < |old'| ==> old'[l] <= new'[l]
  }

  predicate Priorities(t: seq<Proc>) {
    forall i :: 0 <= i < |t| && Adult(t[i]) ==> Priority(t[i].priority)
  }

  datatype WaitResult =
    | Child(pid: nat, run: nat, ready: nat, slept: nat)
    | NoChild
    | Asleep

  /** Slot j after n turns of exit()'s loop over t1. */
  ghost function Passed(policy: Policy, t1: seq<Proc>, cur: nat, init: nat, n: nat, j: nat): Proc
    requires n <= |t1| && j < |t1|
  {
    var p := if j < n then Adopted(t1[j], cur, init) else t1[j];
    if HasZombieChild(t1[..n], cur) then Notified(policy, p, ProcChan(init)) else p
  }

  /** One turn of the loop takes Passed(i) to Passed(i + 1). */
  lemma PassedNext(policy: Policy, t1: seq<Proc>, cur: nat, init: nat, i: nat, j: nat)
    requires i < |t1| && j < |t1|
    ensures var p := Passed(policy, t1, cur, init, i, j);
            var p2 := if j == i then Adopted(p, cur, init) else p;
            && (j >= i ==> p.parent == t1[j].parent)
            && (p.state == ZOMBIE <==> t1[j].state == ZOMBIE)
            && Passed(policy, t1, cur, init, i + 1, j)
               == if t1[i].parent == Some(cur) && t1[i].state == ZOMBIE then Notified(policy, p2, ProcChan(init)) else p2
  {
    ZombieChildNext(t1, cur, i);
  }

  lemma BootedFacts(policy: Policy, ticks: nat)
    ensures var s := Booted(policy, ticks);
            && Tree(s) && |s.t| == NPROC && (policy != FCFS ==> Priorities(s.t))
            && s.t[0] == Proc(RUNNABLE, 1, None, NoChan, false, if policy == FCFS then 0 else 2, ticks, 0, 0, 0, 0)
            && (forall i :: 1 <= i < NPROC ==> s.t[i] == Proc(UNUSED, 0, None, NoChan, false, 0, 0, 0, 0, 0, 0))
            && s == System(s.t, 2, 0, ticks, {}, [])
  {
    BootedTree(policy, ticks);
  }

  lemma ReapFacts(s: System, cur: nat, i: nat)
    requires Tree(s) && Enabled(s, ReapStep(cur, i))
    ensures Tree(Reaped(s, i)) && s.t[i].pid in s.exited && s.t[i].pid !in s.reaped
  {
    ReapKeepsTree(s, cur, i);
  }

  lemma KillFacts(policy: Policy, s: System, i: nat)
    requires Tree(s) && i < |s.t|
    ensures Tree(Killed(policy, s, i))
    ensures s.t[i].pid > 0 ==> forall j :: 0 <= j < |s.t| && j != i ==> s.t[j].pid != s.t[i].pid
  {
    StepKeepsTree(policy, s, KillStep(i));
  }

  lemma ExitFacts(policy: Policy, s: System, cur: nat)
    requires Tree(s) && Enabled(s, ExitStep(cur))
    ensures Tree(Exited(policy, s, cur)) && s.t[cur].parent.Some? && s.t[cur].state == RUNNING && cur < |s.t|
    ensures var s' := Exited(policy, s, cur);
            s'.nextpid == s.nextpid && s'.init == s.init && s'.ticks == s.ticks && s'.reaped == s.reaped
            && s'.exited == s.exited + {s.t[cur].pid}
  {
    assert ParentOk(s, cur);
    ExitKeepsTree(policy, s, cur);
  }

  lemma NonePassed(policy: Policy, t1: seq<Proc>, cur: nat, init: nat)
    ensures forall j :: 0 <= j < |t1| ==> Passed(policy, t1, cur, init, 0, j) == t1[j]
  {
  }

  /** The exiting process is still running after the loop, under its own pid. */
  lemma PassedStates(policy: Policy, t: seq<Proc>, t1: seq<Proc>, cur: nat, init: nat, chan: Chan)
    requires cur < |t| && t[cur].state == RUNNING && t1 == Wake(policy, t, chan)
    ensures var p := Passed(policy, t1, cur, init, |t1|, cur); p.state == RUNNING && p.pid == t[cur].pid
  {
  }

  lemma ZombieChildNext(t: seq<Proc>, cur: nat, i: nat)
    requires i < |t|
    ensures HasZombieChild(t[..i + 1], cur) <==>
              HasZombieChild(t[..i], cur) || (t[i].parent == Some(cur) && t[i].state == ZOMBIE)
  {
    if HasZombieChild(t[..i + 1], cur) {
      var z :| 0 <= z < i + 1 && t[..i + 1][z].parent == Some(cur) && t[..i + 1][z].state == ZOMBIE;
      if z < i { assert t[..i][z] == t[z]; }
    }
    if HasZombieChild(t[..i], cur) {
      var z :| 0 <= z < i && t[..i][z].parent == Some(cur) && t[..i][z].state == ZOMBIE;
      assert t[..i + 1][z] == t[..i][z];
    }
    if t[i].parent == Some(cur) && t[i].state == ZOMBIE {
      assert t[..i + 1][i] == t[i];
    }
  }

  lemma WakeKeepsZombieChild(policy: Policy, t: seq<Proc>, chan: Chan, cur: nat)
    ensures HasZombieChild(Wake(policy, t, chan), cur) <==> HasZombieChild(t, cur)
  {
    var t1 := Wake(policy, t, chan);
    if HasZombieChild(t, cur) {
      var z :| 0 <= z < |t| && t[z].parent == Some(cur) && t[z].state == ZOMBIE;
      assert t1[z] == t[z];
    }
    if HasZombieChild(t1, cur) {
      var z :| 0 <= z < |t1| && t1[z].parent == Some(cur) && t1[z].state == ZOMBIE;
      assert t1[z] == Notified(policy, t[z], chan);
    }
  }

  /** The whole loop and the final assignment together are exit() slot by slot. */
  lemma ExitedIs(policy: Policy, s: System, cur: nat, t: seq<Proc>)
    requires cur < |s.t| && s.t[cur].parent.Some? && |t| == |s.t|
    requires var t1 := Wake(policy, s.t, ProcChan(s.t[cur].parent.value));
             forall j :: 0 <= j < |t| ==>
               t[j] == var p := Passed(policy, t1, cur, s.init, |t1|, j); if j == cur then p.(state := ZOMBIE) else p
    ensures t == Exited(policy, s, cur).t
  {
    var chan := ProcChan(s.t[cur].parent.value);
    var t1 := Wake(policy, s.t, chan);
    WakeKeepsZombieChild(policy, s.t, chan, cur);
    assert t1[..|t1|] == t1;
    hide HasZombieChild;
    forall j | 0 <= j < |t| ensures t[j] == ExitSlot(policy, s, cur, j) {}
  }

  /** Slot by slot, the table that exit() leaves. */
  lemma ExitSpelled(policy: Policy, s: System, cur: nat)
    requires cur < |s.t| && s.t[cur].state == RUNNING && s.t[cur].parent.Some?
    ensures |Exited(policy, s, cur).t| == |s.t| && forall j :: 0 <= j < |s.t| ==>
              var p := s.t[j];
              var heir := if p.parent == Some(cur) then Some(s.init) else p.parent;
              var woken := p.state == SLEEPING
                           && ((p.chan.ProcChan? && Some(p.chan.slot) == s.t[cur].parent)
                               || (p.chan == ProcChan(s.init)
                                   && exists i :: 0 <= i < |s.t| && s.t[i].parent == Some(cur) && s.t[i].state == ZOMBIE));
              Exited(policy, s, cur).t[j]
              == if j == cur then p.(parent := heir, state := ZOMBIE)
                 else if woken then p.(parent := heir, state := RUNNABLE, priority := if policy == DMLQ then 1 else p.priority)
                 else p.(parent := heir)
  {
    ghost var zombies := HasZombieChild(s.t, cur);
    assert zombies <==> exists i :: 0 <= i < |s.t| && s.t[i].parent == Some(cur) && s.t[i].state == ZOMBIE;
    hide HasZombieChild;
  }

  /** A process that is not UNUSED shares its pid with nobody. */
  lemma OwnPid(s: System, i: nat)
    requires Tree(s) && i < |s.t| && s.t[i].state != UNUSED
    ensures s.t[i].pid > 0 && forall j :: 0 <= j < |s.t| && j != i ==> s.t[j].pid != s.t[i].pid
  {
  }

  /** How chpr() ends. */
  datatype Chprd = Stored | Moved | BehindTable | NoSuchRing | WrappedRing

  class ProcTable {
    const policy: Policy
    const pq: PQueue
    const mq: MultiQueue
    var t: seq<Proc>
    var nextpid: nat
    const initproc: nat
    var ticks: nat
    ghost var exited: set<nat>
    ghost var reaped: seq<nat>
    ghost var stamp: seq<nat>   // when each process was last queued
    ghost var clock: nat

    ghost function Sys(): System
      reads this
    {
      System(t, nextpid, initproc, ticks, exited, reaped)
    }

    /** The ready queue holds exactly the runnable processes of tt. */
    ghost predicate ReadyFor(tt: seq<Proc>)
      reads this, pq, pq.proc, mq, mq.proc
    {
      && pq.Valid() && mq.Valid() && |tt| == NPROC
      && (policy == FCFS ==> HeapReady(pq.Contents(), tt))
      && (policy != FCFS ==> RingsReady(mq.queue, tt, stamp, clock))
    }

    ghost predicate Valid()
      reads this, pq, pq.proc, mq, mq.proc
    {
      ReadyFor(t) && Tree(Sys()) && (policy != FCFS ==> Priorities(t))
    }

    /** userinit() on an empty table. */
    constructor (policy: Policy, ticks: nat)
      ensures Valid() && Sys() == Booted(policy, ticks) && this.policy == policy
      ensures t[0] == Proc(RUNNABLE, 1, None, NoChan, false, if policy == FCFS then 0 else 2, ticks, 0, 0, 0, 0)
      ensures forall i :: 1 <= i < NPROC ==> t[i] == Proc(UNUSED, 0, None, NoChan, false, 0, 0, 0, 0, 0, 0)
      ensures nextpid == 2 && initproc == 0 && exited == {} && reaped == []
      ensures fresh(pq) && fresh(pq.proc) && fresh(mq) && fresh(mq.proc)
    {
      hide Booted, HeapReady, RingsReady, Tree, Priorities;
      BootedFacts(policy, ticks);
      this.policy := policy;
      pq := new PQueue();
      mq := new MultiQueue();
      var embryo := Booted(policy, ticks).t[0].(state := EMBRYO);
      t := Booted(policy, ticks).t[0 := embryo];
      nextpid, initproc, this.ticks := 2, 0, ticks;
      exited, reaped, stamp, clock := {}, [], seq(NPROC, _ => 0), 0;
      new;
      ghost var t0 := t;
      NothingReady(t0, mq.queue, stamp, clock);
      t := t[0 := t[0].(state := RUNNABLE)];
      MakeReady(t0, 0);
      assert t == Booted(policy, ticks).t;
    }

    /** The #ifdef block that follows each p->state = RUNNABLE. */
    method MakeReady(ghost t0: seq<Proc>, i: nat)
      requires ReadyFor(t0) && i < NPROC && |t| == NPROC && t == t0[i := t[i]]
      requires t0[i].state != RUNNABLE && t[i].state == RUNNABLE && t[i].created == t0[i].created
      requires policy != FCFS ==> Priority(t[i].priority)
      modifies this`stamp, this`clock, pq, pq.proc, mq, mq.proc
      ensures ReadyFor(t)
      ensures policy != FCFS ==>
                mq.queue == old(mq.queue)[t[i].priority - 1 := old(mq.queue[t[i].priority - 1]) + [i]]
    {
      hide HeapReady, RingsReady, Slots, Heap;
      if policy == FCFS {
        ghost var q := pq.Contents();
        HeapHasRoom(q, t0, i);
        HeapOrderKept(q, t0, t);
        pq.Insert(i, CreatedOf(t));
        HeapInserted(q, t0, i, t[i], pq.Contents());
      } else {
        RingsSize(mq.queue, t0, stamp, clock);
        RingsEnqueued(mq.queue, t0, stamp, clock, i, t[i]);
        mq.Enque(t[i].priority, i);
        stamp, clock := stamp[i := clock], clock + 1;
      }
    }

    /** A change that leaves the runnable processes runnable, with their place in the order. */
    lemma Unchanged(t0: seq<Proc>)
      requires ReadyFor(t0) && |t| == |t0|
      requires forall i :: 0 <= i < |t| ==> (t0[i].state == RUNNABLE <==> t[i].state == RUNNABLE)
      requires forall i :: 0 <= i < |t| && t0[i].state == RUNNABLE ==>
                 t[i].created == t0[i].created && t[i].priority == t0[i].priority
      ensures ReadyFor(t)
    {
      hide HeapReady, RingsReady;
      if policy == FCFS { HeapFrame(pq.Contents(), t0, t); }
      else { RingsFrame(mq.queue, t0, stamp, clock, t); }
    }

    // ----- fork -----

    /** allocproc() up to its release of ptable.lock; None when the table is full. */
    method AllocProc() returns (r: Option<nat>)
      requires Valid()
      modifies this`t, this`nextpid
      ensures Valid()
      ensures r == None ==> Sys() == old(Sys()) && forall i :: 0 <= i < NPROC ==> t[i].state != UNUSED
      ensures r.Some? ==>
                && Enabled(old(Sys()), AllocStep(r.value)) && Sys() == Alloc(old(Sys()), r.value)
                && old(t)[r.value].state == UNUSED && (forall i :: 0 <= i < r.value ==> t[i].state != UNUSED)
                && nextpid == old(nextpid) + 1
                && t == old(t)[r.value := old(t)[r.value].(state := EMBRYO, pid := old(nextpid), created := ticks,
                                                           ready := 0, run := 0, slept := 0)]
    {
      hide HeapReady, RingsReady, Tree;
      for i := 0 to NPROC
        invariant forall j :: 0 <= j < i ==> t[j].state != UNUSED
      {
        if t[i].state == UNUSED {
          AllocKeepsTree(Sys(), i);
          t := t[i := t[i].(state := EMBRYO, pid := nextpid, created := ticks, ready := 0, run := 0, slept := 0)];
          nextpid := nextpid + 1;
          Unchanged(old(t));
          return Some(i);
        }
      }
      return None;
    }

    /** The failures of allocproc() and fork() after the slot was taken. */
    method AbortFork(i: nat)
      requires Valid() && i < NPROC && t[i].state == EMBRYO
      modifies this`t
      ensures Valid() && Sys() == Abort(old(Sys()), i) && t == old(t)[i := old(t)[i].(state := UNUSED)]
    {
      hide HeapReady, RingsReady, Tree;
      AbortKeepsTree(Sys(), i);
      t := t[i := t[i].(state := UNUSED)];
      Unchanged(old(t));
    }

    /** The rest of fork(): the child inherits the priority and becomes runnable. */
    method FinishFork(cur: nat, i: nat) returns (pid: nat)
      requires Valid() && cur < NPROC && t[cur].state == RUNNING && i < NPROC && t[i].state == EMBRYO
      modifies this`t, this`stamp, this`clock, pq, pq.proc, mq, mq.proc
      ensures Valid() && Sys() == Launch(policy, old(Sys()), cur, i) && pid == t[i].pid
      ensures t == old(t)[i := old(t)[i].(state := RUNNABLE, parent := Some(cur),
                                          priority := old(t)[if policy == FCFS then i else cur].priority)]
      ensures policy != FCFS ==>
                var l := t[i].priority - 1;
                0 <= l < 3 && mq.queue == old(mq.queue)[l := old(mq.queue)[l] + [i]]
    {
      hide HeapReady, RingsReady, Tree;
      LaunchKeepsTree(policy, Sys(), cur, i);
      ghost var t0 := t;
      t := t[i := t[i].(parent := Some(cur))];
      if policy != FCFS {
        t := t[i := t[i].(priority := t[cur].priority)];
      }
      pid := t[i].pid;
      t := t[i := t[i].(state := RUNNABLE)];
      MakeReady(t0, i);
    }

    // ----- exit, wait -----

    /** wakeup1(): every sleeper on chan becomes runnable, in table order. */
    method Wakeup1(chan: Chan)
      requires ReadyFor(t) && (policy != FCFS ==> Priorities(t))
      modifies this`t, this`stamp, this`clock, pq, pq.proc, mq, mq.proc
      ensures ReadyFor(t) && (policy != FCFS ==> Priorities(t))
      ensures t == Wake(policy, old(t), chan)
      ensures |t| == NPROC && forall j :: 0 <= j < NPROC ==>
                var p := old(t)[j];
                t[j] == if p.state == SLEEPING && p.chan == chan
                        then p.(state := RUNNABLE, priority := if policy == DMLQ then 1 else p.priority) else p
      ensures policy != FCFS ==> Extends(old(mq.queue), mq.queue)
    {
      hide HeapReady, RingsReady;
      for i := 0 to NPROC
        invariant |t| == NPROC && ReadyFor(t) && (policy != FCFS ==> Priorities(t))
        invariant forall j :: 0 <= j < NPROC ==> t[j] == if j < i then Notified(policy, old(t)[j], chan) else old(t)[j]
        invariant policy != FCFS ==> Extends(old(mq.queue), mq.queue)
      {
        if t[i].state == SLEEPING && t[i].chan == chan {
          ghost var t0 := t;
          t := t[i := t[i].(state := RUNNABLE)];
          if policy == DMLQ {
            t := t[i := t[i].(priority := HIPR)];
          }
          MakeReady(t0, i);
        }
      }
      assert t == Wake(policy, old(t), chan);
    }

    method Wakeup(chan: Chan)
      requires Valid()
      modifies this`t, this`stamp, this`clock, pq, pq.proc, mq, mq.proc
      ensures Valid() && Sys() == old(Sys()).(t := Wake(policy, old(t), chan))
      ensures |t| == NPROC && forall j :: 0 <= j < NPROC ==>
                var p := old(t)[j];
                t[j] == if p.state == SLEEPING && p.chan == chan
                        then p.(state := RUNNABLE, priority := if policy == DMLQ then 1 else p.priority) else p
      ensures policy != FCFS ==> Extends(old(mq.queue), mq.queue)
    {
      hide HeapReady, RingsReady, Tree;
      WakeKeepsTree(policy, Sys(), chan);
      Wakeup1(chan);
    }

    /** exit()'s loop over the table: children pass to init, which is woken for a zombie. */
    method AbandonChildren(cur: nat)
      requires ReadyFor(t) && (policy != FCFS ==> Priorities(t))
      modifies this`t, this`stamp, this`clock, pq, pq.proc, mq, mq.proc
      ensures ReadyFor(t) && (policy != FCFS ==> Priorities(t))
      ensures |t| == |old(t)| && forall j :: 0 <= j < |t| ==> t[j] == Passed(policy, old(t), cur, initproc, |t|, j)
    {
      hide HeapReady, RingsReady, Passed, HasZombieChild;
      ghost var t1 := t;
      NonePassed(policy, t1, cur, initproc);
      for i := 0 to NPROC
        invariant ReadyFor(t) && (policy != FCFS ==> Priorities(t))
        invariant |t| == NPROC && forall j :: 0 <= j < NPROC ==> t[j] == Passed(policy, t1, cur, initproc, i, j)
      {
        ghost var t0 := t;
        forall j | 0 <= j < NPROC
          ensures j == i ==> t[i].parent == t1[i].parent && (t[i].state == ZOMBIE <==> t1[i].state == ZOMBIE)
          ensures Passed(policy, t1, cur, initproc, i + 1, j)
               == var p2 := if j == i then Adopted(t0[j], cur, initproc) else t0[j];
                  if t1[i].parent == Some(cur) && t1[i].state == ZOMBIE then Notified(policy, p2, ProcChan(initproc)) else p2
        {
          PassedNext(policy, t1, cur, initproc, i, j);
        }
        if t[i].parent == Some(cur) {
          t := t[i := t[i].(parent := Some(initproc))];
          Unchanged(t0);
          if t[i].state == ZOMBIE {
            Wakeup1(ProcChan(initproc));
          }
        }
      }
    }

    /** exit() from its acquire of ptable.lock to sched(). */
    method Exit(cur: nat)
      requires Valid() && cur < NPROC && t[cur].state == RUNNING && cur != initproc
      modifies this`t, this`stamp, this`clock, this`exited, pq, pq.proc, mq, mq.proc
      ensures Valid() && Sys() == Exited(policy, old(Sys()), cur)
      ensures exited == old(exited) + {old(t)[cur].pid} && reaped == old(reaped)
      ensures |t| == NPROC && forall j :: 0 <= j < NPROC ==>
                var p := old(t)[j];
                var heir := if p.parent == Some(cur) then Some(initproc) else p.parent;
                var woken := p.state == SLEEPING
                             && ((p.chan.ProcChan? && Some(p.chan.slot) == old(t)[cur].parent)
                                 || (p.chan == ProcChan(initproc)
                                     && exists i :: 0 <= i < NPROC && old(t)[i].parent == Some(cur) && old(t)[i].state == ZOMBIE));
                t[j] == if j == cur then p.(parent := heir, state := ZOMBIE)
                        else if woken then p.(parent := heir, state := RUNNABLE, priority := if policy == DMLQ then 1 else p.priority)
                        else p.(parent := heir)
    {
      hide HeapReady, RingsReady, Tree, Exited, HasZombieChild, Passed, Wake;
      ghost var s := Sys();
      ExitFacts(policy, s, cur);
      Wakeup1(ProcChan(t[cur].parent.value));
      ghost var t1 := t;
      AbandonChildren(cur);
      PassedStates(policy, s.t, t1, cur, initproc, ProcChan(s.t[cur].parent.value));
      ghost var t0 := t;
      t := t[cur := t[cur].(state := ZOMBIE)];
      exited := exited + {t[cur].pid};
      ExitedIs(policy, s, cur, t);
      assert Sys() == Exited(policy, s, cur);
      ExitSpelled(policy, s, cur);
      Unchanged(t0);
    }

    /** The scan in wait() and waitnstats(), which stops at the first zombie child. */
    method FindZombie(cur: nat) returns (i: nat, havekids: bool)
      requires |t| == NPROC
      ensures i <= NPROC && (i < NPROC ==> t[i].parent == Some(cur) && t[i].state == ZOMBIE)
      ensures forall j :: 0 <= j < i ==> !(t[j].parent == Some(cur) && t[j].state == ZOMBIE)
      ensures i == NPROC ==> (havekids <==> exists j :: 0 <= j < NPROC && t[j].parent == Some(cur))
    {
      havekids, i := false, 0;
      while i < NPROC
        invariant i <= NPROC
        invariant forall j :: 0 <= j < i ==> !(t[j].parent == Some(cur) && t[j].state == ZOMBIE)
        invariant havekids <==> exists j :: 0 <= j < i && t[j].parent == Some(cur)
      {
        if t[i].parent == Some(cur) {
          havekids := true;
          if t[i].state == ZOMBIE { return; }
        }
        i := i + 1;
      }
    }

    /** One turn of the loop in wait() and waitnstats(): the first zombie child in table order
        is freed; with none the caller returns -1 or goes to sleep. */
    method WaitOnce(cur: nat) returns (r: WaitResult, ghost slot: nat)
      requires Valid() && cur < NPROC && t[cur].state == RUNNING
      modifies this`t, this`reaped
      ensures Valid()
      ensures r.Child? <==> exists i :: 0 <= i < NPROC && old(t)[i].parent == Some(cur) && old(t)[i].state == ZOMBIE
      ensures r.Child? ==>
                && Enabled(old(Sys()), ReapStep(cur, slot)) && Sys() == Reaped(old(Sys()), slot)
                && slot < NPROC && old(t)[slot].parent == Some(cur) && old(t)[slot].state == ZOMBIE
                && (forall i :: 0 <= i < slot ==> !(old(t)[i].parent == Some(cur) && old(t)[i].state == ZOMBIE))
                && t == old(t)[slot := old(t)[slot].(state := UNUSED, pid := 0, parent := None, killed := false)]
                && var p := old(t)[slot]; r == Child(p.pid, p.run, p.ready, p.slept)
      ensures r.Child? ==> r.pid in exited && r.pid !in old(reaped) && reaped == old(reaped) + [r.pid]
      ensures r == NoChild ==>
                && Sys() == old(Sys())
                && (t[cur].killed || forall i :: 0 <= i < NPROC ==> t[i].parent != Some(cur))
      ensures r == Asleep ==>
                && Enabled(old(Sys()), WaitSleepStep(cur)) && Sys() == Slept(old(Sys()), cur, ProcChan(cur))
                && t == old(t)[cur := old(t)[cur].(state := SLEEPING, chan := ProcChan(cur))]
                && !old(t)[cur].killed && exists i :: 0 <= i < NPROC && old(t)[i].parent == Some(cur)
    {
      hide HeapReady, RingsReady, Tree;
      var i, havekids := FindZombie(cur);
      slot := i;
      if i < NPROC {
        r := Reap(cur, i);
      } else if !havekids || t[cur].killed {
        r := NoChild;
      } else {
        SleepOn(cur, ProcChan(cur));
        r := Asleep;
      }
    }

    /** wait() frees the zombie child i. */
    method Reap(cur: nat, i: nat) returns (r: WaitResult)
      requires Valid() && IsRunning(t, cur) && i < NPROC && t[i].parent == Some(cur) && t[i].state == ZOMBIE
      modifies this`t, this`reaped
      ensures Valid() && Sys() == Reaped(old(Sys()), i)
      ensures t == old(t)[i := old(t)[i].(state := UNUSED, pid := 0, parent := None, killed := false)]
      ensures r == Child(old(t)[i].pid, old(t)[i].run, old(t)[i].ready, old(t)[i].slept)
      ensures r.pid in exited && r.pid !in old(reaped) && reaped == old(reaped) + [r.pid]
    {
      hide HeapReady, RingsReady, Tree;
      var p := t[i];
      ReapFacts(Sys(), cur, i);
      t := t[i := p.(pid := 0, parent := None, killed := false, state := UNUSED)];
      reaped := reaped + [p.pid];
      Unchanged(old(t));
      r := Child(p.pid, p.run, p.ready, p.slept);
    }

    // ----- sleep, kill, yield -----

    /** sleep() up to sched(). */
    method SleepOn(cur: nat, chan: Chan)
      requires Valid() && cur < NPROC && t[cur].state == RUNNING
      requires chan.Other? || (chan == ProcChan(cur) && !HasZombieChild(t, cur))
      modifies this`t
      ensures Valid() && Sys() == Slept(old(Sys()), cur, chan)
      ensures t == old(t)[cur := old(t)[cur].(state := SLEEPING, chan := chan)]
    {
      hide HeapReady, RingsReady, Tree;
      SleepKeepsTree(Sys(), cur, chan);
      t := t[cur := t[cur].(chan := chan, state := SLEEPING)];
      Unchanged(old(t));
    }

    /** kill(): marks the first slot with this pid and wakes it if it sleeps. */
    method Kill(pid: int) returns (r: Option<nat>)
      requires Valid()
      modifies this`t, this`stamp, this`clock, pq, pq.proc, mq, mq.proc
      ensures Valid()
      ensures r == None ==> Sys() == old(Sys()) && forall i :: 0 <= i < NPROC ==> t[i].pid != pid
      ensures r.Some? ==>
                && r.value < NPROC && old(t)[r.value].pid == pid && Sys() == Killed(policy, old(Sys()), r.value)
                && (forall i :: 0 <= i < r.value ==> t[i].pid != pid)
                && t[r.value].killed
                && var p := old(t)[r.value];
                   t == old(t)[r.value := if p.state == SLEEPING
                                          then p.(killed := true, state := RUNNABLE, priority := if policy == DMLQ then 1 else p.priority)
                                          else p.(killed := true)]
      ensures r.Some? && pid > 0 ==> forall i :: 0 <= i < NPROC && i != r.value ==> t[i].pid != pid
    {
      hide HeapReady, RingsReady, Tree;
      ghost var s := Sys();
      var i := FindPid(pid);
      if i == NPROC { return None; }
      KillFacts(policy, s, i);
      t := t[i := t[i].(killed := true)];
      Unchanged(s.t);
      if t[i].state == SLEEPING {
        ghost var t0 := t;
        t := t[i := t[i].(state := RUNNABLE)];
        if policy == DMLQ {
          t := t[i := t[i].(priority := HIPR)];
        }
        MakeReady(t0, i);
      }
      assert t == Killed(policy, s, i).t;
      r := Some(i);
    }

    method Yield(cur: nat)
      requires Valid() && cur < NPROC && t[cur].state == RUNNING
      modifies this`t, this`stamp, this`clock, pq, pq.proc, mq, mq.proc
      ensures Valid() && Sys() == Yielded(old(Sys()), cur) && t == old(t)[cur := old(t)[cur].(state := RUNNABLE)]
      ensures policy != FCFS ==>
                var l := t[cur].priority - 1;
                0 <= l < 3 && mq.queue == old(mq.queue)[l := old(mq.queue)[l] + [cur]]
    {
      hide HeapReady, RingsReady, Tree;
      StepKeepsTree(policy, Sys(), YieldStep(cur));
      ghost var t0 := t;
      t := t[cur := t[cur].(state := RUNNABLE)];
      MakeReady(t0, cur);
    }

    /** The end of trap() for a timer interrupt in a running process: under MLQ and DMLQ an
        expired quantum costs the CPU, and under DMLQ a level of priority. */
    method OnTimer(cur: nat) returns (yielded: bool)
      requires Valid() && cur < NPROC && t[cur].state == RUNNING
      modifies this`t, this`stamp, this`clock, pq, pq.proc, mq, mq.proc
      ensures Valid()
      ensures yielded <==> policy != FCFS && old(t)[cur].scheduled + 5 <= ticks
      ensures !yielded ==> Sys() == old(Sys())
      ensures yielded ==>
                var p := old(t)[cur].priority; var p' := if policy == DMLQ && p < 3 then p + 1 else p;
                && t == old(t)[cur := old(t)[cur].(state := RUNNABLE, priority := p')]
                && Sys() == Yielded(Prioritized(old(Sys()), cur, p'), cur)
      ensures yielded ==>
                var l := t[cur].priority - 1;
                0 <= l < 3 && mq.queue == old(mq.queue)[l := old(mq.queue)[l] + [cur]]
    {
      yielded := policy != FCFS && t[cur].scheduled + QUANTA <= ticks;
      if yielded {
        hide HeapReady, RingsReady, Tree, Yielded, Prioritized;
        Demote(cur);
        Yield(cur);
      }
    }

    /** Under DMLQ a process whose quantum has expired falls one level, down to the last. */
    method Demote(cur: nat)
      requires Valid() && policy != FCFS && cur < NPROC && t[cur].state == RUNNING
      modifies this`t
      ensures Valid()
      ensures var p := old(t)[cur].priority; var p' := if policy == DMLQ && p < 3 then p + 1 else p;
              && 0 < p' <= 3 && t == old(t)[cur := old(t)[cur].(priority := p')]
              && Sys() == Prioritized(old(Sys()), cur, p')
    {
      hide HeapReady, RingsReady, Tree;
      if policy == DMLQ && t[cur].priority < LWPR {
        SetPriority(cur, t[cur].priority + 1);
      }
    }

    /** A new priority for a process that is not queued. */
    method SetPriority(i: nat, priority: int)
      requires Valid() && i < NPROC && t[i].state != RUNNABLE && Priority(priority)
      modifies this`t
      ensures Valid() && Sys() == Prioritized(old(Sys()), i, priority) && t == old(t)[i := old(t)[i].(priority := priority)]
    {
      hide HeapReady, RingsReady, Tree;
      StepKeepsTree(policy, Sys(), PriorityStep(i, priority));
      t := t[i := t[i].(priority := priority)];
      Unchanged(old(t));
    }

    /** chpr() meets the fault of swapque: the process is queued where its ring has wrapped. */
    ghost predicate Wrapped(i: nat, priority: int)
      requires Valid() && policy != FCFS && i < NPROC
      reads this, pq, pq.proc, mq, mq.proc
    {
      && t[i].state == RUNNABLE && t[i].priority != priority
      && (OwnPid(Sys(), i); RingFinds(mq.queue, t, stamp, clock, i);
          var l := t[i].priority - 1;
          assert mq.RingOk(l);
          mq.PlaceOf(l, IndexOf(mq.queue[l], PidsOf(t), t[i].pid)) >= mq.end[l])
    }

    /** The search loop of chpr(), which stops behind the table if nobody has the pid. */
    method FindPid(pid: int) returns (n: nat)
      requires |t| == NPROC
      ensures n <= NPROC && (n < NPROC ==> t[n].pid == pid) && forall j :: 0 <= j < n ==> t[j].pid != pid
    {
      n := 0;
      while n < NPROC && t[n].pid != pid
        invariant n <= NPROC && forall j :: 0 <= j < n ==> t[j].pid != pid
      {
        n := n + 1;
      }
    }

    /** chpr(), which checks neither argument; i is the first slot with the pid. Without one it goes
        on behind the table. A priority that has no ring is stored all the same, and is followed at
        once if the process is queued. Otherwise, unless swapque faults, the process has its new
        priority and, if it was queued, stands at the tail of its new ring; nobody else has moved. */
    method Chpr(pid: int, priority: int) returns (r: Chprd, ghost i: nat)
      requires Valid() && policy == MLQ
      modifies this`t, this`stamp, this`clock, mq, mq.proc
      ensures i <= NPROC && forall j :: 0 <= j < i ==> old(t)[j].pid != pid
      ensures if r == BehindTable then i == NPROC && Valid() && Sys() == old(Sys())
              else i < NPROC && old(t)[i].pid == pid && Sys() == Prioritized(old(Sys()), i, priority)
                   && t == old(t)[i := old(t)[i].(priority := priority)]
      ensures r == NoSuchRing <==> i < NPROC && old(t)[i].state == RUNNABLE && !Priority(priority)
      ensures r == WrappedRing <==> i < NPROC && Priority(priority) && old(Wrapped(i, priority))
      ensures r == Moved <==> i < NPROC && Priority(priority) && old(t)[i].state == RUNNABLE && old(t)[i].priority != priority
                                && !old(Wrapped(i, priority))
      ensures r == Moved ==> Valid() && old(t)[i].priority > 0
                             && MovesToTail(old(mq.queue), mq.queue, old(t)[i].priority - 1, priority - 1, i)
      ensures r == Stored ==> ReadyFor(t) && mq.queue == old(mq.queue) && (Valid() <==> Priority(priority) || !Adult(old(t)[i]))
    {
      hide HeapReady, RingsReady, Tree, IndexOf, Enqued, Without, MovesToTail, Slots';
      ghost var s := Sys();
      var n := FindPid(pid);
      i := n;
      if n == NPROC { return BehindTable, i; }
      StepKeepsTree(policy, s, PriorityStep(n, priority));
      var oldPriority := t[n].priority;
      r := Stored;
      if oldPriority != priority {
        ghost var t0 := t;
        t := t[n := t[n].(priority := priority)];
        assert t == Prioritized(s, n, priority).t;
        if t[n].state != RUNNABLE {
          Unchanged(t0);
        } else if !Priority(priority) {
          r := NoSuchRing;
        } else {
          OwnPid(s, n);
          var fault := Requeue(n, oldPriority, t0);
          r := if fault then WrappedRing else Moved;
        }
      }
    }

    /** The call of swapque in chpr(), when the priority has been stored. */
    method Requeue(n: nat, oldPriority: int, ghost t0: seq<Proc>) returns (fault: bool)
      requires ReadyFor(t0) && policy == MLQ && n < NPROC && |t| == NPROC && t0[n].state == RUNNABLE && t0[n].pid > 0
      requires forall j :: 0 <= j < NPROC && j != n ==> t0[j].pid != t0[n].pid
      requires oldPriority == t0[n].priority != t[n].priority && t == t0[n := t0[n].(priority := t[n].priority)] && Priority(t[n].priority)
      modifies this`stamp, this`clock, mq, mq.proc
      ensures Priority(oldPriority)
      ensures fault <==> (RingFinds(old(mq.queue), t0, old(stamp), old(clock), n);
                          var l := oldPriority - 1;
                          old(mq.PlaceOf(l, IndexOf(mq.queue[l], PidsOf(t0), t0[n].pid)) >= mq.end[l]))
      ensures !fault ==> ReadyFor(t) && MovesToTail(old(mq.queue), mq.queue, oldPriority - 1, t[n].priority - 1, n)
    {
      hide HeapReady, RingsReady, IndexOf, Enqued, Without, MovesToTail, Slots';
      RingsSize(mq.queue, t0, stamp, clock);
      RingFinds(mq.queue, t0, stamp, clock, n);
      assert PidsOf(t) == PidsOf(t0);
      ghost var m := oldPriority - 1;
      ghost var k := IndexOf(mq.queue[m], PidsOf(t0), t0[n].pid);
      RingsMoved(mq.queue, t0, stamp, clock, m, k, t[n].priority);
      fault := mq.Swapque(oldPriority, t[n].priority, t[n].pid, PidsOf(t));
      stamp, clock := stamp[n := clock], clock + 1;
    }

    /** exec() commits to the new image: under DMLQ the process starts again at MDPR. */
    method CommitExec(cur: nat)
      requires Valid() && cur < NPROC && t[cur].state == RUNNING
      modifies this`t
      ensures Valid() && Sys() == if policy == DMLQ then Prioritized(old(Sys()), cur, 2) else old(Sys())
      ensures t == if policy == DMLQ then old(t)[cur := old(t)[cur].(priority := 2)] else old(t)
    {
      if policy == DMLQ { SetPriority(cur, MDPR); }
    }

    /** The timer tick: ticks++ and updateprocesstimes(). */
    method Tick()
      requires Valid()
      modifies this`t, this`ticks
      ensures Valid() && Sys() == Ticked(old(Sys())) && ticks == old(ticks) + 1
      ensures |t| == NPROC && forall j :: 0 <= j < NPROC ==>
                var p := old(t)[j];
                t[j] == match p.state
                        case RUNNING => p.(run := p.run + 1)
                        case RUNNABLE => p.(ready := p.ready + 1)
                        case SLEEPING => p.(slept := p.slept + 1)
                        case _ => p
    {
      hide HeapReady, RingsReady, Tree;
      StepKeepsTree(policy, Sys(), TickStep);
      ticks := ticks + 1;
      ghost var t0 := t;
      for i := 0 to NPROC
        invariant ticks == old(ticks) + 1
        invariant |t| == NPROC && forall j :: 0 <= j < NPROC ==> t[j] == if j < i then Timed(t0[j]) else t0[j]
      {
        if t[i].state == RUNNING {
          t := t[i := t[i].(run := t[i].run + 1)];
        } else if t[i].state == RUNNABLE {
          t := t[i := t[i].(ready := t[i].ready + 1)];
        } else if t[i].state == SLEEPING {
          t := t[i := t[i].(slept := t[i].slept + 1)];
        }
      }
      Unchanged(t0);
      assert t == Ticked(old(Sys())).t;
    }

    // ----- scheduling -----

    /** One turn of scheduler(), up to the switch. FCFS runs an oldest runnable process; MLQ
        and DMLQ the one that has waited longest at the best priority that anyone has. */
    method Schedule() returns (r: Option<nat>)
      requires Valid()
      modifies this`t, pq, pq.proc, mq, mq.proc
      ensures Valid()
      ensures r == None ==> Sys() == old(Sys()) && forall i :: 0 <= i < NPROC ==> t[i].state != RUNNABLE
      ensures r.Some? ==> Enabled(old(Sys()), DispatchStep(r.value)) && Sys() == Dispatched(old(Sys()), r.value)
      ensures r.Some? ==> r.value < NPROC && old(t)[r.value].state == RUNNABLE
                          && t == old(t)[r.value := old(t)[r.value].(state := RUNNING, scheduled := ticks)]
      ensures r.Some? && policy == FCFS ==>
                forall j :: 0 <= j < NPROC && old(t)[j].state == RUNNABLE ==> old(t)[r.value].created <= old(t)[j].created
      ensures r.Some? && policy != FCFS ==>
                && IsNext(old(t), stamp, r.value) && |stamp| == NPROC
                && forall j :: 0 <= j < NPROC && old(t)[j].state == RUNNABLE ==>
                     && old(t)[r.value].priority <= old(t)[j].priority
                     && (old(t)[j].priority == old(t)[r.value].priority ==> stamp[r.value] <= stamp[j])
      ensures r.Some? && policy != FCFS ==>
                var l := old(t)[r.value].priority - 1;
                0 <= l < 3 && |old(mq.queue)[l]| > 0 && r.value == old(mq.queue)[l][0] && mq.queue == old(mq.queue)[l := old(mq.queue)[l][1..]]
    {
      hide HeapReady, RingsReady, Tree, IsNext;
      if policy == FCFS {
        r := TakeOldest();
      } else {
        r := TakeBest();
      }
      if r.Some? {
        StepKeepsTree(policy, Sys(), DispatchStep(r.value));
        t := t[r.value := t[r.value].(state := RUNNING, scheduled := ticks)];
      }
    }

    method TakeOldest() returns (r: Option<nat>)
      requires ReadyFor(t) && policy == FCFS
      modifies pq, pq.proc
      ensures r == None ==> ReadyFor(t) && forall i :: 0 <= i < NPROC ==> t[i].state != RUNNABLE
      ensures r.Some? ==>
                && r.value < NPROC && t[r.value].state == RUNNABLE
                && (forall p: Proc :: p.state == RUNNING && p.created == t[r.value].created ==> ReadyFor(t[r.value := p]))
                && (forall j :: 0 <= j < NPROC && t[j].state == RUNNABLE ==> t[r.value].created <= t[j].created)
    {
      ghost var q := pq.Contents();
      HoldsSize(q, RunnableSlots(t));
      r := pq.Remove(CreatedOf(t));
      if r.Some? {
        ghost var i := r.value;
        assert i in RunnableSlots(t);
        forall p: Proc | p.state == RUNNING && p.created == t[i].created ensures HeapReady(pq.Contents(), t[i := p]) {
          HeapRemoved(q, t, i, p, pq.Contents());
        }
        HeapRemoved(q, t, i, t[i].(state := RUNNING), pq.Contents());
      } else {
        forall i | 0 <= i < NPROC ensures t[i].state != RUNNABLE {
          assert i !in RunnableSlots(t);
        }
      }
    }

    method TakeBest() returns (r: Option<nat>)
      requires ReadyFor(t) && policy != FCFS
      modifies mq, mq.proc
      ensures r == None ==> ReadyFor(t) && forall i :: 0 <= i < NPROC ==> t[i].state != RUNNABLE
      ensures r.Some? ==>
                && r.value < NPROC && t[r.value].state == RUNNABLE
                && (forall p: Proc :: p.state == RUNNING ==> ReadyFor(t[r.value := p]))
                && IsNext(t, stamp, r.value) && |stamp| == NPROC
                && (forall j :: 0 <= j < NPROC && t[j].state == RUNNABLE ==>
                      && t[r.value].priority <= t[j].priority
                      && (t[j].priority == t[r.value].priority ==> stamp[r.value] <= stamp[j]))
                && var l := t[r.value].priority - 1;
                   0 <= l < 3 && |old(mq.queue)[l]| > 0 && r.value == old(mq.queue)[l][0] && mq.queue == old(mq.queue)[l := old(mq.queue)[l][1..]]
    {
      assert |stamp| == NPROC;
      hide RingsReady, HeapReady, IsNext;
      ghost var queue := mq.queue;
      for pr: int := 1 to NUMPR + 1
        invariant mq.Valid() && mq.queue == queue && ReadyFor(t)
        invariant forall l :: 0 <= l < pr - 1 ==> queue[l] == []
      {
        var empty := mq.IsEmpty(pr);
        if !empty {
          HeadIsNext(queue, t, stamp, clock, pr - 1);
          r := mq.Deque(pr);
          ghost var i := queue[pr - 1][0];
          NextIs(t, stamp, i);
          HeadAt(queue, t, stamp, clock, pr - 1);
          forall p: Proc | p.state == RUNNING ensures RingsReady(mq.queue, t[i := p], stamp, clock) {
            RingsCut(queue, t, stamp, clock, pr - 1, 0, p);
            assert Without(queue[pr - 1], 0) == queue[pr - 1][1..];
          }
          RingsCut(queue, t, stamp, clock, pr - 1, 0, t[0].(state := RUNNING));
          return;
        }
      }
      AllEmpty(queue, t, stamp, clock);
      r := None;
    }
  }
}
