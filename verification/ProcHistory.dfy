/** What the fields of a process tell about the run that led to them: who was killed, when the
    process was made and dispatched, and where its ticks went. */
module ProcHistory {
  import opened Common
  import opened PQueue
  import opened ProcSteps

  /** wait() frees slot i. */
  predicate Frees(step: Step, i: nat) {
    step.ReapStep? && step.i == i
  }

  lemma RunSize(policy: Policy, states: seq<System>, steps: seq<Step>, k: nat)
    requires Run(policy, states, steps) && k <= |steps|
    ensures |states| == |steps| + 1 && |states[k].t| == NPROC
  {
    RunsKeepTree(policy, states, steps, k);
  }

  lemma RunStarts(policy: Policy, states: seq<System>, steps: seq<Step>, i: nat)
    requires Run(policy, states, steps) && i < NPROC
    ensures |states| == |steps| + 1 && |states[0].t| == NPROC && !states[0].t[i].killed
  {
  }

  // ----- kill -----

  lemma StepKilled(policy: Policy, s: System, step: Step, i: nat)
    requires Enabled(s, step) && i < |s.t|
    ensures |Do(policy, s, step).t| == |s.t|
    ensures Do(policy, s, step).t[i].killed <==> step == KillStep(i) || (s.t[i].killed && !Frees(step, i))
  {
    hide HasZombieChild;
  }

  /** At every point of every run a slot is marked killed if and only if a kill has hit it and no
      wait has freed it since. */
  lemma {:induction false} KilledIff(policy: Policy, states: seq<System>, steps: seq<Step>, m: nat, i: nat)
    requires Run(policy, states, steps) && m <= |steps| && i < NPROC
    ensures |states| == |steps| + 1 && |states[m].t| == NPROC
    ensures states[m].t[i].killed <==>
              exists k :: 0 <= k < m && steps[k] == KillStep(i) && forall n :: k <= n < m ==> !Frees(steps[n], i)
    decreases m
  {
    hide Run, Do, Enabled;
    RunSize(policy, states, steps, m);
    if m == 0 {
      RunStarts(policy, states, steps, i);
    } else {
      KilledIff(policy, states, steps, m - 1, i);
      RunStep(policy, states, steps, m - 1);
      StepKilled(policy, states[m - 1], steps[m - 1], i);
      if steps[m - 1] == KillStep(i) {
        assert forall n :: m - 1 <= n < m ==> !Frees(steps[n], i);
      }
    }
  }

  /** A process that fork has just launched is killed exactly if a kill has hit it since it was
      allocated, or if its slot was marked already when allocproc took it. */
  lemma LaunchedKilledIff(policy: Policy, states: seq<System>, steps: seq<Step>, a: nat, k: nat, cur: nat, i: nat)
    requires Run(policy, states, steps) && a < k < |steps| && i < NPROC
    requires steps[a] == AllocStep(i) && steps[k] == LaunchStep(cur, i)
    requires forall n :: a < n < k ==> !Frees(steps[n], i)
    ensures |states| == |steps| + 1 && |states[k + 1].t| == |states[a].t| == NPROC
    ensures states[k + 1].t[i].killed <==>
              states[a].t[i].killed || exists n :: a < n < k && steps[n] == KillStep(i)
  {
    hide Run;
    KilledIff(policy, states, steps, k + 1, i);
    KilledIff(policy, states, steps, a, i);
  }

  /** kill(0) marks the first slot that has never been used, or has been freed, and the process
      that fork puts there is born killed: no kill has named its pid. */
  lemma BornKilled(policy: Policy, ticks: nat) returns (states: seq<System>, steps: seq<Step>)
    requires NPROC > 1
    ensures Run(policy, states, steps) && |states| == 5
    ensures steps == [DispatchStep(0), KillStep(1), AllocStep(1), LaunchStep(0, 1)]
    ensures |states[1].t| == NPROC && states[1].t[0].pid != 0 && states[1].t[1].pid == 0
    ensures |states[4].t| == NPROC && states[4].t[1].state == RUNNABLE && states[4].t[1].pid == 2 && states[4].t[1].killed
  {
    BootedTree(policy, ticks);
    var s0 := Booted(policy, ticks);
    var s1 := Dispatched(s0, 0);
    var s2 := Killed(policy, s1, 1);
    var s3 := Alloc(s2, 1);
    states := [s0, s1, s2, s3, Launch(policy, s3, 0, 1)];
    steps := [DispatchStep(0), KillStep(1), AllocStep(1), LaunchStep(0, 1)];
  }

  // ----- times -----

  /** A tick has found slot i in this state. */
  predicate Found(s: System, step: Step, i: nat, state: ProcState) {
    step == TickStep && i < |s.t| && s.t[i].state == state
  }

  /** The number of ticks that found slot i in a state, between two points of a run. */
  function Spent(states: seq<System>, steps: seq<Step>, a: nat, m: nat, i: nat, state: ProcState): nat
    requires m <= |steps| && |states| == |steps| + 1
    decreases m
  {
    if m <= a then 0
    else Spent(states, steps, a, m - 1, i, state) + (if Found(states[m - 1], steps[m - 1], i, state) then 1 else 0)
  }

  lemma ExitTimes(policy: Policy, s: System, cur: nat, i: nat)
    requires cur < |s.t| && i < |s.t|
    ensures var p, s' := s.t[i], Exited(policy, s, cur);
            && |s'.t| == |s.t| && s'.ticks == s.ticks
            && s'.t[i].created == p.created && s'.t[i].scheduled == p.scheduled
            && s'.t[i].run == p.run && s'.t[i].ready == p.ready && s'.t[i].slept == p.slept
  {
    hide HasZombieChild;
  }

  lemma StepTimes(policy: Policy, s: System, step: Step, i: nat)
    requires Enabled(s, step) && i < |s.t|
    ensures var p, s' := s.t[i], Do(policy, s, step);
            && |s'.t| == |s.t| && s'.ticks == s.ticks + (if step == TickStep then 1 else 0)
            && var p' := s'.t[i];
               && (step == AllocStep(i) ==> p'.created == s.ticks && p'.run == p'.ready == p'.slept == 0)
               && (step != AllocStep(i) ==>
                     && p'.created == p.created
                     && p'.run == p.run + (if step == TickStep && p.state == RUNNING then 1 else 0)
                     && p'.ready == p.ready + (if step == TickStep && p.state == RUNNABLE then 1 else 0)
                     && p'.slept == p.slept + (if step == TickStep && p.state == SLEEPING then 1 else 0))
               && p'.scheduled == (if step == DispatchStep(i) then s.ticks else p.scheduled)
  {
    hide Exited;
    if step.ExitStep? { ExitTimes(policy, s, step.cur, i); }
  }

  /** What wait reports: since slot i was allocated, each tick that found it running, ready or
      asleep has been charged to that time and to no other, and created is the tick of the
      allocation. */
  lemma {:induction false} TimesAreCharged(policy: Policy, states: seq<System>, steps: seq<Step>, a: nat, m: nat, i: nat)
    requires Run(policy, states, steps) && a < m <= |steps| && i < NPROC && steps[a] == AllocStep(i)
    requires forall n :: a < n < m ==> steps[n] != AllocStep(i)
    ensures |states| == |steps| + 1 && |states[m].t| == NPROC
    ensures var p := states[m].t[i];
            && p.created == states[a].ticks
            && p.run == Spent(states, steps, a, m, i, RUNNING)
            && p.ready == Spent(states, steps, a, m, i, RUNNABLE)
            && p.slept == Spent(states, steps, a, m, i, SLEEPING)
    decreases m
  {
    hide Run, Do, Enabled;
    RunSize(policy, states, steps, m);
    RunSize(policy, states, steps, m - 1);
    RunStep(policy, states, steps, m - 1);
    StepTimes(policy, states[m - 1], steps[m - 1], i);
    if m > a + 1 {
      TimesAreCharged(policy, states, steps, a, m - 1, i);
    }
  }

  /** No tick is lost: those since the allocation add up to the three times and the ticks spent
      as an embryo, as a zombie, or unused. */
  lemma {:induction false} TicksAddUp(policy: Policy, states: seq<System>, steps: seq<Step>, a: nat, m: nat, i: nat)
    requires Run(policy, states, steps) && a <= m <= |steps| && i < NPROC
    ensures |states| == |steps| + 1
    ensures states[m].ticks - states[a].ticks
            == Spent(states, steps, a, m, i, RUNNING) + Spent(states, steps, a, m, i, RUNNABLE)
               + Spent(states, steps, a, m, i, SLEEPING) + Spent(states, steps, a, m, i, EMBRYO)
               + Spent(states, steps, a, m, i, ZOMBIE) + Spent(states, steps, a, m, i, UNUSED)
    decreases m
  {
    hide Run, Do, Enabled;
    RunSize(policy, states, steps, m);
    if m > a {
      RunSize(policy, states, steps, m - 1);
      RunStep(policy, states, steps, m - 1);
      StepTimes(policy, states[m - 1], steps[m - 1], i);
      TicksAddUp(policy, states, steps, a, m - 1, i);
    }
  }

  /** scheduled is the tick of the last dispatch, by which the timer measures the quantum. */
  lemma {:induction false} ScheduledIsLast(policy: Policy, states: seq<System>, steps: seq<Step>, d: nat, m: nat, i: nat)
    requires Run(policy, states, steps) && d < m <= |steps| && i < NPROC && steps[d] == DispatchStep(i)
    requires forall n :: d < n < m ==> steps[n] != DispatchStep(i)
    ensures |states| == |steps| + 1 && |states[m].t| == NPROC && states[m].t[i].scheduled == states[d].ticks
    decreases m
  {
    hide Run, Do, Enabled;
    RunSize(policy, states, steps, m);
    RunSize(policy, states, steps, m - 1);
    RunStep(policy, states, steps, m - 1);
    StepTimes(policy, states[m - 1], steps[m - 1], i);
    if m > d + 1 {
      ScheduledIsLast(policy, states, steps, d, m - 1, i);
    }
  }
}
