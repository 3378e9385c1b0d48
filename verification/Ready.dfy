/** When a heap or a set of rings holds exactly the runnable processes of a table, and how that
    survives the changes the kernel makes. */
module Ready {
  import opened PQueue
  import opened MultiQueue
  import opened ProcSteps

  function RunnableSlots(t: seq<Proc>): set<nat> {
    set i: nat | i < |t| && t[i].state == RUNNABLE
  }

  function RunnableAt(t: seq<Proc>, priority: int): set<nat> {
    set i: nat | i < |t| && t[i].state == RUNNABLE && t[i].priority == priority
  }

  function CreatedOf(t: seq<Proc>): (c: seq<nat>)
    ensures |c| == |t|
  {
    seq(|t|, i requires 0 <= i < |t| => t[i].created)
  }

  function PidsOf(t: seq<Proc>): (c: seq<int>)
    ensures |c| == |t|
  {
    seq(|t|, i requires 0 <= i < |t| => t[i].pid)
  }

  /** q holds each member once and nothing else. */
  ghost predicate Holds(q: seq<nat>, members: set<nat>) {
    multiset(q) == multiset(members)
  }

  /** FCFS: the heap holds exactly the runnable processes, oldest at the root. */
  ghost predicate HeapReady(q: seq<nat>, t: seq<Proc>) {
    Holds(q, RunnableSlots(t)) && Slots(q, CreatedOf(t)) && Heap(q, CreatedOf(t))
  }

  /** Queued earlier means stamped earlier. */
  ghost predicate Fifo(q: seq<nat>, stamp: seq<nat>, clock: nat) {
    && (forall i :: 0 <= i < |q| ==> q[i] < |stamp| && stamp[q[i]] < clock)
    && (forall i, j :: 0 <= i < j < |q| ==> stamp[q[i]] < stamp[q[j]])
  }

  /** Ring l holds exactly the runnable processes of priority l + 1, in the order they came. */
  ghost predicate RingReady(q: seq<nat>, l: nat, t: seq<Proc>, stamp: seq<nat>, clock: nat) {
    Holds(q, RunnableAt(t, l + 1)) && Fifo(q, stamp, clock)
  }

  ghost predicate RingsReady(queue: seq<seq<nat>>, t: seq<Proc>, stamp: seq<nat>, clock: nat) {
    && |queue| == NUMPR && |stamp| == |t|
    && (forall l :: 0 <= l < NUMPR ==> RingReady(queue[l], l, t, stamp, clock))
    && (forall i :: 0 <= i < |t| && t[i].state == RUNNABLE ==> Priority(t[i].priority))
  }

  // ----- sizes -----

  lemma {:induction false} SlotSetSize(s: set<nat>, n: nat)
    requires forall i :: i in s ==> i < n
    ensures |s| <= n
    decreases n
  {
    if n > 0 {
      SlotSetSize(s - {n - 1}, n - 1);
      assert s <= (s - {n - 1}) + {n - 1};
    } else {
      assert s == {};
    }
  }

  lemma RoomFor(s: set<nat>, n: nat, i: nat)
    requires (forall j :: j in s ==> j < n) && i < n && i !in s
    ensures |s| < n
  {
    SlotSetSize(s + {i}, n);
  }

  lemma HoldsSize(q: seq<nat>, s: set<nat>)
    requires Holds(q, s)
    ensures |q| == |s| && forall x :: x in q <==> x in s
  {
    assert |q| == |multiset(q)|;
    forall x ensures x in q <==> x in s {
      assert x in q <==> x in multiset(q);
      assert x in s <==> x in multiset(s);
    }
  }

  lemma HoldsMore(q: seq<nat>, s: set<nat>, i: nat, q': seq<nat>)
    requires Holds(q, s) && i !in s && multiset(q') == multiset(q) + multiset{i}
    ensures Holds(q', s + {i})
  {
  }

  lemma HoldsLess(q: seq<nat>, s: set<nat>, i: nat, q': seq<nat>)
    requires Holds(q, s) && i in s && multiset(q') == multiset(q) - multiset{i}
    ensures Holds(q', s - {i})
  {
  }

  lemma RingsSize(queue: seq<seq<nat>>, t: seq<Proc>, stamp: seq<nat>, clock: nat)
    requires RingsReady(queue, t, stamp, clock)
    ensures |queue| == NUMPR && |stamp| == |t|
  {
  }

  /** Empty queues are right for a table in which nothing is runnable. */
  lemma NothingReady(t: seq<Proc>, queue: seq<seq<nat>>, stamp: seq<nat>, clock: nat)
    requires forall i :: 0 <= i < |t| ==> t[i].state != RUNNABLE
    requires queue == seq(NUMPR, _ => []) && |stamp| == |t|
    ensures HeapReady([], t) && RingsReady(queue, t, stamp, clock)
  {
    assert RunnableSlots(t) == {};
    forall l | 0 <= l < NUMPR ensures RingReady(queue[l], l, t, stamp, clock) {
      assert RunnableAt(t, l + 1) == {};
    }
  }

  // ----- the heap -----

  /** A heap with room for one more process: insert() cannot meet a full array. */
  lemma HeapHasRoom(q: seq<nat>, t: seq<Proc>, i: nat)
    requires HeapReady(q, t) && |t| == NPROC && i < NPROC && t[i].state != RUNNABLE
    ensures |q| < NPROC
  {
    HoldsSize(q, RunnableSlots(t));
    RoomFor(RunnableSlots(t), NPROC, i);
  }

  lemma HeapOrderFrame(q: seq<nat>, c: seq<nat>, c': seq<nat>)
    requires Slots(q, c) && Heap(q, c) && |c'| == |c|
    requires forall i :: 0 <= i < |q| ==> c'[q[i]] == c[q[i]]
    ensures Slots(q, c') && Heap(q, c')
  {
    forall i | 0 < i < |q| ensures Ordered(q, c', i) { assert Ordered(q, c, i); }
  }

  /** A change of one process that is not runnable before leaves the heap in order. */
  lemma HeapOrderKept(q: seq<nat>, t: seq<Proc>, t': seq<Proc>)
    requires HeapReady(q, t) && |t'| == |t|
    requires forall i :: 0 <= i < |t| && t[i].state == RUNNABLE ==> t'[i].created == t[i].created
    ensures Slots(q, CreatedOf(t')) && Heap(q, CreatedOf(t'))
  {
    HoldsSize(q, RunnableSlots(t));
    forall i | 0 <= i < |q| ensures CreatedOf(t')[q[i]] == CreatedOf(t)[q[i]] {
      assert q[i] in q;
    }
    HeapOrderFrame(q, CreatedOf(t), CreatedOf(t'));
  }

  lemma HeapFrame(q: seq<nat>, t: seq<Proc>, t': seq<Proc>)
    requires HeapReady(q, t) && |t'| == |t|
    requires forall i :: 0 <= i < |t| ==> (t[i].state == RUNNABLE <==> t'[i].state == RUNNABLE)
    requires forall i :: 0 <= i < |t| && t[i].state == RUNNABLE ==> t'[i].created == t[i].created
    ensures HeapReady(q, t')
  {
    HeapOrderKept(q, t, t');
    assert RunnableSlots(t') == RunnableSlots(t);
  }

  lemma HeapInserted(q: seq<nat>, t: seq<Proc>, i: nat, p: Proc, q': seq<nat>)
    requires HeapReady(q, t) && i < |t| && t[i].state != RUNNABLE && p.state == RUNNABLE
    requires multiset(q') == multiset(q) + multiset{i}
    requires Slots(q', CreatedOf(t[i := p])) && Heap(q', CreatedOf(t[i := p]))
    ensures HeapReady(q', t[i := p])
  {
    HoldsMore(q, RunnableSlots(t), i, q');
    assert RunnableSlots(t[i := p]) == RunnableSlots(t) + {i};
  }

  lemma HeapRemoved(q: seq<nat>, t: seq<Proc>, i: nat, p: Proc, q': seq<nat>)
    requires HeapReady(q, t) && i < |t| && p.state != RUNNABLE && p.created == t[i].created
    requires TakesOldest(q, CreatedOf(t), i, q')
    requires Slots(q', CreatedOf(t)) && Heap(q', CreatedOf(t))
    ensures HeapReady(q', t[i := p])
    ensures t[i].state == RUNNABLE
    ensures forall j :: 0 <= j < |t| && t[j].state == RUNNABLE ==> t[i].created <= t[j].created
  {
    HoldsSize(q, RunnableSlots(t));
    HoldsLess(q, RunnableSlots(t), i, q');
    assert CreatedOf(t[i := p]) == CreatedOf(t);
    assert RunnableSlots(t[i := p]) == RunnableSlots(t) - {i};
    forall j | 0 <= j < |t| && t[j].state == RUNNABLE ensures t[i].created <= t[j].created {
      assert j in RunnableSlots(t);
    }
  }

  // ----- the rings -----

  /** A ring with room for one more process: enque() cannot meet a full ring. */
  lemma RingHasRoom(q: seq<nat>, t: seq<Proc>, priority: int, i: nat)
    requires Holds(q, RunnableAt(t, priority)) && |t| == NPROC && i < NPROC
    requires t[i].state != RUNNABLE || t[i].priority != priority
    ensures |q| < NPROC && i !in q
  {
    HoldsSize(q, RunnableAt(t, priority));
    RoomFor(RunnableAt(t, priority), NPROC, i);
  }

  lemma RingsFrame(queue: seq<seq<nat>>, t: seq<Proc>, stamp: seq<nat>, clock: nat, t': seq<Proc>)
    requires RingsReady(queue, t, stamp, clock) && |t'| == |t|
    requires forall i :: 0 <= i < |t| ==> (t[i].state == RUNNABLE <==> t'[i].state == RUNNABLE)
    requires forall i :: 0 <= i < |t| && t[i].state == RUNNABLE ==> t'[i].priority == t[i].priority
    ensures RingsReady(queue, t', stamp, clock)
  {
    forall l | 0 <= l < NUMPR ensures RingReady(queue[l], l, t', stamp, clock) {
      assert RingReady(queue[l], l, t, stamp, clock);
      assert RunnableAt(t', l + 1) == RunnableAt(t, l + 1);
    }
  }

  lemma FifoPush(q: seq<nat>, stamp: seq<nat>, clock: nat, i: nat)
    requires Fifo(q, stamp, clock) && i < |stamp| && i !in q
    ensures Fifo(q + [i], stamp[i := clock], clock + 1)
  {
  }

  lemma FifoKeep(q: seq<nat>, stamp: seq<nat>, clock: nat, i: nat)
    requires Fifo(q, stamp, clock) && i < |stamp| && i !in q
    ensures Fifo(q, stamp[i := clock], clock + 1)
  {
  }

  lemma FifoCut(q: seq<nat>, stamp: seq<nat>, clock: nat, k: nat)
    requires Fifo(q, stamp, clock) && k < |q|
    ensures Fifo(Without(q, k), stamp, clock)
  {
  }

  lemma RingsEnqueued(queue: seq<seq<nat>>, t: seq<Proc>, stamp: seq<nat>, clock: nat, i: nat, p: Proc)
    requires RingsReady(queue, t, stamp, clock) && |t| == NPROC && i < |t|
    requires t[i].state != RUNNABLE && p.state == RUNNABLE && Priority(p.priority)
    ensures RingsReady(Enqued(queue, p.priority - 1, i), t[i := p], stamp[i := clock], clock + 1)
    ensures Enqued(queue, p.priority - 1, i) == queue[p.priority - 1 := queue[p.priority - 1] + [i]]
  {
    hide RingReady;
    var m := p.priority - 1;
    forall l: nat | l < NUMPR
      ensures |queue[l]| < NPROC
      ensures RingReady(if l == m then queue[l] + [i] else queue[l], l, t[i := p], stamp[i := clock], clock + 1)
    {
      RingGains(queue[l], l, t, stamp, clock, i, p);
    }
  }

  /** What a ring is after process i has become runnable. */
  lemma RingGains(q: seq<nat>, l: nat, t: seq<Proc>, stamp: seq<nat>, clock: nat, i: nat, p: Proc)
    requires RingReady(q, l, t, stamp, clock) && i < |t| == |stamp| == NPROC && t[i].state != RUNNABLE && p.state == RUNNABLE
    ensures |q| < NPROC
    ensures RingReady(if p.priority == l + 1 then q + [i] else q, l, t[i := p], stamp[i := clock], clock + 1)
  {
    RingHasRoom(q, t, l + 1, i);
    hide Fifo;
    if p.priority == l + 1 {
      HoldsMore(q, RunnableAt(t, l + 1), i, q + [i]);
      hide Holds;
      assert RunnableAt(t[i := p], l + 1) == RunnableAt(t, l + 1) + {i};
      FifoPush(q, stamp, clock, i);
    } else {
      hide Holds;
      assert RunnableAt(t[i := p], l + 1) == RunnableAt(t, l + 1);
      FifoKeep(q, stamp, clock, i);
    }
  }

  lemma EntryIsRunnable(q: seq<nat>, l: nat, t: seq<Proc>, stamp: seq<nat>, clock: nat, k: nat)
    requires RingReady(q, l, t, stamp, clock) && k < |q|
    ensures q[k] in RunnableAt(t, l + 1)
  {
    HoldsSize(q, RunnableAt(t, l + 1));
    assert q[k] in q;
  }

  lemma CutElements(q: seq<nat>, k: nat)
    requires k < |q|
    ensures multiset(Without(q, k)) == multiset(q) - multiset{q[k]}
  {
    assert q == q[..k] + [q[k]] + q[k + 1..];
  }

  lemma RingCut(q: seq<nat>, l: nat, t: seq<Proc>, stamp: seq<nat>, clock: nat, k: nat, p: Proc)
    requires RingReady(q, l, t, stamp, clock) && k < |q| && q[k] < |t| && p.state != RUNNABLE
    ensures RingReady(Without(q, k), l, t[q[k] := p], stamp, clock)
  {
    EntryIsRunnable(q, l, t, stamp, clock, k);
    CutElements(q, k);
    HoldsLess(q, RunnableAt(t, l + 1), q[k], Without(q, k));
    hide Holds, Without;
    assert RunnableAt(t[q[k] := p], l + 1) == RunnableAt(t, l + 1) - {q[k]};
    FifoCut(q, stamp, clock, k);
  }

  /** Taking entry k out of ring m while its process stops being runnable. */
  lemma RingsCut(queue: seq<seq<nat>>, t: seq<Proc>, stamp: seq<nat>, clock: nat, m: nat, k: nat, p: Proc)
    requires RingsReady(queue, t, stamp, clock) && m < NUMPR && k < |queue[m]| && p.state != RUNNABLE
    ensures queue[m][k] < |t|
    ensures RingsReady(queue[m := Without(queue[m], k)], t[queue[m][k] := p], stamp, clock)
    ensures t[queue[m][k]].state == RUNNABLE && t[queue[m][k]].priority == m + 1
  {
    var i := queue[m][k];
    assert RingReady(queue[m], m, t, stamp, clock);
    EntryIsRunnable(queue[m], m, t, stamp, clock, k);
    var t' := t[i := p];
    var queue' := queue[m := Without(queue[m], k)];
    hide Holds, Fifo;
    forall l | 0 <= l < NUMPR ensures RingReady(queue'[l], l, t', stamp, clock) {
      assert RingReady(queue[l], l, t, stamp, clock);
      if l == m {
        RingCut(queue[m], m, t, stamp, clock, k, p);
      } else {
        assert RunnableAt(t', l + 1) == RunnableAt(t, l + 1);
      }
    }
  }

  /** The head of the best non-empty ring: nobody of a better priority is runnable, and nobody
      of its priority has waited longer. */
  lemma HeadIsNext(queue: seq<seq<nat>>, t: seq<Proc>, stamp: seq<nat>, clock: nat, m: nat)
    requires RingsReady(queue, t, stamp, clock) && m < NUMPR && queue[m] != []
    requires forall l :: 0 <= l < m ==> queue[l] == []
    ensures var i := queue[m][0]; i < |t| && IsNext(t, stamp, i)
  {
    var i := queue[m][0];
    RingsCut(queue, t, stamp, clock, m, 0, t[0].(state := RUNNING));
    forall j | 0 <= j < |t| && t[j].state == RUNNABLE
      ensures t[j].priority >= t[i].priority && (t[j].priority == t[i].priority ==> stamp[i] <= stamp[j])
    {
      var l := t[j].priority - 1;
      assert RingReady(queue[l], l, t, stamp, clock);
      HoldsSize(queue[l], RunnableAt(t, l + 1));
      assert j in RunnableAt(t, l + 1);
      if l == m {
        var k :| 0 <= k < |queue[m]| && queue[m][k] == j;
      }
    }
  }

  /** swapque() finds a runnable process in the ring of its priority, by its pid. */
  lemma RingFinds(queue: seq<seq<nat>>, t: seq<Proc>, stamp: seq<nat>, clock: nat, i: nat)
    requires RingsReady(queue, t, stamp, clock) && i < |t| && t[i].state == RUNNABLE
    requires forall j :: 0 <= j < |t| && j != i ==> t[j].pid != t[i].pid
    ensures Priority(t[i].priority)
    ensures var q := queue[t[i].priority - 1];
            Slots'(q, PidsOf(t)) && var k := IndexOf(q, PidsOf(t), t[i].pid); k < |q| && q[k] == i
  {
    var l := t[i].priority - 1;
    var q := queue[l];
    assert RingReady(q, l, t, stamp, clock);
    HoldsSize(q, RunnableAt(t, l + 1));
    assert i in RunnableAt(t, l + 1);
    var k :| 0 <= k < |q| && q[k] == i;
    forall j | 0 <= j < |q| ensures q[j] < |t| {
      assert q[j] in q;
    }
    var first := IndexOf(q, PidsOf(t), t[i].pid);
    assert PidsOf(t)[q[k]] == t[i].pid;
  }

  /** i has left ring m for the tail of ring l; everyone else keeps place and order. */
  ghost predicate MovesToTail(queue: seq<seq<nat>>, queue': seq<seq<nat>>, m: nat, l: nat, i: nat) {
    && m < |queue| && l < |queue| && m != l
    && exists k: nat | k < |queue[m]| && queue[m][k] == i ::
         queue' == queue[m := Without(queue[m], k)][l := queue[l] + [i]]
  }

  /** A runnable process leaves its place for the tail of the ring of its new priority. */
  lemma RingsMoved(queue: seq<seq<nat>>, t: seq<Proc>, stamp: seq<nat>, clock: nat, m: nat, k: nat, priority: int)
    requires RingsReady(queue, t, stamp, clock) && |t| == NPROC
    requires m < NUMPR && k < |queue[m]| && Priority(priority) && priority != m + 1
    ensures var i := queue[m][k]; var queue' := Enqued(queue[m := Without(queue[m], k)], priority - 1, i);
            && i < |t| && t[i].state == RUNNABLE
            && RingsReady(queue', t[i := t[i].(priority := priority)], stamp[i := clock], clock + 1)
            && MovesToTail(queue, queue', m, priority - 1, i)
  {
    hide RingsReady, Enqued, Without, MovesToTail;
    PlaceInTable(queue, t, stamp, clock, m, k);
    var i := queue[m][k];
    var parked, moved := t[i].(state := RUNNING), t[i].(priority := priority);
    RingsCut(queue, t, stamp, clock, m, k, parked);
    RingsEnqueued(queue[m := Without(queue[m], k)], t[i := parked], stamp, clock, i, moved);
    assert t[i := parked][i := moved] == t[i := moved];
    ToTail(queue, m, priority - 1, k);
  }

  lemma ToTail(queue: seq<seq<nat>>, m: nat, l: nat, k: nat)
    requires m < |queue| && l < |queue| && m != l && k < |queue[m]|
    ensures MovesToTail(queue, queue[m := Without(queue[m], k)][l := queue[l] + [queue[m][k]]], m, l, queue[m][k])
  {
  }

  lemma PlaceInTable(queue: seq<seq<nat>>, t: seq<Proc>, stamp: seq<nat>, clock: nat, m: nat, k: nat)
    requires RingsReady(queue, t, stamp, clock) && m < NUMPR && k < |queue[m]|
    ensures |queue| == NUMPR && queue[m][k] < |t| && t[queue[m][k]].state == RUNNABLE
  {
    assert RingReady(queue[m], m, t, stamp, clock);
    EntryIsRunnable(queue[m], m, t, stamp, clock, k);
  }

  ghost predicate IsNext(t: seq<Proc>, stamp: seq<nat>, i: nat) {
    && i < |t| && |stamp| == |t| && t[i].state == RUNNABLE
    && forall j :: 0 <= j < |t| && t[j].state == RUNNABLE ==>
         t[j].priority >= t[i].priority && (t[j].priority == t[i].priority ==> stamp[i] <= stamp[j])
  }

  lemma NextIs(t: seq<Proc>, stamp: seq<nat>, i: nat)
    requires IsNext(t, stamp, i)
    ensures i < |t| == |stamp| && t[i].state == RUNNABLE
    ensures forall j :: 0 <= j < |t| && t[j].state == RUNNABLE ==>
              t[i].priority <= t[j].priority && (t[j].priority == t[i].priority ==> stamp[i] <= stamp[j])
  {
  }

  lemma HeadAt(queue: seq<seq<nat>>, t: seq<Proc>, stamp: seq<nat>, clock: nat, l: nat)
    requires RingsReady(queue, t, stamp, clock) && l < NUMPR && queue[l] != []
    ensures queue[l][0] < |t| && t[queue[l][0]].priority == l + 1
  {
    assert RingReady(queue[l], l, t, stamp, clock);
    EntryIsRunnable(queue[l], l, t, stamp, clock, 0);
  }

  lemma AllEmpty(queue: seq<seq<nat>>, t: seq<Proc>, stamp: seq<nat>, clock: nat)
    requires RingsReady(queue, t, stamp, clock)
    requires forall l :: 0 <= l < NUMPR ==> queue[l] == []
    ensures forall i :: 0 <= i < |t| ==> t[i].state != RUNNABLE
  {
    forall i | 0 <= i < |t| && t[i].state == RUNNABLE ensures false {
      NobodyRunnable(queue, t, stamp, clock, i);
    }
  }

  lemma NobodyRunnable(queue: seq<seq<nat>>, t: seq<Proc>, stamp: seq<nat>, clock: nat, i: nat)
    requires RingsReady(queue, t, stamp, clock) && i < |t|
    requires Priority(t[i].priority) && queue[t[i].priority - 1] == []
    ensures t[i].state != RUNNABLE
  {
    var l := t[i].priority - 1;
    assert RingReady(queue[l], l, t, stamp, clock);
    HoldsSize(queue[l], RunnableAt(t, l + 1));
    assert i !in RunnableAt(t, l + 1);
  }

  /** A runnable process stands at one place, in the ring of its priority; no other is queued. */
  lemma OnePlaceEach(queue: seq<seq<nat>>, t: seq<Proc>, stamp: seq<nat>, clock: nat, i: nat)
    requires RingsReady(queue, t, stamp, clock) && i < |t|
    ensures forall l :: 0 <= l < NUMPR ==>
              multiset(queue[l])[i] == if t[i].state == RUNNABLE && t[i].priority == l + 1 then 1 else 0
  {
    forall l | 0 <= l < NUMPR
      ensures multiset(queue[l])[i] == if t[i].state == RUNNABLE && t[i].priority == l + 1 then 1 else 0
    {
      assert RingReady(queue[l], l, t, stamp, clock);
      assert i in RunnableAt(t, l + 1) <==> t[i].state == RUNNABLE && t[i].priority == l + 1;
    }
  }
}
