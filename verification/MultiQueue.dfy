/** The MLQ/DMLQ ready queues: one ring of NPROC + 1 process-table slots per priority. */
module MultiQueue {
  import opened Common
  import opened PQueue

  const NUMPR: nat := 3
  const HIPR: nat := 1
  const MDPR: nat := 2
  const LWPR: nat := 3
  const RING: nat := NPROC + 1

  predicate Priority(p: int) {
    1 <= p <= NUMPR
  }

  /** C's % truncates toward zero. */
  function CMod(a: int, b: int): int
    requires b > 0
  {
    if a >= 0 then a % b else -((-a) % b)
  }

  function Wrap(x: nat): (r: nat)
    requires x < 2 * RING
    ensures r < RING
  {
    if x < RING then x else x - RING
  }

  lemma ModIsWrap(x: nat)
    requires x < 2 * RING
    ensures x % RING == Wrap(x)
  {
    ModOfSum(x / RING, x % RING, x);
  }

  /** A quotient of a number below 2 * RING is 0 or 1. */
  lemma ModOfSum(q: nat, r: nat, x: nat)
    requires x == q * RING + r && r < RING && x < 2 * RING
    ensures r == Wrap(x)
  {
    assert q >= 2 ==> q * RING >= 2 * RING;
  }

  lemma CModOfEnd(e: int)
    requires -1 <= e < RING
    ensures CMod(e, RING) == e
  {
    ModIsWrap(if e < 0 then -e else e);
  }

  /** Where the first process with this pid stands in q, or |q|. */
  function IndexOf(q: seq<nat>, pids: seq<int>, pid: int): (k: nat)
    requires Slots'(q, pids)
    ensures k <= |q|
    ensures forall i :: 0 <= i < k ==> pids[q[i]] != pid
    ensures k < |q| ==> pids[q[k]] == pid
    decreases |q|
  {
    if q == [] then 0
    else if pids[q[0]] == pid then 0
    else 1 + IndexOf(q[1..], pids, pid)
  }

  predicate Slots'(q: seq<nat>, pids: seq<int>) {
    forall i :: 0 <= i < |q| ==> q[i] < |pids|
  }

  lemma IndexIs(q: seq<nat>, pids: seq<int>, pid: int, k: nat)
    requires Slots'(q, pids) && k <= |q|
    requires forall i :: 0 <= i < k ==> pids[q[i]] != pid
    requires k < |q| ==> pids[q[k]] == pid
    ensures IndexOf(q, pids, pid) == k
  {
  }

  function Without(q: seq<nat>, k: nat): seq<nat>
    requires k < |q|
  {
    q[..k] + q[k + 1..]
  }

  /** enque() on the abstract rings: a full ring drops the process. */
  function Enqued(queue: seq<seq<nat>>, i: nat, p: nat): seq<seq<nat>>
    requires i < |queue|
  {
    if |queue[i]| < NPROC then queue[i := queue[i] + [p]] else queue
  }

  /** The place after a ring of n from s on: it is free unless the ring is full. */
  lemma NextPlace(s: nat, n: nat)
    requires s < RING && n <= NPROC
    ensures (Wrap(s + n) + 1) % RING == s <==> n == NPROC
    ensures n < NPROC ==> (Wrap(s + n) + 1) % RING == Wrap(s + (n + 1))
  {
    ModIsWrap(Wrap(s + n) + 1);
  }

  lemma OtherPlace(s: nat, k: nat, n: nat)
    requires s < RING && k < n <= NPROC
    ensures Wrap(s + k) != Wrap(s + n)
  {
  }

  /** Where the entries m and k of a ring of n from s on stand, if entry k is below the end. */
  lemma Neighbours(s: nat, k: nat, m: nat, n: nat)
    requires s < RING && k < n <= NPROC && m < n - 1 && Wrap(s + k) < Wrap(s + n)
    ensures m >= k ==> Wrap(s + (m + 1)) == Wrap(s + m) + 1 && Wrap(s + k) <= Wrap(s + m) < Wrap(s + n) - 1
    ensures m < k ==> Wrap(s + m) < Wrap(s + k) || Wrap(s + m) >= Wrap(s + n)
  {
  }

  class MultiQueue {
    var start: seq<int>
    var end: seq<int>
    const proc: array2<nat>
    ghost var queue: seq<seq<nat>>   // ring by ring, longest waiting first

    ghost predicate RingOk(i: nat)
      reads this, proc
    {
      && i < |start| && i < |end| && i < |queue|
      && i < proc.Length0 && proc.Length1 == RING
      && 0 <= start[i] < RING
      && |queue[i]| <= NPROC
      && end[i] == Wrap(start[i] + |queue[i]|)
      && forall k :: 0 <= k < |queue[i]| ==> proc[i, Wrap(start[i] + k)] == queue[i][k]
    }

    ghost predicate Valid()
      reads this, proc
    {
      && |start| == |end| == |queue| == proc.Length0 == NUMPR
      && forall i :: 0 <= i < NUMPR ==> RingOk(i)
    }

    constructor ()
      ensures Valid() && queue == seq(NUMPR, _ => []) && start == seq(NUMPR, _ => 0) && fresh(proc)
    {
      start, end := seq(NUMPR, _ => 0), seq(NUMPR, _ => 0);
      proc := new nat[NUMPR, RING];
      queue := seq(NUMPR, _ => []);
    }

    method IsEmpty(priority: int) returns (empty: bool)
      requires Valid() && Priority(priority)
      ensures empty <==> queue[priority - 1] == []
    {
      var qindex := priority - 1;
      assert RingOk(qindex);
      empty := start[qindex] == end[qindex];
    }

    /** enque(): silent when the ring is full. */
    method Enque(priority: int, p: nat)
      requires Valid() && Priority(priority)
      modifies this`end, this`queue, proc
      ensures Valid()
      ensures queue == Enqued(old(queue), priority - 1, p)
      ensures var l := priority - 1; queue == if |old(queue)[l]| < NPROC then old(queue)[l := old(queue)[l] + [p]] else old(queue)
    {
      hide Wrap;
      var qindex := priority - 1;
      assert RingOk(qindex);
      NextPlace(start[qindex], |queue[qindex]|);
      if (end[qindex] + 1) % RING == start[qindex] { return; }
      proc[qindex, end[qindex]] := p;
      ghost var s, q := start[qindex], queue[qindex];
      end := end[qindex := (end[qindex] + 1) % RING];
      queue := queue[qindex := q + [p]];
      forall k | 0 <= k < |q| ensures proc[qindex, Wrap(s + k)] == q[k] {
        OtherPlace(s, k, |q|);
        assert old(proc[qindex, Wrap(s + k)]) == q[k];
      }
      assert RingOk(qindex);
      forall i | 0 <= i < NUMPR && i != qindex ensures RingOk(i) {
        assert old(RingOk(i));
      }
    }

    /** deque(): the longest waiting process of the ring. */
    method Deque(priority: int) returns (r: Option<nat>)
      requires Valid() && Priority(priority)
      modifies this`start, this`queue
      ensures Valid()
      ensures old(queue[priority - 1]) == [] ==> r == None && queue == old(queue)
      ensures old(queue[priority - 1]) != [] ==>
                && r == Some(old(queue[priority - 1])[0])
                && queue == old(queue)[priority - 1 := old(queue[priority - 1])[1..]]
    {
      var qindex := priority - 1;
      assert RingOk(qindex);
      if start[qindex] == end[qindex] { return None; }
      var index := start[qindex];
      var p := proc[qindex, index];
      ModIsWrap(index + 1);
      start := start[qindex := (index + 1) % RING];
      queue := queue[qindex := queue[qindex][1..]];
      forall i | 0 <= i < NUMPR ensures RingOk(i) {
        assert old(RingOk(i));
      }
      r := Some(p);
    }

    /** The slot of ring i in which its k-th process stands. */
    ghost function PlaceOf(i: nat, k: nat): nat
      requires RingOk(i) && k <= |queue[i]|
      reads this, proc
    {
      Wrap(start[i] + k)
    }

    /** What the n slots of ring i from start on hold. */
    ghost function Slots(i: nat, n: nat): (r: seq<nat>)
      requires RingOk(i) && n <= NPROC
      reads this, proc
      ensures |r| == n && forall k :: 0 <= k < n ==> r[k] == proc[i, Wrap(start[i] + k)]
    {
      if n == 0 then [] else Slots(i, n - 1) + [proc[i, Wrap(start[i] + (n - 1))]]
    }

    /** swapque(): the shift loop and the decrement of end do not wrap at 0. fault reports that
        one of them stepped to index -1, where the method stops. It does so exactly when the
        process stands at or after end in the array, or is missing while end is 0. Otherwise a
        process that is present moves, alone, to the tail of its new ring, and one that is
        missing costs the old ring its last entry. An empty ring then reads as a full one, of
        whatever its slots hold. */
    method Swapque(priority1: int, priority2: int, pid: int, pids: seq<int>) returns (fault: bool)
      requires Valid() && Priority(priority1) && Priority(priority2)
      requires Slots'(queue[priority1 - 1], pids)
      modifies this`end, this`queue, proc
      ensures var q := old(queue[priority1 - 1]); var k := IndexOf(q, pids, pid); var i := priority1 - 1;
              && (k < |q| ==>
                    && (fault <==> old(PlaceOf(i, k)) >= old(end[i]))
                    && (!fault ==> Valid() && queue == Enqued(old(queue)[i := Without(q, k)], priority2 - 1, q[k])))
              && (k == |q| ==>
                    && (fault <==> old(end[i]) == 0)
                    && (!fault ==> Valid() && queue == old(queue)[i := if q != [] then q[..|q| - 1] else old(Slots(i, NPROC))]))
    {
      hide CMod, Without, IndexOf, Enqued, Wrap, RingOk, PlaceOf, Slots;
      var qindex1 := priority1 - 1;
      EndInRing(qindex1);
      var i, k := Find(qindex1, pid, pids);
      if i != end[qindex1] {
        var p := proc[qindex1, i];
        fault := RemoveAt(qindex1, i, k);
        if !fault { Enque(priority2, p); }
      } else {
        fault := Decrement(qindex1);
      }
    }

    /** The decrement of end at the close of swapque, with nothing shifted before it. */
    method Decrement(qindex: nat) returns (fault: bool)
      requires Valid() && qindex < NUMPR
      modifies this`end, this`queue
      ensures fault <==> old(end[qindex]) == 0
      ensures !fault ==>
                && Valid()
                && var q := old(queue[qindex]);
                   queue == old(queue)[qindex := if q != [] then q[..|q| - 1] else old(Slots(qindex, NPROC))]
    {
      assert RingOk(qindex);
      CModOfEnd(end[qindex] - 1);
      ghost var q, slots := queue[qindex], Slots(qindex, NPROC);
      end := end[qindex := CMod(end[qindex] - 1, RING)];
      fault := end[qindex] < 0;
      if !fault {
        queue := queue[qindex := if q != [] then q[..|q| - 1] else slots];
        forall j | 0 <= j < NUMPR ensures RingOk(j) { assert old(RingOk(j)); }
      }
    }

    /** The entries of ring i after entry k have moved up, and end has not. */
    ghost predicate Shifted(i: nat, k: nat)
      reads this, proc
    {
      && |start| == |end| == |queue| == proc.Length0 == NUMPR && proc.Length1 == RING
      && i < NUMPR && k < |queue[i]| <= NPROC && 0 <= start[i] < RING && end[i] == Wrap(start[i] + |queue[i]|)
      && (forall m :: 0 <= m < |queue[i]| - 1 ==> proc[i, Wrap(start[i] + m)] == Without(queue[i], k)[m])
      && (forall j :: 0 <= j < NUMPR && j != i ==> RingOk(j))
    }

    /** The shift and the decrement for a process that swapque has found. */
    method RemoveAt(qindex: nat, i: int, ghost k: nat) returns (fault: bool)
      requires Valid() && qindex < NUMPR && k < |queue[qindex]| && i == PlaceOf(qindex, k)
      modifies this`end, this`queue, proc
      ensures fault <==> i >= old(end[qindex])
      ensures !fault ==> Valid() && queue == old(queue)[qindex := Without(old(queue[qindex]), k)]
    {
      hide CMod;
      EndInRing(qindex);
      fault := Shift(qindex, i, k);
      if fault { return; }
      CModOfEnd(end[qindex] - 1);
      label shifted:
      end := end[qindex := CMod(end[qindex] - 1, RING)];
      fault := end[qindex] < 0;
      if !fault {
        queue := queue[qindex := Without(queue[qindex], k)];
        forall j | 0 <= j < NUMPR && j != qindex ensures RingOk(j) { assert old@shifted(RingOk(j)); }
        assert RingOk(qindex);
      }
    }

    method Shift(qindex: nat, i: int, ghost k: nat) returns (fault: bool)
      requires Valid() && qindex < NUMPR && k < |queue[qindex]| && i == PlaceOf(qindex, k)
      modifies proc
      ensures fault <==> i >= end[qindex] > 0
      ensures !fault && i < end[qindex] ==> Shifted(qindex, k)
    {
      hide Wrap;
      assert RingOk(qindex);
      fault := ShiftBack(qindex, i, k);
      if !fault && i < end[qindex] {
        ghost var q, s := queue[qindex], start[qindex];
        forall m | 0 <= m < |q| - 1 ensures proc[qindex, Wrap(s + m)] == Without(q, k)[m] {
          Neighbours(s, k, m, |q|);
          assert old(proc[qindex, Wrap(s + m)]) == q[m];
          assert old(proc[qindex, Wrap(s + (m + 1))]) == q[m + 1];
        }
        forall j | 0 <= j < NUMPR && j != qindex ensures RingOk(j) { assert old(RingOk(j)); }
      }
    }

    lemma EndInRing(i: nat)
      requires Valid() && i < NUMPR
      ensures RingOk(i) && 0 <= start[i] < RING && 0 <= end[i] < RING && proc.Length1 == RING
    {
      assert RingOk(i);
    }

    /** The search loop of swapque: the position of the process, or end. */
    method Find(qindex: nat, pid: int, pids: seq<int>) returns (i: int, ghost k: nat)
      requires Valid() && qindex < NUMPR && Slots'(queue[qindex], pids)
      ensures k == IndexOf(queue[qindex], pids, pid)
      ensures i == PlaceOf(qindex, k) && 0 <= i < proc.Length1
      ensures k == |queue[qindex]| <==> i == end[qindex]
      ensures k < |queue[qindex]| ==> proc[qindex, i] == queue[qindex][k]
    {
      ghost var q := queue[qindex];
      assert RingOk(qindex);
      i, k := start[qindex], 0;
      while i != end[qindex]
        invariant 0 <= k <= |q| && i == Wrap(start[qindex] + k)
        invariant forall j :: 0 <= j < k ==> pids[q[j]] != pid
        decreases |q| - k
      {
        if pids[proc[qindex, i]] == pid { break; }
        ModIsWrap(i + 1);
        i := (i + 1) % RING;
        k := k + 1;
      }
      IndexIs(q, pids, pid, k);
    }

    /** The inner loop of swapque: every entry after position i0 moves one place back. */
    method ShiftBack(qindex: nat, i0: int, ghost k: nat) returns (fault: bool)
      requires Valid() && qindex < NUMPR && k < |queue[qindex]| && i0 == PlaceOf(qindex, k)
      modifies proc
      ensures fault <==> i0 >= end[qindex] > 0
      ensures !fault && i0 < end[qindex] ==>
                && (forall i, j :: 0 <= i < NUMPR && 0 <= j < RING && (i != qindex || j < i0 || j >= end[qindex]) ==>
                      proc[i, j] == old(proc[i, j]))
                && (forall j :: i0 <= j < end[qindex] - 1 ==> proc[qindex, j] == old(proc[qindex, j + 1]))
    {
      assert RingOk(qindex);
      ModIsWrap(i0 + 1);
      var j := (i0 + 1) % RING;
      while j != end[qindex]
        invariant 0 <= j < RING
        invariant i0 < end[qindex] ==> i0 < j <= end[qindex]
        invariant i0 >= end[qindex] > 0 ==> j == 0 || i0 < j
        invariant i0 >= end[qindex] == 0 ==> j == 0 || i0 < j
        invariant i0 < end[qindex] ==> forall i, m :: 0 <= i < NUMPR && 0 <= m < RING && (i != qindex || m < i0 || m >= j - 1) ==>
                    proc[i, m] == old(proc[i, m])
        invariant i0 < end[qindex] ==> forall m :: i0 <= m < j - 1 ==> proc[qindex, m] == old(proc[qindex, m + 1])
        decreases if j == 0 then 0 else RING - j
      {
        if j == 0 { return true; }
        proc[qindex, j - 1] := proc[qindex, j];
        ModIsWrap(j + 1);
        j := (j + 1) % RING;
      }
      fault := false;
    }
  }

  /** A process queued where the ring has wrapped: reached by running NPROC others through. */
  method WrappedEntryFaults(pid: int) returns (fault: bool)
    ensures fault
  {
    var mq := new MultiQueue();
    for n := 0 to NPROC
      invariant mq.Valid() && fresh(mq) && fresh(mq.proc)
      invariant mq.queue == seq(NUMPR, _ => []) && mq.start[0] == n
    {
      assert mq.RingOk(0);
      mq.Enque(HIPR, 0);
      assert mq.RingOk(0);
      var r := mq.Deque(HIPR);
      assert mq.RingOk(0);
    }
    assert mq.RingOk(0);
    mq.Enque(HIPR, 0);
    assert mq.RingOk(0);
    assert IndexOf([0], [pid], pid) == 0;
    fault := mq.Swapque(HIPR, MDPR, pid, [pid]);
  }
}
