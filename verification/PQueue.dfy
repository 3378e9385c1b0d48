/** The FCFS ready queue: a binary heap of process-table slots in an array, ordered by the
    processes' creation times. */
module PQueue {
  import opened Common

  const NPROC: Positive

  function Parent(i: nat): nat
    requires i > 0
  {
    (i - 1) / 2
  }

  function LeftChild(i: nat): nat {
    2 * i + 1
  }

  function RightChild(i: nat): nat {
    2 * i + 2
  }

  predicate Slots(q: seq<nat>, created: seq<nat>) {
    forall i :: 0 <= i < |q| ==> q[i] < |created|
  }

  /** The child at i is not older than its parent. */
  predicate Ordered(q: seq<nat>, created: seq<nat>, i: nat)
    requires Slots(q, created) && 0 < i < |q|
  {
    created[q[Parent(i)]] <= created[q[i]]
  }

  ghost predicate Heap(q: seq<nat>, created: seq<nat>)
    requires Slots(q, created)
  {
    forall i :: 0 < i < |q| ==> Ordered(q, created, i)
  }

  /** A heap but for the element at i, which may be older than its ancestors. */
  ghost predicate HeapUpTo(q: seq<nat>, created: seq<nat>, i: nat)
    requires Slots(q, created) && i < |q|
  {
    && (forall j :: 0 < j < |q| && j != i ==> Ordered(q, created, j))
    && (forall j :: 0 < j < |q| && i > 0 && Parent(j) == i ==> created[q[Parent(i)]] <= created[q[j]])
  }

  /** A heap but for the element at i, which may be younger than its descendants. */
  ghost predicate HeapDownFrom(q: seq<nat>, created: seq<nat>, i: nat)
    requires Slots(q, created)
  {
    && (forall j :: 0 < j < |q| && Parent(j) != i ==> Ordered(q, created, j))
    && (forall j :: 0 < j < |q| && i > 0 && Parent(j) == i ==> created[q[Parent(i)]] <= created[q[j]])
  }

  function Swap(q: seq<nat>, i: nat, j: nat): seq<nat>
    requires i < |q| && j < |q|
  {
    q[i := q[j]][j := q[i]]
  }

  lemma UpEnds(q: seq<nat>, created: seq<nat>, i: nat)
    requires Slots(q, created) && i < |q| && HeapUpTo(q, created, i)
    requires i > 0 ==> created[q[Parent(i)]] <= created[q[i]]
    ensures Heap(q, created)
  {
    assert i > 0 ==> Ordered(q, created, i);
  }

  lemma SwapKeepsElements(q: seq<nat>, i: nat, j: nat)
    requires i < |q| && j < |q|
    ensures multiset(Swap(q, i, j)) == multiset(q)
  {
  }

  /** The root of a heap is the oldest process in it. */
  lemma {:induction false} RootIsOldest(q: seq<nat>, created: seq<nat>, i: nat)
    requires Slots(q, created) && Heap(q, created) && i < |q|
    ensures created[q[0]] <= created[q[i]]
    decreases i
  {
    if i > 0 {
      assert Ordered(q, created, i);
      RootIsOldest(q, created, Parent(i));
    }
  }

  lemma RootOldestOfAll(q: seq<nat>, created: seq<nat>)
    requires q != [] && Slots(q, created) && Heap(q, created)
    ensures forall x :: x in q ==> created[q[0]] <= created[x]
  {
    forall i | 0 <= i < |q| ensures created[q[0]] <= created[q[i]] { RootIsOldest(q, created, i); }
  }

  lemma UpStep(q: seq<nat>, created: seq<nat>, i: nat)
    requires Slots(q, created) && 0 < i < |q| && HeapUpTo(q, created, i)
    requires created[q[Parent(i)]] > created[q[i]]
    ensures Slots(Swap(q, Parent(i), i), created) && HeapUpTo(Swap(q, Parent(i), i), created, Parent(i))
  {
    var p := Parent(i);
    var q' := Swap(q, p, i);
    forall j | 0 < j < |q| && j != p ensures Ordered(q', created, j) {
      if j != i { assert Ordered(q, created, j); }
      if p > 0 { assert Ordered(q, created, p); }
    }
    if p > 0 {
      assert Ordered(q, created, p);
      forall j | 0 < j < |q| && Parent(j) == p ensures created[q'[Parent(p)]] <= created[q'[j]] {
        if j != i { assert Ordered(q, created, j); }
      }
    }
  }

  lemma DownStep(q: seq<nat>, created: seq<nat>, i: nat, c: nat)
    requires Slots(q, created) && 0 < c < |q| && Parent(c) == i && HeapDownFrom(q, created, i)
    requires forall j :: 0 < j < |q| && Parent(j) == i ==> created[q[c]] <= created[q[j]]
    requires created[q[c]] < created[q[i]]
    ensures Slots(Swap(q, c, i), created) && HeapDownFrom(Swap(q, c, i), created, c)
  {
    var q' := Swap(q, c, i);
    forall j | 0 < j < |q| && Parent(j) != c ensures Ordered(q', created, j) {
      if Parent(j) != i && j != i { assert Ordered(q, created, j); }
      if j == i { assert Ordered(q, created, i); }
    }
    forall j | 0 < j < |q| && Parent(j) == c ensures created[q'[Parent(c)]] <= created[q'[j]] {
      assert Ordered(q, created, j);
    }
  }

  /** q' is q without p, one of its oldest processes. */
  ghost predicate TakesOldest(q: seq<nat>, created: seq<nat>, p: nat, q': seq<nat>)
    requires Slots(q, created)
  {
    p in q && (forall x :: x in q ==> created[p] <= created[x]) && multiset(q') == multiset(q) - multiset{p}
  }

  lemma RootTaken(q: seq<nat>, created: seq<nat>, rest: seq<nat>, q': seq<nat>)
    requires q != [] && Slots(q, created) && Heap(q, created)
    requires rest == q[0 := q[|q| - 1]][..|q| - 1] && multiset(q') == multiset(rest)
    ensures TakesOldest(q, created, q[0], q')
  {
    RootOldestOfAll(q, created);
    MovedElements(q, rest);
  }

  lemma AppendedAtEnd(q: seq<nat>, created: seq<nat>, p: nat)
    requires Slots(q, created) && Heap(q, created) && p < |created|
    ensures Slots(q + [p], created) && HeapUpTo(q + [p], created, |q|)
  {
    forall j | 0 < j < |q| ensures Ordered(q + [p], created, j) { assert Ordered(q, created, j); }
  }

  lemma SlotsInRange(q: seq<nat>, created: seq<nat>)
    requires Slots(q, created)
    ensures forall i :: 0 <= i < |q| ==> q[i] < |created|
  {
  }

  /** minindex is right: where it is i the heap is whole, and else it is the older child. */
  lemma ChildrenOf(q: seq<nat>, created: seq<nat>, i: nat, m: nat)
    requires Slots(q, created) && HeapDownFrom(q, created, i)
    requires m == i || (m < |q| && (m == LeftChild(i) || m == RightChild(i)) && created[q[m]] < created[q[i]])
    requires LeftChild(i) < |q| ==> (if m == i then created[q[i]] else created[q[m]]) <= created[q[LeftChild(i)]]
    requires RightChild(i) < |q| ==> (if m == i then created[q[i]] else created[q[m]]) <= created[q[RightChild(i)]]
    ensures m == i ==> Heap(q, created)
    ensures m != i ==> Parent(m) == i && forall j :: 0 < j < |q| && Parent(j) == i ==> created[q[m]] <= created[q[j]]
  {
    assert forall j :: 0 < j < |q| && Parent(j) == i ==> j == LeftChild(i) || j == RightChild(i);
  }

  /** Moving the last element over the root leaves a heap but for the root. */
  lemma RootReplaced(q: seq<nat>, created: seq<nat>)
    requires q != [] && Slots(q, created) && Heap(q, created)
    ensures var n := |q| - 1; var r := q[0 := q[n]][..n];
            && Slots(r, created) && HeapDownFrom(r, created, 0)
            && multiset(r) == multiset(q) - multiset{q[0]}
  {
    var n := |q| - 1;
    var r := q[0 := q[n]][..n];
    forall j | 0 < j < |r| && Parent(j) != 0 ensures Ordered(r, created, j) { assert Ordered(q, created, j); }
    MovedElements(q, r);
  }

  lemma MovedElements(q: seq<nat>, r: seq<nat>)
    requires q != [] && r == q[0 := q[|q| - 1]][..|q| - 1]
    ensures multiset(r) == multiset(q) - multiset{q[0]}
  {
    var n := |q| - 1;
    if n > 0 {
      assert q == [q[0]] + q[1..n] + [q[n]];
      assert r == [q[n]] + q[1..n];
    } else {
      assert q == [q[0]] && r == [];
    }
  }

  class PQueue {
    var size: nat
    const proc: array<nat>

    ghost predicate Valid()
      reads this, proc
    {
      proc.Length == NPROC && size <= NPROC
    }

    ghost function Contents(): (q: seq<nat>)
      requires Valid()
      reads this, proc
      ensures |q| == size
    {
      proc[..size]
    }

    constructor ()
      ensures Valid() && Contents() == [] && fresh(proc)
    {
      size := 0;
      proc := new nat[NPROC];
    }

    /** shiftup(i), called with the new element at i and i the last position in use. */
    method ShiftUp(i0: nat, created: seq<nat>)
      requires proc.Length == NPROC && i0 < NPROC
      requires Slots(proc[..i0 + 1], created) && HeapUpTo(proc[..i0 + 1], created, i0)
      modifies proc
      ensures Slots(proc[..i0 + 1], created) && Heap(proc[..i0 + 1], created)
      ensures multiset(proc[..i0 + 1]) == multiset(old(proc[..i0 + 1]))
    {
      hide HeapUpTo, Heap, Ordered;
      var i: nat := i0;
      while i > 0 && created[proc[Parent(i)]] > created[proc[i]]
        invariant i <= i0
        invariant Slots(proc[..i0 + 1], created) && HeapUpTo(proc[..i0 + 1], created, i)
        invariant multiset(proc[..i0 + 1]) == multiset(old(proc[..i0 + 1]))
      {
        ghost var q := proc[..i0 + 1];
        UpStep(q, created, i);
        SwapKeepsElements(q, Parent(i), i);
        var tmp := proc[Parent(i)];
        proc[Parent(i)] := proc[i];
        proc[i] := tmp;
        assert proc[..i0 + 1] == Swap(q, Parent(i), i);
        i := Parent(i);
      }
      UpEnds(proc[..i0 + 1], created, i);
    }

    method ShiftDown(i: nat, created: seq<nat>)
      requires Valid() && Slots(Contents(), created) && HeapDownFrom(Contents(), created, i)
      modifies proc
      ensures Valid() && Slots(Contents(), created) && Heap(Contents(), created)
      ensures multiset(Contents()) == multiset(old(Contents()))
      decreases NPROC - i
    {
      hide Heap, HeapDownFrom, Ordered, Slots, Parent;
      var minindex := i;
      ghost var q := Contents();
      SlotsInRange(q, created);
      if LeftChild(i) < size && created[proc[LeftChild(i)]] < created[proc[minindex]] {
        minindex := LeftChild(i);
      }
      if RightChild(i) < size && created[proc[RightChild(i)]] < created[proc[minindex]] {
        minindex := RightChild(i);
      }
      ChildrenOf(q, created, i, minindex);
      if minindex != i {
        DownStep(q, created, i, minindex);
        SwapKeepsElements(q, minindex, i);
        var tmp := proc[minindex];
        proc[minindex] := proc[i];
        proc[i] := tmp;
        assert Contents() == Swap(q, minindex, i);
        ShiftDown(minindex, created);
      }
    }

    /** insert(p): drops p silently when the array is full. */
    method Insert(p: nat, created: seq<nat>)
      requires Valid() && p < |created| && Slots(Contents(), created) && Heap(Contents(), created)
      modifies this`size, proc
      ensures Valid() && Slots(Contents(), created) && Heap(Contents(), created)
      ensures |old(Contents())| < NPROC ==> multiset(Contents()) == multiset(old(Contents())) + multiset{p}
      ensures |old(Contents())| == NPROC ==> Contents() == old(Contents())
    {
      if size < NPROC {
        hide Heap, HeapUpTo, Slots;
        ghost var q := Contents();
        AppendedAtEnd(q, created, p);
        proc[size] := p;
        assert proc[..size + 1] == q + [p];
        ShiftUp(size, created);
        ghost var r := proc[..size + 1];
        assert multiset(r) == multiset(q) + multiset{p};
        size := size + 1;
        assert Contents() == r;
      }
    }

    lemma LastOverFirst(q: seq<nat>)
      requires Valid() && |q| == size + 1 && proc[0] == q[size]
      requires forall i :: 1 <= i < size ==> proc[i] == q[i]
      ensures Contents() == q[0 := q[size]][..size]
    {
    }

    /** remove(): the oldest process, or nothing. */
    method Remove(created: seq<nat>) returns (r: Option<nat>)
      requires Valid() && Slots(Contents(), created) && Heap(Contents(), created)
      modifies this`size, proc
      ensures Valid() && Slots(Contents(), created) && Heap(Contents(), created)
      ensures r == None ==> old(Contents()) == [] && Contents() == []
      ensures r.Some? ==> TakesOldest(old(Contents()), created, r.value, Contents())
    {
      hide Heap, HeapDownFrom, Slots, TakesOldest;
      if size == 0 { return None; }
      ghost var q := Contents();
      var p := proc[0];
      ghost var rest := q[0 := q[size - 1]][..size - 1];
      RootReplaced(q, created);
      size := size - 1;
      proc[0] := proc[size];
      LastOverFirst(q);
      ShiftDown(0, created);
      RootTaken(q, created, rest, Contents());
      r := Some(p);
    }
  }
}
