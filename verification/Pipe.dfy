/** The pipe: a ring of bytes under two free-running 32-bit counters. A process that sleeps gives up
    p->lock, so a call is a sequence of turns, each from acquiring the lock to a sleep or the
    return, and the turns of all processes interleave. */
module Pipe {

  import opened Blocks

  const PIPESIZE: nat := 512
  const UINT: nat := 0x1_0000_0000

  /** How a turn ends. */
  datatype Turn = Sleeps | Returns(value: int)

  predicate IsFull(nread: nat, nwrite: nat) {
    nwrite == (nread + PIPESIZE) % UINT
  }

  /** The counters tell a ring that holds as many bytes as it can, and one that holds none. */
  lemma CountersTell(taken: nat, stored: nat)
    requires taken <= stored <= taken + PIPESIZE
    ensures IsFull(taken % UINT, stored % UINT) <==> stored == taken + PIPESIZE
    ensures taken % UINT == stored % UINT <==> taken == stored
    ensures (stored % UINT + UINT - taken % UINT) % UINT == stored - taken
  {
    var q, r := taken / UINT, taken % UINT;
    var d := stored - taken;
    assert stored == q * UINT + (r + d);
    assert stored % UINT == if r + d < UINT then r + d else r + d - UINT;
    assert (r + PIPESIZE) % UINT == if r + PIPESIZE < UINT then r + PIPESIZE else r + PIPESIZE - UINT;
  }

  /** The place of a byte in the ring does not jump when a counter wraps round. */
  lemma SlotIs(count: nat)
    ensures (count % UINT) % PIPESIZE == count % PIPESIZE
    ensures (count % UINT + 1) % UINT == (count + 1) % UINT
  {
    var q, r := count / UINT, count % UINT;
    assert count == (q * 8388608) * PIPESIZE + r;
  }

  /** Two bytes that are in the ring together have different places. */
  lemma SlotsDiffer(i: nat, j: nat)
    requires i < j < i + PIPESIZE
    ensures i % PIPESIZE != j % PIPESIZE
  {
  }

  /** struct pipe, with what went through it: every byte stored, every byte taken, and who
      sleeps on &p->nread and &p->nwrite. */
  class Pipe {
    const data: array<byte>
    var nread: nat
    var nwrite: nat
    var readopen: bool
    var writeopen: bool
    ghost var stored: seq<byte>
    ghost var taken: seq<byte>
    ghost var readers: set<nat>
    ghost var writers: set<nat>

    /** The bytes taken are always a prefix of the bytes stored, and the ring holds the rest. */
    ghost predicate Valid()
      reads this, data
    {
      && data.Length == PIPESIZE
      && taken <= stored && |stored| <= |taken| + PIPESIZE
      && nread == |taken| % UINT && nwrite == |stored| % UINT
      && (forall i :: |taken| <= i < |stored| ==> data[i % PIPESIZE] == stored[i])
    }

    /** Every process asleep has a reason to be. */
    ghost predicate WritersAwake()
      reads this
    {
      writers != {} ==> |stored| == |taken| + PIPESIZE && readopen
    }

    ghost predicate ReadersAwake()
      reads this
    {
      readers != {} ==> stored == taken && writeopen
    }

    /** The bytes in the ring. */
    ghost function Inside(): seq<byte>
      requires |taken| <= |stored|
      reads this
    {
      stored[|taken|..]
    }

    /** pipealloc(), once it has its page and its files */
    constructor ()
      ensures Valid() && fresh(data) && stored == [] && taken == [] && readopen && writeopen
      ensures readers == {} && writers == {}
    {
      data := new byte[PIPESIZE];
      readopen, writeopen, nread, nwrite := true, true, 0, 0;
      stored, taken, readers, writers := [], [], {}, {};
    }

    /** One byte into the ring. */
    method Put(b: byte)
      requires Valid() && |stored| < |taken| + PIPESIZE
      modifies this`nwrite, this`stored, data
      ensures Valid() && stored == old(stored) + [b]
    {
      SlotIs(|stored|);
      forall i | |taken| <= i < |stored| ensures i % PIPESIZE != |stored| % PIPESIZE {
        SlotsDiffer(i, |stored|);
      }
      data[nwrite % PIPESIZE] := b;
      nwrite := (nwrite + 1) % UINT;
      stored := stored + [b];
    }

    /** One byte out of it. */
    method Get() returns (b: byte)
      requires Valid() && |taken| < |stored|
      modifies this`nread, this`taken
      ensures Valid() && b == stored[|old(taken)|] && taken == old(taken) + [b]
    {
      SlotIs(|taken|);
      b := data[nread % PIPESIZE];
      nread := (nread + 1) % UINT;
      taken := taken + [b];
    }

    /** A turn of pipewrite() by process me, from byte i0 of n. Only a full ring makes it sleep or
        fail. A turn that fails does not wake the readers: those that slept on the empty ring sleep on
        exactly if more than PIPESIZE bytes were still to be stored. */
    method Pipewrite(addr: seq<byte>, n: int, i0: nat, me: nat, killed: bool) returns (turn: Turn, i: nat)
      requires Valid() && n <= |addr| && (i0 == 0 || i0 < n)
      modifies this, data
      ensures Valid() && taken == old(taken) && readopen == old(readopen) && writeopen == old(writeopen)
      ensures i0 <= i && (i == i0 || i <= n) && stored == old(stored) + addr[i0..i]
      ensures i < n ==> |Inside()| == PIPESIZE && turn == if readopen && !killed then Sleeps else Returns(-1)
      ensures i >= n ==> turn == Returns(n)
      ensures writers == old(writers) + if turn == Sleeps then {me} else {}
      ensures readers == if i < n && turn != Sleeps then old(readers) else {}
      ensures old(WritersAwake()) ==> WritersAwake()
      ensures old(ReadersAwake()) ==>
        (ReadersAwake() <==> !(old(readers) != {} && n - i0 > PIPESIZE && (!readopen || killed)))
    {
      i := i0;
      while i < n
        invariant Valid() && i0 <= i && (i == i0 || i <= n) && stored == old(stored) + addr[i0..i]
        invariant unchanged(this`taken, this`readopen, this`writeopen, this`readers, this`writers)
      {
        CountersTell(|taken|, |stored|);
        if IsFull(nread, nwrite) {
          if !readopen || killed {
            turn := Returns(-1);
            return;
          }
          readers := {};
          writers := writers + {me};
          turn := Sleeps;
          return;
        }
        Put(addr[i]);
        i := i + 1;
      }
      readers := {};
      turn := Returns(n);
    }

    /** The copying loop of piperead() */
    method Copy(addr: array<byte>, n: int) returns (i: nat)
      requires Valid() && n <= addr.Length && addr != data
      modifies this`nread, this`taken, addr
      ensures Valid() && i <= |old(Inside())| && (i == 0 || i <= n) && (i < n ==> i == |old(Inside())|) && taken == old(taken) + old(Inside())[..i]
      ensures addr[..] == old(Inside())[..i] + old(addr[..])[i..]
    {
      ghost var inside, was := Inside(), addr[..];
      i := 0;
      while i < n
        invariant Valid() && (i == 0 || i <= n) && i <= |inside| && taken == old(taken) + inside[..i]
        invariant forall k :: 0 <= k < i ==> addr[k] == inside[k]
        invariant forall k :: i <= k < addr.Length ==> addr[k] == was[k]
      {
        CountersTell(|taken|, |stored|);
        if nread == nwrite { break; }
        addr[i] := Get();
        i := i + 1;
      }
      assert addr[..] == inside[..i] + was[i..];
    }

    /** A turn of piperead() by process me: it sleeps on an empty ring while there is a writer, and
        else takes the oldest bytes, as many as it can, and wakes the writers. */
    method Piperead(addr: array<byte>, n: int, me: nat, killed: bool) returns (turn: Turn)
      requires Valid() && n <= addr.Length && addr != data
      modifies this, addr
      ensures Valid() && stored == old(stored) && readopen == old(readopen) && writeopen == old(writeopen)
      ensures old(Inside()) == [] && writeopen ==>
        && turn == (if killed then Returns(-1) else Sleeps) && taken == old(taken) && addr[..] == old(addr[..])
        && readers == old(readers) + (if killed then {} else {me}) && writers == old(writers)
      ensures !(old(Inside()) == [] && writeopen) ==>
        && turn.Returns? && turn.value == (if n <= 0 then 0 else if n <= |old(stored)| - |old(taken)| then n else |old(stored)| - |old(taken)|)
        && taken == old(taken) + old(Inside())[..turn.value]
        && addr[..] == old(Inside())[..turn.value] + old(addr[..])[turn.value..]
        && readers == old(readers) && writers == {}
      ensures n > 0 ==> (turn == Returns(0) <==> old(Inside()) == [] && !writeopen)
      ensures old(WritersAwake()) ==> WritersAwake()
      ensures old(ReadersAwake()) ==> ReadersAwake()
    {
      CountersTell(|taken|, |stored|);
      if nread == nwrite && writeopen {
        if killed {
          turn := Returns(-1);
          return;
        }
        readers := readers + {me};
        turn := Sleeps;
        return;
      }
      var i := Copy(addr, n);
      writers := {};
      turn := Returns(i);
    }

    /** pipeclose(): the pipe is given back when both ends are closed. */
    method Pipeclose(writable: bool) returns (freed: bool)
      requires Valid()
      modifies this
      ensures Valid() && stored == old(stored) && taken == old(taken)
      ensures writeopen == (old(writeopen) && !writable) && readopen == (old(readopen) && writable)
      ensures freed <==> !readopen && !writeopen
      ensures old(WritersAwake()) ==> WritersAwake()
      ensures old(ReadersAwake()) ==> ReadersAwake()
      ensures freed && old(WritersAwake() && ReadersAwake()) ==> readers == {} && writers == {}
    {
      if writable {
        writeopen := false;
        readers := {};
      } else {
        readopen := false;
        writers := {};
      }
      freed := !readopen && !writeopen;
    }

    /** kill() and any other wakeup of one process */
    ghost method Awaken(p: nat)
      requires Valid()
      modifies this`readers, this`writers
      ensures Valid() && readers == old(readers) - {p} && writers == old(writers) - {p}
      ensures old(WritersAwake()) ==> WritersAwake()
      ensures old(ReadersAwake()) ==> ReadersAwake()
    {
      readers, writers := readers - {p}, writers - {p};
    }
  }
}
