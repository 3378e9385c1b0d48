/** Open files: the table of struct file, the descriptors of every process, and the pipes that the
    files keep alive. */
module FileTable {
  import opened Common

  const NFILE: Positive
  const NOFILE: Positive

  datatype What = Nothing | OfPipe(pipe: nat) | OfInode(ip: nat)

  datatype File = File(ref: int, what: What, readable: bool, writable: bool)

  /** The flags of a pipe. */
  datatype Ends = Ends(readopen: bool, writeopen: bool)

  /** pipes: the pipes that have a page. holder: which file is the reading (false) or the writing
      (true) end of a pipe. */
  datatype Table = Table(file: seq<File>, ofile: seq<seq<Option<nat>>>, pipes: map<nat, Ends>, holder: map<(nat, bool), nat>)

  predicate Shape(t: Table) {
    && |t.file| == NFILE
    && (forall p :: 0 <= p < |t.ofile| ==> |t.ofile[p]| == NOFILE)
    && (forall p, fd :: 0 <= p < |t.ofile| && 0 <= fd < NOFILE && t.ofile[p][fd].Some? ==> t.ofile[p][fd].value < NFILE)
  }

  /** The descriptors, of all processes, for file f. */
  function Users(t: Table, f: nat): (r: set<(nat, nat)>)
    requires Shape(t)
  {
    set p: nat, fd: nat | p < |t.ofile| && fd < NOFILE && t.ofile[p][fd] == Some(f) :: (p, fd)
  }

  /** Each file counts its descriptors; extra are references that a call holds in a variable. */
  ghost predicate Counted(t: Table, extra: seq<int>)
    requires Shape(t)
  {
    |extra| == NFILE && forall f: nat {:trigger Users(t, f)} :: f < NFILE ==> t.file[f].ref == |Users(t, f)| + extra[f]
  }

  /** A file that is an end of a pipe is the one that holds it. */
  predicate Holds(t: Table, f: nat)
    requires f < |t.file|
  {
    t.file[f].what.OfPipe? ==>
      var e := (t.file[f].what.pipe, t.file[f].writable); e in t.holder && t.holder[e] == f
  }

  predicate IsEnd(t: Table, e: (nat, bool))
    requires e in t.holder
  {
    t.holder[e] < |t.file| && t.file[t.holder[e]].what == OfPipe(e.0) && t.file[t.holder[e]].writable == e.1
  }

  /** A pipe has its page while it has an open end. */
  predicate PipeOk(t: Table, p: nat) {
    && (p in t.pipes <==> (p, false) in t.holder || (p, true) in t.holder)
    && (p in t.pipes ==> t.pipes[p] == Ends((p, false) in t.holder, (p, true) in t.holder))
  }

  /** Each open end of a pipe is one file. */
  ghost predicate PipesOk(t: Table) {
    && (forall f :: 0 <= f < |t.file| ==> Holds(t, f))
    && (forall e :: e in t.holder ==> IsEnd(t, e))
    && (forall p :: PipeOk(t, p))
  }

  predicate Typed(t: Table)
    requires Shape(t)
  {
    forall f :: 0 <= f < NFILE ==> t.file[f].ref >= 0 && (t.file[f].ref == 0 ==> t.file[f].what == Nothing)
  }

  /** Descriptor tables with nothing in them. */
  function NoFiles(n: nat): (r: seq<seq<Option<nat>>>)
    ensures |r| == n && forall p :: 0 <= p < n ==> r[p] == NoFds()
  {
    if n == 0 then [] else NoFiles(n - 1) + [NoFds()]
  }

  function NoFds(): (r: seq<Option<nat>>)
    ensures |r| == NOFILE && forall fd :: 0 <= fd < NOFILE ==> r[fd] == None
  {
    seq(NOFILE, _ => None)
  }

  function NoExtra(): (r: seq<int>)
    ensures |r| == NFILE && forall f :: 0 <= f < NFILE ==> r[f] == 0
  {
    seq(NFILE, _ => 0)
  }

  /** Between calls. */
  ghost predicate Good(t: Table) {
    Balanced(t, NoExtra()) && Settled(t)
  }

  /** In the middle of a call that holds the references extra. */
  ghost predicate Balanced(t: Table, extra: seq<int>) {
    Shape(t) && Counted(t, extra) && PipesOk(t) && Typed(t)
  }

  /** No file has been allocated and not yet given a type. */
  predicate Settled(t: Table) {
    forall f :: 0 <= f < |t.file| && t.file[f].ref > 0 ==> t.file[f].what != Nothing
  }

  /** Some process has a descriptor for this end of pipe p. */
  ghost predicate Named(t: Table, p: nat, writable: bool)
    requires Shape(t)
  {
    exists q, fd :: 0 <= q < |t.ofile| && 0 <= fd < NOFILE && t.ofile[q][fd].Some?
      && t.file[t.ofile[q][fd].value].what == OfPipe(p) && t.file[t.ofile[q][fd].value].writable == writable
  }

  /** A pipe's flags tell which of its ends some descriptor still names, and the pipe has a page
      exactly while one of them does. */
  lemma PipesAreNamed(t: Table, p: nat)
    requires Good(t)
    ensures p in t.pipes <==> Named(t, p, false) || Named(t, p, true)
    ensures p in t.pipes ==> t.pipes[p] == Ends(Named(t, p, false), Named(t, p, true))
  {
    assert PipeOk(t, p);
    EndIsNamed(t, p, false);
    EndIsNamed(t, p, true);
  }

  lemma EndIsNamed(t: Table, p: nat, writable: bool)
    requires Good(t)
    ensures Named(t, p, writable) <==> (p, writable) in t.holder
  {
    if (p, writable) in t.holder {
      assert IsEnd(t, (p, writable));
      var f := t.holder[(p, writable)];
      assert |Users(t, f)| > 0;
      var u :| u in Users(t, f);
      assert t.ofile[u.0][u.1] == Some(f);
      assert t.file[t.ofile[u.0][u.1].value].writable == writable;
    }
    if Named(t, p, writable) {
      var q, fd :| 0 <= q < |t.ofile| && 0 <= fd < NOFILE && t.ofile[q][fd].Some?
        && t.file[t.ofile[q][fd].value].what == OfPipe(p) && t.file[t.ofile[q][fd].value].writable == writable;
      assert Holds(t, t.ofile[q][fd].value);
    }
  }

  // ----- the changes that the calls make -----

  function WithFd(t: Table, p: nat, fd: nat, v: Option<nat>): Table
    requires Shape(t) && p < |t.ofile| && fd < NOFILE
  {
    t.(ofile := t.ofile[p := t.ofile[p][fd := v]])
  }

  function WithFile(t: Table, f: nat, x: File): Table
    requires f < |t.file|
  {
    t.(file := t.file[f := x])
  }

  function Plus(extra: seq<int>, f: nat, d: int): seq<int>
    requires f < |extra|
  {
    extra[f := extra[f] + d]
  }

  lemma FdSet(t: Table, p: nat, fd: nat, v: Option<nat>, g: nat)
    requires Shape(t) && p < |t.ofile| && fd < NOFILE && (v.Some? ==> v.value < NFILE)
    ensures var t' := WithFd(t, p, fd, v);
      Shape(t') && Users(t', g) == (Users(t, g) - {(p, fd)}) + if v == Some(g) then {(p, fd)} else {}
  {
  }

  lemma OneElement<T>(u: set<T>, x: T, now: bool)
    ensures |(u - {x}) + (if now then {x} else {})| == |u| + (if now then 1 else 0) - (if x in u then 1 else 0)
  {
    if x !in u { assert u - {x} == u; }
    if !now { assert (u - {x}) + {} == u - {x}; }
  }

  /** What one descriptor does to the number of descriptors for file g. */
  lemma FdCounts(t: Table, p: nat, fd: nat, v: Option<nat>, g: nat)
    requires Shape(t) && p < |t.ofile| && fd < NOFILE && (v.Some? ==> v.value < NFILE)
    ensures var t' := WithFd(t, p, fd, v);
      && Shape(t')
      && |Users(t', g)| == |Users(t, g)| + (if v == Some(g) then 1 else 0) - (if t.ofile[p][fd] == Some(g) then 1 else 0)
  {
    FdSet(t, p, fd, v, g);
    IsUser(t, p, fd, g);
    hide Users, Shape;
    OneElement(Users(t, g), (p, fd), v == Some(g));
  }

  lemma IsUser(t: Table, p: nat, fd: nat, g: nat)
    requires Shape(t) && p < |t.ofile| && fd < NOFILE
    ensures (p, fd) in Users(t, g) <==> t.ofile[p][fd] == Some(g)
  {
  }

  /** A descriptor takes over a reference, or gives it back. */
  lemma FdChanges(t: Table, p: nat, fd: nat, v: Option<nat>, f: nat, extra: seq<int>)
    requires Shape(t) && Counted(t, extra) && p < |t.ofile| && fd < NOFILE && f < NFILE
    requires (v == Some(f) && t.ofile[p][fd] == None) || (v == None && t.ofile[p][fd] == Some(f))
    ensures var t' := WithFd(t, p, fd, v); Shape(t') && Counted(t', Plus(extra, f, if v == None then 1 else -1))
  {
    var t' := WithFd(t, p, fd, v);
    FdCounts(t, p, fd, v, f);
    forall g: nat | g < NFILE ensures t'.file[g].ref == |Users(t', g)| + Plus(extra, f, if v == None then 1 else -1)[g] {
      FdCounts(t, p, fd, v, g);
      hide Users;
    }
  }

  /** A count changes with the reference that it counts. */
  lemma Recounted(t: Table, f: nat, x: File, extra: seq<int>)
    requires Shape(t) && Counted(t, extra) && f < NFILE
    ensures var t' := WithFile(t, f, x); Shape(t') && Counted(t', Plus(extra, f, x.ref - t.file[f].ref))
  {
    var t' := WithFile(t, f, x);
    forall g: nat | g < NFILE ensures Users(t', g) == Users(t, g) {}
  }

  /** pipeclose() */
  function PipeClosed(pipes: map<nat, Ends>, p: nat, writable: bool): map<nat, Ends>
    requires p in pipes
  {
    var e := if writable then pipes[p].(writeopen := false) else pipes[p].(readopen := false);
    if !e.readopen && !e.writeopen then pipes - {p} else pipes[p := e]
  }

  predicate HasPipe(t: Table, f: nat)
    requires f < |t.file|
  {
    t.file[f].what.OfPipe? ==> t.file[f].what.pipe in t.pipes
  }

  lemma FileHasPipe(t: Table, f: nat)
    requires PipesOk(t) && f < |t.file|
    ensures HasPipe(t, f)
  {
    assert Holds(t, f);
    if t.file[f].what.OfPipe? { assert PipeOk(t, t.file[f].what.pipe); }
  }

  /** A file with one reference less; without any it has no type. */
  function LessOne(x: File): File {
    if x.ref > 1 then x.(ref := x.ref - 1) else x.(ref := 0, what := Nothing)
  }

  /** fileclose(): the last reference closes the file. */
  function Closed(t: Table, f: nat): Table
    requires f < |t.file| && HasPipe(t, f)
  {
    var x := t.file[f];
    if x.ref > 1 then WithFile(t, f, x.(ref := x.ref - 1))
    else
      var t1 := WithFile(t, f, x.(ref := 0, what := Nothing));
      if x.what.OfPipe? then
        t1.(pipes := PipeClosed(t.pipes, x.what.pipe, x.writable), holder := t.holder - {(x.what.pipe, x.writable)})
      else t1
  }

  lemma ClosedKeeps(t: Table, f: nat, extra: seq<int>)
    requires Shape(t) && Counted(t, extra) && PipesOk(t) && Typed(t) && f < NFILE && t.file[f].ref > 0
    ensures HasPipe(t, f)
    ensures var t' := Closed(t, f); Shape(t') && Counted(t', Plus(extra, f, -1)) && PipesOk(t') && Typed(t')
  {
    ClosedPipes(t, f);
    var x := t.file[f];
    Recounted(t, f, if x.ref > 1 then x.(ref := x.ref - 1) else x.(ref := 0, what := Nothing), extra);
    var t' := Closed(t, f);
    hide PipesOk;
    forall g: nat | g < NFILE ensures Users(t', g) == Users(t, g) {}
  }

  lemma ClosedPipes(t: Table, f: nat)
    requires PipesOk(t) && f < |t.file|
    ensures HasPipe(t, f) && PipesOk(Closed(t, f))
  {
    FileHasPipe(t, f);
    var t' := Closed(t, f);
    assert Holds(t, f);
    forall g | 0 <= g < |t.file| ensures Holds(t', g) {
      assert Holds(t, g);
    }
    forall e | e in t'.holder ensures IsEnd(t', e) {
      assert IsEnd(t, e);
    }
    forall p ensures PipeOk(t', p) {
      assert PipeOk(t, p);
    }
  }

  /** The file a gets something to be; it was nobody's end of a pipe. */
  lemma TypedAnew(t: Table, f: nat, ip: nat, readable: bool, writable: bool)
    requires PipesOk(t) && f < |t.file| && t.file[f].what == Nothing
    ensures PipesOk(WithFile(t, f, File(t.file[f].ref, OfInode(ip), readable, writable)))
  {
    var t' := WithFile(t, f, File(t.file[f].ref, OfInode(ip), readable, writable));
    forall g | 0 <= g < |t.file| ensures Holds(t', g) { assert Holds(t, g); }
    forall e | e in t'.holder ensures IsEnd(t', e) { assert IsEnd(t, e); }
    forall p ensures PipeOk(t', p) { assert PipeOk(t, p); }
  }

  /** A count changes, or a file without a type gets its flags. */
  lemma RefKeepsPipes(t: Table, f: nat, ref: int)
    requires PipesOk(t) && f < |t.file|
    ensures PipesOk(WithFile(t, f, t.file[f].(ref := ref)))
  {
    var t' := WithFile(t, f, t.file[f].(ref := ref));
    forall g | 0 <= g < |t.file| ensures Holds(t', g) { assert Holds(t, g); }
    forall e | e in t'.holder ensures IsEnd(t', e) { assert IsEnd(t, e); }
    forall p ensures PipeOk(t', p) { assert PipeOk(t, p); }
  }

  /** pipealloc() with its files a and b and the page p: the two ends of a new pipe. */
  function PipeMade(t: Table, a: nat, b: nat, p: nat): Table
    requires a < |t.file| && b < |t.file|
  {
    Table(t.file[a := File(t.file[a].ref, OfPipe(p), true, false)][b := File(t.file[b].ref, OfPipe(p), false, true)],
          t.ofile, t.pipes[p := Ends(true, true)], t.holder[(p, false) := a][(p, true) := b])
  }

  /** A file taken by filealloc(). */
  function Referred(t: Table, f: nat): Table
    requires f < |t.file|
  {
    WithFile(t, f, t.file[f].(ref := 1))
  }

  lemma PipeMadeKeeps(t: Table, a: nat, b: nat, p: nat)
    requires PipesOk(t) && a < |t.file| && b < |t.file| && a != b && p !in t.pipes
    requires t.file[a].what == Nothing && t.file[b].what == Nothing
    ensures PipesOk(PipeMade(t, a, b, p))
  {
    var t' := PipeMade(t, a, b, p);
    assert PipeOk(t, p);
    forall g | 0 <= g < |t.file| ensures Holds(t', g) { assert Holds(t, g); }
    forall e | e in t'.holder ensures IsEnd(t', e) { if e in t.holder { assert IsEnd(t, e); } }
    forall q ensures PipeOk(t', q) { assert PipeOk(t, q); }
  }

  /** The step from t to t' gives process p the two ends of a new pipe, as fd0 and fd1. */
  predicate HasPipeAt(t: Table, t': Table, p: nat, fd0: nat, fd1: nat, pipe: nat)
    requires Shape(t) && Shape(t') && p < |t.ofile| && fd0 < NOFILE && fd1 < NOFILE
  {
    && t.ofile[p][fd0] == None && t.ofile[p][fd1] == None && SameFiles(t, t')
    && p < |t'.ofile| && t'.ofile[p][fd0].Some? && t'.ofile[p][fd1].Some?
    && t'.ofile == t.ofile[p := t.ofile[p][fd0 := t'.ofile[p][fd0]][fd1 := t'.ofile[p][fd1]]]
    && t'.file[t'.ofile[p][fd0].value] == File(1, OfPipe(pipe), true, false)
    && t'.file[t'.ofile[p][fd1].value] == File(1, OfPipe(pipe), false, true)
    && t'.pipes == t.pipes[pipe := Ends(true, true)]
    && (forall f :: 0 <= f < NFILE && t'.file[f].what.OfInode? ==> t'.file[f] == t.file[f])
  }

  lemma NewPipeAt(t: Table, p: nat, fd0: nat, fd1: nat, a: nat, b: nat, pipe: nat)
    requires Shape(t) && p < |t.ofile| && fd0 < fd1 < NOFILE && t.ofile[p][fd0] == None && t.ofile[p][fd1] == None
    requires a < NFILE && b < NFILE && a != b && t.file[a].ref == t.file[b].ref == 0
    ensures var m := PipeMade(Referred(Referred(t, a), b), a, b, pipe);
      && Shape(m) && Shape(WithFd(m, p, fd0, Some(a)))
      && var t' := WithFd(WithFd(m, p, fd0, Some(a)), p, fd1, Some(b)); Shape(t') && HasPipeAt(t, t', p, fd0, fd1, pipe)
  {
  }

  lemma PipeAtIs(t: Table, t': Table, p: nat, fd0: nat, fd1: nat, pipe: nat)
    requires Shape(t) && Shape(t') && p < |t.ofile| && fd0 < NOFILE && fd1 < NOFILE && HasPipeAt(t, t', p, fd0, fd1, pipe)
    ensures |t'.file| == |t.file| && forall f :: 0 <= f < NFILE && t.file[f].ref > 0 ==> t'.file[f] == t.file[f]
    ensures p < |t'.ofile| == |t.ofile| && t'.ofile[p][fd0].Some? && t'.ofile[p][fd1].Some?
    ensures t'.file[t'.ofile[p][fd0].value] == File(1, OfPipe(pipe), true, false)
    ensures t'.file[t'.ofile[p][fd1].value] == File(1, OfPipe(pipe), false, true)
  {
  }

  lemma SameAsBefore(t: Table)
    ensures Same(t, t)
  {
  }

  lemma SameIs(t: Table, t': Table)
    requires Same(t, t')
    ensures |t'.file| == |t.file| && forall f :: 0 <= f < |t.file| && t.file[f].ref > 0 ==> t'.file[f] == t.file[f]
  {
  }

  predicate Same(t: Table, t': Table) {
    SameFiles(t, t') && SameFiles(t', t)
  }

  /** What a call leaves of the files that it has not opened or closed. */
  predicate SameFiles(t: Table, t': Table) {
    |t'.file| == |t.file| && forall f :: 0 <= f < |t.file| && t.file[f].ref > 0 ==> t'.file[f] == t.file[f]
  }

  class Ftable {
    var file: seq<File>
    var ofile: seq<seq<Option<nat>>>
    var pipes: map<nat, Ends>
    ghost var holder: map<(nat, bool), nat>

    ghost function T(): Table
      reads this
    {
      Table(file, ofile, pipes, holder)
    }

    ghost predicate Valid()
      reads this
    {
      Good(T())
    }

    ghost predicate Holding(extra: seq<int>)
      reads this
    {
      Balanced(T(), extra)
    }

    constructor (nproc: nat)
      ensures Valid() && pipes == map[] && ofile == NoFiles(nproc)
      ensures forall f :: 0 <= f < |file| ==> file[f].what == Nothing
    {
      file := seq(NFILE, _ => File(0, Nothing, false, false));
      ofile, pipes, holder := NoFiles(nproc), map[], map[];
      new;
      ghost var t := T();
      forall f: nat | f < NFILE ensures t.file[f].ref == |Users(t, f)| + NoExtra()[f] {
        assert Users(t, f) == {};
      }
      forall f | 0 <= f < |t.file| ensures Holds(t, f) {}
      forall p ensures PipeOk(t, p) {}
    }

    /** filealloc(): the first file that nobody refers to. */
    method Filealloc(ghost extra: seq<int>) returns (r: Option<nat>)
      requires Holding(extra)
      modifies this`file
      ensures r == None ==> file == old(file) && forall f :: 0 <= f < NFILE ==> file[f].ref > 0
      ensures r.Some? ==>
                && r.value < NFILE && old(file)[r.value].ref == 0 && old(file)[r.value].what == Nothing
                && file == old(file)[r.value := old(file)[r.value].(ref := 1)]
                && Holding(Plus(extra, r.value, 1))
    {
      hide PipesOk;
      var f := 0;
      while f < NFILE
        invariant 0 <= f <= NFILE && forall g :: 0 <= g < f ==> file[g].ref > 0
      {
        if file[f].ref == 0 {
          Recounted(T(), f, file[f].(ref := 1), extra);
          RefKeepsPipes(T(), f, 1);
          file := file[f := file[f].(ref := 1)];
          assert T() == WithFile(old(T()), f, old(file)[f].(ref := 1));
          return Some(f);
        }
        f := f + 1;
      }
      r := None;
    }

    /** filedup(); panic is its check. */
    method Filedup(f: nat, ghost extra: seq<int>) returns (panic: bool)
      requires Holding(extra) && f < NFILE
      modifies this`file
      ensures panic <==> old(file)[f].ref < 1
      ensures panic ==> file == old(file)
      ensures !panic ==> file == old(file)[f := old(file)[f].(ref := old(file)[f].ref + 1)] && Holding(Plus(extra, f, 1))
    {
      hide PipesOk;
      panic := file[f].ref < 1;
      if panic { return; }
      Recounted(T(), f, file[f].(ref := file[f].ref + 1), extra);
      RefKeepsPipes(T(), f, file[f].ref + 1);
      file := file[f := file[f].(ref := file[f].ref + 1)];
      assert T() == WithFile(old(T()), f, old(file)[f].(ref := old(file)[f].ref + 1));
    }

    /** fileclose(): put is the inode whose reference is given up. */
    method Fileclose(f: nat, ghost extra: seq<int>) returns (panic: bool, put: Option<nat>)
      requires Holding(extra) && f < NFILE
      modifies this
      ensures panic <==> old(file)[f].ref < 1
      ensures panic ==> T() == old(T())
      ensures !panic ==> HasPipe(old(T()), f) && T() == Closed(old(T()), f) && Holding(Plus(extra, f, -1))
      ensures !panic ==>
        var x := old(file)[f]; var last := x.ref == 1;
        && ofile == old(ofile) && file == old(file)[f := if last then x.(ref := 0, what := Nothing) else x.(ref := x.ref - 1)]
        && (last && x.what.OfPipe? ==>
              && x.what.pipe in old(pipes)
              && var e := old(pipes)[x.what.pipe]; var e' := Ends(e.readopen && x.writable, e.writeopen && !x.writable);
                 pipes == if e'.readopen || e'.writeopen then old(pipes)[x.what.pipe := e'] else old(pipes) - {x.what.pipe})
        && (!(last && x.what.OfPipe?) ==> pipes == old(pipes))
      ensures put == if old(file)[f].ref == 1 && old(file)[f].what.OfInode? then Some(old(file)[f].what.ip) else None
    {
      hide PipesOk;
      panic, put := file[f].ref < 1, None;
      if panic { return; }
      ClosedKeeps(T(), f, extra);
      var ff := file[f];
      if ff.ref > 1 {
        file := file[f := ff.(ref := ff.ref - 1)];
      } else {
        file := file[f := ff.(ref := 0, what := Nothing)];
        if ff.what.OfPipe? {
          Pipeclose(ff.what.pipe, ff.writable);
          holder := holder - {(ff.what.pipe, ff.writable)};
        } else if ff.what.OfInode? {
          put := Some(ff.what.ip);
        }
      }
      assert T() == Closed(old(T()), f);
    }

    method Pipeclose(p: nat, writable: bool)
      requires p in pipes
      modifies this`pipes
      ensures pipes == PipeClosed(old(pipes), p, writable)
    {
      var e := pipes[p];
      if writable { e := e.(writeopen := false); } else { e := e.(readopen := false); }
      pipes := if !e.readopen && !e.writeopen then pipes - {p} else pipes[p := e];
    }

    /** fdalloc(): the first free descriptor of process p takes over the caller's reference. */
    method Fdalloc(p: nat, f: nat, ghost extra: seq<int>) returns (r: Option<nat>)
      requires Holding(extra) && p < |ofile| && f < NFILE
      modifies this`ofile
      ensures r == None ==> ofile == old(ofile) && forall fd :: 0 <= fd < NOFILE ==> ofile[p][fd].Some?
      ensures r.Some? ==>
                && r.value < NOFILE && old(ofile)[p][r.value] == None
                && (forall fd :: 0 <= fd < r.value ==> old(ofile)[p][fd].Some?)
                && T() == WithFd(old(T()), p, r.value, Some(f)) && Holding(Plus(extra, f, -1))
    {
      hide PipesOk;
      var fd := 0;
      while fd < NOFILE
        invariant 0 <= fd <= NOFILE && forall k :: 0 <= k < fd ==> ofile[p][k].Some?
      {
        if ofile[p][fd] == None {
          FdChanges(T(), p, fd, Some(f), f, extra);
          SamePipes(T(), WithFd(T(), p, fd, Some(f)));
          ofile := ofile[p := ofile[p][fd := Some(f)]];
          assert T() == WithFd(old(T()), p, fd, Some(f));
          return Some(fd);
        }
        fd := fd + 1;
      }
      r := None;
    }

    // ----- the system calls -----

    /** argfd() */
    method Argfd(p: nat, fd: int) returns (r: Option<nat>)
      requires Valid() && p < |ofile|
      ensures r == if 0 <= fd < NOFILE then ofile[p][fd] else None
      ensures r.Some? ==> r.value < NFILE && file[r.value].ref > 0
    {
      r := None;
      if 0 <= fd < NOFILE && ofile[p][fd].Some? {
        r := ofile[p][fd];
        HasUser(T(), p, fd);
      }
    }

    /** dup(): a second descriptor for a file, and the panic of filedup() is not reached. */
    method Dup(p: nat, fd: int) returns (r: Option<nat>)
      requires Valid() && p < |ofile|
      modifies this
      ensures Valid() && pipes == old(pipes)
      ensures r == None ==>
                && T() == old(T())
                && (fd < 0 || fd >= NOFILE || ofile[p][fd] == None || forall k :: 0 <= k < NOFILE ==> ofile[p][k].Some?)
      ensures r.Some? ==>
                && 0 <= fd < NOFILE && r.value < NOFILE && old(ofile)[p][r.value] == None && old(ofile)[p][fd].Some?
                && (forall k :: 0 <= k < r.value ==> old(ofile)[p][k].Some?)
                && ofile == old(ofile)[p := old(ofile)[p][r.value := old(ofile)[p][fd]]]
                && var f := old(ofile)[p][fd].value; file == old(file)[f := old(file)[f].(ref := old(file)[f].ref + 1)]
    {
      hide Balanced, Settled;
      var f := Argfd(p, fd);
      if f == None { return None; }
      BalancedFacts(T(), NoExtra());
      r := Fdalloc(p, f.value, NoExtra());
      if r == None { return; }
      var panic := Filedup(f.value, Plus(NoExtra(), f.value, -1));
      BackToNone(NoExtra(), f.value, -1);
      StillSettled(old(T()), T());
    }

    /** close(): the descriptor is free, and with the last one of a pipe's end that end is closed. */
    method Close(p: nat, fd: int) returns (ok: bool, put: Option<nat>)
      requires Valid() && p < |ofile|
      modifies this
      ensures Valid()
      ensures ok <==> 0 <= fd < NOFILE && old(ofile)[p][fd].Some?
      ensures !ok ==> T() == old(T()) && put == None
      ensures ok ==> old(ofile)[p][fd].value < NFILE
      ensures ok ==>
        var f := old(ofile)[p][fd].value; var x := old(file)[f]; var last := x.ref == 1;
        && file == old(file)[f := if last then x.(ref := 0, what := Nothing) else x.(ref := x.ref - 1)]
        && (last && x.what.OfPipe? ==>
              && x.what.pipe in old(pipes)
              && var e := old(pipes)[x.what.pipe]; var e' := Ends(e.readopen && x.writable, e.writeopen && !x.writable);
                 pipes == if e'.readopen || e'.writeopen then old(pipes)[x.what.pipe := e'] else old(pipes) - {x.what.pipe})
        && (!(last && x.what.OfPipe?) ==> pipes == old(pipes))
      ensures ok ==>
                var f := old(ofile)[p][fd].value;
                && f < NFILE && HasPipe(old(T()), f) && T() == Closed(WithFd(old(T()), p, fd, None), f)
                && ofile == old(ofile)[p := old(ofile)[p][fd := None]]
                && put == if old(file)[f].ref == 1 && old(file)[f].what.OfInode? then Some(old(file)[f].what.ip) else None
    {
      hide Balanced, Settled;
      var f := Argfd(p, fd);
      ok, put := f.Some?, None;
      if f == None { return; }
      BalancedFacts(T(), NoExtra());
      FdChanges(T(), p, fd, None, f.value, NoExtra());
      SamePipes(T(), WithFd(T(), p, fd, None));
      FileHasPipe(T(), f.value);
      ofile := ofile[p := ofile[p][fd := None]];
      assert T() == WithFd(old(T()), p, fd, None);
      BalancedIs(T(), Plus(NoExtra(), f.value, 1));
      var panic;
      panic, put := Fileclose(f.value, Plus(NoExtra(), f.value, 1));
      BackToNone(NoExtra(), f.value, 1);
      StillSettled(old(T()), T());
    }

    /** pipealloc(): two new files, the ends of a new pipe in the given page; or nothing. */
    method Pipealloc(page: Option<nat>) returns (r: Option<(nat, nat)>)
      requires Valid() && (page.Some? ==> page.value !in pipes)
      modifies this
      ensures r == None ==> T() == old(T())
      ensures r.Some? <==> page.Some? && exists a, b :: 0 <= a < b < NFILE && old(file)[a].ref == old(file)[b].ref == 0
      ensures r.Some? ==>
                var (a, b) := r.value;
                && a < NFILE && b < NFILE && a != b && old(file)[a].ref == old(file)[b].ref == 0 && page.Some?
                && T() == PipeMade(Referred(Referred(old(T()), a), b), a, b, page.value)
                && Holding(Plus(Plus(NoExtra(), a, 1), b, 1)) && Settled(T())
    {
      hide Balanced, Settled, PipesOk;
      BalancedFacts(T(), NoExtra());
      var f0 := Filealloc(NoExtra());
      if f0 == None { return None; }
      ghost var x0 := Plus(NoExtra(), f0.value, 1);
      ghost var t0 := T();
      var f1 := Filealloc(x0);
      if f1 == None || page == None {
        if f1.Some? { DropNew(f1.value, x0, Plus(x0, f1.value, 1)); }
        assert T() == t0;
        DropNew(f0.value, NoExtra(), x0);
        assert file == old(file);
        return None;
      }
      assert T() == Referred(Referred(old(T()), f0.value), f1.value);
      SetPipe(f0.value, f1.value, page.value, Plus(x0, f1.value, 1));
      PipeSettled(old(T()), f0.value, f1.value, page.value);
      r := Some((f0.value, f1.value));
    }

    /** fileclose() of a file that has just been allocated. */
    method DropNew(f: nat, ghost extra: seq<int>, ghost more: seq<int>)
      requires Holding(more) && f < NFILE && |extra| == NFILE && more == Plus(extra, f, 1)
      requires file[f].ref == 1 && file[f].what == Nothing
      modifies this
      ensures Holding(extra) && T() == old(T()).(file := old(file)[f := old(file)[f].(ref := 0)])
    {
      hide Balanced;
      BackToNone(extra, f, 1);
      var _, _ := Fileclose(f, more);
    }

    /** pipealloc() once it has what it needs. */
    method SetPipe(a: nat, b: nat, p: nat, ghost extra: seq<int>)
      requires Holding(extra) && a < NFILE && b < NFILE && a != b && p !in pipes
      requires file[a].what == Nothing && file[b].what == Nothing && file[a].ref > 0 && file[b].ref > 0
      modifies this
      ensures T() == PipeMade(old(T()), a, b, p) && Holding(extra)
    {
      hide PipesOk;
      ghost var t := T();
      PipeMadeKeeps(t, a, b, p);
      SameCounts(t, PipeMade(t, a, b, p), extra);
      pipes := pipes[p := Ends(true, true)];
      holder := holder[(p, false) := a][(p, true) := b];
      file := file[a := File(file[a].ref, OfPipe(p), true, false)];
      file := file[b := File(file[b].ref, OfPipe(p), false, true)];
      assert T() == PipeMade(t, a, b, p);
    }

    /** The failure of pipe() after pipealloc(): everything made since s is undone. */
    method GiveUpPipe(p: nat, fd0: Option<nat>, rf: nat, wf: nat, page: nat, ghost s: Table)
      requires Good(s) && p < |s.ofile| && page !in s.pipes && rf < NFILE && wf < NFILE && rf != wf
      requires s.file[rf].ref == s.file[wf].ref == 0 && Settled(T())
      requires var made := PipeMade(Referred(Referred(s, rf), wf), rf, wf, page);
               if fd0 == None then T() == made
               else fd0.value < NOFILE && s.ofile[p][fd0.value] == None && T() == WithFd(made, p, fd0.value, Some(rf))
      requires Holding(if fd0 == None then Plus(Plus(NoExtra(), rf, 1), wf, 1) else Plus(NoExtra(), wf, 1))
      modifies this
      ensures Valid() && ofile == s.ofile && pipes == s.pipes && Same(s, T())
    {
      hide Balanced, Settled, PipesOk, Closed, Same;
      ghost var x1, x2 := Plus(NoExtra(), wf, 1), Plus(Plus(NoExtra(), rf, 1), wf, 1);
      assert Plus(x2, rf, -1) == x1 && Plus(x1, rf, 1) == x2 && Plus(x1, wf, -1) == NoExtra();
      BalancedFacts(s, NoExtra());
      ghost var made := PipeMade(Referred(Referred(s, rf), wf), rf, wf, page);
      BalancedFacts(T(), if fd0 == None then x2 else x1);
      if fd0.Some? {
        FdChanges(T(), p, fd0.value, None, rf, x1);
        SamePipes(T(), WithFd(T(), p, fd0.value, None));
        ofile := ofile[p := ofile[p][fd0.value := None]];
        BalancedIs(T(), x2);
      }
      if fd0.Some? { FdBack(s.ofile, p, fd0.value, rf); }
      assert T() == made;
      PipeUndone(s, rf, wf, page);
      var _, _ := Fileclose(rf, x2);
      var _, _ := Fileclose(wf, x1);
    }

    /** pipe(): descriptors for both ends of a new pipe, or nothing kept. */
    method MakePipe(p: nat, page: Option<nat>) returns (r: Option<(nat, nat)>)
      requires Valid() && p < |ofile| && (page.Some? ==> page.value !in pipes)
      modifies this
      ensures Valid() && |ofile| == |old(ofile)|
      ensures r == None ==> ofile == old(ofile) && pipes == old(pipes) && Same(old(T()), T())
      ensures r.Some? <==> page.Some? && (exists a, b :: 0 <= a < b < NFILE && old(file)[a].ref == old(file)[b].ref == 0)
                                      && (exists k, m :: 0 <= k < m < NOFILE && old(ofile)[p][k] == old(ofile)[p][m] == None)
      ensures r.Some? ==>
                var (fd0, fd1) := r.value;
                page.Some? && fd0 < fd1 < NOFILE && HasPipeAt(old(T()), T(), p, fd0, fd1, page.value)
      ensures |file| == NFILE && forall f :: 0 <= f < NFILE && old(file)[f].ref > 0 ==> file[f] == old(file)[f]
      ensures r.Some? ==>
                var (fd0, fd1) := r.value;
                && fd1 < |ofile[p]| == NOFILE && ofile[p][fd0].Some? && ofile[p][fd1].Some?
                && (forall k :: 0 <= k < fd1 && k != fd0 ==> old(ofile)[p][k].Some?)
                && ofile[p][fd0].value < NFILE && file[ofile[p][fd0].value] == File(1, OfPipe(page.value), true, false)
                && ofile[p][fd1].value < NFILE && file[ofile[p][fd1].value] == File(1, OfPipe(page.value), false, true)
    {
      hide Balanced, Settled, PipesOk, HasPipeAt, Closed, PipeMade, Referred, Same, SameFiles;
      BalancedFacts(T(), NoExtra());
      var made := Pipealloc(page);
      if made == None {
        SameAsBefore(T());
        return None;
      }
      r := PipeFds(p, made.value.0, made.value.1, page.value, old(T()));
      if r.Some? {
        NewPipeAt(old(T()), p, r.value.0, r.value.1, made.value.0, made.value.1, page.value);
        PipeAtIs(old(T()), T(), p, r.value.0, r.value.1, page.value);
      } else {
        SameIs(old(T()), T());
      }
    }

    /** pipe() once pipealloc() has made the pipe: two descriptors, or all made since s is undone. */
    method PipeFds(p: nat, rf: nat, wf: nat, page: nat, ghost s: Table) returns (r: Option<(nat, nat)>)
      requires Good(s) && p < |s.ofile| && page !in s.pipes && rf < NFILE && wf < NFILE && rf != wf
      requires s.file[rf].ref == s.file[wf].ref == 0 && Settled(T())
      requires T() == PipeMade(Referred(Referred(s, rf), wf), rf, wf, page)
      requires Holding(Plus(Plus(NoExtra(), rf, 1), wf, 1))
      modifies this
      ensures Valid() && Shape(s)
      ensures r == None ==> ofile == s.ofile && pipes == s.pipes && Same(s, T())
      ensures r == None ==> forall k, m :: 0 <= k < m < NOFILE ==> s.ofile[p][k].Some? || s.ofile[p][m].Some?
      ensures r.Some? ==>
                var (fd0, fd1) := r.value; var made := PipeMade(Referred(Referred(s, rf), wf), rf, wf, page);
                && fd0 < fd1 < NOFILE && s.ofile[p][fd0] == None && s.ofile[p][fd1] == None
                && Shape(made) && p < |made.ofile| && Shape(WithFd(made, p, fd0, Some(rf)))
                && T() == WithFd(WithFd(made, p, fd0, Some(rf)), p, fd1, Some(wf))
                && (forall k :: 0 <= k < fd1 && k != fd0 ==> s.ofile[p][k].Some?)
    {
      hide Balanced, Settled, PipesOk, HasPipeAt, Closed, Same, SameFiles;
      BalancedFacts(s, NoExtra());
      ghost var m := T();
      ghost var x1, x2 := Plus(NoExtra(), wf, 1), Plus(Plus(NoExtra(), rf, 1), wf, 1);
      BalancedFacts(m, x2);
      assert Plus(x2, rf, -1) == x1 && Plus(x1, wf, -1) == NoExtra();
      var fd0 := Fdalloc(p, rf, x2);
      var fd1: Option<nat> := None;
      if fd0.Some? {
        BalancedFacts(T(), x1);
        ghost var o := ofile;
        assert forall k :: 0 <= k < NOFILE && k != fd0.value ==> s.ofile[p][k] == o[p][k];
        fd1 := Fdalloc(p, wf, x1);
      }
      StillSettled(m, T());
      if fd1 == None {
        GiveUpPipe(p, fd0, rf, wf, page, s);
        return None;
      }
      r := Some((fd0.value, fd1.value));
    }

    /** The end of open() with inode ip: a file for it and a descriptor, or nothing kept. */
    method Open(p: nat, ip: nat, readable: bool, writable: bool) returns (r: Option<nat>)
      requires Valid() && p < |ofile|
      modifies this
      ensures Valid() && |ofile| == |old(ofile)| && pipes == old(pipes)
      ensures r == None ==> T() == old(T())
      ensures r == None <==> (forall f :: 0 <= f < NFILE ==> old(file)[f].ref > 0) || (forall fd :: 0 <= fd < NOFILE ==> old(ofile)[p][fd].Some?)
      ensures r.Some? ==>
                && r.value < NOFILE && old(ofile)[p][r.value] == None && ofile[p][r.value].Some?
                && (forall fd :: 0 <= fd < r.value ==> old(ofile)[p][fd].Some?)
                && ofile == old(ofile)[p := old(ofile)[p][r.value := ofile[p][r.value]]]
                && var f := ofile[p][r.value].value;
                   f < NFILE && old(file)[f].ref == 0 && file == old(file)[f := File(1, OfInode(ip), readable, writable)]
    {
      hide Balanced, Settled, PipesOk;
      BalancedFacts(T(), NoExtra());
      var f := Filealloc(NoExtra());
      if f == None { return None; }
      ghost var x := Plus(NoExtra(), f.value, 1);
      BackToNone(NoExtra(), f.value, 1);
      r := Fdalloc(p, f.value, x);
      if r == None {
        DropNew(f.value, NoExtra(), x);
        assert file == old(file);
        return None;
      }
      BalancedFacts(T(), NoExtra());
      TypedAnew(T(), f.value, ip, readable, writable);
      SameCounts(T(), WithFile(T(), f.value, File(1, OfInode(ip), readable, writable)), NoExtra());
      file := file[f.value := File(1, OfInode(ip), readable, writable)];
      BalancedIs(T(), NoExtra());
      StillSettled(old(T()), T());
    }

    /** fork(): the child q gets the descriptors of the parent p; filedup() does not panic. */
    method ForkFiles(p: nat, q: nat)
      requires Valid() && p < |ofile| && q < |ofile| && p != q && ofile[q] == NoFds()
      modifies this
      ensures Valid() && pipes == old(pipes) && ofile == old(ofile)[q := old(ofile)[p]]
      ensures SameButRef(old(file), file)
      ensures |file| == |old(file)| && forall f :: 0 <= f < |file| ==> file[f] == old(file)[f].(ref := file[f].ref)
    {
      hide Balanced, Settled, PipesOk;
      BalancedFacts(T(), NoExtra());
      ghost var all := ofile;
      var i := 0;
      while i < NOFILE
        invariant 0 <= i <= NOFILE && Valid() && pipes == old(pipes) && SameButRef(old(file), file)
        invariant CopiedFds(all, ofile, p, q, i)
      {
        BalancedFacts(T(), NoExtra());
        if ofile[p][i].Some? { DupFd(p, q, i); }
        i := i + 1;
      }
      assert ofile[q] == all[p];
    }

    /** One turn of fork()'s loop over the descriptors. */
    method DupFd(p: nat, q: nat, i: nat)
      requires Valid() && p < |ofile| && q < |ofile| && i < NOFILE && |ofile[p]| == |ofile[q]| == NOFILE
      requires ofile[p][i].Some? && ofile[q][i] == None && p != q
      modifies this
      ensures Valid() && pipes == old(pipes) && ofile == old(ofile)[q := old(ofile)[q][i := old(ofile)[p][i]]]
      ensures SameButRef(old(file), file)
    {
      hide Balanced, Settled, PipesOk;
      BalancedFacts(T(), NoExtra());
      var f := ofile[p][i].value;
      ghost var t, x := T(), Plus(NoExtra(), f, 1);
      HasUser(T(), p, i);
      var _ := Filedup(f, NoExtra());
      BackToNone(NoExtra(), f, 1);
      SetFd(q, i, Some(f), f, x);
      StillSettled(t, T());
    }

    /** A store to a descriptor, with the reference that it takes over or gives up. */
    method SetFd(p: nat, fd: nat, v: Option<nat>, f: nat, ghost extra: seq<int>)
      requires Holding(extra) && p < |ofile| && fd < NOFILE && f < NFILE && |ofile[p]| == NOFILE
      requires (v == Some(f) && ofile[p][fd] == None) || (v == None && ofile[p][fd] == Some(f))
      modifies this`ofile
      ensures T() == WithFd(old(T()), p, fd, v) && Holding(Plus(extra, f, if v == None then 1 else -1))
    {
      hide PipesOk;
      FdChanges(T(), p, fd, v, f, extra);
      SamePipes(T(), WithFd(T(), p, fd, v));
      ofile := ofile[p := ofile[p][fd := v]];
      assert T() == WithFd(old(T()), p, fd, v);
    }

    /** One turn of exit()'s loop: here the descriptor goes after the file. */
    method CloseFd(p: nat, fd: nat) returns (put: Option<nat>)
      requires Valid() && p < |ofile| && fd < NOFILE && |ofile[p]| == NOFILE && ofile[p][fd].Some?
      modifies this
      ensures Valid() && ofile == old(ofile)[p := old(ofile)[p][fd := None]]
      ensures var f := old(ofile)[p][fd].value;
        && f < NFILE && file == old(file)[f := LessOne(old(file)[f])]
        && file[f] == (if old(file)[f].ref == 1 then old(file)[f].(ref := 0, what := Nothing) else old(file)[f].(ref := old(file)[f].ref - 1))
        && put == if old(file)[f].ref == 1 && old(file)[f].what.OfInode? then Some(old(file)[f].what.ip) else None
    {
      hide Balanced, Settled, PipesOk;
      BalancedFacts(T(), NoExtra());
      var f := ofile[p][fd].value;
      ghost var t := T();
      HasUser(T(), p, fd);
      var panic;
      panic, put := Fileclose(f, NoExtra());
      BackToNone(NoExtra(), f, -1);
      SetFd(p, fd, None, f, Plus(NoExtra(), f, -1));
      StillSettled(t, T());
    }
  }

  /** Both ends of a new pipe closed again: nothing is left of it. */
  lemma PipeUndone(s: Table, a: nat, b: nat, p: nat)
    requires PipesOk(s) && a < |s.file| && b < |s.file| && a != b && p !in s.pipes
    requires s.file[a].ref == s.file[b].ref == 0
    ensures var made := PipeMade(Referred(Referred(s, a), b), a, b, p);
      && HasPipe(made, a) && HasPipe(Closed(made, a), b)
      && made.file[a].ref == 1 && |Closed(made, a).file| == |s.file| && Closed(made, a).file[b].ref == 1
      && var t := Closed(Closed(made, a), b);
         && t.ofile == s.ofile && t.pipes == s.pipes && Same(s, t) && (Settled(s) ==> Settled(t))
  {
    assert PipeOk(s, p);
    var made := PipeMade(Referred(Referred(s, a), b), a, b, p);
    var t := Closed(Closed(made, a), b);
    assert t.pipes == s.pipes;
    assert t.file == s.file[a := File(0, Nothing, true, false)][b := File(0, Nothing, false, true)];
  }

  /** The counts are right if references and descriptors have not changed. */
  lemma SameCounts(t: Table, t': Table, extra: seq<int>)
    requires Shape(t) && Counted(t, extra) && t'.ofile == t.ofile && |t'.file| == |t.file|
    requires forall f :: 0 <= f < |t.file| ==> t'.file[f].ref == t.file[f].ref
    ensures Shape(t') && Counted(t', extra)
  {
    forall g: nat | g < NFILE ensures Users(t', g) == Users(t, g) {}
  }

  predicate SameButRef(f: seq<File>, f': seq<File>) {
    |f'| == |f| && forall i :: 0 <= i < |f| ==> f'[i].(ref := 0) == f[i].(ref := 0)
  }

  /** Files that are still referred to are what they were. */
  predicate LessUsed(f: seq<File>, f': seq<File>) {
    |f'| == |f| && forall i :: 0 <= i < |f| ==> f'[i].ref <= f[i].ref && (f'[i].ref > 0 ==> f'[i].(ref := 0) == f[i].(ref := 0))
  }

  /** The first n descriptors of p have been copied to q. */
  predicate CopiedFds(all: seq<seq<Option<nat>>>, ofile: seq<seq<Option<nat>>>, p: nat, q: nat, n: nat)
    requires p < |all| && q < |all|
  {
    && |ofile| == |all| && ofile == all[q := ofile[q]] && |ofile[q]| == |ofile[p]| == NOFILE
    && |all[p]| == NOFILE && (forall k :: 0 <= k < NOFILE ==> ofile[q][k] == if k < n then all[p][k] else None)
  }

  lemma PipeSettled(s: Table, a: nat, b: nat, p: nat)
    requires Settled(s) && a < |s.file| && b < |s.file| && a != b
    ensures Settled(PipeMade(Referred(Referred(s, a), b), a, b, p))
  {
  }

  lemma FdBack(ofile: seq<seq<Option<nat>>>, p: nat, fd: nat, f: nat)
    requires p < |ofile| && fd < |ofile[p]| && ofile[p][fd] == None
    ensures var taken := ofile[p := ofile[p][fd := Some(f)]]; taken[p := taken[p][fd := None]] == ofile
  {
    assert ofile[p][fd := Some(f)][fd := None] == ofile[p];
  }

  lemma BackToNone(extra: seq<int>, f: nat, d: int)
    requires f < |extra|
    ensures Plus(Plus(extra, f, d), f, -d) == extra
  {
  }

  lemma SamePipes(t: Table, t': Table)
    requires PipesOk(t) && t'.file == t.file && t'.pipes == t.pipes && t'.holder == t.holder
    ensures PipesOk(t')
  {
    forall g | 0 <= g < |t.file| ensures Holds(t', g) { assert Holds(t, g); }
    forall e | e in t'.holder ensures IsEnd(t', e) { assert IsEnd(t, e); }
    forall q ensures PipeOk(t', q) { assert PipeOk(t, q); }
  }

  lemma HasUser(t: Table, p: nat, fd: nat)
    requires Shape(t) && Counted(t, NoExtra()) && p < |t.ofile| && fd < NOFILE && t.ofile[p][fd].Some?
    ensures t.file[t.ofile[p][fd].value].ref > 0
  {
    assert (p, fd) in Users(t, t.ofile[p][fd].value);
  }

  lemma BalancedFacts(t: Table, extra: seq<int>)
    requires Balanced(t, extra)
    ensures Shape(t) && Counted(t, extra) && PipesOk(t) && Typed(t)
  {
  }

  lemma BalancedIs(t: Table, extra: seq<int>)
    requires Shape(t) && Counted(t, extra) && PipesOk(t) && Typed(t)
    ensures Balanced(t, extra)
  {
  }

  /** Every file that is referred to had a type before, and has it still. */
  lemma StillSettled(t: Table, t': Table)
    requires Settled(t) && |t'.file| == |t.file|
    requires forall f :: 0 <= f < |t.file| && t'.file[f].ref > 0 ==>
               (t.file[f].ref > 0 && t'.file[f].what == t.file[f].what) || t'.file[f].what != Nothing
    ensures Settled(t')
  {
  }
}
