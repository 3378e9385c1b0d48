/** Who has an inode open: the files and the working directories that name it, and the references
    that calls hold meanwhile. The inode cache counts exactly these. */
module OpenInodes {
  import opened Common
  import opened FileTable

  /** How many files are open on inode ip. */
  function FilesOf(file: seq<File>, ip: nat): nat {
    if file == [] then 0 else FilesOf(file[..|file| - 1], ip) + if file[|file| - 1].what == OfInode(ip) then 1 else 0
  }

  /** How many processes have it as working directory. */
  function DirsOf(cwd: seq<Option<nat>>, ip: nat): nat {
    if cwd == [] then 0 else DirsOf(cwd[..|cwd| - 1], ip) + if cwd[|cwd| - 1] == Some(ip) then 1 else 0
  }

  lemma {:induction false} FilesChanged(file: seq<File>, f: nat, x: File, ip: nat)
    requires f < |file|
    ensures FilesOf(file[f := x], ip) ==
      FilesOf(file, ip) + (if x.what == OfInode(ip) then 1 else 0) - (if file[f].what == OfInode(ip) then 1 else 0)
    decreases |file|
  {
    var n := |file| - 1;
    if f < n {
      assert file[f := x][..n] == file[..n][f := x];
      FilesChanged(file[..n], f, x, ip);
    } else {
      assert file[f := x][..n] == file[..n];
    }
  }

  lemma {:induction false} DirsChanged(cwd: seq<Option<nat>>, p: nat, v: Option<nat>, ip: nat)
    requires p < |cwd|
    ensures DirsOf(cwd[p := v], ip) ==
      DirsOf(cwd, ip) + (if v == Some(ip) then 1 else 0) - (if cwd[p] == Some(ip) then 1 else 0)
    decreases |cwd|
  {
    var n := |cwd| - 1;
    if p < n {
      assert cwd[p := v][..n] == cwd[..n][p := v];
      DirsChanged(cwd[..n], p, v, ip);
    } else {
      assert cwd[p := v][..n] == cwd[..n];
    }
  }

  /** Files that are open on the same inodes. */
  lemma {:induction false} SameFilesOf(file: seq<File>, file': seq<File>, ip: nat)
    requires |file'| == |file|
    requires forall f :: 0 <= f < |file| ==> (file'[f].what == OfInode(ip) <==> file[f].what == OfInode(ip))
    ensures FilesOf(file', ip) == FilesOf(file, ip)
    decreases |file|
  {
    if file != [] { SameFilesOf(file[..|file| - 1], file'[..|file| - 1], ip); }
  }

  lemma {:induction false} FilesNamed(file: seq<File>, ip: nat)
    ensures FilesOf(file, ip) > 0 <==> exists f :: 0 <= f < |file| && file[f].what == OfInode(ip)
    decreases |file|
  {
    if file != [] {
      var n := |file| - 1;
      FilesNamed(file[..n], ip);
      if FilesOf(file[..n], ip) > 0 {
        var f :| 0 <= f < n && file[..n][f].what == OfInode(ip);
        assert file[f].what == OfInode(ip);
      }
      if f :| 0 <= f < |file| && file[f].what == OfInode(ip) {
        assert f < n ==> file[..n][f].what == OfInode(ip);
      }
    }
  }

  lemma {:induction false} DirsNamed(cwd: seq<Option<nat>>, ip: nat)
    ensures DirsOf(cwd, ip) > 0 <==> Some(ip) in cwd
    decreases |cwd|
  {
    if cwd != [] {
      var n := |cwd| - 1;
      DirsNamed(cwd[..n], ip);
      assert cwd == cwd[..n] + [cwd[n]];
    }
  }

  /** held are the references that calls have taken and not given back yet. */
  ghost predicate Counts(file: seq<File>, cwd: seq<Option<nat>>, held: seq<nat>, iref: seq<nat>) {
    && |held| == |iref|
    && (forall f :: 0 <= f < |file| && file[f].what.OfInode? ==> file[f].what.ip < |iref|)
    && (forall p :: 0 <= p < |cwd| && cwd[p].Some? ==> cwd[p].value < |iref|)
    && (forall ip :: 0 <= ip < |iref| ==> iref[ip] == FilesOf(file, ip) + DirsOf(cwd, ip) + held[ip])
  }

  /** Some process can reach inode ip: by a descriptor or as its working directory. */
  ghost predicate Reached(t: Table, cwd: seq<Option<nat>>, ip: nat)
    requires Shape(t)
  {
    || Some(ip) in cwd
    || exists p, fd :: 0 <= p < |t.ofile| && 0 <= fd < NOFILE && t.ofile[p][fd].Some?
         && t.file[t.ofile[p][fd].value].what == OfInode(ip)
  }

  /** The cache has a reference to an inode exactly while some process can reach it or some call
      holds it. So when iput() finds the last reference nobody has the inode open. */
  lemma ReferredIsReached(t: Table, cwd: seq<Option<nat>>, held: seq<nat>, iref: seq<nat>, ip: nat)
    requires Good(t) && Counts(t.file, cwd, held, iref) && ip < |iref|
    ensures iref[ip] > 0 <==> Reached(t, cwd, ip) || held[ip] > 0
  {
    FilesNamed(t.file, ip);
    DirsNamed(cwd, ip);
    if FilesOf(t.file, ip) > 0 {
      var f: nat :| f < |t.file| && t.file[f].what == OfInode(ip);
      assert |Users(t, f)| == t.file[f].ref > 0;
      var u :| u in Users(t, f);
      assert t.ofile[u.0][u.1] == Some(f);
    }
  }

  lemma OtherFiles(file: seq<File>, file': seq<File>, cwd: seq<Option<nat>>, held: seq<nat>, iref: seq<nat>)
    requires Counts(file, cwd, held, iref) && |file'| == |file|
    requires forall f :: 0 <= f < |file| && (file[f].what.OfInode? || file'[f].what.OfInode?) ==> file'[f].what == file[f].what
    ensures Counts(file', cwd, held, iref)
  {
    forall ip: nat | ip < |iref| ensures iref[ip] == FilesOf(file', ip) + DirsOf(cwd, ip) + held[ip] {
      SameFilesOf(file, file', ip);
    }
  }

  /** iput() of the reference that file f has given up. */
  lemma FileGone(file: seq<File>, f: nat, x: File, cwd: seq<Option<nat>>, held: seq<nat>, iref: seq<nat>)
    requires Counts(file, cwd, held, iref) && f < |file| && !x.what.OfInode?
    ensures file[f].what.OfInode? ==>
              && file[f].what.ip < |iref| && iref[file[f].what.ip] > 0
              && Counts(file[f := x], cwd, held, iref[file[f].what.ip := iref[file[f].what.ip] - 1])
  {
    if file[f].what.OfInode? {
      var ip := file[f].what.ip;
      FilesNamed(file, ip);
      forall i: nat | i < |iref| ensures iref[ip := iref[ip] - 1][i] == FilesOf(file[f := x], i) + DirsOf(cwd, i) + held[i] {
        FilesChanged(file, f, x, i);
      }
    }
  }

  /** A file takes over a reference that is held. */
  lemma FileTakes(file: seq<File>, f: nat, x: File, cwd: seq<Option<nat>>, held: seq<nat>, iref: seq<nat>, ip: nat)
    requires Counts(file, cwd, held, iref) && f < |file| && !file[f].what.OfInode? && x.what == OfInode(ip) && ip < |iref| && held[ip] > 0
    ensures Counts(file[f := x], cwd, held[ip := held[ip] - 1], iref)
  {
    forall i: nat | i < |iref| ensures iref[i] == FilesOf(file[f := x], i) + DirsOf(cwd, i) + held[ip := held[ip] - 1][i] {
      FilesChanged(file, f, x, i);
    }
  }

  /** A process changes its working directory for one that is held, or for none; the old one, if
      any, is held instead. */
  lemma DirChanges(file: seq<File>, cwd: seq<Option<nat>>, p: nat, v: Option<nat>, held: seq<nat>, held': seq<nat>, iref: seq<nat>)
    requires Counts(file, cwd, held, iref) && p < |cwd| && |held'| == |held| && (v.Some? ==> v.value < |iref| && held[v.value] > 0)
    requires forall i :: 0 <= i < |held| ==>
               held'[i] == held[i] - (if v == Some(i) then 1 else 0) + (if cwd[p] == Some(i) then 1 else 0)
    ensures Counts(file, cwd[p := v], held', iref)
  {
    forall i: nat | i < |iref| ensures iref[i] == FilesOf(file, i) + DirsOf(cwd[p := v], i) + held'[i] {
      DirsChanged(cwd, p, v, i);
    }
  }

  class OpenInodes {
    const ft: Ftable
    var cwd: seq<Option<nat>>
    var iref: seq<nat>
    ghost var held: seq<nat>

    ghost predicate Valid()
      reads this, ft
    {
      ft.Valid() && |cwd| == |ft.ofile| && Counts(ft.file, cwd, held, iref)
    }

    constructor (nproc: nat, ninode: nat)
      ensures Valid() && fresh(ft) && |cwd| == nproc && |iref| == ninode && held == iref == seq(ninode, _ => 0)
    {
      ft := new Ftable(nproc);
      cwd, iref, held := NoDirs(nproc), seq(ninode, _ => 0), seq(ninode, _ => 0);
      new;
      forall ip: nat | ip < ninode ensures iref[ip] == FilesOf(ft.file, ip) + DirsOf(cwd, ip) + held[ip] {
        FilesNamed(ft.file, ip);
        DirsNamed(cwd, ip);
      }
    }

    /** iget() and idup(): the caller holds a reference. */
    method Idup(ip: nat)
      requires Valid() && ip < |iref|
      modifies this`iref, this`held
      ensures Valid() && iref == old(iref)[ip := old(iref)[ip] + 1] && held == old(held)[ip := old(held)[ip] + 1]
    {
      iref := iref[ip := iref[ip] + 1];
      held := held[ip := held[ip] + 1];
    }

    /** iput() of a reference that the caller holds. At the last one, which frees an inode without
        links, no descriptor and no working directory of any process names it. */
    method Iput(ip: nat) returns (last: bool)
      requires Valid() && ip < |iref| && held[ip] > 0
      modifies this`iref, this`held
      ensures Valid() && iref == old(iref)[ip := old(iref)[ip] - 1] && held == old(held)[ip := old(held)[ip] - 1]
      ensures last <==> old(iref)[ip] == 1
      ensures last <==> !Reached(ft.T(), cwd, ip) && held[ip] == 0
    {
      last := iref[ip] == 1;
      iref := iref[ip := iref[ip] - 1];
      held := held[ip := held[ip] - 1];
      ReferredIsReached(ft.T(), cwd, held, iref, ip);
    }

    /** The iput() inside fileclose(), if there is one. */
    method Put(put: Option<nat>)
      requires put.Some? ==> put.value < |iref| && iref[put.value] > 0
      modifies this`iref
      ensures iref == match put case None => old(iref) case Some(ip) => old(iref)[ip := old(iref)[ip] - 1]
    {
      if put.Some? { iref := iref[put.value := iref[put.value] - 1]; }
    }

    /** The end of open(): the reference that namei() or create() has taken goes to the new file, or
        back if there is none. */
    method Open(p: nat, ip: nat, readable: bool, writable: bool) returns (r: Option<nat>)
      requires Valid() && p < |ft.ofile| && ip < |iref| && held[ip] > 0
      modifies this`iref, this`held, ft
      ensures Valid() && cwd == old(cwd) && held == old(held)[ip := old(held)[ip] - 1]
      ensures r == None ==> ft.T() == old(ft.T()) && iref == old(iref)[ip := old(iref)[ip] - 1]
      ensures r == None <==>
                (forall f :: 0 <= f < NFILE ==> old(ft.file)[f].ref > 0) || (forall fd :: 0 <= fd < NOFILE ==> old(ft.ofile)[p][fd].Some?)
      ensures r.Some? ==>
                && iref == old(iref) && r.value < NOFILE && p < |ft.ofile| && ft.ofile[p][r.value].Some?
                && var f := ft.ofile[p][r.value].value; f < NFILE && ft.file[f] == File(1, OfInode(ip), readable, writable)
    {
      hide Good, Counts;
      TableFacts(ft.T());
      assert |held| == |iref| by { CountsShape(ft.file, cwd, held, iref); }
      r := ft.Open(p, ip, readable, writable);
      TableFacts(ft.T());
      if r == None {
        assert ft.file == old(ft.file);
        var _ := Iput(ip);
      } else {
        ghost var f := ft.ofile[p][r.value].value;
        FileTakes(old(ft.file), f, ft.file[f], cwd, held, iref, ip);
        held := held[ip := held[ip] - 1];
      }
    }

    /** close() */
    method Close(p: nat, fd: int) returns (ok: bool)
      requires Valid() && p < |ft.ofile|
      modifies this`iref, ft
      ensures Valid() && (ok <==> 0 <= fd < NOFILE && old(ft.ofile)[p][fd].Some?)
      ensures !ok ==> ft.T() == old(ft.T()) && iref == old(iref)
      ensures ok ==>
                var f := old(ft.ofile)[p][fd].value;
                && f < NFILE && HasPipe(old(ft.T()), f) && ft.T() == Closed(WithFd(old(ft.T()), p, fd, None), f)
    {
      hide Good, Counts, Closed;
      var put;
      TableFacts(ft.T());
      if 0 <= fd < NOFILE && ft.ofile[p][fd].Some? { FdIsOpen(ft.T(), p, fd); }
      ok, put := ft.Close(p, fd);
      if ok {
        ghost var f := old(ft.ofile)[p][fd].value;
        ClosedFile(WithFd(old(ft.T()), p, fd, None), f);
        assert ft.file == ft.T().file && ft.ofile == ft.T().ofile;
        CloseCounts(old(ft.file), f, cwd, held, iref, put);
        Put(put);
      }
    }

    /** fork(): the child has the descriptors of the parent and its working directory. */
    method Fork(p: nat, q: nat)
      requires Valid() && p < |ft.ofile| && q < |ft.ofile| && p != q && ft.ofile[q] == NoFds()
      requires cwd[p].Some? && cwd[q] == None
      modifies this, ft
      ensures Valid() && ft.ofile == old(ft.ofile)[q := old(ft.ofile)[p]] && cwd == old(cwd)[q := old(cwd)[p]] && held == old(held)
      ensures |ft.file| == |old(ft.file)| && forall f :: 0 <= f < |ft.file| ==> ft.file[f] == old(ft.file)[f].(ref := ft.file[f].ref)
    {
      hide Good;
      var ip := cwd[p].value;
      ft.ForkFiles(p, q);
      OtherFiles(old(ft.file), ft.file, cwd, held, iref);
      Idup(ip);
      DirChanges(ft.file, cwd, q, Some(ip), held, old(held), iref);
      held := old(held);
      cwd := cwd[q := Some(ip)];
    }

    /** exit(): the descriptors of the process are closed one by one, and its working directory is
        given up. */
    method Exit(p: nat)
      requires Valid() && p < |ft.ofile| && cwd[p].Some?
      modifies this, ft
      ensures Valid() && ft.ofile == old(ft.ofile)[p := NoFds()] && cwd == old(cwd)[p := None] && held == old(held)
      ensures LessUsed(old(ft.file), ft.file)
      ensures |ft.file| == |old(ft.file)| && forall f :: 0 <= f < |ft.file| && ft.file[f].ref > 0 ==>
                ft.file[f].what == old(ft.file)[f].what && ft.file[f].ref <= old(ft.file)[f].ref
    {
      hide Good, Counts;
      TableFacts(ft.T());
      ghost var all := ft.ofile;
      var fd := 0;
      while fd < NOFILE
        invariant 0 <= fd <= NOFILE && Valid() && cwd == old(cwd) && held == old(held)
        invariant |ft.ofile| == |all| && |ft.ofile[p]| == NOFILE && ft.ofile == all[p := ft.ofile[p]]
        invariant LessUsed(old(ft.file), ft.file) && forall k :: 0 <= k < fd ==> ft.ofile[p][k] == None
      {
        if ft.ofile[p][fd].Some? { CloseOne(p, fd); }
        fd := fd + 1;
      }
      assert ft.ofile[p] == NoFds();
      GiveUpDir(p);
    }

    method CloseOne(p: nat, fd: nat)
      requires Valid() && p < |ft.ofile| && fd < NOFILE && |ft.ofile[p]| == NOFILE && ft.ofile[p][fd].Some?
      modifies this`iref, ft
      ensures Valid() && ft.ofile == old(ft.ofile)[p := old(ft.ofile)[p][fd := None]] && LessUsed(old(ft.file), ft.file)
    {
      hide Good, Counts;
      ghost var f := ft.ofile[p][fd].value;
      FdIsOpen(ft.T(), p, fd);
      var put := ft.CloseFd(p, fd);
      CloseCounts(old(ft.file), f, cwd, held, iref, put);
      Put(put);
    }

    /** iput(cwd) */
    method GiveUpDir(p: nat)
      requires Valid() && p < |cwd| && cwd[p].Some?
      modifies this
      ensures Valid() && cwd == old(cwd)[p := None] && held == old(held)
    {
      hide Good;
      var ip := cwd[p].value;
      DirChanges(ft.file, cwd, p, None, held, held[ip := held[ip] + 1], iref);
      held := held[ip := held[ip] + 1];
      cwd := cwd[p := None];
      var _ := Iput(ip);
    }

    /** chdir() to a directory that namei() has found. */
    method Chdir(p: nat, ip: nat)
      requires Valid() && p < |cwd| && cwd[p].Some? && ip < |iref| && held[ip] > 0
      modifies this
      ensures Valid() && cwd == old(cwd)[p := Some(ip)] && held == old(held)[ip := old(held)[ip] - 1]
    {
      hide Good;
      GiveUpDir(p);
      DirChanges(ft.file, cwd, p, Some(ip), held, held[ip := held[ip] - 1], iref);
      cwd, held := cwd[p := Some(ip)], held[ip := held[ip] - 1];
    }
  }

  lemma CountsShape(file: seq<File>, cwd: seq<Option<nat>>, held: seq<nat>, iref: seq<nat>)
    requires Counts(file, cwd, held, iref)
    ensures |held| == |iref|
  {
  }

  lemma TableFacts(t: Table)
    requires Good(t)
    ensures Shape(t) && Typed(t)
  {
  }

  /** A descriptor in use names a file that is open. */
  lemma FdIsOpen(t: Table, p: nat, fd: nat)
    requires Good(t) && p < |t.ofile| && fd < |t.ofile[p]| && t.ofile[p][fd].Some?
    ensures t.ofile[p][fd].value < |t.file| && t.file[t.ofile[p][fd].value].ref > 0
  {
    HasUser(t, p, fd);
  }

  lemma ClosedFile(t: Table, f: nat)
    requires f < |t.file| && HasPipe(t, f)
    ensures Closed(t, f).file == t.file[f := LessOne(t.file[f])] && Closed(t, f).ofile == t.ofile
  {
  }

  /** fileclose() of file f, whatever it is. */
  lemma CloseCounts(file: seq<File>, f: nat, cwd: seq<Option<nat>>, held: seq<nat>, iref: seq<nat>, put: Option<nat>)
    requires Counts(file, cwd, held, iref) && f < |file|
    requires put == if file[f].ref == 1 && file[f].what.OfInode? then Some(file[f].what.ip) else None
    requires file[f].ref > 0
    ensures put.Some? ==> put.value < |iref| && iref[put.value] > 0
    ensures Counts(file[f := LessOne(file[f])], cwd, held, match put case None => iref case Some(ip) => iref[ip := iref[ip] - 1])
  {
    hide Counts;
    if put.Some? {
      FileGone(file, f, LessOne(file[f]), cwd, held, iref);
    } else {
      OtherFiles(file, file[f := LessOne(file[f])], cwd, held, iref);
    }
  }

  function NoDirs(n: nat): (r: seq<Option<nat>>)
    ensures |r| == n && forall p :: 0 <= p < n ==> r[p] == None
  {
    seq(n, _ => None)
  }
}
