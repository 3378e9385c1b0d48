/** What create, link and unlink mean for path names: where the path of the call leads afterwards,
    and that every other path leads where it did. */
module Naming {
  import opened Common
  import opened LinkCount
  import opened Path
  import opened SysFile

  // ----- looking up -----

  /** Lookup finds the first entry in use with the name. */
  lemma FirstFound(t: seq<Node>, d: nat, n: Name, k: nat)
    requires d < |t| && k < |t[d].entries| && t[d].entries[k].inum != 0 && t[d].entries[k].name == n
    requires forall j :: 0 <= j < k ==> t[d].entries[j].inum == 0 || t[d].entries[j].name != n
    ensures Lookup(t, d, n) == Some(t[d].entries[k].inum)
  {
    FoundAt(t, d, n, 0, k);
  }

  lemma NoneFound(t: seq<Node>, d: nat, n: Name)
    requires d < |t|
    ensures Lookup(t, d, n) == None <==> forall k :: 0 <= k < |t[d].entries| ==> t[d].entries[k].inum == 0 || t[d].entries[k].name != n
  {
    if forall k :: 0 <= k < |t[d].entries| ==> t[d].entries[k].inum == 0 || t[d].entries[k].name != n {
      FoundAt(t, d, n, 0, |t[d].entries|);
    } else {
      var k := First(t, d, n, 0);
    }
  }

  lemma {:induction false} First(t: seq<Node>, d: nat, n: Name, from: nat) returns (k: nat)
    requires d < |t| && from <= |t[d].entries|
    requires exists j :: from <= j < |t[d].entries| && t[d].entries[j].inum != 0 && t[d].entries[j].name == n
    requires forall j :: 0 <= j < from ==> t[d].entries[j].inum == 0 || t[d].entries[j].name != n
    ensures k < |t[d].entries| && FirstNamed(t, d, n, k) && Lookup(t, d, n) == Some(t[d].entries[k].inum)
    decreases |t[d].entries| - from
  {
    if t[d].entries[from].inum != 0 && t[d].entries[from].name == n {
      k := from;
      FirstFound(t, d, n, k);
    } else {
      k := First(t, d, n, from + 1);
    }
  }

  /** The entry behind a name that is found. */
  lemma FirstOf(t: seq<Node>, d: nat, n: Name) returns (k: nat)
    requires d < |t| && Lookup(t, d, n).Some?
    ensures k < |t[d].entries| && FirstNamed(t, d, n, k) && Lookup(t, d, n) == Some(t[d].entries[k].inum)
  {
    NoneFound(t, d, n);
    k := First(t, d, n, 0);
  }

  /** No directory has two entries with the same name. */
  ghost predicate Distinct(t: seq<Node>) {
    forall d: nat, j: nat, k: nat :: d < |t| && j < k < |t[d].entries| && t[d].entries[j].inum != 0 && t[d].entries[k].inum != 0 ==>
      t[d].entries[j].name != t[d].entries[k].name
  }

  // ----- walks -----

  /** What can be looked up in t can be looked up in u. */
  ghost predicate Within(t: seq<Node>, u: seq<Node>) {
    forall d: nat, n: Name :: d < |t| && IsDirectory(t, d) && Lookup(t, d, n).Some? ==>
      d < |u| && IsDirectory(u, d) && Lookup(u, d, n) == Lookup(t, d, n)
  }

  /** Then a path that leads somewhere in t leads there in u. */
  lemma {:induction false} WalksWithin(t: seq<Node>, u: seq<Node>, s: nat, es: seq<Name>)
    requires Within(t, u) && Walk(t, s, es).Some?
    ensures Walk(u, s, es) == Walk(t, s, es)
    decreases |es|
  {
    hide Lookup;
    if es != [] { WalksWithin(t, u, Lookup(t, s, es[0]).value, es[1..]); }
  }

  lemma {:induction false} ParentsWithin(t: seq<Node>, u: seq<Node>, s: nat, es: seq<Name>)
    requires Within(t, u) && WalkToParent(t, s, es).Some?
    requires var d := WalkToParent(t, s, es).value.0; IsDirectory(t, d) ==> IsDirectory(u, d)
    ensures WalkToParent(u, s, es) == WalkToParent(t, s, es)
    decreases |es|
  {
    hide Lookup;
    if |es| > 1 { ParentsWithin(t, u, Lookup(t, s, es[0]).value, es[1..]); }
  }

  // ----- what the calls do to the directories -----

  /** Directory dp has got an entry for inode i under a name that it did not have. */
  ghost predicate Gained(t: seq<Node>, u: seq<Node>, dp: nat, name: Name, i: nat) {
    && dp < |t| == |u| && Lookup(t, dp, name) == None && Lookup(u, dp, name) == Some(i)
    && (forall n: Name :: n != name ==> Lookup(u, dp, n) == Lookup(t, dp, n))
    && (forall j :: 0 <= j < |t| && j != dp && j != i ==> u[j] == t[j])
    && u[dp].kind == t[dp].kind
  }

  lemma EntryAdded(t: seq<Node>, u: seq<Node>, dp: nat, k: nat, name: Name, i: nat)
    requires dp < |t| == |u| && Lacks(t, dp, name) && FreePlace(t, dp, k) && i != 0
    requires u[dp].entries == WithEntry(t, dp, k, Dirent(i, name))[dp].entries
    ensures Lookup(t, dp, name) == None && Lookup(u, dp, name) == Some(i)
    ensures forall n: Name :: n != name ==> Lookup(u, dp, n) == Lookup(t, dp, n)
  {
    hide Lookup;
    NoneFound(t, dp, name);
    FirstFound(u, dp, name, k);
    forall n: Name | n != name ensures Lookup(u, dp, n) == Lookup(t, dp, n) {
      NoneFound(t, dp, n);
      NoneFound(u, dp, n);
      if Lookup(t, dp, n).Some? {
        var j := FirstOf(t, dp, n);
        FirstFound(u, dp, n, j);
      } else {
        assert Lacks(u, dp, n);
      }
    }
  }

  /** create() gives the name to an inode that was free, with the kind asked for and one link; a
      directory starts with its dots. */
  lemma CreatedIs(t: seq<Node>, u: seq<Node>, dp: nat, k: nat, name: Name, i: nat, kind: Kind)
    requires Creates(t, u, dp, k, name, i, kind) && Lacks(t, dp, name)
    ensures Gained(t, u, dp, name, i) && t[i].kind == Unallocated
    ensures u[i] == Node(kind, 1, if kind == Directory then [Dirent(i, "."), Dirent(dp, "..")] else [])
    ensures u[dp].nlink == t[dp].nlink + if kind == Directory then 1 else 0
  {
    EntryAdded(t, u, dp, k, name, i);
    hide Lookup;
  }

  /** link() gives the name to the file, with one link more. */
  lemma LinkedIs(t: seq<Node>, dp: nat, k: nat, name: Name, i: nat)
    requires Place(t, dp, k, name) && FreePlace(t, dp, k) && Lacks(t, dp, name) && 0 < i < |t| && i != dp
    ensures var u := LinkedFile(t, dp, k, name, i);
      Gained(t, u, dp, name, i) && u[i] == t[i].(nlink := t[i].nlink + 1) && u[dp].nlink == t[dp].nlink
  {
    EntryAdded(t, LinkedFile(t, dp, k, name, i), dp, k, name, i);
    hide Lookup;
  }

  /** unlink() takes the name from the inode, which loses a link, and for a directory takes the link
      of its ".." from the parent; the inode is free if it had one link and nobody has it open. */
  lemma UnlinkedIs(t: seq<Node>, ref: seq<nat>, u: seq<Node>, dp: nat, name: Name, k: nat, i: nat, freed: bool)
    requires dp < |t| && Distinct(t) && Unlinked(t, ref, u, dp, name, k, i, freed)
    ensures |u| == |t| && 0 < i < |t| == |ref| && i != dp && Lookup(t, dp, name) == Some(i) && Lookup(u, dp, name) == None
    ensures forall n: Name :: n != name ==> Lookup(u, dp, n) == Lookup(t, dp, n)
    ensures forall j :: 0 <= j < |t| && j != dp && j != i ==> u[j] == t[j]
    ensures u[dp].kind == t[dp].kind && u[dp].nlink == t[dp].nlink - if t[i].kind == Directory then 1 else 0
    ensures u[i] == if t[i].nlink == 1 && ref[i] == 0 then Node(Unallocated, 0, []) else t[i].(nlink := t[i].nlink - 1)
    ensures t[i].kind == Directory ==> forall m :: 2 <= m < |t[i].entries| ==> t[i].entries[m].inum == 0
  {
    hide Lookup;
    FirstFound(t, dp, name, k);
    NoneFound(u, dp, name);
    assert u[dp].entries == t[dp].entries[k := Dirent(0, "")];
    forall j | 0 <= j < |u[dp].entries| ensures u[dp].entries[j].inum == 0 || u[dp].entries[j].name != name {
      if j < k { assert t[dp].entries[j].inum == 0 || t[dp].entries[j].name != t[dp].entries[k].name; }
      if j > k { assert t[dp].entries[j].inum == 0 || t[dp].entries[k].name != t[dp].entries[j].name; }
    }
    forall n: Name | n != name ensures Lookup(u, dp, n) == Lookup(t, dp, n) { OtherNames(t, u, dp, name, k, n); }
  }

  lemma OtherNames(t: seq<Node>, u: seq<Node>, dp: nat, name: Name, k: nat, n: Name)
    requires dp < |t| == |u| && k < |t[dp].entries| && t[dp].entries[k].name == name != n
    requires u[dp].entries == t[dp].entries[k := Dirent(0, "")]
    ensures Lookup(u, dp, n) == Lookup(t, dp, n)
  {
    hide Lookup;
    NoneFound(t, dp, n);
    NoneFound(u, dp, n);
    if Lookup(t, dp, n).Some? {
      var j := FirstOf(t, dp, n);
      FirstFound(u, dp, n, j);
    }
  }

  /** unlink() refuses a dot, a name that is not there, and a directory with an entry in use. */
  lemma MayStayIs(t: seq<Node>, dp: nat, name: Name, k: nat, i: nat)
    requires dp < |t| && MayStay(t, dp, name, k, i)
    ensures || name == "." || name == ".." || Lookup(t, dp, name) == None
            || (Lookup(t, dp, name) == Some(i) && i < |t| && t[i].kind == Directory
                && exists m :: 2 <= m < |t[i].entries| && t[i].entries[m].inum != 0)
  {
    NoneFound(t, dp, name);
    if !(name == "." || name == ".." || Lacks(t, dp, name)) { FirstFound(t, dp, name, k); }
  }

  // ----- names stay distinct -----

  lemma EntryKeepsDistinct(t: seq<Node>, u: seq<Node>, dp: nat, k: nat, name: Name, i: nat)
    requires Distinct(t) && dp < |t| == |u| && Lacks(t, dp, name) && FreePlace(t, dp, k)
    requires u[dp].entries == WithEntry(t, dp, k, Dirent(i, name))[dp].entries
    requires forall j :: 0 <= j < |t| && j != dp ==>
      u[j].entries == t[j].entries || u[j].entries == [] || u[j].entries == [Dirent(j, "."), Dirent(dp, "..")]
    ensures Distinct(u)
  {
    assert "." != "..";
  }

  /** No call gives a directory two entries with the same name. */
  lemma CallsKeepDistinct(t: seq<Node>, ref: seq<nat>, u: seq<Node>, dp: nat, k: nat, name: Name, i: nat, kind: Kind, freed: bool)
    requires dp < |t| && Distinct(t)
    requires || (Creates(t, u, dp, k, name, i, kind) && Lacks(t, dp, name))
             || (Place(t, dp, k, name) && FreePlace(t, dp, k) && Lacks(t, dp, name) && i < |t| && i != dp && u == LinkedFile(t, dp, k, name, i))
             || Unlinked(t, ref, u, dp, name, k, i, freed)
    ensures Distinct(u)
  {
    if Lacks(t, dp, name) && !Unlinked(t, ref, u, dp, name, k, i, freed) {
      EntryKeepsDistinct(t, u, dp, k, name, i);
    }
  }

  // ----- what the calls do to paths -----

  lemma GainedWithin(t: seq<Node>, u: seq<Node>, dp: nat, name: Name, i: nat)
    requires Gained(t, u, dp, name, i) && i < |t| && (t[i].kind == Directory ==> u[i].kind == Directory && u[i].entries == t[i].entries)
    ensures Within(t, u)
  {
    hide Lookup;
    forall d: nat, n: Name | d < |t| && IsDirectory(t, d) && Lookup(t, d, n).Some?
      ensures d < |u| && IsDirectory(u, d) && Lookup(u, d, n) == Lookup(t, d, n)
    {
      if d != dp { SameLookup(t, u, d, n, 0); SameFound(t, u, d, n); }
    }
  }

  lemma SameFound(t: seq<Node>, u: seq<Node>, d: nat, n: Name)
    requires d < |t| == |u| && u[d].entries == t[d].entries
    ensures Lookup(u, d, n) == Lookup(t, d, n)
  {
    SameLookup(t, u, d, n, 0);
  }

  /** A path under which a name has been entered leads to the inode of that name, and every path
      that led somewhere leads there still. */
  lemma PathGained(t: seq<Node>, u: seq<Node>, dp: nat, name: Name, i: nat, start: nat, es: seq<Name>)
    requires Gained(t, u, dp, name, i) && i < |t| && (t[i].kind == Directory ==> u[i].kind == Directory && u[i].entries == t[i].entries)
    requires WalkToParent(t, start, es) == Some((dp, name))
    ensures Walk(t, start, es) == None && Walk(u, start, es) == Some(i)
    ensures forall s: nat, fs: seq<Name> :: Walk(t, s, fs).Some? ==> Walk(u, s, fs) == Walk(t, s, fs)
  {
    hide Lookup, Walk, WalkToParent;
    GainedWithin(t, u, dp, name, i);
    ParentsWithin(t, u, start, es);
    assert es != [] by { NoElement(t, start); }
    ParentThenName(t, start, es);
    ParentThenName(u, start, es);
    forall s: nat, fs: seq<Name> | Walk(t, s, fs).Some? ensures Walk(u, s, fs) == Walk(t, s, fs) { WalksWithin(t, u, s, fs); }
  }

  /** After create() the path leads to the new inode, and every other path that led somewhere leads
      there still. */
  lemma CreatedPath(t: seq<Node>, u: seq<Node>, dp: nat, k: nat, name: Name, i: nat, kind: Kind, start: nat, es: seq<Name>)
    requires WalkToParent(t, start, es) == Some((dp, name)) && dp < |t| && Lacks(t, dp, name)
    requires Creates(t, u, dp, k, name, i, kind)
    ensures Walk(t, start, es) == None && Walk(u, start, es) == Some(i) && i < |u| && u[i].kind == kind
    ensures forall s: nat, fs: seq<Name> :: Walk(t, s, fs).Some? ==> Walk(u, s, fs) == Walk(t, s, fs)
  {
    CreatedIs(t, u, dp, k, name, i, kind);
    hide Creates, Gained, Lacks, Walk, WalkToParent;
    PathGained(t, u, dp, name, i, start, es);
  }

  /** After link() both paths lead to the file, and every other path leads where it led. */
  lemma LinkedPath(t: seq<Node>, dp: nat, k: nat, name: Name, i: nat, oldStart: nat, oldPath: seq<Name>, start: nat, es: seq<Name>)
    requires WalkToParent(t, start, es) == Some((dp, name)) && Walk(t, oldStart, oldPath) == Some(i)
    requires Place(t, dp, k, name) && FreePlace(t, dp, k) && Lacks(t, dp, name) && 0 < i < |t| && i != dp
    ensures var u := LinkedFile(t, dp, k, name, i);
      && Walk(u, start, es) == Walk(u, oldStart, oldPath) == Some(i) && Walk(t, start, es) == None
      && forall s: nat, fs: seq<Name> :: Walk(t, s, fs).Some? ==> Walk(u, s, fs) == Walk(t, s, fs)
  {
    LinkedIs(t, dp, k, name, i);
    var u := LinkedFile(t, dp, k, name, i);
    hide Gained, Lacks, FreePlace, Walk, WalkToParent, LinkedFile;
    PathGained(t, u, dp, name, i, start, es);
  }

  /** After unlink() the path leads nowhere, and no path leads where it did not lead before. */
  lemma UnlinkedPath(t: seq<Node>, ref: seq<nat>, u: seq<Node>, dp: nat, name: Name, k: nat, i: nat, freed: bool,
                     start: nat, es: seq<Name>)
    requires WalkToParent(t, start, es) == Some((dp, name)) && dp < |t| && Distinct(t)
    requires Unlinked(t, ref, u, dp, name, k, i, freed)
    ensures Walk(t, start, es) == Some(i) && Walk(u, start, es) == None
    ensures forall s: nat, fs: seq<Name> :: Walk(u, s, fs).Some? ==> Walk(t, s, fs) == Walk(u, s, fs)
  {
    UnlinkedIs(t, ref, u, dp, name, k, i, freed);
    hide Lookup, Walk, WalkToParent, Unlinked, Distinct;
    assert Within(u, t) by {
      forall d: nat, n: Name | d < |u| && IsDirectory(u, d) && Lookup(u, d, n).Some?
        ensures d < |t| && IsDirectory(t, d) && Lookup(t, d, n) == Lookup(u, d, n)
      {
        if d != dp { SameFound(t, u, d, n); }
      }
    }
    assert es != [] by { NoElement(t, start); }
    ParentThenName(t, start, es);
    ParentThenName(u, start, es);
    if WalkToParent(u, start, es).Some? { NoPathBack(t, u, dp, name, start, es); }
    forall s: nat, fs: seq<Name> | Walk(u, s, fs).Some? ensures Walk(t, s, fs) == Walk(u, s, fs) { WalksWithin(u, t, s, fs); }
  }

  lemma NoPathBack(t: seq<Node>, u: seq<Node>, dp: nat, name: Name, start: nat, es: seq<Name>)
    requires Within(u, t) && WalkToParent(t, start, es) == Some((dp, name)) && WalkToParent(u, start, es).Some?
    requires dp < |u| && Lookup(u, dp, name) == None && forall d: nat :: IsDirectory(u, d) ==> IsDirectory(t, d)
    ensures WalkToParent(u, start, es) == Some((dp, name))
  {
    ParentsWithin(u, t, start, es);
  }
}
