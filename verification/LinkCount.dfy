/** The directory tree as a value: inodes, the entries of directories, and which entries count as
    links to an inode. */
module LinkCount {

  datatype Kind = Unallocated | Directory | File | Device

  const DIRSIZ: nat := 14

  type Name = s: string | |s| <= DIRSIZ

  /** struct dirent; inum 0 marks a free entry. */
  datatype Dirent = Dirent(inum: nat, name: Name)

  datatype Node = Node(kind: Kind, nlink: int, entries: seq<Dirent>)

  const ROOT: nat := 1

  predicate Linked(t: seq<Node>, d: nat) {
    d < |t| && t[d].kind == Directory && t[d].nlink > 0
  }

  /** Entry k of directory d is a link to inode i. */
  predicate IsLink(t: seq<Node>, d: nat, k: nat, i: nat) {
    Linked(t, d) && k < |t[d].entries| && t[d].entries[k].inum == i && t[d].entries[k].name != "."
  }

  /** The entries other than "." that name inode i in directories that are themselves linked. */
  function Links(t: seq<Node>, i: nat): (r: set<(nat, nat)>)
    ensures forall d: nat, k: nat :: (d, k) in r <==> IsLink(t, d, k, i)
  {
    set d: nat, k: nat | d < |t| && k < |t[d].entries| && IsLink(t, d, k, i) :: (d, k)
  }

  /** Directory d has "." and ".." in front, its parent is linked, and unless it is the root its
      parent has an entry for it. */
  ghost predicate DirOk(t: seq<Node>, d: nat)
    requires Linked(t, d)
  {
    var e := t[d].entries;
    && |e| >= 2 && e[0] == Dirent(d, ".") && e[1].name == ".." && Linked(t, e[1].inum)
    && (d == ROOT ==> e[1].inum == ROOT)
    && (d != ROOT ==> exists k: nat :: k >= 2 && IsLink(t, e[1].inum, k, d))
    && (forall k :: 2 <= k < |e| && e[k].inum != 0 ==> EntryOk(t, d, k))
  }

  /** An entry in use that is not one of the dots. */
  predicate EntryOk(t: seq<Node>, d: nat, k: nat)
    requires d < |t| && k < |t[d].entries|
  {
    var e := t[d].entries[k];
    && e.name != "." && e.name != ".." && e.inum < |t| && t[e.inum].kind != Unallocated && e.inum != ROOT
    && (t[e.inum].kind == Directory ==> Linked(t, e.inum) && |t[e.inum].entries| >= 2 && t[e.inum].entries[1].inum == d)
  }

  /** A directory has one name at most. */
  ghost predicate NamedOnce(t: seq<Node>) {
    forall c: nat, d: nat, k: nat, d': nat, k': nat ::
      c < |t| && t[c].kind == Directory && k >= 2 && k' >= 2 && IsLink(t, d, k, c) && IsLink(t, d', k', c) ==> d == d' && k == k'
  }

  ghost predicate Counted(t: seq<Node>) {
    forall i: nat {:trigger Links(t, i)} :: 0 < i < |t| ==> t[i].nlink == |Links(t, i)|
  }

  ghost predicate Tree(t: seq<Node>) {
    && |t| > ROOT && Linked(t, ROOT) && t[0].kind == Unallocated
    && (forall d: nat {:trigger DirOk(t, d)} :: Linked(t, d) ==> DirOk(t, d))
    && NamedOnce(t)
    && Counted(t)
    && (forall i: nat :: i < |t| && t[i].kind == Unallocated ==> t[i].nlink == 0)
  }

  // ----- entries that come and go -----

  function WithEntry(t: seq<Node>, d: nat, k: nat, e: Dirent): seq<Node>
    requires d < |t| && k <= |t[d].entries|
  {
    t[d := t[d].(entries := if k < |t[d].entries| then t[d].entries[k := e] else t[d].entries + [e])]
  }

  function WithNlink(t: seq<Node>, i: nat, n: int): seq<Node>
    requires i < |t|
  {
    t[i := t[i].(nlink := n)]
  }

  /** A new entry in a free place of a linked directory is one more link to its inode. */
  lemma LinkAdded(t: seq<Node>, d: nat, k: nat, e: Dirent)
    requires Linked(t, d) && k <= |t[d].entries| && (k < |t[d].entries| ==> t[d].entries[k].inum == 0)
    requires e.inum > 0 && e.name != "."
    ensures (d, k) !in Links(t, e.inum)
    ensures Links(WithEntry(t, d, k, e), e.inum) == Links(t, e.inum) + {(d, k)}
    ensures forall i: nat :: i > 0 && i != e.inum ==> Links(WithEntry(t, d, k, e), i) == Links(t, i)
  {
    var t' := WithEntry(t, d, k, e);
    forall i: nat | i > 0
      ensures Links(t', i) == if i == e.inum then Links(t, i) + {(d, k)} else Links(t, i)
    {
      forall x: nat, m: nat ensures IsLink(t', x, m, i) <==> IsLink(t, x, m, i) || (x == d && m == k && i == e.inum) {}
    }
  }

  /** Clearing an entry of a linked directory takes one link away. */
  lemma LinkRemoved(t: seq<Node>, d: nat, k: nat, i: nat)
    requires IsLink(t, d, k, i) && i > 0
    ensures var t' := WithEntry(t, d, k, Dirent(0, ""));
            && (d, k) in Links(t, i) && Links(t', i) == Links(t, i) - {(d, k)}
            && forall j: nat :: j > 0 && j != i ==> Links(t', j) == Links(t, j)
  {
    var t' := WithEntry(t, d, k, Dirent(0, ""));
    forall j: nat | j > 0
      ensures Links(t', j) == if j == i then Links(t, j) - {(d, k)} else Links(t, j)
    {
      forall x: nat, m: nat ensures IsLink(t', x, m, j) <==> IsLink(t, x, m, j) && !(x == d && m == k) {}
    }
  }

  /** A count that stays positive, or belongs to no directory, changes nobody's links. */
  lemma NlinkKeepsLinks(t: seq<Node>, i: nat, n: int)
    requires i < |t| && (t[i].kind == Directory ==> (t[i].nlink > 0 <==> n > 0))
    ensures forall d: nat :: Linked(WithNlink(t, i, n), d) <==> Linked(t, d)
    ensures forall j: nat :: Links(WithNlink(t, i, n), j) == Links(t, j)
  {
    var t' := WithNlink(t, i, n);
    forall j: nat ensures Links(t', j) == Links(t, j) {
      forall d: nat, k: nat ensures IsLink(t', d, k, j) <==> IsLink(t, d, k, j) {}
    }
  }

  /** A link counts. */
  lemma CountsAtLeastOne(t: seq<Node>, d: nat, k: nat, i: nat)
    requires Tree(t) && IsLink(t, d, k, i) && 0 < i < |t|
    ensures t[i].nlink > 0
  {
    assert (d, k) in Links(t, i);
  }

  // ----- the system calls -----

  /** A place where dirlink() can put a name that directory d does not have yet. */
  predicate Place(t: seq<Node>, d: nat, k: nat, name: Name) {
    && Linked(t, d) && 2 <= k <= |t[d].entries| && (k < |t[d].entries| ==> t[d].entries[k].inum == 0)
    && name != "." && name != ".."
  }

  /** link(): one more name, and one more in the count, for a file. */
  function LinkedFile(t: seq<Node>, d: nat, k: nat, name: Name, i: nat): seq<Node>
    requires Place(t, d, k, name) && i < |t| && i != d
  {
    WithEntry(WithNlink(t, i, t[i].nlink + 1), d, k, Dirent(i, name))
  }

  lemma LinkKeepsTree(t: seq<Node>, d: nat, k: nat, name: Name, i: nat)
    requires Tree(t) && Place(t, d, k, name) && 0 < i < |t| && (t[i].kind == File || t[i].kind == Device)
    ensures Tree(LinkedFile(t, d, k, name, i))
  {
    hide Links, DirOk, NamedOnce;
    var t1 := WithNlink(t, i, t[i].nlink + 1);
    NlinkKeepsLinks(t, i, t[i].nlink + 1);
    LinkAdded(t1, d, k, Dirent(i, name));
    var t' := LinkedFile(t, d, k, name, i);
    forall x: nat | Linked(t', x) ensures DirOk(t', x) { FileNamedKeepsDir(t, t', d, k, name, i, x); }
    forall c: nat, x: nat, m: nat | c > 0 && IsLink(t', x, m, c) ensures IsLink(t, x, m, c) || c == i {}
    OnlyFileNamed(t, t', d, k, i);
  }

  /** A new name for a file leaves every directory well formed. */
  lemma FileNamedKeepsDir(t: seq<Node>, t': seq<Node>, d: nat, k: nat, name: Name, i: nat, x: nat)
    requires Place(t, d, k, name) && 0 < i < |t| == |t'| && i != d && i != ROOT && t'[i].kind != Unallocated && t'[i].kind != Directory
    requires t' == t[i := t'[i]][d := t'[d]] && t[i].kind != Directory
    requires t'[d] == t[d].(entries := if k < |t[d].entries| then t[d].entries[k := Dirent(i, name)] else t[d].entries + [Dirent(i, name)])
    requires Linked(t', x) && Linked(t, x) && DirOk(t, x) && x > 0
    ensures DirOk(t', x)
  {
    StillNamed(t, t', x);
    forall m | 2 <= m < |t'[x].entries| && t'[x].entries[m].inum != 0 ensures EntryOk(t', x, m) {
      assert !(x == d && m == k) ==> EntryOk(t, x, m);
    }
  }

  /** A directory that its parent names in t is named in t', if no entry for a directory is lost. */
  lemma StillNamed(t: seq<Node>, t': seq<Node>, x: nat)
    requires Linked(t, x) && DirOk(t, x) && Linked(t', x) && |t'[x].entries| >= 2
    requires x < |t| && t'[x].entries[1] == t[x].entries[1]
    requires forall p: nat, m: nat :: IsLink(t, p, m, x) ==> IsLink(t', p, m, x)
    ensures x != ROOT ==> exists m: nat :: m >= 2 && IsLink(t', t'[x].entries[1].inum, m, x)
  {
    if x != ROOT {
      var m: nat :| m >= 2 && IsLink(t, t[x].entries[1].inum, m, x);
      assert IsLink(t', t'[x].entries[1].inum, m, x);
    }
  }

  lemma OnlyFileNamed(t: seq<Node>, t': seq<Node>, d: nat, k: nat, i: nat)
    requires NamedOnce(t) && |t'| == |t| && i < |t| && t'[i].kind != Directory
    requires forall c: nat :: c < |t| && t'[c].kind == Directory ==> t[c].kind == Directory
    requires forall c: nat, x: nat, m: nat :: c > 0 && IsLink(t', x, m, c) ==> IsLink(t, x, m, c) || c == i
    requires t'[0].kind != Directory
    ensures NamedOnce(t')
  {
  }

  /** unlink() of a file. */
  function UnlinkedFile(t: seq<Node>, d: nat, k: nat, i: nat): seq<Node>
    requires d < |t| && k < |t[d].entries| && i < |t| && i != d
  {
    WithNlink(WithEntry(t, d, k, Dirent(0, "")), i, t[i].nlink - 1)
  }

  lemma UnlinkFileKeepsTree(t: seq<Node>, d: nat, k: nat, i: nat)
    requires Tree(t) && IsLink(t, d, k, i) && k >= 2 && 0 < i < |t| && t[i].kind != Directory
    ensures t[i].nlink > 0 && t[i].kind != Unallocated && Tree(UnlinkedFile(t, d, k, i))
  {
    hide Links, DirOk, NamedOnce;
    EntryFacts(t, d, k, i);
    LinkRemoved(t, d, k, i);
    var t1 := WithEntry(t, d, k, Dirent(0, ""));
    NlinkKeepsLinks(t1, i, t[i].nlink - 1);
    var t' := UnlinkedFile(t, d, k, i);
    forall x: nat | Linked(t', x) ensures DirOk(t', x) { FileUnnamedKeepsDir(t, t', d, k, i, x); }
    forall c: nat, x: nat, m: nat | c > 0 && IsLink(t', x, m, c) ensures IsLink(t, x, m, c) || c == i {}
    OnlyFileNamed(t, t', d, k, i);
  }

  lemma FileUnnamedKeepsDir(t: seq<Node>, t': seq<Node>, d: nat, k: nat, i: nat, x: nat)
    requires IsLink(t, d, k, i) && k >= 2 && 0 < i < |t| == |t'| && t[i].kind != Directory && t'[i].kind == t[i].kind
    requires t' == t[i := t'[i]][d := t'[d]] && t'[d] == t[d].(entries := t[d].entries[k := Dirent(0, "")])
    requires Linked(t', x) && Linked(t, x) && DirOk(t, x) && x > 0
    ensures DirOk(t', x)
  {
    StillNamed(t, t', x);
    forall m | 2 <= m < |t'[x].entries| && t'[x].entries[m].inum != 0 ensures EntryOk(t', x, m) {
      assert !(x == d && m == k) ==> EntryOk(t, x, m);
    }
  }

  /** unlink() of an empty directory: its ".." no longer counts for the parent. */
  function UnlinkedDir(t: seq<Node>, d: nat, k: nat, i: nat): seq<Node>
    requires d < |t| && k < |t[d].entries| && i < |t| && i != d
  {
    WithNlink(WithNlink(WithEntry(t, d, k, Dirent(0, "")), d, t[d].nlink - 1), i, t[i].nlink - 1)
  }

  /** isdirempty(): nothing but the dots. */
  predicate Empty(t: seq<Node>, i: nat)
    requires i < |t|
  {
    forall m :: 2 <= m < |t[i].entries| ==> t[i].entries[m].inum == 0
  }

  /** An entry that is not one of the dots. */
  lemma EntryFacts(t: seq<Node>, d: nat, k: nat, i: nat)
    requires Tree(t) && IsLink(t, d, k, i) && k >= 2 && 0 < i < |t|
    ensures t[i].nlink > 0 && t[i].kind != Unallocated && i != ROOT && EntryOk(t, d, k)
  {
    CountsAtLeastOne(t, d, k, i);
    assert DirOk(t, d);
  }

  /** What names an empty directory is not a ".." . */
  lemma NoDotDotOfEmpty(t: seq<Node>, i: nat, x: nat, m: nat)
    requires i < |t| && Empty(t, i) && i != ROOT && Linked(t, x) && DirOk(t, x) && x > 0
    ensures m < 2 ==> !IsLink(t, x, m, i)
  {
  }

  /** An empty directory has one link only: its name in its parent. */
  lemma EmptyHasOneLink(t: seq<Node>, d: nat, k: nat, i: nat)
    requires Tree(t) && IsLink(t, d, k, i) && k >= 2 && 0 < i < |t| && t[i].kind == Directory && Empty(t, i)
    ensures Links(t, i) == {(d, k)} && t[i].nlink == 1 && i != ROOT && i != d && Linked(t, i)
    ensures |t[i].entries| >= 2 && t[i].entries[0] == Dirent(i, ".") && t[i].entries[1] == Dirent(d, "..")
  {
    hide Counted, Links, DirOk;
    EntryFacts(t, d, k, i);
    DotsOf(t, i);
    forall x: nat, m: nat | IsLink(t, x, m, i) ensures x == d && m == k {
      NoDotDotOfEmpty(t, i, x, m);
    }
    OneLink(t, d, k, i);
  }

  lemma DotsOf(t: seq<Node>, d: nat)
    requires Linked(t, d) && DirOk(t, d)
    ensures |t[d].entries| >= 2 && t[d].entries[0] == Dirent(d, ".") && t[d].entries[1].name == ".."
  {
  }

  lemma OneLink(t: seq<Node>, d: nat, k: nat, i: nat)
    requires Counted(t) && IsLink(t, d, k, i) && 0 < i < |t| && forall x: nat, m: nat :: IsLink(t, x, m, i) ==> x == d && m == k
    ensures Links(t, i) == {(d, k)} && t[i].nlink == 1
  {
    assert (d, k) in Links(t, i);
    forall p | p in Links(t, i) ensures p == (d, k) { assert IsLink(t, p.0, p.1, i); }
    assert Links(t, i) == {(d, k)};
  }

  /** The parent of an empty directory counts its "..", and something else besides. */
  lemma ParentCountsTwo(t: seq<Node>, d: nat, k: nat, i: nat)
    requires Tree(t) && IsLink(t, d, k, i) && k >= 2 && 0 < i < |t| && t[i].kind == Directory && Empty(t, i)
    ensures d > 0 && t[d].nlink >= 2 && IsLink(t, i, 1, d)
  {
    EmptyHasOneLink(t, d, k, i);
    assert DirOk(t, d);
    assert IsLink(t, i, 1, d) && (i, 1) in Links(t, d);
    var p: nat, m: nat :| (p, m) != (i, 1) && IsLink(t, p, m, d) by { OtherLink(t, d, i); }
    assert (p, m) in Links(t, d);
    AtLeastTwo(Links(t, d), (i, 1), (p, m));
  }

  lemma OtherLink(t: seq<Node>, d: nat, i: nat)
    requires Linked(t, d) && DirOk(t, d) && i != ROOT
    ensures exists p: nat, m: nat :: (p, m) != (i, 1) && IsLink(t, p, m, d)
  {
    if d == ROOT {
      assert IsLink(t, ROOT, 1, d);
    } else {
      var m: nat :| m >= 2 && IsLink(t, t[d].entries[1].inum, m, d);
    }
  }

  lemma AtLeastTwo<T>(s: set<T>, x: T, y: T)
    requires x in s && y in s && x != y
    ensures |s| >= 2
  {
    assert |s - {x}| == |s| - 1 && y in s - {x};
  }

  /** An empty directory whose count drops to 0 takes its ".." along. */
  lemma Detached(t: seq<Node>, i: nat, d: nat)
    requires Linked(t, i) && |t[i].entries| >= 2 && t[i].entries[0].name == "." && t[i].entries[1] == Dirent(d, "..") && Empty(t, i) && d > 0
    ensures forall x: nat :: Linked(WithNlink(t, i, 0), x) <==> Linked(t, x) && x != i
    ensures (i, 1) in Links(t, d) && Links(WithNlink(t, i, 0), d) == Links(t, d) - {(i, 1)}
    ensures forall j: nat :: j > 0 && j != d ==> Links(WithNlink(t, i, 0), j) == Links(t, j)
  {
    var t' := WithNlink(t, i, 0);
    assert IsLink(t, i, 1, d);
    forall j: nat | j > 0 ensures Links(t', j) == if j == d then Links(t, j) - {(i, 1)} else Links(t, j) {
      forall x: nat, m: nat ensures IsLink(t', x, m, j) <==> IsLink(t, x, m, j) && !(x == i && m == 1 && j == d) {}
    }
  }

  lemma UnlinkDirKeepsTree(t: seq<Node>, d: nat, k: nat, i: nat)
    requires Tree(t) && IsLink(t, d, k, i) && k >= 2 && 0 < i < |t| && t[i].kind == Directory && Empty(t, i)
    ensures i != d && Tree(UnlinkedDir(t, d, k, i))
  {
    hide Links, DirOk, NamedOnce;
    EmptyHasOneLink(t, d, k, i);
    ParentCountsTwo(t, d, k, i);
    var t' := UnlinkedDir(t, d, k, i);
    var t1 := WithEntry(t, d, k, Dirent(0, ""));
    var t2 := WithNlink(t1, d, t[d].nlink - 1);
    LinkRemoved(t, d, k, i);
    NlinkKeepsLinks(t1, d, t[d].nlink - 1);
    Detached(t2, i, d);
    assert Counted(t');
    forall x: nat | Linked(t', x) ensures DirOk(t', x) {
      assert DirOk(t, x);
      NotAmongOthers(t, d, k, i, x);
      DirRemovedKeepsDir(t, t', d, k, i, x);
    }
    forall c: nat, x: nat, m: nat | c > 0 && IsLink(t', x, m, c) ensures IsLink(t, x, m, c) {}
    LinksLost(t, t');
  }

  lemma LinksLost(t: seq<Node>, t': seq<Node>)
    requires NamedOnce(t) && |t'| == |t| > 0 && t'[0].kind != Directory
    requires forall c: nat :: c < |t| && t'[c].kind == Directory ==> t[c].kind == Directory
    requires forall c: nat, x: nat, m: nat :: c > 0 && IsLink(t', x, m, c) ==> IsLink(t, x, m, c)
    ensures NamedOnce(t')
  {
  }

  /** No other directory has i as parent or as an entry. */
  lemma NotAmongOthers(t: seq<Node>, d: nat, k: nat, i: nat, x: nat)
    requires Linked(t, x) && DirOk(t, x) && x > 0 && 0 < i < |t| && i != ROOT && Empty(t, i)
    requires Links(t, i) == {(d, k)} && k >= 2
    ensures |t[x].entries| >= 2 && t[x].entries[1].inum != i
    ensures forall m :: 2 <= m < |t[x].entries| && t[x].entries[m].inum == i ==> x == d && m == k
  {
    hide Links;
    NoDotDotOfEmpty(t, i, x, 1);
    assert !IsLink(t, x, 1, i);
    forall m | 2 <= m < |t[x].entries| && t[x].entries[m].inum == i ensures x == d && m == k {
      assert EntryOk(t, x, m);
      assert IsLink(t, x, m, i);
      assert (x, m) in Links(t, i);
    }
  }

  lemma DirRemovedKeepsDir(t: seq<Node>, t': seq<Node>, d: nat, k: nat, i: nat, x: nat)
    requires IsLink(t, d, k, i) && k >= 2 && 0 < i < |t| == |t'| && i != d && t[i].kind == Directory
    requires t' == t[i := t'[i]][d := t'[d]] && t'[d] == Node(t[d].kind, t'[d].nlink, t[d].entries[k := Dirent(0, "")])
    requires t'[i] == t[i].(nlink := 0) && t'[d].nlink > 0
    requires Linked(t', x) && Linked(t, x) && DirOk(t, x) && x > 0
    requires |t[x].entries| >= 2 && t[x].entries[1].inum != i && forall m :: 2 <= m < |t[x].entries| && t[x].entries[m].inum == i ==> x == d && m == k
    ensures DirOk(t', x)
  {
    if x != ROOT {
      var m: nat :| m >= 2 && IsLink(t, t[x].entries[1].inum, m, x);
      assert IsLink(t', t'[x].entries[1].inum, m, x);
    }
    forall m | 2 <= m < |t'[x].entries| && t'[x].entries[m].inum != 0 ensures EntryOk(t', x, m) {
      assert EntryOk(t, x, m);
    }
  }

  /** A free inode has no links. */
  lemma NoLinksToFree(t: seq<Node>, i: nat)
    requires Tree(t) && 0 < i < |t| && t[i].nlink == 0
    ensures Links(t, i) == {} && forall x: nat, m: nat :: !IsLink(t, x, m, i)
  {
    forall x: nat, m: nat ensures !IsLink(t, x, m, i) {
      assert (x, m) !in Links(t, i);
    }
  }

  /** A node put in the place of one that nothing names, without entries of its own that count. */
  lemma NodeReplaced(t: seq<Node>, i: nat, n: Node)
    requires 0 < i < |t| && !Linked(t, i) && (n.kind == Directory ==> n.nlink <= 0)
    ensures forall x: nat :: Linked(t[i := n], x) <==> Linked(t, x)
    ensures forall j: nat :: Links(t[i := n], j) == Links(t, j)
  {
    var t' := t[i := n];
    forall j: nat ensures Links(t', j) == Links(t, j) {
      forall x: nat, m: nat ensures IsLink(t', x, m, j) <==> IsLink(t, x, m, j) {}
    }
  }

  /** iput() of an inode with no links and no other reference. */
  function FreedNode(t: seq<Node>, i: nat): seq<Node>
    requires i < |t|
  {
    t[i := Node(Unallocated, 0, [])]
  }

  lemma FreeKeepsTree(t: seq<Node>, i: nat)
    requires Tree(t) && 0 < i < |t| && t[i].nlink == 0
    ensures Tree(FreedNode(t, i))
  {
    hide Links, DirOk, NamedOnce;
    NoLinksToFree(t, i);
    NodeReplaced(t, i, Node(Unallocated, 0, []));
    var t' := FreedNode(t, i);
    forall j: nat | 0 < j < |t'| ensures t'[j].nlink == |Links(t', j)| { assert Links(t', j) == Links(t, j); }
    forall x: nat | Linked(t', x) ensures DirOk(t', x) { FreedKeepsDir(t, i, x); }
    LinksLost(t, t');
  }

  lemma FreedKeepsDir(t: seq<Node>, i: nat, x: nat)
    requires 0 < i < |t| && t[i].nlink == 0 && Linked(t, x) && DirOk(t, x) && x > 0 && x != i
    requires forall x: nat, m: nat :: !IsLink(t, x, m, i)
    ensures DirOk(FreedNode(t, i), x)
  {
    var t' := FreedNode(t, i);
    StillNamed(t, t', x);
    forall m | 2 <= m < |t'[x].entries| && t'[x].entries[m].inum != 0 ensures EntryOk(t', x, m) {
      assert EntryOk(t, x, m) && !IsLink(t, x, m, i);
    }
  }

  /** create() of a file or device. */
  function CreatedFile(t: seq<Node>, d: nat, k: nat, name: Name, i: nat, kind: Kind): seq<Node>
    requires d < |t| && k <= |t[d].entries| && i < |t| && i != d
  {
    WithEntry(t[i := Node(kind, 1, [])], d, k, Dirent(i, name))
  }

  lemma CreateFileKeepsTree(t: seq<Node>, d: nat, k: nat, name: Name, i: nat, kind: Kind)
    requires Tree(t) && Place(t, d, k, name) && 0 < i < |t| && t[i].kind == Unallocated && (kind == File || kind == Device)
    ensures Tree(CreatedFile(t, d, k, name, i, kind))
  {
    hide Links, DirOk, NamedOnce;
    NoLinksToFree(t, i);
    var t1 := t[i := Node(kind, 1, [])];
    NodeReplaced(t, i, Node(kind, 1, []));
    LinkAdded(t1, d, k, Dirent(i, name));
    var t' := CreatedFile(t, d, k, name, i, kind);
    forall j: nat | 0 < j < |t'| ensures t'[j].nlink == |Links(t', j)| { assert Links(t1, j) == Links(t, j); }
    forall x: nat | Linked(t', x) ensures DirOk(t', x) { FileNamedKeepsDir(t, t', d, k, name, i, x); }
    forall c: nat, x: nat, m: nat | c > 0 && IsLink(t', x, m, c) ensures IsLink(t, x, m, c) || c == i {}
    OnlyFileNamed(t, t', d, k, i);
  }

  /** create() of a directory. */
  function CreatedDir(t: seq<Node>, d: nat, k: nat, name: Name, i: nat): seq<Node>
    requires d < |t| && k <= |t[d].entries| && i < |t| && i != d
  {
    var t1 := t[i := Node(Directory, 1, [Dirent(i, "."), Dirent(d, "..")])];
    WithEntry(WithNlink(t1, d, t[d].nlink + 1), d, k, Dirent(i, name))
  }

  /** The new directory's "..", which counts once the directory has a link. */
  lemma Attached(t: seq<Node>, i: nat, d: nat)
    requires 0 < i < |t| && t[i].kind == Unallocated && 0 < d < |t| && d != i
    ensures var t' := t[i := Node(Directory, 1, [Dirent(i, "."), Dirent(d, "..")])];
            && (forall x: nat :: Linked(t', x) <==> Linked(t, x) || x == i)
            && (i, 1) !in Links(t, d) && Links(t', d) == Links(t, d) + {(i, 1)}
            && forall j: nat :: j != d ==> Links(t', j) == Links(t, j)
  {
    var t' := t[i := Node(Directory, 1, [Dirent(i, "."), Dirent(d, "..")])];
    forall j: nat ensures Links(t', j) == if j == d then Links(t, j) + {(i, 1)} else Links(t, j) {
      forall x: nat, m: nat ensures IsLink(t', x, m, j) <==> IsLink(t, x, m, j) || (x == i && m == 1 && j == d) {}
    }
  }

  lemma CreateDirKeepsTree(t: seq<Node>, d: nat, k: nat, name: Name, i: nat)
    requires Tree(t) && Place(t, d, k, name) && 0 < i < |t| && t[i].kind == Unallocated
    ensures Tree(CreatedDir(t, d, k, name, i))
  {
    hide Links, DirOk, NamedOnce;
    NoLinksToFree(t, i);
    var t1 := t[i := Node(Directory, 1, [Dirent(i, "."), Dirent(d, "..")])];
    var t2 := WithNlink(t1, d, t[d].nlink + 1);
    Attached(t, i, d);
    NlinkKeepsLinks(t1, d, t[d].nlink + 1);
    LinkAdded(t2, d, k, Dirent(i, name));
    var t' := CreatedDir(t, d, k, name, i);
    assert Counted(t');
    NewDirOk(t, d, k, name, i);
    forall x: nat | Linked(t', x) && x != i ensures DirOk(t', x) { DirAddedKeepsDir(t, d, k, name, i, x); }
    forall c: nat, x: nat, m: nat | c > 0 && IsLink(t', x, m, c) && m >= 2 ensures IsLink(t, x, m, c) || (c == i && x == d && m == k) {}
    OneMoreName(t, t', d, k, i);
  }

  lemma NewDirOk(t: seq<Node>, d: nat, k: nat, name: Name, i: nat)
    requires Place(t, d, k, name) && 0 < i < |t| && i != d && i != ROOT && t[i].kind == Unallocated
    ensures Linked(CreatedDir(t, d, k, name, i), i) && DirOk(CreatedDir(t, d, k, name, i), i)
  {
    var t' := CreatedDir(t, d, k, name, i);
    assert IsLink(t', d, k, i);
  }

  lemma DirAddedKeepsDir(t: seq<Node>, d: nat, k: nat, name: Name, i: nat, x: nat)
    requires Place(t, d, k, name) && 0 < i < |t| && i != d && i != ROOT && t[i].kind == Unallocated && x != i && x > 0
    requires Linked(t, x) && DirOk(t, x) && Linked(CreatedDir(t, d, k, name, i), x)
    ensures DirOk(CreatedDir(t, d, k, name, i), x)
  {
    var t' := CreatedDir(t, d, k, name, i);
    StillNamed(t, t', x);
    forall m | 2 <= m < |t'[x].entries| && t'[x].entries[m].inum != 0 ensures EntryOk(t', x, m) {
      assert !(x == d && m == k) ==> EntryOk(t, x, m);
    }
  }

  lemma OneMoreName(t: seq<Node>, t': seq<Node>, d: nat, k: nat, i: nat)
    requires NamedOnce(t) && |t'| == |t| > 0 && t'[0].kind != Directory && i < |t|
    requires forall c: nat :: c < |t| && c != i && t'[c].kind == Directory ==> t[c].kind == Directory
    requires forall c: nat, x: nat, m: nat :: c > 0 && IsLink(t', x, m, c) && m >= 2 ==> IsLink(t, x, m, c) || (c == i && x == d && m == k)
    requires forall x: nat, m: nat :: !IsLink(t, x, m, i)
    ensures NamedOnce(t')
  {
  }
}
