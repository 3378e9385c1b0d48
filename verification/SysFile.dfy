/** The system calls on directories: create, link and unlink, from the path names on, step by step
    with their rollbacks, and the reference counts of the inode cache. Each call is taken as one
    step. */
module SysFile {
  import opened Common
  import opened LinkCount
  import opened Path

  /** A cache entry that is referred to stays valid, or not. */
  predicate Kept(ref: seq<nat>, valid: seq<bool>, valid': seq<bool>) {
    |valid'| == |valid| == |ref| && forall j :: 0 <= j < |ref| && ref[j] > 0 ==> valid'[j] == valid[j]
  }

  class SysFile {
    var inodes: seq<Node>
    var ref: seq<nat>        // references to each inode in the cache
    var valid: seq<bool>     // the cache entry has been read by ilock

    ghost predicate Shape()
      reads this
    {
      |ref| == |valid| == |inodes|
    }

    ghost predicate Valid()
      reads this
    {
      Shape() && Tree(inodes)
    }

    /** An empty file system: the root directory, its own parent. */
    constructor (n: nat)
      requires n > ROOT
      ensures Valid() && |inodes| == n && ref == seq(n, _ => 0)
    {
      inodes := seq(n, _ => Node(Unallocated, 0, []))[ROOT := Node(Directory, 1, [Dirent(ROOT, "."), Dirent(ROOT, "..")])];
      ref, valid := seq(n, _ => 0), seq(n, _ => false);
      new;
      RootOnly(inodes);
    }

    // ----- references -----

    method Iget(i: nat)
      requires Shape() && i < |inodes|
      modifies this`ref, this`valid
      ensures Shape() && ref == old(ref)[i := old(ref)[i] + 1]
      ensures valid == if old(ref)[i] == 0 then old(valid)[i := false] else old(valid)
    {
      if ref[i] == 0 { valid := valid[i := false]; }
      ref := ref[i := ref[i] + 1];
    }

    method Ilock(i: nat)
      requires Shape() && i < |inodes| && ref[i] > 0 && inodes[i].kind != Unallocated
      modifies this`valid
      ensures Shape() && valid == old(valid)[i := true]
    {
      valid := valid[i := true];
    }

    /** iput(): the inode and its content are freed exactly when it has no links, this was the
        last reference, and the cache entry had been read. */
    method Iput(i: nat) returns (ghost freed: bool)
      requires Shape() && i < |inodes| && ref[i] > 0
      modifies this
      ensures Shape() && ref == old(ref)[i := old(ref)[i] - 1]
      ensures freed <==> old(valid)[i] && old(inodes)[i].nlink == 0 && old(ref)[i] == 1
      ensures inodes == if freed then FreedNode(old(inodes), i) else old(inodes)
      ensures freed ==> inodes[i] == Node(Unallocated, 0, [])
      ensures valid == if freed then old(valid)[i := false] else old(valid)
    {
      freed := false;
      if valid[i] && inodes[i].nlink == 0 {
        if ref[i] == 1 {
          inodes := inodes[i := Node(Unallocated, 0, [])];
          valid := valid[i := false];
          freed := true;
        }
      }
      ref := ref[i := ref[i] - 1];
    }

    // ----- directories -----

    /** dirlookup(): the first entry with this name, and a reference to its inode. */
    method Dirlookup(d: nat, name: Name) returns (r: Option<nat>, place: nat)
      requires Shape() && Lively(inodes, d)
      modifies this`ref, this`valid
      ensures Shape()
      ensures r == None ==> ref == old(ref) && valid == old(valid) && Lacks(inodes, d, name)
      ensures r.Some? ==>
                && place < |inodes[d].entries| && FirstNamed(inodes, d, name, place) && inodes[d].entries[place].inum == r.value
                && r.value < |inodes| && ref == old(ref)[r.value := old(ref)[r.value] + 1]
                && Kept(old(ref), old(valid), valid)
    {
      place := 0;
      while place < |inodes[d].entries|
        invariant place <= |inodes[d].entries|
        invariant forall k :: 0 <= k < place ==> inodes[d].entries[k].inum == 0 || inodes[d].entries[k].name != name
      {
        var de := inodes[d].entries[place];
        if de.inum != 0 && de.name == name {
          Iget(de.inum);
          return Some(de.inum), place;
        }
        place := place + 1;
      }
      r := None;
    }

    /** dirlink(): refused if the name is there already, else put in the first free place. */
    method Dirlink(d: nat, name: Name, i: nat) returns (ok: bool, ghost k: nat)
      requires Shape() && Lively(inodes, d)
      modifies this
      ensures Shape() && ref == old(ref)
      ensures Kept(old(ref), old(valid), valid)
      ensures ok <==> Lacks(old(inodes), d, name)
      ensures !ok ==> inodes == old(inodes)
      ensures ok ==>
                && k <= |old(inodes)[d].entries| && FreePlace(old(inodes), d, k)
                && inodes == WithEntry(old(inodes), d, k, Dirent(i, name))
    {
      var ip, place := Dirlookup(d, name);
      if ip.Some? {
        assert !Lacks(inodes, d, name);
        ghost var freed := Iput(ip.value);
        assert ref == old(ref);
        return false, 0;
      }
      var off := 0;
      while off < |inodes[d].entries|
        invariant off <= |inodes[d].entries|
        invariant forall m :: 0 <= m < off ==> inodes[d].entries[m].inum != 0
      {
        if inodes[d].entries[off].inum == 0 { break; }
        off := off + 1;
      }
      k := off;
      var e := inodes[d].entries;
      inodes := inodes[d := inodes[d].(entries := if off < |e| then e[off := Dirent(i, name)] else e + [Dirent(i, name)])];
      ok := true;
    }

    /** isdirempty() */
    method Isdirempty(d: nat) returns (empty: bool)
      requires d < |inodes|
      ensures empty <==> Empty(inodes, d)
    {
      var k := 2;
      while k < |inodes[d].entries|
        invariant k >= 2 && forall m :: 2 <= m < k && m < |inodes[d].entries| ==> inodes[d].entries[m].inum == 0
      {
        if inodes[d].entries[k].inum != 0 { return false; }
        k := k + 1;
      }
      empty := true;
    }

    /** ialloc() with its iget; None is its panic. */
    method Ialloc(kind: Kind) returns (r: Option<nat>)
      requires Shape() && kind != Unallocated
      modifies this
      ensures Shape()
      ensures r == None ==> inodes == old(inodes) && ref == old(ref) && valid == old(valid) && forall i :: 1 <= i < |inodes| ==> inodes[i].kind != Unallocated
      ensures r.Some? ==>
                && 0 < r.value < |old(inodes)| && old(inodes)[r.value].kind == Unallocated
                && (forall i :: 1 <= i < r.value ==> old(inodes)[i].kind != Unallocated)
                && inodes == old(inodes)[r.value := Node(kind, 0, [])] && ref == old(ref)[r.value := old(ref)[r.value] + 1]
                && Kept(old(ref), old(valid), valid)
    {
      var inum := 1;
      while inum < |inodes|
        invariant 1 <= inum
        invariant forall i :: 1 <= i < inum && i < |inodes| ==> inodes[i].kind != Unallocated
      {
        if inodes[inum].kind == Unallocated {
          inodes := inodes[inum := Node(kind, 0, [])];
          Iget(inum);
          return Some(inum);
        }
        inum := inum + 1;
      }
      r := None;
    }

    // ----- path names -----

    /** One turn of namex()'s loop in directory ip: its reference goes to the inode of the name. */
    method Follow(ip: nat, e: Name) returns (next: Option<nat>)
      requires Shape() && Walkable(inodes) && Linked(inodes, ip) && ref[ip] > 0
      modifies this
      ensures Shape() && inodes == old(inodes) && next == Lookup(inodes, ip, e)
      ensures next == None ==> ref == Less(old(ref), ip)
      ensures next.Some? ==> Reached(inodes, next.value) && ref == Less(More(old(ref), next.value), ip)
    {
      WalkableIsLively(inodes, ip);
      hide Walkable;
      var place;
      next, place := Dirlookup(ip, e);
      FoundAt(inodes, ip, e, 0, if next == None then |inodes[ip].entries| else place);
      if next.Some? { EntryReached(inodes, ip, place); }
      var _ := Iput(ip);
    }

    /** namex(): the inode that the path leads to from the root or the working directory cwd, or
        the directory of its last element. It takes one reference to the result and leaves every
        other count as it was; no inode is freed on the way. Counts of files may be in the middle of
        a change. */
    method Namex(path: string, wantParent: bool, cwd: nat, name: array<char>) returns (r: Option<nat>)
      requires Shape() && Walkable(inodes) && IsPath(path) && Linked(inodes, cwd) && ref[cwd] > 0 && name.Length == DIRSIZ
      modifies this, name
      ensures Shape() && inodes == old(inodes)
      ensures r.Some? ==> Reached(inodes, r.value) && (wantParent ==> Linked(inodes, r.value))
      ensures ref == if r.Some? then More(old(ref), r.value) else old(ref)
      ensures var start := if path != "" && path[0] == '/' then 1 else cwd;
        if wantParent then
          match WalkToParent(inodes, start, Elements(path))
          case None => r == None
          case Some((d, e)) => r == Some(d) && NameIn(name[..]) == e
        else r == Walk(inodes, start, Elements(path))
    {
      hide Walkable, Elements, FirstElement, Lookup, NameIn, Walk, WalkToParent;
      var start: nat := if path != "" && path[0] == '/' then ROOT else cwd;
      RootReached(inodes);
      Iget(start);
      var ip: nat, p := start, path;
      while true
        invariant Shape() && inodes == old(inodes) && IsPath(p) && Reached(inodes, ip) && ref == More(old(ref), ip)
        invariant Walk(inodes, start, Elements(path)) == Walk(inodes, ip, Elements(p))
        invariant wantParent ==> WalkToParent(inodes, start, Elements(path)) == WalkToParent(inodes, ip, Elements(p))
        decreases |p|
      {
        ElementsFrom(p);
        RestOfPath(p);
        var next := Skipelem(p, name);
        NoElement(inodes, ip);
        if next == None { break; }
        LastElement(p);
        OneElement(inodes, ip, NameIn(name[..]), Elements(next.value));
        p := next.value;
        Ilock(ip);
        if inodes[ip].kind != Directory {
          var _ := Iput(ip);
          return None;
        }
        if wantParent && p == "" { return Some(ip); }
        var inum := Follow(ip, NameIn(name[..]));
        if inum == None { return None; }
        Passed(old(ref), ip, inum.value);
        ip := inum.value;
      }
      if wantParent {
        var _ := Iput(ip);
        return None;
      }
      r := Some(ip);
    }

    // ----- the calls -----

    /** create(): in the directory that the path leads to, a new inode under the last element, or
        the file that has the name already if a file is asked for. None is failure. The result is
        referred to. full is ialloc's panic. */
    method Create(path: string, kind: Kind, cwd: nat) returns (r: Option<nat>, ghost full: bool, ghost k: nat)
      requires Valid() && IsPath(path) && Linked(inodes, cwd) && ref[cwd] > 0 && kind != Unallocated
      modifies this
      ensures full ==> forall i :: 1 <= i < |old(inodes)| ==> old(inodes)[i].kind != Unallocated
      ensures !full ==> Valid()
      ensures !full && r.Some? ==> r.value < |old(ref)| && ref == More(old(ref), r.value)
      ensures !full && r == None ==> ref == old(ref) && inodes == old(inodes)
      ensures !full ==>
                match WalkToParent(old(inodes), Start(path, cwd), Elements(path))
                case None => r == None
                case Some((dp, name)) =>
                  && dp < |old(inodes)|
                  && if Lacks(old(inodes), dp, name) then r.Some? && Creates(old(inodes), inodes, dp, k, name, r.value, kind)
                     else inodes == old(inodes) && k < |inodes[dp].entries| && FirstNamed(inodes, dp, name, k)
                          && inodes[dp].entries[k].inum < |inodes|
                          && var ip := inodes[dp].entries[k].inum; r == if kind == File && inodes[ip].kind == File then Some(ip) else None
    {
      hide Tree, Walkable, Elements, Walk, WalkToParent, NameIn, Lacks, Creates, FirstNamed;
      full, k := false, 0;
      TreeWalkable(inodes);
      var buf := new char[DIRSIZ];
      var dp := Namex(path, true, cwd, buf);
      if dp == None { return None, false, 0; }
      r, full, k := CreateIn(dp.value, NameIn(buf[..]), kind);
      if r.Some? && !full { Returned(old(ref), dp.value, r.value); }
    }

    /** create() from the parent directory dp on, whose reference it gives up. */
    method CreateIn(dp: nat, name: Name, kind: Kind) returns (r: Option<nat>, ghost full: bool, ghost k: nat)
      requires Valid() && Linked(inodes, dp) && ref[dp] > 0 && kind != Unallocated
      modifies this
      ensures full ==> forall i :: 1 <= i < |old(inodes)| ==> old(inodes)[i].kind != Unallocated
      ensures !full ==> Valid()
      ensures !full && r.Some? ==> r.value < |old(ref)| && ref == Less(More(old(ref), r.value), dp)
      ensures !full && r == None ==> ref == Less(old(ref), dp)
      ensures !full && !Lacks(old(inodes), dp, name) ==>
                && inodes == old(inodes) && k < |inodes[dp].entries| && FirstNamed(inodes, dp, name, k)
                && inodes[dp].entries[k].inum < |inodes|
                && var ip := inodes[dp].entries[k].inum; r == if kind == File && inodes[ip].kind == File then Some(ip) else None
      ensures !full && Lacks(old(inodes), dp, name) ==> r.Some? && Creates(old(inodes), inodes, dp, k, name, r.value, kind)
    {
      hide Tree;
      full := false;
      LinkedIsLively(inodes, dp);
      var found, place := Dirlookup(dp, name);
      k := place;
      if found.Some? {
        r := CreateExisting(dp, name, kind, found.value, place);
      } else {
        r, full, k := CreateNew(dp, name, kind);
      }
    }

    /** create() where the name is taken by inode ip, which dirlookup has just referred to. */
    method CreateExisting(dp: nat, name: Name, kind: Kind, ip: nat, ghost place: nat) returns (r: Option<nat>)
      requires Valid() && Linked(inodes, dp) && ref[dp] > 0 && ip < |inodes| && ref[ip] > (if ip == dp then 1 else 0)
      requires place < |inodes[dp].entries| && inodes[dp].entries[place] == Dirent(ip, name) && ip != 0
      modifies this
      ensures Valid() && inodes == old(inodes)
      ensures r == if kind == File && inodes[ip].kind == File then Some(ip) else None
      ensures ref == if r.Some? then Less(old(ref), dp) else Less(Less(old(ref), dp), ip)
    {
      hide Tree;
      LinkedIsLively(inodes, dp);
      ghost var freed := Iput(dp);
      Ilock(ip);
      if kind == File && inodes[ip].kind == File { return Some(ip); }
      freed := Iput(ip);
      r := None;
    }

    /** link(): a second path for the file that the first one leads to. It succeeds exactly if there
        is such a file, the second path leads to a directory and its last element is not there; else
        nothing has changed. */
    method Link(path: string, newPath: string, cwd: nat) returns (ok: bool, ghost k: nat)
      requires Valid() && IsPath(path) && IsPath(newPath) && Linked(inodes, cwd) && ref[cwd] > 0
      modifies this
      ensures Valid() && ref == old(ref)
      ensures var (found, parent) := (Walk(old(inodes), Start(path, cwd), Elements(path)),
                                      WalkToParent(old(inodes), Start(newPath, cwd), Elements(newPath)));
        && (found.Some? ==> found.value < |old(inodes)|) && (parent.Some? ==> parent.value.0 < |old(inodes)|)
        && (ok <==> found.Some? && old(inodes)[found.value].kind != Directory && parent.Some?
                    && Lacks(old(inodes), parent.value.0, parent.value.1))
        && (ok ==>
              var (ip, dp, name) := (found.value, parent.value.0, parent.value.1);
              && 0 < ip && ip != dp && Place(old(inodes), dp, k, name) && FreePlace(old(inodes), dp, k)
              && inodes == LinkedFile(old(inodes), dp, k, name, ip))
      ensures !ok ==> inodes == old(inodes)
    {
      hide Tree, Walkable, Elements, Walk, WalkToParent, NameIn, Lacks, Place, FreePlace, LinkedFile;
      k, ok := 0, false;
      TreeWalkable(inodes);
      WalksInside(inodes, Start(newPath, cwd), Elements(newPath));
      var buf := new char[DIRSIZ];
      var ip := Namex(path, false, cwd, buf);
      if ip == None { return; }
      ReachedNotZero(inodes, ip.value);
      ok, k := LinkTo(ip.value, newPath, cwd);
      assert Less(More(old(ref), ip.value), ip.value) == old(ref);
    }

    /** link() from inode ip on, whose reference it gives up. While it walks the new path the file
        counts one link more than it has. */
    method LinkTo(ip: nat, newPath: string, cwd: nat) returns (ok: bool, ghost k: nat)
      requires Valid() && IsPath(newPath) && Linked(inodes, cwd) && ref[cwd] > 0 && Reached(inodes, ip) && 0 < ip && ref[ip] > 0
      modifies this
      ensures Valid() && ref == Less(old(ref), ip)
      ensures var parent := WalkToParent(old(inodes), Start(newPath, cwd), Elements(newPath));
        && (parent.Some? ==> parent.value.0 < |old(inodes)|)
        && (ok <==> old(inodes)[ip].kind != Directory && parent.Some? && Lacks(old(inodes), parent.value.0, parent.value.1))
        && (ok ==>
              var (dp, name) := parent.value;
              && ip != dp && Place(old(inodes), dp, k, name) && FreePlace(old(inodes), dp, k)
              && inodes == LinkedFile(old(inodes), dp, k, name, ip))
      ensures !ok ==> inodes == old(inodes)
    {
      hide Tree, Walkable, Elements, Walk, WalkToParent, NameIn, Place, FreePlace, Lively, LinkedFile, WithEntry, Lacks, Kept;
      k, ok := 0, false;
      ghost var t, freed := inodes, false;
      WalksInside(t, Start(newPath, cwd), Elements(newPath));
      Ilock(ip);
      if inodes[ip].kind == Directory {
        freed := Iput(ip);
        return;
      }
      inodes := inodes[ip := inodes[ip].(nlink := inodes[ip].nlink + 1)];
      CountedWalks(t, ip, Start(newPath, cwd), Elements(newPath));
      var buf := new char[DIRSIZ];
      var parent := Namex(newPath, true, cwd, buf);
      if parent.Some? {
        var dp, name := parent.value, NameIn(buf[..]);
        CountedUp(t, ip, dp, name);
        ok, k := Dirlink(dp, name, ip);
        if ok { LinksTree(t, dp, k, name, ip); }
        freed := Iput(dp);
        assert Less(More(old(ref), dp), dp) == old(ref);
        if ok {
          freed := Iput(ip);
          return;
        }
      }
      CountBack(ip, t);
    }

    /** The bad: label of link(): the file in t counts its links again. */
    method CountBack(ip: nat, ghost t: seq<Node>)
      requires Shape() && ip < |t| && inodes == t[ip := t[ip].(nlink := t[ip].nlink + 1)] && Tree(t)
      requires Reached(t, ip) && ref[ip] > 0
      modifies this
      ensures Valid() && inodes == t && ref == Less(old(ref), ip)
    {
      hide Tree;
      Ilock(ip);
      inodes := inodes[ip := inodes[ip].(nlink := inodes[ip].nlink - 1)];
      assert inodes == t;
      ghost var freed := Iput(ip);
    }

    /** unlink(): the last element of the path goes from the directory that the path leads to, unless
        it is a dot or a directory that is not empty. The inode that loses the name is freed if that
        was its last link and nobody refers to it. */
    method Unlink(path: string, cwd: nat) returns (ok: bool, ghost k: nat, ghost ip: nat, ghost freed: bool)
      requires Valid() && IsPath(path) && Linked(inodes, cwd) && ref[cwd] > 0
      modifies this
      ensures Valid() && ref == old(ref)
      ensures match WalkToParent(old(inodes), Start(path, cwd), Elements(path))
        case None => !ok
        case Some((dp, name)) => dp < |old(inodes)| && (ok ==> Unlinked(old(inodes), old(ref), inodes, dp, name, k, ip, freed))
                                 && (!ok ==> MayStay(old(inodes), dp, name, k, ip))
      ensures !ok ==> inodes == old(inodes)
    {
      hide Tree, Walkable, Elements, Walk, WalkToParent, NameIn, Unlinked, MayStay;
      TreeWalkable(inodes);
      var buf := new char[DIRSIZ];
      var dp := Namex(path, true, cwd, buf);
      k, ip, freed, ok := 0, 0, false, false;
      if dp == None { return; }
      ghost var more := ref;
      ok, k, ip, freed := UnlinkIn(dp.value, NameIn(buf[..]));
      assert Less(More(old(ref), dp.value), dp.value) == old(ref);
      if ok { SameRefs(old(inodes), old(ref), more, inodes, dp.value, NameIn(buf[..]), k, ip, freed); }
    }

    /** unlink() from the parent directory dp on, whose reference it gives up. */
    method UnlinkIn(dp: nat, name: Name) returns (ok: bool, ghost k: nat, ghost ip: nat, ghost freed: bool)
      requires Valid() && Linked(inodes, dp) && ref[dp] > 0
      modifies this
      ensures Valid() && ref == Less(old(ref), dp)
      ensures ok ==> Unlinked(old(inodes), old(ref), inodes, dp, name, k, ip, freed)
      ensures !ok ==> inodes == old(inodes) && MayStay(inodes, dp, name, k, ip)
    {
      hide Tree, Lively, Lacks, UnlinkedDir, UnlinkedFile, WithEntry, Empty, Kept, FreedNode;
      k, ip, freed, ok := 0, 0, false, false;
      ghost var t, gone := inodes, false;
      LinkedIsLively(t, dp);
      if name == "." || name == ".." {
        gone := Iput(dp);
        return;
      }
      var found, place := Dirlookup(dp, name);
      if found == None {
        gone := Iput(dp);
        return;
      }
      k, ip := place, found.value;
      EntryToUnlink(t, dp, name, place);
      ok, freed := UnlinkEntry(dp, place, found.value);
      assert Less(More(old(ref), ip), ip) == old(ref);
    }

    /** unlink() of entry k of dp, which names ip, for which dirlookup has taken a reference. */
    method UnlinkEntry(dp: nat, k: nat, ip: nat) returns (ok: bool, ghost freed: bool)
      requires Valid() && IsLink(inodes, dp, k, ip) && k >= 2 && 0 < ip < |inodes| && ref[dp] > (if ip == dp then 1 else 0) && ref[ip] > 0
      requires inodes[ip].nlink > 0 && inodes[ip].kind != Unallocated && (ip == dp ==> !Empty(inodes, ip)) && inodes[dp].nlink > 0
      modifies this
      ensures Valid() && ref == Less(Less(old(ref), ip), dp)
      ensures ok <==> (old(inodes)[ip].kind == Directory ==> Empty(old(inodes), ip))
      ensures !ok ==> inodes == old(inodes)
      ensures ok ==> ip != dp
      ensures ok ==>
                var t := if old(inodes)[ip].kind == Directory then UnlinkedDir(old(inodes), dp, k, ip) else UnlinkedFile(old(inodes), dp, k, ip);
                inodes == (if freed then FreedNode(t, ip) else t) && (freed <==> t[ip].nlink == 0 && old(ref)[ip] == 1)
    {
      hide Tree, UnlinkedDir, UnlinkedFile, Empty, FreedNode;
      Ilock(ip);
      freed, ok := false, true;
      if inodes[ip].kind == Directory { ok := Isdirempty(ip); }
      if ok {
        freed := TakeName(dp, k, ip);
      } else {
        LetGo(ip, dp);
      }
    }

    /** The two references that unlink() gives up when it refuses. */
    method LetGo(ip: nat, dp: nat)
      requires Valid() && ip < |inodes| && dp < |inodes| && inodes[ip].nlink > 0 && inodes[dp].nlink > 0
      requires ref[ip] > 0 && ref[dp] > (if ip == dp then 1 else 0)
      modifies this
      ensures Valid() && inodes == old(inodes) && ref == Less(Less(old(ref), ip), dp)
    {
      hide Tree, FreedNode;
      var _ := Iput(ip);
      var _ := Iput(dp);
    }

    /** unlink() once it is clear that entry k of dp goes. */
    method TakeName(dp: nat, k: nat, ip: nat) returns (ghost freed: bool)
      requires Valid() && IsLink(inodes, dp, k, ip) && k >= 2 && 0 < ip < |inodes| && ref[dp] > 0 && ref[ip] > 0 && valid[ip]
      requires inodes[ip].kind == Directory ==> Empty(inodes, ip)
      modifies this
      ensures Valid() && ip != dp && ref == Less(Less(old(ref), dp), ip)
      ensures var t := if old(inodes)[ip].kind == Directory then UnlinkedDir(old(inodes), dp, k, ip) else UnlinkedFile(old(inodes), dp, k, ip);
              inodes == (if freed then FreedNode(t, ip) else t) && (freed <==> t[ip].nlink == 0 && old(ref)[ip] == 1)
    {
      hide Tree;
      ghost var t, gone := inodes, false;
      Unlinks(t, dp, k, ip);
      inodes := inodes[dp := inodes[dp].(entries := inodes[dp].entries[k := Dirent(0, "")])];
      if inodes[ip].kind == Directory {
        inodes := inodes[dp := inodes[dp].(nlink := inodes[dp].nlink - 1)];
      }
      gone := Iput(dp);
      inodes := inodes[ip := inodes[ip].(nlink := inodes[ip].nlink - 1)];
      ghost var t' := inodes;
      freed := Iput(ip);
      if freed { FreeKeepsTree(t', ip); }
    }

    /** The dots of a new directory ip in dp. */
    method MakeDots(ip: nat, dp: nat)
      requires Shape() && 0 < ip < |inodes| && dp < |inodes| && ip != dp && inodes[ip] == Node(Directory, 1, []) && inodes[dp].nlink >= 0
      modifies this
      ensures Shape() && ref == old(ref) && Kept(old(ref), old(valid), valid)
      ensures inodes == old(inodes)[ip := Node(Directory, 1, [Dirent(ip, "."), Dirent(dp, "..")])]
                                   [dp := old(inodes)[dp].(nlink := old(inodes)[dp].nlink + 1)]
    {
      hide FreePlace, WithEntry, Lively, Lacks;
      inodes := inodes[dp := inodes[dp].(nlink := inodes[dp].nlink + 1)];
      ghost var t := inodes;
      NoDotsYet(t, ip, dp);
      var dot, k0 := Dirlink(ip, ".", ip);
      OneDot(t, ip, k0);
      var dotdot, k1 := Dirlink(ip, "..", dp);
      TwoDots(t, ip, dp, k1);
    }

    /** create() of a name that is not there. */
    method CreateNew(dp: nat, name: Name, kind: Kind) returns (r: Option<nat>, ghost full: bool, ghost k: nat)
      requires Valid() && Linked(inodes, dp) && ref[dp] > 0 && kind != Unallocated && Lacks(inodes, dp, name)
      modifies this
      ensures full ==> forall i :: 1 <= i < |old(inodes)| ==> old(inodes)[i].kind != Unallocated
      ensures !full ==>
                && Valid() && r.Some? && r.value < |old(ref)| && ref == Less(More(old(ref), r.value), dp)
                && Creates(old(inodes), inodes, dp, k, name, r.value, kind)
    {
      hide Tree, Place, FreePlace, Lively, Creates, CreatedDir, CreatedFile, WithEntry, Kept;
      full, k := false, 0;
      ghost var t := inodes;
      LinkedIsLively(inodes, dp);
      r := Ialloc(kind);
      if r == None { return None, true, 0; }
      var ip := r.value;
      Ilock(ip);
      inodes := inodes[ip := inodes[ip].(nlink := 1)];
      if kind == Directory {
        MakeDots(ip, dp);
      }
      ghost var t1 := inodes;
      assert t1 == t[ip := t1[ip]][dp := t[dp].(nlink := t1[dp].nlink)];
      SameEntries(t, t1, dp, ip, name);
      var ok;
      ok, k := Dirlink(dp, name, ip);
      CreatesTree(t, t1, inodes, dp, k, name, ip, kind);
      ghost var freed := Iput(dp);
    }
  }

  /** Entry k of dp, the first with the name, is gone; so is its inode ip if it was freed. */
  predicate Unlinked(t: seq<Node>, ref: seq<nat>, t': seq<Node>, dp: nat, name: Name, k: nat, ip: nat, freed: bool)
    requires dp < |t|
  {
    && k < |t[dp].entries| && FirstNamed(t, dp, name, k) && t[dp].entries[k].inum == ip
    && name != "." && name != ".." && 0 < ip < |t| == |ref| && ip != dp
    && (t[ip].kind == Directory ==> Empty(t, ip))
    && var u := if t[ip].kind == Directory then UnlinkedDir(t, dp, k, ip) else UnlinkedFile(t, dp, k, ip);
       t' == (if freed then FreedNode(u, ip) else u) && (freed <==> u[ip].nlink == 0 && ref[ip] == 0)
  }

  /** unlink() refuses the name: a dot, none, or entry k, a directory that is not empty. */
  predicate MayStay(t: seq<Node>, dp: nat, name: Name, k: nat, ip: nat)
    requires dp < |t|
  {
    || name == "." || name == ".." || Lacks(t, dp, name)
    || (k < |t[dp].entries| && FirstNamed(t, dp, name, k) && t[dp].entries[k].inum == ip < |t|
        && t[ip].kind == Directory && !Empty(t, ip))
  }

  lemma SameRefs(t: seq<Node>, ref: seq<nat>, ref': seq<nat>, t': seq<Node>, dp: nat, name: Name, k: nat, ip: nat, freed: bool)
    requires dp < |t| == |ref| && ref' == More(ref, dp) && Unlinked(t, ref', t', dp, name, k, ip, freed)
    ensures Unlinked(t, ref, t', dp, name, k, ip, freed)
  {
    hide FirstNamed, Empty, UnlinkedDir, UnlinkedFile, FreedNode;
  }

  lemma Returned(ref: seq<nat>, dp: nat, i: nat)
    requires dp < |ref| && i < |ref|
    ensures Less(More(More(ref, dp), i), dp) == More(ref, i)
  {
  }

  function More(ref: seq<nat>, i: nat): seq<nat>
    requires i < |ref|
  {
    ref[i := ref[i] + 1]
  }

  function Less(ref: seq<nat>, i: nat): seq<nat>
    requires i < |ref| && ref[i] > 0
  {
    ref[i := ref[i] - 1]
  }

  /** The entries of d name inodes that have links. */
  predicate Lively(t: seq<Node>, d: nat) {
    d < |t| && forall k :: 0 <= k < |t[d].entries| && t[d].entries[k].inum != 0 ==>
      t[d].entries[k].inum < |t| && t[t[d].entries[k].inum].nlink > 0
  }

  lemma LinkedIsLively(t: seq<Node>, d: nat)
    requires Tree(t) && Linked(t, d)
    ensures d > 0 && Lively(t, d) && !Lacks(t, d, ".") && !Lacks(t, d, "..")
    ensures forall k :: 0 <= k < |t[d].entries| && t[d].entries[k].inum != 0 ==> t[t[d].entries[k].inum].kind != Unallocated
    ensures forall i: nat :: i < |t| && t[i].kind == Unallocated ==> t[i].nlink == 0
  {
    FreeCount(t);
    hide Tree;
    forall k: nat | k < |t[d].entries| && t[d].entries[k].inum != 0
      ensures t[d].entries[k].inum < |t| && t[t[d].entries[k].inum].nlink > 0 && t[t[d].entries[k].inum].kind != Unallocated
    {
      EntryLives(t, d, k);
    }
    DotsInPlace(t, d);
  }

  /** An inode that a path can lead to. */
  predicate Reached(t: seq<Node>, i: nat) {
    i < |t| && t[i].nlink > 0 && t[i].kind != Unallocated && (t[i].kind == Directory ==> Linked(t, i))
  }

  lemma Passed(ref: seq<nat>, i: nat, j: nat)
    requires i < |ref| && j < |ref|
    ensures Less(More(More(ref, i), j), i) == More(ref, j)
  {
  }

  /** Every entry of a linked directory leads somewhere; so does the root. All that a walk asks of
      the tree: a file may be counted wrongly. */
  ghost predicate Walkable(t: seq<Node>) {
    && |t| > ROOT && Linked(t, ROOT)
    && forall d: nat, k: nat :: Linked(t, d) && k < |t[d].entries| && t[d].entries[k].inum != 0 ==> Reached(t, t[d].entries[k].inum)
  }

  lemma TreeWalkable(t: seq<Node>)
    requires Tree(t)
    ensures Walkable(t)
  {
    forall d: nat, k: nat | Linked(t, d) && k < |t[d].entries| && t[d].entries[k].inum != 0 ensures Reached(t, t[d].entries[k].inum) {
      EntryLives(t, d, k);
      assert DirOk(t, d);
      if k >= 2 { assert EntryOk(t, d, k); }
    }
  }

  lemma WalkableIsLively(t: seq<Node>, d: nat)
    requires Walkable(t) && Linked(t, d)
    ensures Lively(t, d)
  {
    forall k | 0 <= k < |t[d].entries| && t[d].entries[k].inum != 0 ensures Reached(t, t[d].entries[k].inum) {
      EntryReached(t, d, k);
    }
  }

  lemma EntryReached(t: seq<Node>, d: nat, k: nat)
    requires Walkable(t) && Linked(t, d) && k < |t[d].entries| && t[d].entries[k].inum != 0
    ensures Reached(t, t[d].entries[k].inum)
  {
  }

  lemma ReachedNotZero(t: seq<Node>, i: nat)
    requires Tree(t) && Reached(t, i)
    ensures i > 0
  {
  }

  lemma RootReached(t: seq<Node>)
    requires Walkable(t)
    ensures Reached(t, ROOT) && Linked(t, ROOT)
  {
  }

  /** What a path leads to is an inode. */
  lemma {:induction false} WalksInside(t: seq<Node>, ip: nat, es: seq<Name>)
    ensures WalkToParent(t, ip, es).Some? ==> IsDirectory(t, WalkToParent(t, ip, es).value.0)
    decreases |es|
  {
    hide Lookup;
    if |es| > 1 && IsDirectory(t, ip) && Lookup(t, ip, es[0]).Some? { WalksInside(t, Lookup(t, ip, es[0]).value, es[1..]); }
  }

  /** A walk does not see the link count of a file. */
  lemma {:induction false} SameWalk(t: seq<Node>, u: seq<Node>, ip: nat, es: seq<Name>)
    requires |u| == |t| && forall i :: 0 <= i < |t| ==> u[i].kind == t[i].kind && u[i].entries == t[i].entries
    ensures WalkToParent(u, ip, es) == WalkToParent(t, ip, es)
    decreases |es|
  {
    if |es| > 1 && IsDirectory(t, ip) {
      SameLookup(t, u, ip, es[0], 0);
      if Lookup(t, ip, es[0]).Some? { SameWalk(t, u, Lookup(t, ip, es[0]).value, es[1..]); }
    }
  }

  lemma {:induction false} SameLookup(t: seq<Node>, u: seq<Node>, d: nat, name: Name, k: nat)
    requires d < |t| == |u| && u[d].entries == t[d].entries && k <= |t[d].entries|
    ensures Found(u, d, name, k) == Found(t, d, name, k)
    decreases |t[d].entries| - k
  {
    if k < |t[d].entries| { SameLookup(t, u, d, name, k + 1); }
  }

  lemma CountedWalks(t: seq<Node>, ip: nat, start: nat, es: seq<Name>)
    requires Tree(t) && ip < |t| && t[ip].kind != Directory && t[ip].nlink > 0
    ensures var u := WithNlink(t, ip, t[ip].nlink + 1);
      Walkable(u) && WalkToParent(u, start, es) == WalkToParent(t, start, es) && forall d: nat :: Linked(u, d) <==> Linked(t, d)
  {
    var u := WithNlink(t, ip, t[ip].nlink + 1);
    TreeWalkable(t);
    SameWalk(t, u, start, es);
    hide Tree, WalkToParent;
    forall d: nat, k: nat | Linked(u, d) && k < |u[d].entries| && u[d].entries[k].inum != 0 ensures Reached(u, u[d].entries[k].inum) {
      EntryReached(t, d, k);
    }
  }

  lemma FreeCount(t: seq<Node>)
    requires Tree(t)
    ensures forall i: nat :: i < |t| && t[i].kind == Unallocated ==> t[i].nlink == 0
  {
  }

  lemma EntryLives(t: seq<Node>, d: nat, k: nat)
    requires Tree(t) && Linked(t, d) && k < |t[d].entries| && t[d].entries[k].inum != 0
    ensures var i := t[d].entries[k].inum; i < |t| && t[i].nlink > 0 && t[i].kind != Unallocated
  {
    assert DirOk(t, d);
    hide Counted, NamedOnce, Links;
    if k >= 2 {
      assert EntryOk(t, d, k);
      EntryFacts(t, d, k, t[d].entries[k].inum);
    }
  }

  lemma DotsInPlace(t: seq<Node>, d: nat)
    requires Tree(t) && Linked(t, d)
    ensures d > 0 && !Lacks(t, d, ".") && !Lacks(t, d, "..")
  {
    assert DirOk(t, d);
    assert t[d].entries[0] == Dirent(d, ".") && t[d].entries[1].name == "..";
  }

  /** The first entry with a name other than the dots is a link. */
  lemma EntryToUnlink(t: seq<Node>, d: nat, name: Name, k: nat)
    requires Tree(t) && Linked(t, d) && k < |t[d].entries| && FirstNamed(t, d, name, k) && name != "." && name != ".."
    ensures k >= 2
    ensures var i := t[d].entries[k].inum;
            0 < i < |t| && IsLink(t, d, k, i) && t[i].nlink > 0 && t[i].kind != Unallocated && (i == d ==> !Empty(t, i))
  {
    assert DirOk(t, d);
    hide Counted, NamedOnce, Links;
    EntryFacts(t, d, k, t[d].entries[k].inum);
  }

  /** What unlink() leaves, file or directory, is a tree in which the parent is still linked. */
  lemma Unlinks(t: seq<Node>, d: nat, k: nat, i: nat)
    requires Tree(t) && IsLink(t, d, k, i) && k >= 2 && 0 < i < |t| && (t[i].kind == Directory ==> Empty(t, i))
    ensures i != d && t[i].nlink > 0
    ensures t[i].kind == Directory ==> Tree(UnlinkedDir(t, d, k, i)) && t[d].nlink >= 2
    ensures t[i].kind != Directory ==> Tree(UnlinkedFile(t, d, k, i))
  {
    hide Tree;
    if t[i].kind == Directory {
      EmptyHasOneLink(t, d, k, i);
      ParentCountsTwo(t, d, k, i);
      UnlinkDirKeepsTree(t, d, k, i);
    } else {
      UnlinkFileKeepsTree(t, d, k, i);
    }
  }

  lemma CountNotNegative(t: seq<Node>, i: nat)
    requires Tree(t) && 0 < i < |t|
    ensures t[i].nlink >= 0
  {
    assert t[i].nlink == |Links(t, i)|;
  }

  /** link() has counted up: the directory is as it was. */
  lemma CountedUp(t: seq<Node>, ip: nat, dp: nat, name: Name)
    requires Tree(t) && Linked(t, dp) && 0 < ip < |t| && t[ip].kind != Directory
    ensures ip != dp
    ensures var t1 := WithNlink(t, ip, t[ip].nlink + 1);
            Lively(t1, dp) && (Lacks(t1, dp, name) <==> Lacks(t, dp, name)) && t1[dp].nlink > 0 && t1[ip].nlink > 0
    ensures forall k: nat :: FreePlace(WithNlink(t, ip, t[ip].nlink + 1), dp, k) <==> FreePlace(t, dp, k)
  {
    LinkedIsLively(t, dp);
    CountNotNegative(t, ip);
    hide Tree;
  }

  lemma LinksTree(t: seq<Node>, dp: nat, k: nat, name: Name, ip: nat)
    requires Tree(t) && Linked(t, dp) && Lacks(t, dp, name) && FreePlace(t, dp, k)
    requires 0 < ip < |t| && t[ip].kind != Directory && t[ip].kind != Unallocated
    ensures ip != dp && Place(t, dp, k, name) && k <= |t[dp].entries| && Tree(LinkedFile(t, dp, k, name, ip))
    ensures LinkedFile(t, dp, k, name, ip) == WithEntry(WithNlink(t, ip, t[ip].nlink + 1), dp, k, Dirent(ip, name))
    ensures var t' := LinkedFile(t, dp, k, name, ip); |t'| == |t| && t'[dp].nlink > 0 && t'[ip].nlink > 0
  {
    PlaceOfNew(t, dp, k, name);
    CountNotNegative(t, ip);
    hide Tree;
    LinkKeepsTree(t, dp, k, name, ip);
  }

  /** Entry k of dp, and what hangs from it, are the result of create(). */
  predicate Creates(t: seq<Node>, t': seq<Node>, dp: nat, k: nat, name: Name, i: nat, kind: Kind) {
    && Place(t, dp, k, name) && FreePlace(t, dp, k) && 0 < i < |t| && i != dp && t[i].kind == Unallocated
    && t' == if kind == Directory then CreatedDir(t, dp, k, name, i) else CreatedFile(t, dp, k, name, i, kind)
  }

  lemma NoDotsYet(t: seq<Node>, i: nat, d: nat)
    requires i < |t| && t[i] == Node(Directory, 1, [])
    ensures Lively(t, i) && Lacks(t, i, ".")
  {
  }

  lemma OneDot(t: seq<Node>, i: nat, k: nat)
    requires 0 < i < |t| && t[i] == Node(Directory, 1, []) && FreePlace(t, i, k)
    ensures WithEntry(t, i, k, Dirent(i, ".")) == t[i := Node(Directory, 1, [Dirent(i, ".")])]
    ensures var t1 := t[i := Node(Directory, 1, [Dirent(i, ".")])]; Lively(t1, i) && Lacks(t1, i, "..")
  {
    assert [] + [Dirent(i, ".")] == [Dirent(i, ".")];
    assert "." != "..";
  }

  lemma TwoDots(t: seq<Node>, i: nat, d: nat, k: nat)
    requires 0 < i < |t| && FreePlace(t[i := Node(Directory, 1, [Dirent(i, ".")])], i, k) && k <= 1
    ensures WithEntry(t[i := Node(Directory, 1, [Dirent(i, ".")])], i, k, Dirent(d, ".."))
         == t[i := Node(Directory, 1, [Dirent(i, "."), Dirent(d, "..")])]
  {
    var t1 := t[i := Node(Directory, 1, [Dirent(i, ".")])];
    assert t1[i].entries[0].inum == i;
    assert [Dirent(i, ".")] + [Dirent(d, "..")] == [Dirent(i, "."), Dirent(d, "..")];
  }

  /** A new inode, and a count, do not change what dp has. */
  lemma SameEntries(t: seq<Node>, t1: seq<Node>, dp: nat, ip: nat, name: Name)
    requires Lively(t, dp) && ip < |t| == |t1| && t[ip].nlink == 0 && ip != dp && t[dp].nlink > 0 && t1[dp].nlink > 0
    requires t1 == t[ip := t1[ip]][dp := t[dp].(nlink := t1[dp].nlink)]
    ensures Lively(t1, dp) && (Lacks(t1, dp, name) <==> Lacks(t, dp, name))
    ensures forall k: nat :: FreePlace(t1, dp, k) <==> FreePlace(t, dp, k)
  {
  }

  lemma CreatesTree(t: seq<Node>, t1: seq<Node>, t': seq<Node>, dp: nat, k: nat, name: Name, i: nat, kind: Kind)
    requires Tree(t) && Linked(t, dp) && Lacks(t, dp, name) && FreePlace(t, dp, k) && 0 < i < |t| && t[i].kind == Unallocated && kind != Unallocated
    requires i != dp && k <= |t[dp].entries| && |t1| == |t| && t1[dp].entries == t[dp].entries && t' == WithEntry(t1, dp, k, Dirent(i, name))
    requires t1 == if kind == Directory then t[i := Node(Directory, 1, [Dirent(i, "."), Dirent(dp, "..")])][dp := t[dp].(nlink := t[dp].nlink + 1)]
                   else t[i := Node(kind, 1, [])]
    ensures Tree(t') && Creates(t, t', dp, k, name, i, kind) && |t'| == |t| && t'[dp].nlink > 0
  {
    PlaceOfNew(t, dp, k, name);
    hide Tree, WithEntry;
    if kind == Directory { CreateDirKeepsTree(t, dp, k, name, i); } else { CreateFileKeepsTree(t, dp, k, name, i, kind); }
  }

  /** The first free place is behind the dots, and a name that is not there is not one of them. */
  lemma PlaceOfNew(t: seq<Node>, dp: nat, k: nat, name: Name)
    requires Tree(t) && Linked(t, dp) && Lacks(t, dp, name) && FreePlace(t, dp, k)
    ensures Place(t, dp, k, name)
  {
    assert DirOk(t, dp);
  }

  /** Entry k is the first one with this name. */
  predicate FirstNamed(t: seq<Node>, d: nat, name: Name, k: nat)
    requires d < |t| && k < |t[d].entries|
  {
    && t[d].entries[k].name == name && t[d].entries[k].inum != 0
    && forall m :: 0 <= m < k ==> t[d].entries[m].inum == 0 || t[d].entries[m].name != name
  }

  predicate Lacks(t: seq<Node>, d: nat, name: Name)
    requires d < |t|
  {
    forall k :: 0 <= k < |t[d].entries| ==> t[d].entries[k].inum == 0 || t[d].entries[k].name != name
  }

  /** The first free place of a directory, or its end. */
  predicate FreePlace(t: seq<Node>, d: nat, k: nat)
    requires d < |t|
  {
    && k <= |t[d].entries| && (k < |t[d].entries| ==> t[d].entries[k].inum == 0)
    && forall m :: 0 <= m < k ==> t[d].entries[m].inum != 0
  }

  lemma RootOnly(t: seq<Node>)
    requires |t| > ROOT && t == seq(|t|, _ => Node(Unallocated, 0, []))[ROOT := Node(Directory, 1, [Dirent(ROOT, "."), Dirent(ROOT, "..")])]
    ensures Tree(t)
  {
    forall x: nat, m: nat, i: nat ensures IsLink(t, x, m, i) <==> x == ROOT && m == 1 && i == ROOT {}
    forall i: nat | 0 < i < |t| ensures t[i].nlink == |Links(t, i)| {
      if i == ROOT {
        assert Links(t, i) == {(ROOT, 1)};
      } else {
        assert Links(t, i) == {};
      }
    }
  }
}
