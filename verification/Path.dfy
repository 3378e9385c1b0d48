/** Path names: how they are cut into elements, and the inode that a walk along the elements
    reaches in a tree of directories. */
module Path {
  import opened Common
  import opened LinkCount

  predicate IsPath(s: string) {
    forall i :: 0 <= i < |s| ==> s[i] != '\0'
  }

  function SkipSlashes(s: string): (r: string)
    ensures |r| <= |s| && (r != "" ==> r[0] != '/') && (IsPath(s) ==> IsPath(r))
  {
    if s != "" && s[0] == '/' then SkipSlashes(s[1..]) else s
  }

  function ElementLength(s: string): (n: nat)
    ensures n <= |s| && (forall i :: 0 <= i < n ==> s[i] != '/') && (n < |s| ==> s[n] == '/')
  {
    if s != "" && s[0] != '/' then 1 + ElementLength(s[1..]) else 0
  }

  /** An element counts up to its first DIRSIZ characters. */
  function Cut(s: string): Name {
    if |s| > DIRSIZ then s[..DIRSIZ] else s
  }

  /** skipelem(): the first element of a path and the path after it. */
  function FirstElement(path: string): (r: Option<(Name, string)>)
    ensures r.Some? ==> |r.value.1| < |path| && (IsPath(path) ==> IsPath(r.value.1))
  {
    var s := SkipSlashes(path);
    if s == "" then None
    else var n := ElementLength(s); Some((Cut(s[..n]), SkipSlashes(s[n..])))
  }

  function Elements(path: string): seq<Name>
    decreases |path|
  {
    match FirstElement(path)
    case None => []
    case Some((name, rest)) => [name] + Elements(rest)
  }

  // ----- how paths are spelled -----

  predicate IsElement(e: string) {
    e != "" && forall i :: 0 <= i < |e| ==> e[i] != '/'
  }

  function Slashes(n: nat): string {
    seq(n, _ => '/')
  }

  /** The elements with one slash or more behind each; the last may have none. */
  function Spelled(es: seq<string>, gaps: seq<nat>): string
    requires |gaps| == |es|
  {
    if es == [] then "" else es[0] + (Slashes(gaps[0]) + Spelled(es[1..], gaps[1..]))
  }

  lemma {:induction false} SlashesSkipped(n: nat, s: string)
    ensures SkipSlashes(Slashes(n) + s) == SkipSlashes(s)
  {
    if n > 0 {
      assert (Slashes(n) + s)[1..] == Slashes(n - 1) + s;
      SlashesSkipped(n - 1, s);
    } else {
      assert Slashes(n) + s == s;
    }
  }

  lemma {:induction false} LengthIs(e: string, s: string)
    requires (forall i :: 0 <= i < |e| ==> e[i] != '/') && (s != "" ==> s[0] == '/')
    ensures ElementLength(e + s) == |e|
  {
    if e != "" {
      assert (e + s)[1..] == e[1..] + s;
      LengthIs(e[1..], s);
    } else {
      assert e + s == s;
    }
  }

  lemma FirstOf(e: string, s: string)
    requires IsElement(e) && (s != "" ==> s[0] == '/')
    ensures FirstElement(e + s) == Some((Cut(e), SkipSlashes(s)))
  {
    LengthIs(e, s);
    assert (e + s)[..|e|] == e && (e + s)[|e|..] == s;
  }

  /** Leading slashes make no difference to the elements. */
  lemma ElementsSkip(s: string)
    ensures Elements(SkipSlashes(s)) == Elements(s)
  {
    SkipAgain(s);
  }

  lemma SkipAgain(s: string)
    ensures SkipSlashes(SkipSlashes(s)) == SkipSlashes(s)
  {
  }

  lemma NoElements()
    ensures Elements("") == []
  {
  }

  lemma ElementsFrom(s: string)
    ensures FirstElement(s) == None ==> Elements(s) == []
    ensures FirstElement(s).Some? ==> Elements(s) == [FirstElement(s).value.0] + Elements(FirstElement(s).value.1)
  {
  }

  lemma RestOfPath(s: string)
    requires IsPath(s)
    ensures FirstElement(s).Some? ==> |FirstElement(s).value.1| < |s| && IsPath(FirstElement(s).value.1)
  {
  }

  /** skipelem() leaves nothing exactly when that was the last element. */
  lemma LastElement(s: string)
    requires FirstElement(s).Some?
    ensures FirstElement(s).value.1 == "" <==> Elements(FirstElement(s).value.1) == []
  {
    var s1 := SkipSlashes(s);
    SkipAgain(s1[ElementLength(s1)..]);
  }

  /** Whatever the slashes, a path has the elements that it was spelled from, each cut to DIRSIZ. */
  lemma {:induction false} SpelledElements(lead: nat, es: seq<string>, gaps: seq<nat>)
    requires |gaps| == |es| && (forall i :: 0 <= i < |es| ==> IsElement(es[i]))
    requires forall i :: 0 <= i < |es| - 1 ==> gaps[i] > 0
    ensures var r := Elements(Slashes(lead) + Spelled(es, gaps));
      |r| == |es| && forall i :: 0 <= i < |es| ==> r[i] == if |es[i]| > 14 then es[i][..14] else es[i]
    decreases |es|
  {
    hide Elements, FirstElement, SkipSlashes;
    var s := Spelled(es, gaps);
    SlashesSkipped(lead, s);
    ElementsSkip(Slashes(lead) + s);
    ElementsSkip(s);
    if es != [] {
      var more := Spelled(es[1..], gaps[1..]);
      SpelledElements(gaps[0], es[1..], gaps[1..]);
      FirstOf(es[0], Slashes(gaps[0]) + more);
      ElementsSkip(Slashes(gaps[0]) + more);
      ElementsFrom(s);
    } else {
      NoElements();
    }
  }

  /** And every path is spelled from some elements. */
  lemma {:induction false} EveryPath(s: string) returns (lead: nat, es: seq<string>, gaps: seq<nat>)
    ensures |gaps| == |es| && (forall i :: 0 <= i < |es| ==> IsElement(es[i])) && (forall i :: 0 <= i < |es| - 1 ==> gaps[i] > 0)
    ensures s == Slashes(lead) + Spelled(es, gaps)
    decreases |s|
  {
    lead, es, gaps := 0, [], [];
    if s == "" { return; }
    if s[0] == '/' {
      lead, es, gaps := EveryPath(s[1..]);
      assert Slashes(lead + 1) == ['/'] + Slashes(lead);
      lead := lead + 1;
    } else {
      var n := ElementLength(s);
      var gap, fs, more := EveryPath(s[n..]);
      es, gaps := [s[..n]] + fs, [gap] + more;
      if fs != [] && gap == 0 { assert s[n..] == Spelled(fs, more); }
      assert es[1..] == fs && gaps[1..] == more && s == s[..n] + s[n..];
    }
  }

  // ----- the buffer for a name -----

  /** The name in a buffer of DIRSIZ characters, which need not end in NUL. */
  function NameIn(b: seq<char>): (r: string)
    ensures |r| <= |b|
  {
    if b == [] || b[0] == '\0' then "" else [b[0]] + NameIn(b[1..])
  }

  lemma {:induction false} NameStored(b: seq<char>, e: string)
    requires |e| <= |b| <= DIRSIZ && b[..|e|] == e && IsPath(e) && (|e| < |b| ==> b[|e|] == '\0')
    ensures NameIn(b) == e
  {
    if e != "" {
      assert b[0] == e[0] && b[1..][..|e| - 1] == e[1..];
      NameStored(b[1..], e[1..]);
    }
  }

  /** skipelem(): name gets the first element, without a NUL if it fills the buffer. */
  method Skipelem(path: string, name: array<char>) returns (r: Option<string>)
    requires IsPath(path) && name.Length == DIRSIZ
    modifies name
    ensures match FirstElement(path)
      case None => r == None && name[..] == old(name[..])
      case Some((e, rest)) => r == Some(rest) && IsPath(rest) && NameIn(name[..]) == e
  {
    var p := Slashless(path);
    if p == "" { return None; }
    var s := p;
    var len := 0;
    while p != "" && p[0] != '/'
      invariant len <= |s| && p == s[len..] && ElementLength(s) == len + ElementLength(p)
      decreases |p|
    {
      p := p[1..];
      len := len + 1;
    }
    var n := if len >= DIRSIZ then DIRSIZ else len;
    forall i | 0 <= i < n { name[i] := s[i]; }
    if len < DIRSIZ { name[len] := '\0'; }
    assert name[..n] == s[..n] == Cut(s[..len]);
    NameStored(name[..], s[..n]);
    p := Slashless(p);
    r := Some(p);
  }

  method Slashless(path: string) returns (p: string)
    ensures p == SkipSlashes(path)
  {
    p := path;
    while p != "" && p[0] == '/'
      invariant SkipSlashes(p) == SkipSlashes(path)
      decreases |p|
    {
      p := p[1..];
    }
  }

  // ----- walking -----

  /** The inode of the first entry with this name, from entry k on. */
  function Found(t: seq<Node>, d: nat, name: Name, k: nat): Option<nat>
    requires d < |t| && k <= |t[d].entries|
    decreases |t[d].entries| - k
  {
    if k == |t[d].entries| then None
    else if t[d].entries[k].inum != 0 && t[d].entries[k].name == name then Some(t[d].entries[k].inum)
    else Found(t, d, name, k + 1)
  }

  function Lookup(t: seq<Node>, d: nat, name: Name): Option<nat>
    requires d < |t|
  {
    Found(t, d, name, 0)
  }

  lemma {:induction false} FoundAt(t: seq<Node>, d: nat, name: Name, k: nat, m: nat)
    requires d < |t| && k <= m <= |t[d].entries|
    requires forall j :: k <= j < m ==> t[d].entries[j].inum == 0 || t[d].entries[j].name != name
    ensures Found(t, d, name, k) == Found(t, d, name, m)
    decreases m - k
  {
    if k < m { FoundAt(t, d, name, k + 1, m); }
  }

  /** namex() without nameiparent, from inode ip. */
  function Walk(t: seq<Node>, ip: nat, es: seq<Name>): Option<nat>
    decreases |es|
  {
    if es == [] then Some(ip)
    else if !IsDirectory(t, ip) then None
    else match Lookup(t, ip, es[0])
      case None => None
      case Some(next) => Walk(t, next, es[1..])
  }

  /** namex() with nameiparent: the directory of the last element, and that element. */
  function WalkToParent(t: seq<Node>, ip: nat, es: seq<Name>): Option<(nat, Name)>
    decreases |es|
  {
    if es == [] || !IsDirectory(t, ip) then None
    else if |es| == 1 then Some((ip, es[0]))
    else match Lookup(t, ip, es[0])
      case None => None
      case Some(next) => WalkToParent(t, next, es[1..])
  }

  /** One element of either walk. */
  lemma OneElement(t: seq<Node>, ip: nat, e: Name, es: seq<Name>)
    requires ip < |t|
    ensures t[ip].kind != Directory ==> Walk(t, ip, [e] + es) == None && WalkToParent(t, ip, [e] + es) == None
    ensures t[ip].kind == Directory ==>
      && Walk(t, ip, [e] + es) == (match Lookup(t, ip, e) case None => None case Some(n) => Walk(t, n, es))
      && WalkToParent(t, ip, [e] + es) ==
           (if es == [] then Some((ip, e))
            else match Lookup(t, ip, e) case None => None case Some(n) => WalkToParent(t, n, es))
  {
    assert ([e] + es)[1..] == es;
  }

  lemma NoElement(t: seq<Node>, ip: nat)
    ensures Walk(t, ip, []) == Some(ip) && WalkToParent(t, ip, []) == None
  {
  }

  /** nameiparent() leads to where namei() makes its last lookup. */
  lemma {:induction false} ParentThenName(t: seq<Node>, ip: nat, es: seq<Name>)
    requires es != []
    ensures Walk(t, ip, es) ==
      match WalkToParent(t, ip, es)
      case None => None
      case Some((d, name)) => if d < |t| then Lookup(t, d, name) else None
    decreases |es|
  {
    if IsDirectory(t, ip) && |es| > 1 && Lookup(t, ip, es[0]).Some? {
      ParentThenName(t, Lookup(t, ip, es[0]).value, es[1..]);
    }
  }

  lemma {:induction false} WalkOn(t: seq<Node>, ip: nat, a: seq<Name>, b: seq<Name>)
    ensures Walk(t, ip, a + b) == match Walk(t, ip, a) case None => None case Some(x) => Walk(t, x, b)
    decreases |a|
  {
    if a == [] {
      assert a + b == b;
    } else {
      assert (a + b)[1..] == a[1..] + b;
      if IsDirectory(t, ip) && Lookup(t, ip, a[0]).Some? {
        WalkOn(t, Lookup(t, ip, a[0]).value, a[1..], b);
      }
    }
  }

  /** Where a path starts. */
  function Start(path: string, cwd: nat): nat {
    if path != "" && path[0] == '/' then ROOT else cwd
  }

  /** A slash between two paths, wherever it is put, joins their elements. */
  lemma {:induction false} ElementsJoin(q: string, p: string)
    ensures Elements(q + "/" + p) == Elements(q) + Elements(p)
    decreases |q|
  {
    hide Elements, FirstElement;
    if SkipSlashes(q) == "" {
      NothingJoined(q, p);
    } else {
      var e, rest := FirstJoined(q, p);
      hide SkipSlashes;
      ElementsFrom(q);
      ElementsFrom(q + "/" + p);
      ElementsSkip(rest);
      ElementsSkip(rest + "/" + p);
      ElementsJoin(rest, p);
      assert [Cut(e)] + (Elements(rest) + Elements(p)) == [Cut(e)] + Elements(rest) + Elements(p);
    }
  }

  lemma NothingJoined(q: string, p: string)
    requires SkipSlashes(q) == ""
    ensures Elements(q) == [] && Elements(q + "/" + p) == Elements(p)
  {
    JoinSkips(q, "/" + p);
    assert q + "/" + p == q + ("/" + p);
    assert ("/" + p)[1..] == p;
    ElementsSkip(q + "/" + p);
    ElementsSkip(p);
    ElementsSkip(q);
    NoElements();
  }

  /** The first element of a path is that of the longer path. */
  lemma FirstJoined(q: string, p: string) returns (e: string, rest: string)
    requires SkipSlashes(q) != ""
    ensures |rest| < |q| && FirstElement(q) == Some((Cut(e), SkipSlashes(rest)))
    ensures FirstElement(q + "/" + p) == Some((Cut(e), SkipSlashes(rest + "/" + p)))
  {
    hide FirstElement, SkipSlashes, ElementLength;
    var s := SkipSlashes(q);
    e, rest := s[..ElementLength(s)], s[ElementLength(s)..];
    JoinSkips(q, "/" + p);
    assert q + "/" + p == q + ("/" + p);
    FirstAt(q, e, rest);
    assert s + ("/" + p) == e + (rest + "/" + p);
    FirstAt(q + "/" + p, e, rest + "/" + p);
  }

  lemma FirstAt(path: string, e: string, rest: string)
    requires SkipSlashes(path) == e + rest && IsElement(e) && (rest != "" ==> rest[0] == '/')
    ensures FirstElement(path) == Some((Cut(e), SkipSlashes(rest)))
  {
    LengthIs(e, rest);
    assert (e + rest)[..|e|] == e && (e + rest)[|e|..] == rest;
  }

  lemma {:induction false} JoinSkips(q: string, p: string)
    ensures SkipSlashes(q) != "" ==> SkipSlashes(q + p) == SkipSlashes(q) + p
    ensures SkipSlashes(q) == "" ==> SkipSlashes(q + p) == SkipSlashes(p)
    decreases |q|
  {
    if q == "" {
      assert q + p == p;
    } else {
      assert (q + p)[1..] == q[1..] + p;
      JoinSkips(q[1..], p);
    }
  }

  /** An absolute path leads to the same place from everywhere; and if /q leads to the working
      directory, a relative path p leads where /q/p does, and so does nameiparent, unless p has no
      element. */
  lemma RelativeIsAbsolute(t: seq<Node>, q: string, p: string, cwd: nat, cwd': nat)
    requires Walk(t, 1, Elements(q)) == Some(cwd) && (p == "" || p[0] != '/')
    ensures var path := "/" + q + "/" + p;
      && Walk(t, Start(path, cwd'), Elements(path)) == Walk(t, Start(p, cwd), Elements(p)) == Walk(t, cwd, Elements(p))
      && (Elements(p) != [] ==>
            WalkToParent(t, Start(path, cwd'), Elements(path)) == WalkToParent(t, Start(p, cwd), Elements(p))
              == WalkToParent(t, cwd, Elements(p)))
  {
    var path := "/" + q + "/" + p;
    assert path == ("/" + q) + "/" + p;
    ElementsJoin("/" + q, p);
    assert SkipSlashes("/" + q) == SkipSlashes(q) by { assert ("/" + q)[1..] == q; }
    ElementsSkip("/" + q);
    ElementsSkip(q);
    assert Elements(path) == Elements(q) + Elements(p);
    WalkOn(t, ROOT, Elements(q), Elements(p));
    if Elements(p) != [] { ParentOn(t, ROOT, Elements(q), Elements(p)); }
  }

  lemma {:induction false} ParentOn(t: seq<Node>, ip: nat, a: seq<Name>, b: seq<Name>)
    requires b != []
    ensures WalkToParent(t, ip, a + b) == match Walk(t, ip, a) case None => None case Some(x) => WalkToParent(t, x, b)
    decreases |a|
  {
    if a == [] {
      assert a + b == b;
    } else {
      assert (a + b)[1..] == a[1..] + b;
      if IsDirectory(t, ip) && Lookup(t, ip, a[0]).Some? {
        ParentOn(t, Lookup(t, ip, a[0]).value, a[1..], b);
      }
    }
  }

  // ----- in a tree -----

  predicate IsDirectory(t: seq<Node>, d: nat) {
    d < |t| && t[d].kind == Directory
  }

  /** The two dots of a linked directory, and any other name that it has. */
  lemma DotsLookedUp(t: seq<Node>, d: nat)
    requires Tree(t) && Linked(t, d)
    ensures |t[d].entries| >= 2 && Linked(t, t[d].entries[1].inum)
    ensures Lookup(t, d, ".") == Some(d) && Lookup(t, d, "..") == Some(t[d].entries[1].inum)
  {
    assert DirOk(t, d);
    hide Tree, DirOk, EntryOk;
    FoundAt(t, d, "..", 0, 1);
  }

  lemma {:induction false} OtherLookedUp(t: seq<Node>, d: nat, name: Name, k: nat)
    requires Tree(t) && Linked(t, d) && name != "." && name != ".." && 2 <= k <= |t[d].entries|
    requires Found(t, d, name, k).Some?
    ensures var c := Found(t, d, name, k).value;
      && c < |t| && t[c].kind != Unallocated && c != ROOT
      && (t[c].kind == Directory ==> Linked(t, c) && Lookup(t, c, "..") == Some(d))
    decreases |t[d].entries| - k
  {
    assert DirOk(t, d);
    hide Tree, DirOk;
    if t[d].entries[k].inum != 0 && t[d].entries[k].name == name {
      assert EntryOk(t, d, k);
      if Linked(t, t[d].entries[k].inum) { DotsLookedUp(t, t[d].entries[k].inum); }
    } else {
      OtherLookedUp(t, d, name, k + 1);
    }
  }

  lemma LookedUp(t: seq<Node>, d: nat, name: Name)
    requires Tree(t) && Linked(t, d) && name != "." && name != ".." && Lookup(t, d, name).Some?
    ensures var c := Lookup(t, d, name).value;
      && c < |t| && t[c].kind != Unallocated && c != ROOT
      && (t[c].kind == Directory ==> Linked(t, c) && Lookup(t, c, "..") == Some(d))
  {
    assert DirOk(t, d);
    hide Tree, DirOk;
    FoundAt(t, d, name, 0, 2);
    OtherLookedUp(t, d, name, 2);
  }

  /** A walk from a linked directory never meets a free inode. */
  lemma {:induction false} WalkStays(t: seq<Node>, d: nat, es: seq<Name>)
    requires Tree(t) && Linked(t, d) && Walk(t, d, es).Some?
    ensures var c := Walk(t, d, es).value; c < |t| && t[c].kind != Unallocated && (t[c].kind == Directory ==> Linked(t, c))
    decreases |es|
  {
    if es != [] {
      var c := Lookup(t, d, es[0]).value;
      DotsLookedUp(t, d);
      hide Tree;
      if es[0] != "." && es[0] != ".." { LookedUp(t, d, es[0]); }
      if t[c].kind == Directory { WalkStays(t, c, es[1..]); }
    }
  }

  /** The path a/x/../b leads where a/b does, if a/x is a directory. */
  lemma DotDotUndoes(t: seq<Node>, d: nat, a: seq<Name>, x: Name, b: seq<Name>)
    requires Tree(t) && Linked(t, d) && x != "." && x != ".."
    requires Walk(t, d, a + [x]).Some? && IsDirectory(t, Walk(t, d, a + [x]).value)
    ensures Walk(t, d, a + [x, ".."] + b) == Walk(t, d, a + b)
  {
    WalkOn(t, d, a, [x]);
    WalkStays(t, d, a);
    var p := Walk(t, d, a).value;
    LookedUp(t, p, x);
    hide Tree;
    WalkOn(t, d, a, [x, ".."] + b);
    WalkOn(t, d, a, b);
    assert a + [x, ".."] + b == a + ([x, ".."] + b);
    assert ([x, ".."] + b)[1..] == [".."] + b && ([".."] + b)[1..] == b;
  }

  /** The path a/./b leads where a/b does, if a is a directory; and the parent of the root is the
      root. */
  lemma DotStays(t: seq<Node>, d: nat, a: seq<Name>, b: seq<Name>)
    requires Tree(t) && Linked(t, d) && Walk(t, d, a).Some? && IsDirectory(t, Walk(t, d, a).value)
    ensures Walk(t, d, a + ["."] + b) == Walk(t, d, a + b)
    ensures Walk(t, ROOT, [".."] + b) == Walk(t, ROOT, b)
  {
    WalkStays(t, d, a);
    var p := Walk(t, d, a).value;
    DotsLookedUp(t, p);
    DotsLookedUp(t, ROOT);
    assert t[ROOT].entries[1].inum == ROOT by { assert DirOk(t, ROOT); }
    hide Tree;
    WalkOn(t, d, a, ["."] + b);
    WalkOn(t, d, a, b);
    assert a + ["."] + b == a + (["."] + b);
    assert (["."] + b)[1..] == b && ([".."] + b)[1..] == b;
  }
}
