/** The shell's parser as it runs: a cursor over a buffer, commands whose words are pairs of
    pointers into it, and the pass that ends each word with a NUL. */
module Shell {
  import opened ShellGrammar

  /** The characters from q up to eq. */
  datatype Slice = Slice(q: nat, eq: nat)

  datatype Cmd =
    | ExecCmd(args: seq<Slice>)
    | RedirCmd(cmd: Cmd, file: Slice, out: bool)
    | PipeCmd(left: Cmd, right: Cmd)
    | ListCmd(left: Cmd, right: Cmd)
    | BackCmd(cmd: Cmd)

  /** A slice is a whole word of the text. */
  predicate SliceOk(s: string, w: Slice) {
    && w.q < w.eq <= |s|
    && (forall i :: w.q <= i < w.eq ==> WordChar(s[i]))
    && (w.eq < |s| ==> !WordChar(s[w.eq]))
  }

  function WordOf(s: string, w: Slice): string
    requires SliceOk(s, w)
  {
    s[w.q..w.eq]
  }

  predicate CmdOk(s: string, c: Cmd) {
    match c
    case ExecCmd(args) => forall i :: 0 <= i < |args| ==> SliceOk(s, args[i])
    case RedirCmd(c1, file, out) => CmdOk(s, c1) && SliceOk(s, file)
    case PipeCmd(l, r) => CmdOk(s, l) && CmdOk(s, r)
    case ListCmd(l, r) => CmdOk(s, l) && CmdOk(s, r)
    case BackCmd(c1) => CmdOk(s, c1)
  }

  /** The command that c stands for. */
  function Meaning(s: string, c: Cmd): Command
    requires CmdOk(s, c)
  {
    match c
    case ExecCmd(args) => Exec(seq(|args|, i requires 0 <= i < |args| => WordOf(s, args[i])))
    case RedirCmd(c1, file, out) => Redir(Meaning(s, c1), Redirection(WordOf(s, file), out))
    case PipeCmd(l, r) => Pipe(Meaning(s, l), Meaning(s, r))
    case ListCmd(l, r) => List(Meaning(s, l), Meaning(s, r))
    case BackCmd(c1) => Back(Meaning(s, c1))
  }

  /** What gettoken() returns for a token. */
  function CodeOf(t: Token): char {
    match t
    case End => '\0'
    case Sign(c) => c
    case Append => '+'
    case Word(_) => 'a'
  }

  datatype Result = Parsed'(cmd: Cmd) | Panicked(panic: Panic)

  /** A method's result r and the text it leaves are those of p. */
  predicate Agrees(s: string, r: Result, rest: string, p: Parsed<Command>) {
    match r
    case Panicked(e) => p == Error(e)
    case Parsed'(c) => CmdOk(s, c) && p == Ok(Meaning(s, c), rest)
  }

  lemma SkipOne(s: string, i: nat)
    requires i < |s|
    ensures s[i..][0] == s[i] && s[i..][1..] == s[i + 1..]
  {
  }

  class Parser {
    const s: string
    var ps: nat

    predicate Valid()
      reads this
    {
      Text(s) && ps <= |s|
    }

    /** The text that is left. */
    function Rest(): (r: string)
      requires Valid()
      ensures Text(r)
      reads this
    {
      s[ps..]
    }

    constructor (s: string)
      requires Text(s)
      ensures Valid() && this.s == s && ps == 0
    {
      this.s, ps := s, 0;
    }

    /** The loop over whitespace that gettoken() and peek() share. */
    method Skip(i0: nat) returns (i: nat)
      requires i0 <= |s|
      ensures i0 <= i <= |s| && s[i..] == SkipBlanks(s[i0..])
    {
      i := i0;
      while i < |s| && Blank(s[i])
        invariant i0 <= i <= |s| && SkipBlanks(s[i..]) == SkipBlanks(s[i0..])
      {
        SkipOne(s, i);
        i := i + 1;
      }
      if i < |s| { SkipOne(s, i); }
    }

    /** peek() */
    method Peek(toks: string) returns (r: bool)
      requires Valid()
      modifies this
      ensures Valid() && ps >= old(ps) && Rest() == SkipBlanks(old(Rest())) && r == Starts(old(Rest()), toks)
    {
      ps := Skip(ps);
      r := ps < |s| && s[ps] in toks;
    }

    /** The switch of gettoken(): the token at i and where it ends. */
    method Token(q: nat) returns (ret: char, eq: nat)
      requires Valid() && q <= |s| && SkipBlanks(s[q..]) == s[q..]
      ensures q <= eq <= |s|
      ensures var (t, n) := FirstToken(s[q..]);
              && ret == CodeOf(t) && n == eq - q && (t != End ==> eq > q)
              && (t.Word? ==> SliceOk(s, Slice(q, eq)) && WordOf(s, Slice(q, eq)) == t.w)
    {
      eq := q;
      if eq == |s| {
        ret := '\0';
      } else if s[eq] == '>' {
        ret := '>';
        eq := eq + 1;
        if eq < |s| && s[eq] == '>' {
          ret := '+';
          eq := eq + 1;
        }
      } else if Symbol(s[eq]) {
        ret := s[eq];
        eq := eq + 1;
      } else {
        eq := WordEnd(q);
        ret := 'a';
      }
    }

    /** The loop of gettoken() over a word. */
    method WordEnd(q: nat) returns (eq: nat)
      requires Valid() && q < |s| && WordChar(s[q])
      ensures SliceOk(s, Slice(q, eq)) && WordLength(s[q..]) == eq - q
      ensures WordOf(s, Slice(q, eq)) == s[q..][..eq - q]
    {
      eq := q;
      while eq < |s| && !Blank(s[eq]) && !Symbol(s[eq])
        invariant q <= eq <= |s|
        invariant forall j :: q <= j < eq ==> WordChar(s[j])
      {
        eq := eq + 1;
      }
      WordIs(s[q..], eq - q);
      SliceOfRest(s, q, eq);
    }

    /** gettoken() */
    method Gettoken() returns (ret: char, q: nat, eq: nat)
      requires Valid()
      modifies this
      ensures Valid() && ps >= old(ps)
      ensures var (t, rest) := GetToken(old(Rest()));
              && ret == CodeOf(t) && Rest() == rest && (t != End ==> ps > old(ps))
              && (t.Word? ==> SliceOk(s, Slice(q, eq)) && WordOf(s, Slice(q, eq)) == t.w)
    {
      hide SkipBlanks, FirstToken, SliceOk, Text;
      q := Skip(ps);
      SkipTwice(s[ps..]);
      ret, eq := Token(q);
      GetTokenIs(s[ps..], s[q..], eq - q);
      SliceOfRest(s, q, eq);
      ps := Skip(eq);
    }

    /** parseredirs() */
    method Parseredirs(cmd: Cmd) returns (r: Result)
      requires Valid() && CmdOk(s, cmd)
      modifies this
      ensures Valid() && ps >= old(ps) && RedirsAgree(s, cmd, r, Rest(), ParseRedirs(old(Rest())))
    {
      hide Text, Starts, GetToken, Redirected, SliceOk;
      var c := cmd;
      ghost var rs: seq<Redirection> := [];
      AfterNone(ParseRedirs(Rest()));
      NoneRedirected(Meaning(s, cmd));
      while true
        invariant Valid() && ps >= old(ps) && CmdOk(s, c) && Meaning(s, c) == Redirected(Meaning(s, cmd), rs)
        invariant ParseRedirs(old(Rest())) == After(rs, ParseRedirs(Rest()))
        decreases |s| - ps
      {
        ghost var text := Rest();
        SkipSame(text, "<>");
        var more := Peek("<>");
        if !more {
          RedirsEnd(text, rs);
          break;
        }
        RedirStep(text, rs);
        RestIsText(text);
        var tok, _, _ := Gettoken();
        ghost var s1 := Rest();
        var word, q, eq := Gettoken();
        Codes(text);
        Codes(s1);
        if word != 'a' {
          r := Panicked(MissingFile);
          return;
        }
        ghost var to := Redirection(WordOf(s, Slice(q, eq)), tok != '<');
        RedirectedMore(Meaning(s, cmd), rs, to);
        rs := rs + [to];
        c := RedirCmd(c, Slice(q, eq), tok != '<');
      }
      r := Parsed'(c);
    }

    /** parseline() */
    method Parseline() returns (r: Result)
      requires Valid()
      modifies this
      ensures Valid() && ps >= old(ps) && Agrees(s, r, Rest(), ParseLine(old(Rest())))
      decreases |s| - ps, 5
    {
      hide Text, Starts, GetToken, ParseLine, ParseBacks, ParsePipe, SkipBlanks, SliceOk;
      LineUnfolds(Rest());
      r := Parsepipe();
      if r.Panicked? { return; }
      var c := r.cmd;
      while true
        invariant Valid() && ps >= old(ps) && CmdOk(s, c)
        invariant ParseLine(old(Rest())) == ParseBacks(Meaning(s, c), Rest())
        decreases |s| - ps
      {
        ghost var text := Rest();
        SkipSame(text, "&");
        BacksUnfold(Meaning(s, c), text);
        var background := Peek("&");
        if !background { break; }
        RestIsText(text);
        var _, _, _ := Gettoken();
        c := BackCmd(c);
      }
      ghost var text := Rest();
      SkipSame(text, ";");
      BacksUnfold(Meaning(s, c), text);
      SkipTwice(text);
      var more := Peek(";");
      if more {
        RestIsText(text);
        var _, _, _ := Gettoken();
        r := Parseline();
        if r.Parsed'? { r := Parsed'(ListCmd(c, r.cmd)); }
      } else {
        r := Parsed'(c);
      }
    }

    /** parsepipe() */
    method Parsepipe() returns (r: Result)
      requires Valid()
      modifies this
      ensures Valid() && ps >= old(ps) && Agrees(s, r, Rest(), ParsePipe(old(Rest())))
      decreases |s| - ps, 3
    {
      hide Text, Starts, GetToken, ParsePipe, ParseExec, SkipBlanks, SliceOk;
      PipeUnfolds(Rest());
      r := Parseexec();
      if r.Panicked? { return; }
      ghost var text := Rest();
      SkipSame(text, "|");
      var more := Peek("|");
      if more {
        RestIsText(text);
        var _, _, _ := Gettoken();
        var left := r.cmd;
        r := Parsepipe();
        if r.Parsed'? { r := Parsed'(PipeCmd(left, r.cmd)); }
      }
    }

    /** parseblock() */
    method Parseblock() returns (r: Result)
      requires Valid() && Starts(Rest(), "(")
      modifies this
      ensures Valid() && ps >= old(ps) && Agrees(s, r, Rest(), ParseExec(old(Rest())))
      decreases |s| - ps, 1
    {
      hide Text, Starts, GetToken, ParseLine, ParseExec, ParseRedirs, SkipBlanks, SliceOk, Redirected;
      BlockUnfolds(Rest());
      RestIsText(Rest());
      SkipSame(Rest(), "(");
      var open := Peek("(");
      var _, _, _ := Gettoken();
      r := Parseline();
      if r.Panicked? { return; }
      ghost var text := Rest();
      SkipSame(text, ")");
      RestIsText(text);
      var closed := Peek(")");
      if !closed {
        r := Panicked(MissingParenthesis);
        return;
      }
      var _, _, _ := Gettoken();
      r := Parseredirs(r.cmd);
    }

    /** parseexec() */
    method Parseexec() returns (r: Result)
      requires Valid()
      modifies this
      ensures Valid() && ps >= old(ps) && Agrees(s, r, Rest(), ParseExec(old(Rest())))
      decreases |s| - ps, 2
    {
      hide Text, Starts, GetToken, ParseExec, ParseArgs, ParseRedirs, SkipBlanks, SliceOk, Redirected;
      ghost var text := Rest();
      SkipSame(text, "(");
      SkipTwice(text);
      ExecSkips(text);
      RestIsText(text);
      var block := Peek("(");
      if block {
        r := Parseblock();
        return;
      }
      ExecUnfolds(text);
      var cmd := ExecCmd([]);
      EmptyExec(s);
      r := Parseredirs(cmd);
      if r.Panicked? { return; }
      r := Parseargs(r.cmd, ParseRedirs(text).value);
    }

    /** The loop of parseexec(), on the command under the redirections so far. */
    method Parseargs(cmd: Cmd, ghost rs0: seq<Redirection>) returns (r: Result)
      requires Valid() && CmdOk(s, cmd) && Meaning(s, cmd) == Redirected(Exec([]), rs0)
      modifies this
      ensures Valid() && ps >= old(ps) && Agrees(s, r, Rest(), ParseArgs([], rs0, old(Rest())))
    {
      hide Text, Starts, GetToken, ParseArgs, ParseRedirs, SkipBlanks, SliceOk, Redirected;
      var ret, argc := cmd, 0;
      ghost var argv: seq<string>, rs := [], rs0;
      while true
        invariant Valid() && ps >= old(ps) && CmdOk(s, ret)
        invariant Meaning(s, ret) == Redirected(Exec(argv), rs) && argc == |argv|
        invariant ParseArgs([], rs0, old(Rest())) == ParseArgs(argv, rs, Rest())
        decreases |s| - ps
      {
        ghost var text := Rest();
        SkipSame(text, "|)&;");
        ArgsUnfold(argv, rs, text);
        RestIsText(text);
        Codes(text);
        var ends := Peek("|)&;");
        if ends { break; }
        var tok, q, eq := Gettoken();
        if tok == '\0' { break; }
        if tok != 'a' {
          r := Panicked(Syntax);
          return;
        }
        argc := argc + 1;
        if argc >= MAXARGS {
          r := Panicked(TooManyArgs);
          return;
        }
        var w := Slice(q, eq);
        AddedMeans(s, ret, w, argv, rs);
        argv := argv + [WordOf(s, w)];
        ghost var more := ParseRedirs(Rest());
        r := Parseredirs(Added(ret, w));
        if r.Panicked? { return; }
        RedirectedTwice(Exec(argv), rs, more.value);
        rs := rs + more.value;
        ret := r.cmd;
      }
      r := Parsed'(ret);
    }

    /** parsecmd() up to its call of nulterminate() */
    method Parsecmd() returns (r: Result)
      requires Valid() && ps == 0
      modifies this
      ensures match ParseCmd(s)
        case Error(e) => r == Panicked(e)
        case Ok(c, _) => r.Parsed'? && CmdOk(s, r.cmd) && Meaning(s, r.cmd) == c
    {
      hide Text, Starts, ParseLine, SkipBlanks, SliceOk;
      assert s[0..] == s;
      r := Parseline();
      if r.Panicked? { return; }
      var _ := Peek("");
      if ps != |s| { r := Panicked(Syntax); }
    }
  }

  /** The slice w added to the exec node under the redirections c. */
  function Added(c: Cmd, w: Slice): Cmd {
    match c
    case ExecCmd(args) => ExecCmd(args + [w])
    case RedirCmd(c1, file, out) => RedirCmd(Added(c1, w), file, out)
    case _ => c
  }

  lemma {:induction false} AddedMeans(s: string, c: Cmd, w: Slice, argv: seq<string>, rs: seq<Redirection>)
    requires CmdOk(s, c) && SliceOk(s, w) && Meaning(s, c) == Redirected(Exec(argv), rs)
    ensures CmdOk(s, Added(c, w)) && Meaning(s, Added(c, w)) == Redirected(Exec(argv + [WordOf(s, w)]), rs)
    decreases |rs|
  {
    hide SliceOk;
    if rs == [] {
      AddedExec(s, c.args, w);
    } else {
      var front, last := rs[..|rs| - 1], rs[|rs| - 1];
      assert rs == front + [last];
      RedirectedMore(Exec(argv), front, last);
      RedirectedMore(Exec(argv + [WordOf(s, w)]), front, last);
      AddedMeans(s, c.cmd, w, argv, front);
    }
  }

  lemma AddedExec(s: string, args: seq<Slice>, w: Slice)
    requires CmdOk(s, ExecCmd(args)) && SliceOk(s, w)
    ensures CmdOk(s, ExecCmd(args + [w]))
    ensures Meaning(s, ExecCmd(args + [w])) == Exec(Meaning(s, ExecCmd(args)).argv + [WordOf(s, w)])
  {
  }

  lemma EmptyExec(s: string)
    ensures CmdOk(s, ExecCmd([])) && Meaning(s, ExecCmd([])) == Exec([])
    ensures Redirected(Exec([]), []) == Exec([])
  {
  }

  lemma {:induction false} RedirectedTwice(c: Command, rs: seq<Redirection>, more: seq<Redirection>)
    ensures Redirected(Redirected(c, rs), more) == Redirected(c, rs + more)
    decreases |rs|
  {
    if rs == [] {
      assert rs + more == more;
    } else {
      assert (rs + more)[1..] == rs[1..] + more;
      RedirectedTwice(Redir(c, rs[0]), rs[1..], more);
    }
  }

  lemma LineUnfolds(s: string)
    requires Text(s)
    ensures var p := ParsePipe(s); ParseLine(s) == if p.Error? then p else ParseBacks(p.value, p.rest)
  {
  }

  lemma BacksUnfold(c: Command, s: string)
    requires Text(s)
    ensures Text(SkipBlanks(s)) && ParseBacks(c, SkipBlanks(s)) == ParseBacks(c, s)
    ensures Text(GetToken(s).1)
    ensures ParseBacks(c, s) ==
      if Starts(s, "&") then ParseBacks(Back(c), GetToken(s).1)
      else if Starts(s, ";") then
        var p := ParseLine(GetToken(s).1);
        if p.Error? then p else Ok(List(c, p.value), p.rest)
      else Ok(c, SkipBlanks(s))
  {
    hide Starts, GetToken, ParseLine;
    RestIsText(s);
    SkipSame(s, "&");
    SkipSame(s, ";");
    SkipTwice(s);
  }

  lemma PipeUnfolds(s: string)
    requires Text(s)
    ensures var p := ParseExec(s);
      if p.Error? then ParsePipe(s) == p
      else
        && Text(GetToken(p.rest).1)
        && ParsePipe(s) == if Starts(p.rest, "|") then
             var q := ParsePipe(GetToken(p.rest).1);
             if q.Error? then q else Ok(Pipe(p.value, q.value), q.rest)
           else Ok(p.value, SkipBlanks(p.rest))
  {
    hide Starts, GetToken, ParseExec;
    if ParseExec(s).Ok? { RestIsText(ParseExec(s).rest); }
  }

  lemma ExecSkips(s: string)
    requires Text(s)
    ensures Text(SkipBlanks(s)) && ParseExec(SkipBlanks(s)) == ParseExec(s)
    ensures ParseRedirs(SkipBlanks(s)) == ParseRedirs(s)
  {
    hide Starts, GetToken, ParseLine, ParseArgs;
    SkipSame(s, "(");
    SkipSame(s, "<>");
    SkipTwice(s);
  }

  lemma BlockUnfolds(s: string)
    requires Text(s) && Starts(s, "(")
    ensures Text(GetToken(s).1)
    ensures var p := ParseLine(GetToken(s).1);
      if p.Error? then ParseExec(s) == p
      else if !Starts(p.rest, ")") then ParseExec(s) == Error(MissingParenthesis)
      else
        && Text(GetToken(p.rest).1)
        && var q := ParseRedirs(GetToken(p.rest).1);
           ParseExec(s) == if q.Error? then Error(q.panic) else Ok(Redirected(p.value, q.value), q.rest)
  {
    hide Starts, GetToken, ParseLine;
    RestIsText(s);
    if ParseLine(GetToken(s).1).Ok? { RestIsText(ParseLine(GetToken(s).1).rest); }
  }

  lemma ExecUnfolds(s: string)
    requires Text(s) && !Starts(s, "(")
    ensures var q := ParseRedirs(s);
      ParseExec(s) == if q.Error? then Error(q.panic) else ParseArgs([], q.value, q.rest)
  {
  }

  lemma ArgsUnfold(argv: seq<string>, rs: seq<Redirection>, s: string)
    requires Text(s)
    ensures Text(GetToken(s).1)
    ensures ParseArgs(argv, rs, s) ==
      if Starts(s, "|)&;") then Ok(Redirected(Exec(argv), rs), SkipBlanks(s))
      else
        var (tok, s1) := GetToken(s);
        match tok
        case End => Ok(Redirected(Exec(argv), rs), s1)
        case Word(w) =>
          if |argv| + 1 >= MAXARGS then Error(TooManyArgs)
          else
            var q := ParseRedirs(s1);
            if q.Error? then Error(q.panic) else ParseArgs(argv + [w], rs + q.value, q.rest)
        case _ => Error(Syntax)
  {
    hide Starts, GetToken, ParseRedirs;
    RestIsText(s);
  }

  lemma NoneRedirected(c: Command)
    ensures Redirected(c, []) == c
  {
  }

  lemma AfterNone(p: Parsed<seq<Redirection>>)
    ensures After([], p) == p
  {
    if p.Ok? { assert [] + p.value == p.value; }
  }

  /** The code that gettoken() returns tells the token's kind. */
  lemma Codes(s: string)
    ensures var c := CodeOf(GetToken(s).0);
            && (c == 'a' <==> GetToken(s).0.Word?) && (c == '\0' <==> GetToken(s).0.End?)
            && (c == '<' <==> GetToken(s).0 == Sign('<'))
  {
    var s1 := SkipBlanks(s);
    assert GetToken(s).0 == FirstToken(s1).0;
  }

  lemma RedirsEnd(s: string, rs: seq<Redirection>)
    requires Text(s) && !Starts(s, "<>")
    ensures After(rs, ParseRedirs(s)) == Ok(rs, SkipBlanks(s))
  {
    var none: seq<Redirection> := [];
    assert rs + none == rs;
  }

  /** One round of the loop of parseredirs(). */
  lemma RedirStep(s: string, rs: seq<Redirection>)
    requires Text(s) && Starts(s, "<>")
    ensures var (tok, s1) := GetToken(s);
            var (file, s2) := GetToken(s1);
            && Text(s1) && Text(s2)
            && (if !file.Word? then ParseRedirs(s) == Error(MissingFile)
                else After(rs, ParseRedirs(s)) == After(rs + [Redirection(file.w, tok != Sign('<'))], ParseRedirs(s2)))
  {
    hide Text, Starts, GetToken;
    RestIsText(s);
    var (tok, s1) := GetToken(s);
    RestIsText(s1);
    var (file, s2) := GetToken(s1);
    if file.Word? {
      var to := Redirection(file.w, tok != Sign('<'));
      var p := ParseRedirs(s2);
      if p.Ok? { assert rs + ([to] + p.value) == (rs + [to]) + p.value; }
    }
  }

  /** What parseredirs() makes of cmd is cmd under the redirections of p. */
  predicate RedirsAgree(s: string, cmd: Cmd, r: Result, rest: string, p: Parsed<seq<Redirection>>)
    requires CmdOk(s, cmd)
  {
    match p
    case Error(e) => r == Panicked(e)
    case Ok(rs, left) =>
      r.Parsed'? && CmdOk(s, r.cmd) && rest == left && Meaning(s, r.cmd) == Redirected(Meaning(s, cmd), rs)
  }

  function After(rs: seq<Redirection>, p: Parsed<seq<Redirection>>): Parsed<seq<Redirection>> {
    if p.Error? then p else Ok(rs + p.value, p.rest)
  }

  /** The word that text begins with ends where its characters end. */
  lemma WordIs(s: string, n: nat)
    requires n <= |s| && (forall i :: 0 <= i < n ==> WordChar(s[i])) && (n < |s| ==> !WordChar(s[n]))
    ensures WordLength(s) == n
  {
  }

  lemma SliceOfRest(s: string, q: nat, eq: nat)
    requires q <= eq <= |s|
    ensures s[q..eq] == s[q..][..eq - q] && s[eq..] == s[q..][eq - q..]
  {
  }

  lemma GetTokenIs(s: string, s1: string, n: nat)
    requires s1 == SkipBlanks(s) && FirstToken(s1).1 == n
    ensures n <= |s1| && GetToken(s) == (FirstToken(s1).0, SkipBlanks(s1[n..]))
  {
  }

  // ----- ending the words -----

  /** The string at q in memory: up to the first NUL. */
  function CString(b: seq<char>, q: nat): string
    requires q <= |b|
    decreases |b| - q
  {
    if q == |b| || b[q] == '\0' then [] else [b[q]] + CString(b, q + 1)
  }

  /** The positions that nulterminate() overwrites. */
  function Ends(c: Cmd): set<nat> {
    match c
    case ExecCmd(args) => EndsOf(args)
    case RedirCmd(c1, file, out) => Ends(c1) + {file.eq}
    case PipeCmd(l, r) => Ends(l) + Ends(r)
    case ListCmd(l, r) => Ends(l) + Ends(r)
    case BackCmd(c1) => Ends(c1)
  }

  function EndsOf(args: seq<Slice>): set<nat> {
    if args == [] then {} else EndsOf(args[..|args| - 1]) + {args[|args| - 1].eq}
  }

  /** b is the buffer that held s and then a NUL, with NULs stored at the positions in ends. */
  predicate Cut(s: string, b: seq<char>, ends: set<nat>) {
    && |b| > |s|
    && (forall i :: 0 <= i <= |s| ==> b[i] == if i == |s| || i in ends then '\0' else s[i])
  }

  /** The command as runcmd() sees it: each argument and file name is the string at its start. */
  function InMemory(b: seq<char>, c: Cmd): Command {
    match c
    case ExecCmd(args) =>
      Exec(seq(|args|, i requires 0 <= i < |args| => if args[i].q <= |b| then CString(b, args[i].q) else ""))
    case RedirCmd(c1, file, out) =>
      Redir(InMemory(b, c1), Redirection(if file.q <= |b| then CString(b, file.q) else "", out))
    case PipeCmd(l, r) => Pipe(InMemory(b, l), InMemory(b, r))
    case ListCmd(l, r) => List(InMemory(b, l), InMemory(b, r))
    case BackCmd(c1) => Back(InMemory(b, c1))
  }

  lemma EndsOfAre(args: seq<Slice>, e: nat)
    ensures e in EndsOf(args) <==> exists i :: 0 <= i < |args| && args[i].eq == e
  {
    if args != [] {
      var n := |args| - 1;
      EndsOfAre(args[..n], e);
      if i :| 0 <= i < |args| && args[i].eq == e {
        assert i < n ==> args[..n][i].eq == e;
      }
    }
  }

  /** No word is cut short: where one word ends, no word goes on. */
  lemma {:induction false} EndsAreOutside(s: string, c: Cmd, e: nat)
    requires CmdOk(s, c) && e in Ends(c)
    ensures e <= |s| && (e < |s| ==> !WordChar(s[e]))
  {
    match c
    case ExecCmd(args) => EndsOfAre(args, e);
    case RedirCmd(c1, file, out) => if e in Ends(c1) { EndsAreOutside(s, c1, e); }
    case PipeCmd(l, r) => if e in Ends(l) { EndsAreOutside(s, l, e); } else { EndsAreOutside(s, r, e); }
    case ListCmd(l, r) => if e in Ends(l) { EndsAreOutside(s, l, e); } else { EndsAreOutside(s, r, e); }
    case BackCmd(c1) => EndsAreOutside(s, c1, e);
  }

  lemma {:induction false} WordReads(s: string, b: seq<char>, ends: set<nat>, w: Slice, q: nat)
    requires Cut(s, b, ends) && SliceOk(s, w) && w.q <= q <= w.eq && w.eq in ends
    requires forall e :: w.q <= e < w.eq ==> e !in ends
    ensures CString(b, q) == s[q..w.eq]
    decreases w.eq - q
  {
    if q < w.eq {
      WordReads(s, b, ends, w, q + 1);
      assert s[q..w.eq] == [s[q]] + s[q + 1..w.eq];
    }
  }

  /** One word among those of all reads as its token. */
  lemma SliceReads(s: string, b: seq<char>, all: Cmd, w: Slice)
    requires CmdOk(s, all) && Cut(s, b, Ends(all)) && SliceOk(s, w) && w.eq in Ends(all)
    ensures w.q <= |b| && CString(b, w.q) == WordOf(s, w)
  {
    hide Ends, CmdOk, Cut;
    forall e | w.q <= e < w.eq ensures e !in Ends(all) {
      if e in Ends(all) { EndsAreOutside(s, all, e); }
    }
    WordReads(s, b, Ends(all), w, w.q);
    assert |b| > |s| by { CutLength(s, b, Ends(all)); }
  }

  lemma CutLength(s: string, b: seq<char>, ends: set<nat>)
    requires Cut(s, b, ends)
    ensures |b| > |s|
  {
  }

  /** Each part of the command all reads as what was parsed. */
  lemma {:induction false} PartReads(s: string, b: seq<char>, all: Cmd, c: Cmd)
    requires CmdOk(s, all) && Cut(s, b, Ends(all)) && CmdOk(s, c) && Ends(c) <= Ends(all)
    ensures InMemory(b, c) == Meaning(s, c)
    decreases c
  {
    hide Cut;
    match c
    case ExecCmd(args) =>
      forall i | 0 <= i < |args|
        ensures args[i].q <= |b| && CString(b, args[i].q) == WordOf(s, args[i])
      {
        EndsOfAre(args, args[i].eq);
        SliceReads(s, b, all, args[i]);
      }
    case RedirCmd(c1, file, out) =>
      PartReads(s, b, all, c1);
      SliceReads(s, b, all, file);
    case PipeCmd(l, r) =>
      PartReads(s, b, all, l);
      PartReads(s, b, all, r);
    case ListCmd(l, r) =>
      PartReads(s, b, all, l);
      PartReads(s, b, all, r);
    case BackCmd(c1) =>
      PartReads(s, b, all, c1);
  }

  /** After nulterminate() every argument and file name reads as exactly its token. */
  lemma WordsRead(s: string, b: seq<char>, c: Cmd)
    requires CmdOk(s, c) && Cut(s, b, Ends(c))
    ensures InMemory(b, c) == Meaning(s, c)
  {
    PartReads(s, b, c, c);
  }

  /** nulterminate() */
  method Nulterminate(b: array<char>, s: string, c: Cmd, ghost ends: set<nat>)
    requires CmdOk(s, c) && Cut(s, b[..], ends)
    modifies b
    ensures Cut(s, b[..], ends + Ends(c))
    ensures forall i :: |s| < i < b.Length ==> b[i] == old(b[i])
    decreases c
  {
    match c
    case ExecCmd(args) =>
      var i := 0;
      while i < |args|
        invariant 0 <= i <= |args| && Cut(s, b[..], ends + EndsOf(args[..i]))
        invariant forall i :: |s| < i < b.Length ==> b[i] == old(b[i])
      {
        b[args[i].eq] := '\0';
        assert args[..i + 1][..i] == args[..i];
        i := i + 1;
      }
      assert args[..i] == args;
    case RedirCmd(c1, file, out) =>
      Nulterminate(b, s, c1, ends);
      b[file.eq] := '\0';
    case PipeCmd(l, r) =>
      Nulterminate(b, s, l, ends);
      Nulterminate(b, s, r, ends + Ends(l));
      assert ends + Ends(l) + Ends(r) == ends + Ends(c);
    case ListCmd(l, r) =>
      Nulterminate(b, s, l, ends);
      Nulterminate(b, s, r, ends + Ends(l));
      assert ends + Ends(l) + Ends(r) == ends + Ends(c);
    case BackCmd(c1) =>
      Nulterminate(b, s, c1, ends);
  }

  /** strlen() */
  method Strlen(b: array<char>) returns (n: nat)
    requires '\0' in b[..]
    ensures n < b.Length && b[n] == '\0' && Text(b[..n]) && CString(b[..], 0) == b[..n]
  {
    n := 0;
    while b[n] != '\0'
      invariant n < b.Length && Text(b[..n])
      invariant CString(b[..], 0) == b[..n] + CString(b[..], n)
      decreases b.Length - n
    {
      assert b[..][n] == b[n];
      assert b[..n + 1] == b[..n] + [b[n]];
      n := n + 1;
    }
    assert CString(b[..], n) == [];
  }

  /** parsecmd(): what the command means in the buffer as it is left is what its text parsed to. */
  method Parsecmd(b: array<char>) returns (r: Result)
    requires '\0' in b[..]
    modifies b
    ensures Text(old(CString(b[..], 0)))
    ensures match ParseCmd(old(CString(b[..], 0)))
      case Error(e) => r == Panicked(e) && b[..] == old(b[..])
      case Ok(c, _) => r.Parsed'? && InMemory(b[..], r.cmd) == c
  {
    hide ParseCmd, CmdOk, Meaning, InMemory, Ends;
    var n := Strlen(b);
    var s := b[..n];
    var parser := new Parser(s);
    r := parser.Parsecmd();
    if r.Parsed'? {
      Nulterminate(b, s, r.cmd, {});
      assert {} + Ends(r.cmd) == Ends(r.cmd);
      WordsRead(s, b[..], r.cmd);
    }
  }
}
