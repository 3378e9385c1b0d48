/** The shell's command language: how text is cut into tokens and parsed, as functions of the text
    that is left, and how a command is printed so that it parses back. */
module ShellGrammar {

  const MAXARGS: nat := 10

  predicate Blank(c: char) {
    c == ' ' || c == '\t' || c == '\r' || c == '\n' || c == '\U{0B}'
  }

  predicate Symbol(c: char) {
    c == '<' || c == '|' || c == '>' || c == '&' || c == ';' || c == '(' || c == ')'
  }

  predicate WordChar(c: char) {
    !Blank(c) && !Symbol(c) && c != '\0'
  }

  /** whitespace[] and symbols[]; every other character but NUL is part of a word. */
  lemma Characters(c: char)
    ensures Blank(c) <==> c in " \t\r\n\U{0B}"
    ensures Symbol(c) <==> c in "<|>&;()"
    ensures WordChar(c) <==> c !in " \t\r\n\U{0B}<|>&;()\0"
  {
  }

  /** Text in a buffer ends before its first NUL. */
  predicate Text(s: string) {
    forall i :: 0 <= i < |s| ==> s[i] != '\0'
  }

  // ----- tokens -----

  function SkipBlanks(s: string): (r: string)
    ensures |r| <= |s| && (r != [] ==> !Blank(r[0])) && (Text(s) ==> Text(r))
  {
    if s != [] && Blank(s[0]) then SkipBlanks(s[1..]) else s
  }

  /** How many characters of a word s begins with. */
  function WordLength(s: string): (n: nat)
    ensures n <= |s| && (forall i :: 0 <= i < n ==> WordChar(s[i])) && (n < |s| ==> !WordChar(s[n]))
  {
    if s != [] && WordChar(s[0]) then 1 + WordLength(s[1..]) else 0
  }

  datatype Token = End | Sign(c: char) | Append | Word(w: string)

  /** gettoken() on text that does not begin with blanks: the token and how long it is. */
  function FirstToken(s: string): (r: (Token, nat))
    requires s != [] ==> !Blank(s[0])
    ensures r.1 <= |s| && (r.0 != End && Text(s) ==> r.1 > 0)
  {
    if s == [] then (End, 0)
    else if s[0] == '>' then (if |s| > 1 && s[1] == '>' then (Append, 2) else (Sign('>'), 1))
    else if Symbol(s[0]) then (Sign(s[0]), 1)
    else (Word(s[..WordLength(s)]), WordLength(s))
  }

  function GetToken(s: string): (r: (Token, string))
    ensures |r.1| <= |s|
    ensures r.0 != End && Text(s) ==> |r.1| < |s|
  {
    var s1 := SkipBlanks(s);
    var (t, n) := FirstToken(s1);
    (t, SkipBlanks(s1[n..]))
  }

  lemma SkipTwice(s: string)
    ensures SkipBlanks(SkipBlanks(s)) == SkipBlanks(s)
  {
  }

  predicate Starts(s: string, signs: string) {
    var s1 := SkipBlanks(s);
    s1 != [] && s1[0] in signs
  }

  // ----- commands -----

  datatype Redirection = Redirection(file: string, out: bool)

  /** A parsed command. A redirection has mode O_WRONLY|O_CREATE on fd 1 if out, and else O_RDONLY
      on fd 0. */
  datatype Command =
    | Exec(argv: seq<string>)
    | Redir(cmd: Command, to: Redirection)
    | Pipe(left: Command, right: Command)
    | List(left: Command, right: Command)
    | Back(cmd: Command)

  /** The calls of panic() in the parser. */
  datatype Panic = Syntax | MissingParenthesis | MissingFile | TooManyArgs

  datatype Parsed<+T> = Ok(value: T, rest: string) | Error(panic: Panic)

  function Redirected(c: Command, rs: seq<Redirection>): Command
    decreases |rs|
  {
    if rs == [] then c else Redirected(Redir(c, rs[0]), rs[1..])
  }

  lemma RedirectedMore(c: Command, rs: seq<Redirection>, to: Redirection)
    ensures Redirected(c, rs + [to]) == Redir(Redirected(c, rs), to)
    decreases |rs|
  {
    if rs != [] {
      assert (rs + [to])[1..] == rs[1..] + [to];
      RedirectedMore(Redir(c, rs[0]), rs[1..], to);
    } else {
      assert [to][1..] == [];
    }
  }

  /** parseredirs() */
  function ParseRedirs(s: string): (r: Parsed<seq<Redirection>>)
    requires Text(s)
    ensures r.Ok? ==> |r.rest| <= |s| && Text(r.rest)
    decreases |s|
  {
    if !Starts(s, "<>") then Ok([], SkipBlanks(s))
    else
      var (tok, s1) := GetToken(s);
      RestIsText(s);
      var (file, s2) := GetToken(s1);
      RestIsText(s1);
      if !file.Word? then Error(MissingFile)
      else
        var more := ParseRedirs(s2);
        if more.Error? then more else Ok([Redirection(file.w, tok != Sign('<'))] + more.value, more.rest)
  }

  /** Blanks ahead of a token change nothing. */
  lemma SkipSame(s: string, signs: string)
    ensures GetToken(SkipBlanks(s)) == GetToken(s) && Starts(SkipBlanks(s), signs) == Starts(s, signs)
    ensures Starts(s, signs) ==> !GetToken(s).0.End?
  {
    SkipTwice(s);
  }

  lemma RestIsText(s: string)
    requires Text(s)
    ensures Text(GetToken(s).1)
    ensures Starts(s, "|&;()<>") ==> |GetToken(s).1| < |s|
  {
  }

  /** parseline() */
  function ParseLine(s: string): (r: Parsed<Command>)
    requires Text(s)
    ensures r.Ok? ==> |r.rest| <= |s| && Text(r.rest)
    decreases |s|, 5
  {
    var p := ParsePipe(s);
    if p.Error? then p else ParseBacks(p.value, p.rest)
  }

  /** The rest of parseline() after a pipeline. */
  function ParseBacks(c: Command, s: string): (r: Parsed<Command>)
    requires Text(s)
    ensures r.Ok? ==> |r.rest| <= |s| && Text(r.rest)
    decreases |s|, 4
  {
    RestIsText(s);
    if Starts(s, "&") then ParseBacks(Back(c), GetToken(s).1)
    else if Starts(s, ";") then
      var p := ParseLine(GetToken(s).1);
      if p.Error? then p else Ok(List(c, p.value), p.rest)
    else Ok(c, SkipBlanks(s))
  }

  /** parsepipe() */
  function ParsePipe(s: string): (r: Parsed<Command>)
    requires Text(s)
    ensures r.Ok? ==> |r.rest| <= |s| && Text(r.rest)
    decreases |s|, 3
  {
    var p := ParseExec(s);
    if p.Error? then p
    else
      RestIsText(p.rest);
      if Starts(p.rest, "|") then
        var q := ParsePipe(GetToken(p.rest).1);
        if q.Error? then q else Ok(Pipe(p.value, q.value), q.rest)
      else Ok(p.value, SkipBlanks(p.rest))
  }

  /** parseexec() and parseblock() */
  function ParseExec(s: string): (r: Parsed<Command>)
    requires Text(s)
    ensures r.Ok? ==> |r.rest| <= |s| && Text(r.rest)
    decreases |s|, 2
  {
    RestIsText(s);
    if Starts(s, "(") then
      var p := ParseLine(GetToken(s).1);
      if p.Error? then p
      else if !Starts(p.rest, ")") then Error(MissingParenthesis)
      else
        RestIsText(p.rest);
        var q := ParseRedirs(GetToken(p.rest).1);
        if q.Error? then Error(q.panic) else Ok(Redirected(p.value, q.value), q.rest)
    else
      var q := ParseRedirs(s);
      if q.Error? then Error(q.panic) else ParseArgs([], q.value, q.rest)
  }

  /** The loop of parseexec(), with the words and redirections so far. */
  function ParseArgs(argv: seq<string>, rs: seq<Redirection>, s: string): (r: Parsed<Command>)
    requires Text(s)
    ensures r.Ok? ==> |r.rest| <= |s| && Text(r.rest)
    decreases |s|, 1
  {
    RestIsText(s);
    if Starts(s, "|)&;") then Ok(Redirected(Exec(argv), rs), SkipBlanks(s))
    else
      var (tok, s1) := GetToken(s);
      match tok
      case End => Ok(Redirected(Exec(argv), rs), s1)
      case Word(w) =>
        if |argv| + 1 >= MAXARGS then Error(TooManyArgs)
        else
          var q := ParseRedirs(s1);
          if q.Error? then Error(q.panic) else ParseArgs(argv + [w], rs + q.value, q.rest)
      case _ => Error(Syntax)
  }

  /** parsecmd() */
  function ParseCmd(s: string): Parsed<Command>
    requires Text(s)
  {
    var p := ParseLine(s);
    if p.Ok? && SkipBlanks(p.rest) != [] then Error(Syntax) else p
  }
}
