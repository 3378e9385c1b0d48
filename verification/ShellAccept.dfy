/** The converse of ShellPrint: text that parses is some line, written somehow. */
module ShellAccept {
  import opened ShellGrammar
  import opened ShellPrint

  // ----- text is tokens -----

  lemma {:induction false} BlanksFirst(s: string) returns (g: string)
    ensures Blanks(g) && s == g + SkipBlanks(s)
    decreases |s|
  {
    if s != [] && Blank(s[0]) {
      var g1 := BlanksFirst(s[1..]);
      g := [s[0]] + g1;
      assert s == [s[0]] + s[1..];
    } else {
      g := "";
    }
  }

  /** Any text is a sequence of tokens with gaps. */
  lemma {:induction false} Lexed(s: string) returns (toks: seq<Token>, gaps: seq<string>)
    requires Text(s)
    ensures Fits(toks, gaps) && s == Spelled(toks, gaps)
    decreases |s|
  {
    hide CanWrite, Fits;
    var g := BlanksFirst(s);
    var s1 := SkipBlanks(s);
    NothingFits(g);
    if s1 == "" {
      toks, gaps := [], [g];
    } else {
      var (t, n) := FirstToken(s1);
      TokenIs(s1);
      var toks1, gaps1 := Lexed(s1[n..]);
      toks, gaps := [t] + toks1, [g] + gaps1;
      assert toks[1..] == toks1 && gaps[1..] == gaps1;
      assert s1 == Written(t) + s1[n..];
      LexedFits(g, t, s1, n, toks1, gaps1);
    }
  }

  lemma NothingFits(g: string)
    requires Blanks(g)
    ensures Fits([], [g]) && Spelled([], [g]) == g
  {
  }

  lemma TokenIs(s: string)
    requires Text(s) && s != [] && !Blank(s[0])
    ensures var (t, n) := FirstToken(s); 0 < n <= |s| && CanWrite(t) && Written(t) == s[..n]
    ensures var (t, n) := FirstToken(s);
      n < |s| ==> (t.Word? ==> !WordChar(s[n])) && (t == Sign('>') ==> s[n] != '>')
  {
  }

  lemma LexedFits(g: string, t: Token, s: string, n: nat, toks: seq<Token>, gaps: seq<string>)
    requires Blanks(g) && CanWrite(t) && Fits(toks, gaps) && n <= |s| && s[n..] == Spelled(toks, gaps)
    requires n < |s| ==> (t.Word? ==> !WordChar(s[n])) && (t == Sign('>') ==> s[n] != '>')
    ensures Fits([t] + toks, [g] + gaps)
  {
    var ts, gs := [t] + toks, [g] + gaps;
    if toks != [] && gaps[0] == "" { FirstSeen(toks, gaps); }
    forall i | 0 < i < |ts| && Merge(ts[i - 1], ts[i]) ensures gs[i] != "" {
      if i > 1 { assert Merge(toks[i - 2], toks[i - 1]); }
    }
  }

  lemma FirstSeen(toks: seq<Token>, gaps: seq<string>)
    requires Fits(toks, gaps) && toks != [] && gaps[0] == ""
    ensures CanWrite(toks[0]) && Spelled(toks, gaps) != "" && Spelled(toks, gaps)[0] == Written(toks[0])[0]
  {
  }

  // ----- what each parser has read -----

  lemma NextToken(s: string, toks: seq<Token>, gaps: seq<string>)
    requires At(s, toks, gaps) && GetToken(s).0 != End
    ensures toks != [] && |gaps| == |toks| + 1 && Text(s) && GetToken(s).0 == toks[0] && CanWrite(toks[0])
    ensures Left(GetToken(s).1, toks[1..], gaps[1..]) && At(GetToken(s).1, toks[1..], gaps[1..])
    ensures forall signs :: Starts(s, signs) <==> Leads(toks, signs)
  {
    Ahead(s, toks, gaps);
    AtLeft(toks, gaps);
  }

  lemma SignAhead(s: string, toks: seq<Token>, gaps: seq<string>, c: char)
    requires At(s, toks, gaps) && Starts(s, [c]) && c in "|&;()"
    ensures toks != [] && toks[0] == Sign(c) && |gaps| == |toks| + 1 && Text(s)
    ensures Left(GetToken(s).1, toks[1..], gaps[1..]) && At(GetToken(s).1, toks[1..], gaps[1..])
  {
    Ahead(s, toks, gaps);
    AtLeft(toks, gaps);
    assert CanWrite(toks[0]);
  }

  lemma Same(s: string, toks: seq<Token>, gaps: seq<string>)
    requires At(s, toks, gaps)
    ensures Text(s) && Left(SkipBlanks(s), toks, gaps) && At(SkipBlanks(s), toks, gaps) && [] + toks == toks
  {
    Ahead(s, toks, gaps);
  }

  /** What parseredirs() has read, and the tokens that are left. */
  lemma {:induction false} RedirsRead(s: string, toks: seq<Token>, gaps: seq<string>, rs: seq<Redirection>, s': string)
    returns (dests: seq<Dest>, rest: seq<Token>, g: seq<string>)
    requires At(s, toks, gaps) && Text(s) && ParseRedirs(s) == Ok(rs, s')
    ensures toks == DestsTokens(dests) + rest && DestTos(dests) == rs && At(s', rest, g)
    decreases |s|
  {
    hide GetToken, SkipBlanks, Left, At, FromToken, Spelled;
    Same(s, toks, gaps);
    if !Starts(s, "<>") {
      dests, rest, g := [], toks, gaps;
    } else {
      SkipSame(s, "<>");
      RestIsText(s);
      NextToken(s, toks, gaps);
      var s1 := GetToken(s).1;
      RestIsText(s1);
      NextToken(s1, toks[1..], gaps[1..]);
      var more;
      more, rest, g := RedirsRead(GetToken(s1).1, toks[1..][1..], gaps[1..][1..], rs[1..], s');
      var d := Dest(rs[0], toks[0] == Append);
      dests := [d] + more;
      OneDest(toks, d, more, rest);
      assert rs == [rs[0]] + rs[1..];
    }
  }

  lemma OneDest(toks: seq<Token>, d: Dest, more: seq<Dest>, rest: seq<Token>)
    requires |toks| >= 2 && Leads(toks, "<>") && CanWrite(toks[0]) && toks[1].Word?
    requires d.to == Redirection(toks[1].w, toks[0] != Sign('<')) && d.twice == (toks[0] == Append)
    requires toks[1..][1..] == DestsTokens(more) + rest
    ensures toks == DestsTokens([d] + more) + rest && DestTos([d] + more) == [d.to] + DestTos(more)
  {
    assert ([d] + more)[1..] == more;
    assert DestTokens(d) == [toks[0], toks[1]];
    assert toks == [toks[0], toks[1]] + toks[1..][1..];
    hide DestTokens;
    assert (DestTokens(d) + DestsTokens(more)) + rest == DestTokens(d) + (DestsTokens(more) + rest);
  }

  lemma {:induction false} DestItems(dests: seq<Dest>, items: seq<Item>) returns (all: seq<Item>)
    ensures ItemsTokens(all) == DestsTokens(dests) + ItemsTokens(items) && Args(all) == Args(items)
    ensures Tos(all) == DestTos(dests) + Tos(items)
    decreases |dests|
  {
    hide DestTokens;
    if dests == [] {
      all := items;
      assert [] + ItemsTokens(items) == ItemsTokens(items);
    } else {
      var more := DestItems(dests[1..], items);
      all := [To(dests[0])] + more;
      assert all[1..] == more;
    }
  }

  lemma ArgsWord(argv: seq<string>, rs: seq<Redirection>, s: string, c: Command, s': string)
    requires Text(s) && ParseArgs(argv, rs, s) == Ok(c, s') && !Starts(s, "|)&;") && GetToken(s).0 != End
    ensures GetToken(s).0.Word? && |argv| + 1 < 10 && Text(GetToken(s).1) && ParseRedirs(GetToken(s).1).Ok?
    ensures var q := ParseRedirs(GetToken(s).1);
      Text(q.rest) && ParseArgs(argv + [GetToken(s).0.w], rs + q.value, q.rest) == Ok(c, s') && |q.rest| < |s|
  {
    hide Starts, ParseRedirs, SkipBlanks, FirstToken;
    RestIsText(s);
  }

  lemma ArgsStop(argv: seq<string>, rs: seq<Redirection>, s: string, c: Command, s': string)
    requires Text(s) && ParseArgs(argv, rs, s) == Ok(c, s') && (Starts(s, "|)&;") || GetToken(s).0 == End)
    ensures c == Redirected(Exec(argv), rs) && (s' == SkipBlanks(s) || (!Starts(s, "|)&;") && s' == GetToken(s).1))
  {
    hide Starts, ParseRedirs, SkipBlanks, GetToken, Redirected;
  }

  /** At the end of the text gettoken() leaves nothing. */
  lemma EndOfText(s: string, toks: seq<Token>, gaps: seq<string>)
    requires At(s, toks, gaps) && GetToken(s).0 == End
    ensures toks == [] && At(GetToken(s).1, toks, gaps)
  {
    Ahead(s, toks, gaps);
    assert toks != [] ==> CanWrite(toks[0]);
  }

  lemma {:induction false} ArgsRead(s: string, toks: seq<Token>, gaps: seq<string>, argv: seq<string>, rs: seq<Redirection>, c: Command, s': string)
    returns (items: seq<Item>, rest: seq<Token>, g: seq<string>)
    requires At(s, toks, gaps) && Text(s) && ParseArgs(argv, rs, s) == Ok(c, s') && |argv| < 10
    ensures toks == ItemsTokens(items) + rest && At(s', rest, g)
    ensures c == Redirected(Exec(argv + Args(items)), rs + Tos(items)) && |argv| + |Args(items)| < 10
    decreases |s|
  {
    hide GetToken, SkipBlanks, Left, At, FromToken, Spelled, Starts, ParseArgs, ParseRedirs, Redirected;
    Same(s, toks, gaps);
    if Starts(s, "|)&;") || GetToken(s).0 == End {
      ArgsStop(argv, rs, s, c, s');
      if s' != SkipBlanks(s) { EndOfText(s, toks, gaps); }
      items, rest, g := [], toks, gaps;
      assert argv + [] == argv && rs + [] == rs;
    } else {
      ArgsWord(argv, rs, s, c, s');
      NextToken(s, toks, gaps);
      var w, s1 := GetToken(s).0.w, GetToken(s).1;
      var q := ParseRedirs(s1);
      var dests, rest1, g1 := RedirsRead(s1, toks[1..], gaps[1..], q.value, q.rest);
      var more;
      more, rest, g := ArgsRead(q.rest, rest1, g1, argv + [w], rs + q.value, c, s');
      var tail := DestItems(dests, more);
      items := [Arg(w)] + tail;
      assert items[1..] == tail;
      OneArg(toks, w, dests, more, tail, rest);
      Associate(argv, [w], Args(more));
      Associate(rs, q.value, Tos(more));
    }
  }

  lemma OneArg(toks: seq<Token>, w: string, dests: seq<Dest>, more: seq<Item>, tail: seq<Item>, rest: seq<Token>)
    requires toks != [] && toks[0] == Word(w) && toks[1..] == DestsTokens(dests) + (ItemsTokens(more) + rest)
    requires ItemsTokens(tail) == DestsTokens(dests) + ItemsTokens(more) && Args(tail) == Args(more)
    ensures toks == ItemsTokens([Arg(w)] + tail) + rest && Args([Arg(w)] + tail) == [w] + Args(more) && Tos([Arg(w)] + tail) == Tos(tail)
  {
    var items := [Arg(w)] + tail;
    assert items[1..] == tail && items[0].w == w;
    ItemsUnfold(items);
    hide ItemsTokens, DestsTokens, Args, Tos;
    assert toks == [Word(w)] + toks[1..];
    Regroup([Word(w)], DestsTokens(dests), ItemsTokens(more), rest);
  }

  lemma ExecWords(s: string, c: Command, s': string)
    requires Text(s) && ParseExec(s) == Ok(c, s') && !Starts(s, "(")
    ensures ParseRedirs(s).Ok? && Text(ParseRedirs(s).rest)
    ensures ParseArgs([], ParseRedirs(s).value, ParseRedirs(s).rest) == Ok(c, s')
  {
    hide Starts, ParseRedirs, ParseArgs, ParseLine, GetToken;
  }

  lemma ExecBlock(s: string, c: Command, s': string)
    requires Text(s) && ParseExec(s) == Ok(c, s') && Starts(s, "(")
    ensures var s1 := GetToken(s).1; Text(s1) && |s1| < |s| && ParseLine(s1).Ok?
    ensures var p := ParseLine(GetToken(s).1); Text(p.rest) && Starts(p.rest, ")") && Text(GetToken(p.rest).1)
    ensures var p := ParseLine(GetToken(s).1); var q := ParseRedirs(GetToken(p.rest).1);
      q.Ok? && c == Redirected(p.value, q.value) && s' == q.rest
  {
    hide ParseRedirs, ParseArgs, ParseLine, GetToken, Redirected;
    RestIsText(s);
    var p := ParseLine(GetToken(s).1);
    if p.Ok? { RestIsText(p.rest); }
  }

  lemma {:induction false} UnitRead(s: string, toks: seq<Token>, gaps: seq<string>, c: Command, s': string)
    returns (u: Unit, rest: seq<Token>, g: seq<string>)
    requires At(s, toks, gaps) && Text(s) && ParseExec(s) == Ok(c, s')
    ensures toks == UnitTokens(u) + rest && At(s', rest, g) && c == MeansUnit(u) && ShortUnit(u)
    decreases |s|, 0
  {
    hide GetToken, SkipBlanks, Left, At, FromToken, Spelled, Starts, ParseArgs, ParseRedirs, ParseExec, ParseLine, Redirected, LineTokens;
    if Starts(s, "(") {
      ExecBlock(s, c, s');
      SignAhead(s, toks, gaps, '(');
      var s1 := GetToken(s).1;
      var p := ParseLine(s1);
      var l, rest1, g1 := LineRead(s1, toks[1..], gaps[1..], p.value, p.rest);
      SignAhead(p.rest, rest1, g1, ')');
      var q := ParseRedirs(GetToken(p.rest).1);
      var dests;
      dests, rest, g := RedirsRead(GetToken(p.rest).1, rest1[1..], g1[1..], q.value, q.rest);
      u := Block(l, dests);
      BlockUnfold(l, dests, rest);
      assert toks == [Sign('(')] + toks[1..] && rest1 == [Sign(')')] + rest1[1..];
    } else {
      ExecWords(s, c, s');
      var q := ParseRedirs(s);
      var dests, rest1, g1 := RedirsRead(s, toks, gaps, q.value, q.rest);
      var more;
      more, rest, g := ArgsRead(q.rest, rest1, g1, [], q.value, c, s');
      var items := DestItems(dests, more);
      u := Simple(items);
      Regroup([], DestsTokens(dests), ItemsTokens(more), rest);
      assert [] + Args(more) == Args(more);
    }
  }

  lemma PipeRest(s: string, c: Command, s': string)
    requires Text(s) && ParsePipe(s) == Ok(c, s')
    ensures ParseExec(s).Ok? && Text(ParseExec(s).rest) && |ParseExec(s).rest| <= |s|
    ensures var p := ParseExec(s);
      if Starts(p.rest, "|") then
        var s2 := GetToken(p.rest).1;
        && Text(s2) && |s2| < |s| && ParsePipe(s2).Ok? && c == Pipe(p.value, ParsePipe(s2).value) && s' == ParsePipe(s2).rest
      else c == p.value && s' == SkipBlanks(p.rest)
  {
    hide ParseExec, GetToken, SkipBlanks;
    var p := ParseExec(s);
    if p.Ok? { RestIsText(p.rest); }
  }

  lemma {:induction false} PipeRead(s: string, toks: seq<Token>, gaps: seq<string>, c: Command, s': string)
    returns (p: Pipeline, rest: seq<Token>, g: seq<string>)
    requires At(s, toks, gaps) && Text(s) && ParsePipe(s) == Ok(c, s')
    ensures toks == PipeTokens(p) + rest && At(s', rest, g) && c == MeansPipe(p) && ShortPipe(p)
    decreases |s|, 1
  {
    hide GetToken, SkipBlanks, Left, At, FromToken, Spelled, Starts, ParseExec, ParsePipe, UnitTokens;
    PipeRest(s, c, s');
    var q := ParseExec(s);
    var u, rest1, g1 := UnitRead(s, toks, gaps, q.value, q.rest);
    if Starts(q.rest, "|") {
      SignAhead(q.rest, rest1, g1, '|');
      var s2 := GetToken(q.rest).1;
      var next;
      next, rest, g := PipeRead(s2, rest1[1..], g1[1..], ParsePipe(s2).value, s');
      p := Into(u, next);
      assert rest1 == [Sign('|')] + rest1[1..];
      Regroup(UnitTokens(u), [Sign('|')], PipeTokens(next), rest);
    } else {
      p, rest, g := One(u), rest1, g1;
      Same(q.rest, rest1, g1);
    }
  }

  lemma BacksRest(c0: Command, s: string, c: Command, s': string)
    requires Text(s) && ParseBacks(c0, s) == Ok(c, s')
    ensures if Starts(s, "&") then
              var s1 := GetToken(s).1; Text(s1) && |s1| < |s| && ParseBacks(Back(c0), s1) == Ok(c, s')
            else if Starts(s, ";") then
              var s1 := GetToken(s).1;
              Text(s1) && |s1| < |s| && ParseLine(s1).Ok? && c == List(c0, ParseLine(s1).value) && s' == ParseLine(s1).rest
            else c == c0 && s' == SkipBlanks(s)
  {
    hide ParseLine, GetToken, SkipBlanks;
    RestIsText(s);
  }

  /** Behind a pipeline: so many '&', and then perhaps a line. */
  lemma {:induction false} BacksRead(s: string, toks: seq<Token>, gaps: seq<string>, c0: Command, c: Command, s': string)
    returns (n: nat, next: seq<Line>, rest: seq<Token>, g: seq<string>)
    requires At(s, toks, gaps) && Text(s) && ParseBacks(c0, s) == Ok(c, s')
    ensures At(s', rest, g) && |next| <= 1
    ensures next == [] ==> toks == Amps(n) + rest && c == Backed(c0, n)
    ensures next != [] ==>
              && toks == Amps(n) + ([Sign(';')] + (LineTokens(next[0]) + rest)) && c == List(Backed(c0, n), MeansLine(next[0]))
              && ShortLine(next[0])
    decreases |s|, 0
  {
    hide GetToken, SkipBlanks, Left, At, FromToken, Spelled, Starts, ParseBacks, ParseLine, LineTokens, MeansLine, ShortLine;
    BacksRest(c0, s, c, s');
    if Starts(s, "&") {
      SignAhead(s, toks, gaps, '&');
      var m;
      m, next, rest, g := BacksRead(GetToken(s).1, toks[1..], gaps[1..], Back(c0), c, s');
      n := m + 1;
      assert Amps(n) == [Sign('&')] + Amps(m) && toks == [Sign('&')] + toks[1..];
    } else if Starts(s, ";") {
      SignAhead(s, toks, gaps, ';');
      var s1 := GetToken(s).1;
      var l;
      l, rest, g := LineRead(s1, toks[1..], gaps[1..], ParseLine(s1).value, s');
      n, next := 0, [l];
      assert Amps(0) == [] && toks == [] + ([Sign(';')] + toks[1..]);
    } else {
      n, next, rest, g := 0, [], toks, gaps;
      Same(s, toks, gaps);
      assert Amps(0) + toks == toks;
    }
  }

  lemma LineRest(s: string, c: Command, s': string)
    requires Text(s) && ParseLine(s) == Ok(c, s')
    ensures ParsePipe(s).Ok? && Text(ParsePipe(s).rest) && |ParsePipe(s).rest| <= |s|
    ensures ParseBacks(ParsePipe(s).value, ParsePipe(s).rest) == Ok(c, s')
  {
    hide ParsePipe, ParseBacks;
  }

  lemma {:induction false} LineRead(s: string, toks: seq<Token>, gaps: seq<string>, c: Command, s': string)
    returns (l: Line, rest: seq<Token>, g: seq<string>)
    requires At(s, toks, gaps) && Text(s) && ParseLine(s) == Ok(c, s')
    ensures toks == LineTokens(l) + rest && At(s', rest, g) && c == MeansLine(l) && ShortLine(l)
    decreases |s|, 2
  {
    hide GetToken, SkipBlanks, Left, At, FromToken, Spelled, Starts, ParseBacks, ParseLine, ParsePipe, PipeTokens;
    LineRest(s, c, s');
    var q := ParsePipe(s);
    var p, rest1, g1 := PipeRead(s, toks, gaps, q.value, q.rest);
    var n, next;
    n, next, rest, g := BacksRead(q.rest, rest1, g1, q.value, c, s');
    l := if next == [] then Last(p, n) else Then(p, n, next[0]);
    LineUnfold(l, rest);
  }

  /** Text parses exactly if it is a line that the parser takes, written somehow; and then it parses to
      the command that the line stands for. */
  lemma Language(s: string, c: Command)
    requires Text(s)
    ensures ParseCmd(s) == Ok(c, "") <==>
      exists l, gaps :: ShortLine(l) && Fits(LineTokens(l), gaps) && s == Spelled(LineTokens(l), gaps) && MeansLine(l) == c
  {
    hide ParseCmd, CanWrite, ShortLine, LineTokens, MeansLine, Spelled;
    if ParseCmd(s) == Ok(c, "") {
      var l, gaps := ParsedIsWritten(s, c);
    }
    if l, gaps :| ShortLine(l) && Fits(LineTokens(l), gaps) && s == Spelled(LineTokens(l), gaps) && MeansLine(l) == c {
      RoundTrip(l, gaps);
    }
  }

  lemma ParsedIsWritten(s: string, c: Command) returns (l: Line, gaps: seq<string>)
    requires Text(s) && ParseCmd(s).Ok? && ParseCmd(s).value == c
    ensures ShortLine(l) && Fits(LineTokens(l), gaps) && s == Spelled(LineTokens(l), gaps) && MeansLine(l) == c
  {
    hide ParseLine, SkipBlanks, At, GetToken, Starts;
    var toks;
    toks, gaps := Lexed(s);
    assert At(s, toks, gaps) by { Whole(s, toks, gaps); }
    var rest, g;
    l, rest, g := LineRead(s, toks, gaps, c, ParseLine(s).rest);
    assert rest == [] by { AllRead(ParseLine(s).rest, rest, g); }
    assert LineTokens(l) + [] == LineTokens(l);
  }

  lemma Whole(s: string, toks: seq<Token>, gaps: seq<string>)
    requires Fits(toks, gaps) && s == Spelled(toks, gaps)
    ensures At(s, toks, gaps)
  {
  }

  lemma AllRead(s: string, toks: seq<Token>, gaps: seq<string>)
    requires At(s, toks, gaps) && SkipBlanks(s) == ""
    ensures toks == []
  {
    Ahead(s, toks, gaps);
    SkipToToken(toks, gaps);
  }

  // ----- what is refused -----

  /** Words and redirections have been read, and no redirection is next. */
  lemma {:induction false} ItemsReach(s: string, argv: seq<string>, rs: seq<Redirection>, items: seq<Item>, rest: seq<Token>, gaps: seq<string>)
    returns (s': string, g: seq<string>)
    requires At(s, ItemsTokens(items) + rest, gaps) && !Leads(rest, "<>")
    requires (items == [] || items[0].Arg?) && |argv| + |Args(items)| < 10
    ensures Text(s) && Text(s') && At(s', rest, g)
    ensures ParseArgs(argv, rs, s) == ParseArgs(argv + Args(items), rs + Tos(items), s')
    decreases |items|
  {
    hide GetToken, Starts, ParseRedirs, ParseArgs, Redirected, At, Left, Leads, DestsTokens, DestTos, ItemsTokens, Args, Tos, Run;
    if items == [] {
      NoItems(rest, argv, rs);
      s', g := s, gaps;
      Length(s, rest, gaps);
    } else {
      var w := items[0].w;
      var (dests, more) := Run(items[1..]);
      FirstItem(items, rest, argv, rs);
      var behind := DestsTokens(dests) + (ItemsTokens(more) + rest);
      var s1 := Begins(s, Word(w), behind, gaps);
      WordLeads(s, w, behind, gaps);
      NoneNext(s1, dests, more, rest, gaps[1..]);
      var s2 := DestsParse(s1, dests, ItemsTokens(more) + rest, gaps[1..]);
      ItemsTurn(s, argv, rs, w, s1, DestTos(dests), s2);
      LeftIsAt(s2, ItemsTokens(more) + rest, gaps[1..][2 * |dests|..]);
      s', g := ItemsReach(s2, argv + [w], rs + DestTos(dests), more, rest, gaps[1..][2 * |dests|..]);
    }
  }

  lemma NoneNext(s: string, dests: seq<Dest>, more: seq<Item>, rest: seq<Token>, gaps: seq<string>)
    requires At(s, DestsTokens(dests) + (ItemsTokens(more) + rest), gaps) && !Leads(rest, "<>") && (more == [] || more[0].Arg?)
    ensures !Leads(ItemsTokens(more) + rest, "<>")
  {
    AllCanBeWritten(s, DestsTokens(dests), ItemsTokens(more) + rest, gaps);
    FirstOfItems(more, rest);
  }

  /** A line that begins with these words and redirections, one word at least. */
  lemma ExecReach(s: string, items: seq<Item>, rest: seq<Token>, gaps: seq<string>) returns (s': string, g: seq<string>)
    requires Fits(ItemsTokens(items) + rest, gaps) && s == Spelled(ItemsTokens(items) + rest, gaps)
    requires (items == [] || items[0].Arg?) && |Args(items)| < 10 && !Leads(rest, "<>") && (items == [] ==> rest != [] && rest[0].Word?)
    ensures Text(s) && Text(s') && At(s', rest, g) && ParseExec(s) == ParseArgs(Args(items), Tos(items), s')
  {
    hide GetToken, Starts, ParseArgs, Redirected, At, Left, Leads, DestsTokens, DestTos, ItemsTokens, Args, Tos, Run;
    Whole(s, ItemsTokens(items) + rest, gaps);
    FirstOfItems(items, rest);
    var toks := ItemsTokens(items) + rest;
    assert toks == [Word(toks[0].w)] + toks[1..];
    WordLeads(s, toks[0].w, toks[1..], gaps);
    Same(s, toks, gaps);
    s', g := ItemsReach(SkipBlanks(s), [], [], items, rest, gaps);
    assert [] + Args(items) == Args(items) && [] + Tos(items) == Tos(items);
  }

  lemma ExecFails(s: string, e: Panic)
    requires Text(s) && ParseExec(s) == Error(e)
    ensures ParseCmd(s) == Error(e)
  {
    hide ParseExec, ParseBacks, Starts, GetToken, SkipBlanks;
    assert ParsePipe(s) == Error(e);
    hide ParsePipe;
    assert ParseLine(s) == Error(e);
  }

  /** A tenth word is one too many. */
  lemma TooMany(items: seq<Item>, w: string, rest: seq<Token>, gaps: seq<string>)
    requires items != [] && items[0].Arg? && |Args(items)| == 9 && Fits(ItemsTokens(items) + ([Word(w)] + rest), gaps)
    ensures var s := Spelled(ItemsTokens(items) + ([Word(w)] + rest), gaps); Text(s) && ParseCmd(s) == Error(TooManyArgs)
  {
    hide GetToken, Starts, ParseExec, Redirected;
    var s := Spelled(ItemsTokens(items) + ([Word(w)] + rest), gaps);
    WordIsNext(items, w, rest, gaps);
    var s1, g := ExecReach(s, items, [Word(w)] + rest, gaps);
    WordLeads(s1, w, rest, g);
    var s2 := Begins(s1, Word(w), rest, g);
    ExecFails(s, TooManyArgs);
  }

  lemma WordIsNext(items: seq<Item>, w: string, rest: seq<Token>, gaps: seq<string>)
    requires Fits(ItemsTokens(items) + ([Word(w)] + rest), gaps)
    ensures !Leads([Word(w)] + rest, "<>")
  {
    var a := ItemsTokens(items);
    assert (a + ([Word(w)] + rest))[|a|] == Word(w);
    assert CanWrite((a + ([Word(w)] + rest))[|a|]);
  }

  /** A parenthesis does not follow a word. */
  lemma ParenBehindWord(items: seq<Item>, rest: seq<Token>, gaps: seq<string>)
    requires items != [] && items[0].Arg? && |Args(items)| < 10 && Fits(ItemsTokens(items) + ([Sign('(')] + rest), gaps)
    ensures var s := Spelled(ItemsTokens(items) + ([Sign('(')] + rest), gaps); Text(s) && ParseCmd(s) == Error(Syntax)
  {
    hide GetToken, Starts, ParseExec, ParseArgs, Redirected;
    var s := Spelled(ItemsTokens(items) + ([Sign('(')] + rest), gaps);
    SignLeads2('(', rest, "<>");
    var s1, g := ExecReach(s, items, [Sign('(')] + rest, gaps);
    ArgsParen(s1, Args(items), Tos(items), rest, g);
    ExecFails(s, Syntax);
  }

  lemma ArgsParen(s: string, argv: seq<string>, rs: seq<Redirection>, rest: seq<Token>, gaps: seq<string>)
    requires At(s, [Sign('(')] + rest, gaps)
    ensures Text(s) && ParseArgs(argv, rs, s) == Error(Syntax)
  {
    hide GetToken, Starts, Redirected, ParseRedirs;
    var s1 := Begins(s, Sign('('), rest, gaps);
    SignLeads2('(', [], "|)&;");
  }

  /** A line does not end with a parenthesis too many. */
  lemma Leftover(l: Line, rest: seq<Token>, gaps: seq<string>)
    requires ShortLine(l) && Fits(LineTokens(l) + ([Sign(')')] + rest), gaps)
    ensures var s := Spelled(LineTokens(l) + ([Sign(')')] + rest), gaps); Text(s) && ParseCmd(s) == Error(Syntax)
  {
    hide ParseLine, GetToken, Starts, LineTokens;
    var tail := [Sign(')')] + rest;
    var s := Spelled(LineTokens(l) + tail, gaps);
    Whole(s, LineTokens(l) + tail, gaps);
    SignLeads2(')', rest, ")");
    var s1 := LineParses(s, l, tail, gaps);
    Ahead(s1, tail, gaps[|LineTokens(l)|..]);
    SkipToToken(tail, gaps[|LineTokens(l)|..]);
  }

  /** ... or with one too few. */
  lemma ParenMissing(l: Line, gaps: seq<string>)
    requires ShortLine(l) && Fits([Sign('(')] + LineTokens(l), gaps)
    ensures var s := Spelled([Sign('(')] + LineTokens(l), gaps); Text(s) && ParseCmd(s) == Error(MissingParenthesis)
  {
    hide ParseLine, GetToken, Starts, LineTokens, ParseArgs, ParseRedirs, Redirected;
    var s := Spelled([Sign('(')] + LineTokens(l), gaps);
    Whole(s, [Sign('(')] + LineTokens(l), gaps);
    var s1 := Begins(s, Sign('('), LineTokens(l), gaps);
    SignLeads2('(', [], "(");
    assert LineTokens(l) + [] == LineTokens(l);
    var s2 := LineParses(s1, l, [], gaps[1..]);
    var g := gaps[1..][|LineTokens(l)|..];
    LeftIsAt(s2, [], g);
    Ahead(s2, [], g);
    RestIsText(s);
    assert ParseExec(s) == Error(MissingParenthesis);
    ExecFails(s, MissingParenthesis);
  }

  /** A redirection needs a word behind its sign. w is the last word before it. */
  lemma FileMissing(items: seq<Item>, w: string, t: Token, rest: seq<Token>, gaps: seq<string>)
    requires |Args(items)| < 9 && (items == [] || items[0].Arg?) && (t == Sign('<') || t == Sign('>') || t == Append)
    requires rest == [] || !rest[0].Word?
    requires Fits(ItemsTokens(items) + ([Word(w)] + ([t] + rest)), gaps)
    ensures var s := Spelled(ItemsTokens(items) + ([Word(w)] + ([t] + rest)), gaps); Text(s) && ParseCmd(s) == Error(MissingFile)
  {
    hide GetToken, Starts, ParseExec, Redirected, ParseRedirs;
    var tail := [Word(w)] + ([t] + rest);
    var s := Spelled(ItemsTokens(items) + tail, gaps);
    WordIsNext(items, w, [t] + rest, gaps);
    var s1, g := ExecReach(s, items, tail, gaps);
    WordLeads(s1, w, [t] + rest, g);
    var s2 := Begins(s1, Word(w), [t] + rest, g);
    NoFile(s2, t, rest, g[1..]);
    RestIsText(s1);
    assert ParseArgs(Args(items), Tos(items), s1) == Error(MissingFile);
    ExecFails(s, MissingFile);
  }

  lemma NoFile(s: string, t: Token, rest: seq<Token>, gaps: seq<string>)
    requires At(s, [t] + rest, gaps) && (t == Sign('<') || t == Sign('>') || t == Append) && (rest == [] || !rest[0].Word?)
    ensures Text(s) && ParseRedirs(s) == Error(MissingFile)
  {
    hide GetToken, Starts;
    var s1 := Begins(s, t, rest, gaps);
    Ahead(s1, rest, gaps[1..]);
    RestIsText(s);
    RestIsText(s1);
  }
}
