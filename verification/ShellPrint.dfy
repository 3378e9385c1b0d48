/** Every way to write a command: blanks anywhere between tokens, either sign for output, and
    redirections before, among and after the words, each of which parses back; and that every
    command can be written. */
module ShellPrint {
  import opened ShellGrammar

  // ----- how tokens are written -----

  predicate Blanks(g: string) {
    forall i :: 0 <= i < |g| ==> g[i] in " \t\r\n\U{0B}"
  }

  predicate IsWord(w: string) {
    w != [] && forall i :: 0 <= i < |w| ==> w[i] !in " \t\r\n\U{0B}" && w[i] !in "<|>&;()" && w[i] != '\0'
  }

  function Written(t: Token): string {
    match t
    case End => ""
    case Sign(c) => [c]
    case Append => ">>"
    case Word(w) => w
  }

  predicate CanWrite(t: Token) {
    match t
    case End => false
    case Sign(c) => c in "<|>&;()"
    case Append => true
    case Word(w) => IsWord(w)
  }

  /** Without a blank between them these two would be read as one. */
  predicate Merge(t: Token, u: Token) {
    (t.Word? && u.Word?) || (t == Sign('>') && (u == Sign('>') || u == Append))
  }

  /** The tokens with gaps before, between and behind them. */
  function Spelled(toks: seq<Token>, gaps: seq<string>): string
    requires |gaps| == |toks| + 1
  {
    if toks == [] then gaps[0] else gaps[0] + (Written(toks[0]) + Spelled(toks[1..], gaps[1..]))
  }

  /** The gaps are blanks, and there are some where they are needed. */
  predicate Fits(toks: seq<Token>, gaps: seq<string>) {
    && |gaps| == |toks| + 1
    && (forall i :: 0 <= i < |gaps| ==> Blanks(gaps[i]))
    && (forall i :: 0 <= i < |toks| ==> CanWrite(toks[i]))
    && (forall i :: 0 < i < |toks| ==> Merge(toks[i - 1], toks[i]) ==> gaps[i] != "")
  }

  lemma FitsTail(toks: seq<Token>, gaps: seq<string>)
    requires Fits(toks, gaps) && toks != []
    ensures Fits(toks[1..], gaps[1..])
  {
    forall i | 0 < i < |toks[1..]| && Merge(toks[1..][i - 1], toks[1..][i]) ensures gaps[1..][i] != "" {
      assert Merge(toks[i], toks[i + 1]);
    }
  }

  lemma JoinedText(a: string, b: string)
    ensures Text(a + b) <==> Text(a) && Text(b)
  {
    assert forall i :: 0 <= i < |a| ==> (a + b)[i] == a[i];
    assert forall i :: 0 <= i < |b| ==> (a + b)[|a| + i] == b[i];
  }

  lemma {:induction false} SpelledText(toks: seq<Token>, gaps: seq<string>)
    requires Fits(toks, gaps)
    ensures Text(Spelled(toks, gaps))
    decreases |toks|
  {
    if toks != [] {
      FitsTail(toks, gaps);
      SpelledText(toks[1..], gaps[1..]);
      JoinedText(Written(toks[0]), Spelled(toks[1..], gaps[1..]));
      JoinedText(gaps[0], Written(toks[0]) + Spelled(toks[1..], gaps[1..]));
      assert CanWrite(toks[0]) && Blanks(gaps[0]);
    } else {
      assert Blanks(gaps[0]);
    }
  }

  // ----- how they are read -----

  lemma {:induction false} SkipGap(g: string, s: string)
    requires Blanks(g) && (s == [] || !Blank(s[0]))
    ensures SkipBlanks(g + s) == s
    decreases |g|
  {
    if g == "" {
      assert g + s == s;
    } else {
      assert (g + s)[1..] == g[1..] + s;
      SkipGap(g[1..], s);
    }
  }

  /** What is left once the gap is skipped. */
  function FromToken(toks: seq<Token>, gaps: seq<string>): string
    requires |gaps| == |toks| + 1
  {
    if toks == [] then "" else Written(toks[0]) + Spelled(toks[1..], gaps[1..])
  }

  lemma SkipToToken(toks: seq<Token>, gaps: seq<string>)
    requires Fits(toks, gaps)
    ensures SkipBlanks(Spelled(toks, gaps)) == FromToken(toks, gaps)
    ensures toks != [] ==> FromToken(toks, gaps) != [] && FromToken(toks, gaps)[0] == Written(toks[0])[0] && !Blank(FromToken(toks, gaps)[0])
  {
    assert Blanks(gaps[0]) && (toks != [] ==> CanWrite(toks[0]));
    var s := FromToken(toks, gaps);
    if toks != [] { assert s[0] == Written(toks[0])[0]; }
    SkipGap(gaps[0], s);
    assert toks == [] ==> gaps[0] + s == gaps[0];
  }

  /** What comes directly behind a token does not continue it. */
  lemma Behind(toks: seq<Token>, gaps: seq<string>)
    requires Fits(toks, gaps) && toks != []
    ensures var r := Spelled(toks[1..], gaps[1..]);
      r == [] || ((toks[0].Word? ==> !WordChar(r[0])) && (toks[0] == Sign('>') ==> r[0] != '>'))
  {
    FitsTail(toks, gaps);
    var r := Spelled(toks[1..], gaps[1..]);
    if gaps[1] != "" {
      assert Blanks(gaps[1]) && r[0] == gaps[1][0];
    } else if |toks| > 1 {
      assert !Merge(toks[0], toks[1]) && CanWrite(toks[1]);
      assert r == "" + (Written(toks[1]) + Spelled(toks[2..], gaps[2..])) by {
        assert toks[1..][1..] == toks[2..] && gaps[1..][1..] == gaps[2..];
      }
      assert r[0] == Written(toks[1])[0];
    }
  }

  lemma {:induction false} WordEnds(w: string, rest: string)
    requires (forall i :: 0 <= i < |w| ==> WordChar(w[i])) && (rest == [] || !WordChar(rest[0]))
    ensures WordLength(w + rest) == |w|
    decreases |w|
  {
    if w == "" {
      assert w + rest == rest;
    } else {
      assert (w + rest)[1..] == w[1..] + rest;
      WordEnds(w[1..], rest);
    }
  }

  /** The first token of what has been written is the first that was written. */
  lemma TokenReads(toks: seq<Token>, gaps: seq<string>)
    requires Fits(toks, gaps) && toks != []
    ensures FirstToken(FromToken(toks, gaps)) == (toks[0], |Written(toks[0])|)
  {
    var s, r := FromToken(toks, gaps), Spelled(toks[1..], gaps[1..]);
    Behind(toks, gaps);
    assert CanWrite(toks[0]);
    match toks[0]
    case Word(w) =>
      WordEnds(w, r);
      assert s[0] == w[0] && s[..|w|] == w;
    case Append => assert s[0] == '>' && s[1] == '>';
    case Sign(c) => assert s[0] == c && (r != [] ==> s[1] == r[0]);
  }

  /** s is what has been written, from a gap or from the token behind it on. */
  predicate At(s: string, toks: seq<Token>, gaps: seq<string>) {
    Fits(toks, gaps) && (s == Spelled(toks, gaps) || s == FromToken(toks, gaps))
  }

  predicate Leads(toks: seq<Token>, signs: string) {
    toks != [] && Written(toks[0]) != "" && Written(toks[0])[0] in signs
  }

  /** What gettoken() and peek() see. */
  lemma Ahead(s: string, toks: seq<Token>, gaps: seq<string>)
    requires At(s, toks, gaps)
    ensures |gaps| == |toks| + 1 && Text(s) && SkipBlanks(s) == FromToken(toks, gaps)
    ensures toks == [] ==> GetToken(s) == (End, "")
    ensures toks != [] ==>
              && GetToken(s) == (toks[0], FromToken(toks[1..], gaps[1..]))
              && At(GetToken(s).1, toks[1..], gaps[1..])
    ensures forall signs :: Starts(s, signs) <==> Leads(toks, signs)
  {
    SpelledText(toks, gaps);
    SkipToToken(toks, gaps);
    var f := FromToken(toks, gaps);
    SkipTwice(Spelled(toks, gaps));
    JoinedText(gaps[0], f);
    assert toks == [] ==> gaps[0] + f == gaps[0];
    if toks != [] {
      FitsTail(toks, gaps);
      TokenReads(toks, gaps);
      SkipToToken(toks[1..], gaps[1..]);
      assert f[|Written(toks[0])|..] == Spelled(toks[1..], gaps[1..]);
      assert CanWrite(toks[0]);
    }
  }

  // ----- phrases -----

  /** A redirection as it is written: for output with one sign or two. */
  datatype Dest = Dest(to: Redirection, twice: bool)

  datatype Item = Arg(w: string) | To(dest: Dest)

  /** Words and redirections in any order, or a line in parentheses and redirections. */
  datatype Unit = Simple(items: seq<Item>) | Block(line: Line, dests: seq<Dest>)

  datatype Pipeline = One(unit: Unit) | Into(unit: Unit, next: Pipeline)

  /** A pipeline with so many '&' behind it, perhaps followed by ';' and another line. */
  datatype Line = Last(first: Pipeline, backs: nat) | Then(first: Pipeline, backs: nat, next: Line)

  function Args(items: seq<Item>): seq<string> {
    if items == [] then []
    else match items[0]
      case Arg(w) => [w] + Args(items[1..])
      case To(_) => Args(items[1..])
  }

  function Tos(items: seq<Item>): seq<Redirection> {
    if items == [] then []
    else match items[0]
      case Arg(_) => Tos(items[1..])
      case To(d) => [d.to] + Tos(items[1..])
  }

  function DestTos(dests: seq<Dest>): seq<Redirection> {
    if dests == [] then [] else [dests[0].to] + DestTos(dests[1..])
  }

  function Backed(c: Command, n: nat): Command
    decreases n
  {
    if n == 0 then c else Backed(Back(c), n - 1)
  }

  /** The command that a line stands for. */
  function MeansLine(l: Line): Command {
    match l
    case Last(p, n) => Backed(MeansPipe(p), n)
    case Then(p, n, next) => List(Backed(MeansPipe(p), n), MeansLine(next))
  }

  function MeansPipe(p: Pipeline): Command {
    match p
    case One(u) => MeansUnit(u)
    case Into(u, next) => Pipe(MeansUnit(u), MeansPipe(next))
  }

  function MeansUnit(u: Unit): Command {
    match u
    case Simple(items) => Redirected(Exec(Args(items)), Tos(items))
    case Block(l, dests) => Redirected(MeansLine(l), DestTos(dests))
  }

  function DestTokens(d: Dest): seq<Token> {
    [if !d.to.out then Sign('<') else if d.twice then Append else Sign('>'), Word(d.to.file)]
  }

  function DestsTokens(dests: seq<Dest>): seq<Token> {
    if dests == [] then [] else DestTokens(dests[0]) + DestsTokens(dests[1..])
  }

  function ItemTokens(i: Item): seq<Token> {
    match i
    case Arg(w) => [Word(w)]
    case To(d) => DestTokens(d)
  }

  function ItemsTokens(items: seq<Item>): seq<Token> {
    if items == [] then [] else ItemTokens(items[0]) + ItemsTokens(items[1..])
  }

  function Amps(n: nat): seq<Token> {
    seq(n, _ => Sign('&'))
  }

  function LineTokens(l: Line): seq<Token> {
    match l
    case Last(p, n) => PipeTokens(p) + Amps(n)
    case Then(p, n, next) => PipeTokens(p) + (Amps(n) + ([Sign(';')] + LineTokens(next)))
  }

  function PipeTokens(p: Pipeline): seq<Token> {
    match p
    case One(u) => UnitTokens(u)
    case Into(u, next) => UnitTokens(u) + ([Sign('|')] + PipeTokens(next))
  }

  function UnitTokens(u: Unit): seq<Token> {
    match u
    case Simple(items) => ItemsTokens(items)
    case Block(l, dests) => [Sign('(')] + (LineTokens(l) + ([Sign(')')] + DestsTokens(dests)))
  }

  /** The parser takes so many words and no more. */
  predicate ShortLine(l: Line) {
    match l
    case Last(p, _) => ShortPipe(p)
    case Then(p, _, next) => ShortPipe(p) && ShortLine(next)
  }

  predicate ShortPipe(p: Pipeline) {
    match p
    case One(u) => ShortUnit(u)
    case Into(u, next) => ShortUnit(u) && ShortPipe(next)
  }

  predicate ShortUnit(u: Unit) {
    match u
    case Simple(items) => |Args(items)| < 10
    case Block(l, _) => ShortLine(l)
  }

  // ----- how phrases are parsed -----

  /** s is what is left when the next of these tokens is at hand. */
  predicate Left(s: string, toks: seq<Token>, gaps: seq<string>) {
    Fits(toks, gaps) && s == FromToken(toks, gaps)
  }

  lemma LeftIsAt(s: string, toks: seq<Token>, gaps: seq<string>)
    requires Left(s, toks, gaps)
    ensures At(s, toks, gaps)
  {
  }

  lemma Slices(gaps: seq<string>, n: nat, m: nat)
    requires n + m <= |gaps|
    ensures gaps[n..][m..] == gaps[n + m..]
  {
  }

  lemma Length(s: string, toks: seq<Token>, gaps: seq<string>)
    requires At(s, toks, gaps)
    ensures |gaps| == |toks| + 1 && Text(s) && gaps[0..] == gaps
    ensures toks == [] ==> SkipBlanks(s) == ""
  {
    Ahead(s, toks, gaps);
  }

  /** The first token of a phrase has been read. */
  lemma Begins(s: string, t: Token, rest: seq<Token>, gaps: seq<string>) returns (s1: string)
    requires At(s, [t] + rest, gaps)
    ensures |gaps| == |rest| + 2 && Text(s) && Text(s1) && GetToken(s) == (t, s1)
    ensures Left(s1, rest, gaps[1..]) && At(s1, rest, gaps[1..])
    ensures forall signs :: Starts(s, signs) <==> Leads([t], signs)
  {
    hide GetToken, Starts, Spelled, Fits, FromToken;
    Ahead(s, [t] + rest, gaps);
    assert ([t] + rest)[1..] == rest;
    s1 := GetToken(s).1;
    AtLeft([t] + rest, gaps);
    Ahead(s1, rest, gaps[1..]);
  }

  lemma AtLeft(toks: seq<Token>, gaps: seq<string>)
    requires Fits(toks, gaps) && toks != []
    ensures Fits(toks[1..], gaps[1..])
  {
    FitsTail(toks, gaps);
  }

  /** Only blanks, or a phrase behind this one. */
  lemma Skips(s: string, rest: seq<Token>, gaps: seq<string>) returns (s1: string)
    requires At(s, rest, gaps)
    ensures |gaps| == |rest| + 1 && Text(s) && Left(s1, rest, gaps) && SkipBlanks(s) == s1
    ensures rest == [] ==> s1 == "" && GetToken(s) == (End, "")
    ensures forall signs :: Starts(s, signs) <==> Leads(rest, signs)
  {
    hide Spelled, Starts, GetToken;
    Ahead(s, rest, gaps);
    s1 := SkipBlanks(s);
  }

  // ----- redirections and words -----

  lemma RedirsEnd(s: string, s1: string)
    requires Text(s) && !Starts(s, "<>") && SkipBlanks(s) == s1
    ensures ParseRedirs(s) == Ok([], s1)
  {
  }

  lemma RedirsTurn(s: string, t: Token, s1: string, file: string, s2: string, more: seq<Redirection>, s3: string)
    requires Text(s) && Starts(s, "<>") && GetToken(s) == (t, s1) && Text(s1) && GetToken(s1) == (Word(file), s2)
    requires Text(s2) && ParseRedirs(s2) == Ok(more, s3)
    ensures ParseRedirs(s) == Ok([Redirection(file, t != Sign('<'))] + more, s3)
  {
    hide GetToken, Starts;
    RestIsText(s);
  }

  lemma {:induction false} DestsParse(s: string, dests: seq<Dest>, rest: seq<Token>, gaps: seq<string>) returns (s': string)
    requires At(s, DestsTokens(dests) + rest, gaps) && !Leads(rest, "<>")
    ensures Text(s) && |DestsTokens(dests)| == 2 * |dests| && |gaps| == 2 * |dests| + |rest| + 1
    ensures ParseRedirs(s) == Ok(DestTos(dests), s') && Left(s', rest, gaps[2 * |dests|..])
    decreases |dests|
  {
    hide GetToken, Starts, At, Left, ParseRedirs, Leads, SkipBlanks;
    if dests == [] {
      assert DestsTokens(dests) + rest == rest;
      s' := Skips(s, rest, gaps);
      RedirsEnd(s, s');
      Length(s, rest, gaps);
    } else {
      var d, more := dests[0], DestsTokens(dests[1..]);
      var t, f := DestTokens(d)[0], Word(d.to.file);
      assert DestTokens(d) == [t, f];
      assert DestsTokens(dests) + rest == [t] + ([f] + (more + rest));
      var s1 := Begins(s, t, [f] + (more + rest), gaps);
      assert Leads([t], "<>") by { SignLeads(d); }
      var s2 := Begins(s1, f, more + rest, gaps[1..]);
      Slices(gaps, 1, 1);
      s' := DestsParse(s2, dests[1..], rest, gaps[2..]);
      Slices(gaps, 2, 2 * |dests[1..]|);
      RedirsTurn(s, t, s1, d.to.file, s2, DestTos(dests[1..]), s');
    }
  }

  lemma SignLeads(d: Dest)
    ensures Leads([DestTokens(d)[0]], "<>") && Redirection(d.to.file, DestTokens(d)[0] != Sign('<')) == d.to
  {
  }

  /** The redirections that items begin with, and the rest. */
  function Run(items: seq<Item>): (r: (seq<Dest>, seq<Item>))
    ensures (r.1 == [] || r.1[0].Arg?) && |r.1| <= |items|
  {
    if items == [] || items[0].Arg? then ([], items)
    else var (dests, rest) := Run(items[1..]); ([items[0].dest] + dests, rest)
  }

  lemma {:induction false} RunIs(items: seq<Item>)
    ensures var (dests, rest) := Run(items);
      && ItemsTokens(items) == DestsTokens(dests) + ItemsTokens(rest)
      && Args(items) == Args(rest) && Tos(items) == DestTos(dests) + Tos(rest)
    decreases |items|
  {
    if items == [] || items[0].Arg? {
      assert [] + ItemsTokens(items) == ItemsTokens(items);
    } else {
      RunIs(items[1..]);
      var (dests, rest) := Run(items[1..]);
      var all := [items[0].dest] + dests;
      assert all[1..] == dests;
      hide DestTokens;
      assert DestsTokens(all) == DestTokens(items[0].dest) + DestsTokens(dests);
      assert DestTos(all) == [items[0].dest.to] + DestTos(dests);
    }
  }

  /** Behind a run of redirections there is none. */
  lemma NoRedirection(s: string, dests: seq<Dest>, more: seq<Item>, rest: seq<Token>, gaps: seq<string>)
    requires At(s, DestsTokens(dests) + (ItemsTokens(more) + rest), gaps)
    requires (rest == [] || Leads(rest, "|)&;")) && (more == [] || more[0].Arg?)
    ensures !Leads(ItemsTokens(more) + rest, "<>")
  {
    AllCanBeWritten(s, DestsTokens(dests), ItemsTokens(more) + rest, gaps);
    FirstOfItems(more, rest);
  }

  lemma AllCanBeWritten(s: string, a: seq<Token>, b: seq<Token>, gaps: seq<string>)
    requires At(s, a + b, gaps)
    ensures b != [] ==> CanWrite(b[0])
  {
    if b != [] { assert (a + b)[|a|] == b[0]; }
  }

  lemma FirstOfItems(more: seq<Item>, rest: seq<Token>)
    requires more == [] || more[0].Arg?
    ensures more == [] ==> ItemsTokens(more) + rest == rest
    ensures more != [] ==> ItemsTokens(more) + rest != [] && (ItemsTokens(more) + rest)[0] == Word(more[0].w)
  {
    if more != [] { ItemsUnfold(more); }
  }

  lemma ItemsUnfold(items: seq<Item>)
    requires items != [] && items[0].Arg?
    ensures ItemsTokens(items) == [Word(items[0].w)] + ItemsTokens(items[1..])
    ensures Args(items) == [items[0].w] + Args(items[1..]) && Tos(items) == Tos(items[1..])
  {
  }

  lemma ItemsEnd(s: string, argv: seq<string>, rs: seq<Redirection>, rest: seq<Token>, gaps: seq<string>) returns (s': string)
    requires At(s, rest, gaps) && (rest == [] || Leads(rest, "|)&;"))
    ensures Text(s) && |gaps| == |rest| + 1 && gaps[0..] == gaps
    ensures ParseArgs(argv, rs, s) == Ok(Redirected(Exec(argv), rs), s') && Left(s', rest, gaps)
  {
    hide GetToken, Starts, Redirected, Left, SkipBlanks;
    s' := Skips(s, rest, gaps);
  }

  lemma ItemsTurn(s: string, argv: seq<string>, rs: seq<Redirection>, w: string, s1: string, more: seq<Redirection>, s2: string)
    requires Text(s) && !Starts(s, "|)&;") && GetToken(s) == (Word(w), s1) && |argv| + 1 < 10
    requires Text(s1) && ParseRedirs(s1) == Ok(more, s2)
    ensures Text(s2) && ParseArgs(argv, rs, s) == ParseArgs(argv + [w], rs + more, s2)
  {
    hide GetToken, Starts, ParseRedirs;
    RestIsText(s);
  }

  lemma WordLeads(s: string, w: string, rest: seq<Token>, gaps: seq<string>)
    requires At(s, [Word(w)] + rest, gaps)
    ensures Text(s) && !Starts(s, "|)&;") && !Starts(s, "(") && !Starts(s, "<>")
  {
    hide GetToken, Starts, Spelled;
    var s1 := Begins(s, Word(w), rest, gaps);
    assert CanWrite(([Word(w)] + rest)[0]);
  }

  /** The loop of parseexec() over words and what is between them. */
  lemma {:induction false} ItemsParse(s: string, argv: seq<string>, rs: seq<Redirection>, items: seq<Item>, rest: seq<Token>, gaps: seq<string>)
    returns (s': string)
    requires At(s, ItemsTokens(items) + rest, gaps) && (rest == [] || Leads(rest, "|)&;"))
    requires (items == [] || items[0].Arg?) && |argv| + |Args(items)| < 10
    ensures Text(s) && |gaps| == |ItemsTokens(items)| + |rest| + 1
    ensures ParseArgs(argv, rs, s) == Ok(Redirected(Exec(argv + Args(items)), rs + Tos(items)), s')
    ensures Left(s', rest, gaps[|ItemsTokens(items)|..])
    decreases |items|
  {
    hide GetToken, Starts, ParseRedirs, ParseArgs, Redirected, At, Left, Leads, DestsTokens, DestTos, ItemsTokens, Args, Tos, Run;
    if items == [] {
      NoItems(rest, argv, rs);
      s' := ItemsEnd(s, argv, rs, rest, gaps);
    } else {
      var w := items[0].w;
      var (dests, more) := Run(items[1..]);
      FirstItem(items, rest, argv, rs);
      var behind := DestsTokens(dests) + (ItemsTokens(more) + rest);
      var s1 := Begins(s, Word(w), behind, gaps);
      WordLeads(s, w, behind, gaps);
      NoRedirection(s1, dests, more, rest, gaps[1..]);
      var s2 := DestsParse(s1, dests, ItemsTokens(more) + rest, gaps[1..]);
      ItemsTurn(s, argv, rs, w, s1, DestTos(dests), s2);
      var n := 2 * |dests|;
      LeftIsAt(s2, ItemsTokens(more) + rest, gaps[1..][n..]);
      s' := ItemsParse(s2, argv + [w], rs + DestTos(dests), more, rest, gaps[1..][n..]);
      Slices(gaps, 1, n);
      Slices(gaps, 1 + n, |ItemsTokens(more)|);
    }
  }

  lemma NoItems(rest: seq<Token>, argv: seq<string>, rs: seq<Redirection>)
    ensures ItemsTokens([]) + rest == rest && argv + Args([]) == argv && rs + Tos([]) == rs && ItemsTokens([]) == []
  {
  }

  /** A word, the redirections behind it, and more items. */
  lemma FirstItem(items: seq<Item>, rest: seq<Token>, argv: seq<string>, rs: seq<Redirection>)
    requires items != [] && items[0].Arg?
    ensures var w := items[0].w; var (dests, more) := Run(items[1..]);
      && ItemsTokens(items) + rest == [Word(w)] + (DestsTokens(dests) + (ItemsTokens(more) + rest))
      && |ItemsTokens(items)| == 1 + |DestsTokens(dests)| + |ItemsTokens(more)|
      && (argv + [w]) + Args(more) == argv + Args(items) && |Args(items)| == 1 + |Args(more)|
      && (rs + DestTos(dests)) + Tos(more) == rs + Tos(items)
      && |more| < |items| && (more == [] || more[0].Arg?)
  {
    RunIs(items[1..]);
    RunShort(items[1..]);
    ItemsUnfold(items);
    hide ItemsTokens, DestsTokens, Args, Tos, DestTos, Run;
    var (dests, more) := Run(items[1..]);
    Regroup([Word(items[0].w)], DestsTokens(dests), ItemsTokens(more), rest);
    Associate(argv, [items[0].w], Args(more));
    Associate(rs, DestTos(dests), Tos(more));
  }

  lemma RunShort(items: seq<Item>)
    ensures var (dests, more) := Run(items); |more| <= |items| && (more == [] || more[0].Arg?)
  {
  }

  lemma Associate<T>(a: seq<T>, b: seq<T>, c: seq<T>)
    ensures (a + b) + c == a + (b + c)
  {
  }

  lemma Regroup(a: seq<Token>, b: seq<Token>, c: seq<Token>, d: seq<Token>)
    ensures (a + (b + c)) + d == a + (b + (c + d)) && (b + c) + d == b + (c + d)
  {
  }

  // ----- units, pipelines and lines -----

  lemma WordsUnit(s: string, s1: string, rs: seq<Redirection>, argv: seq<string>, more: seq<Redirection>, s2: string)
    requires Text(s) && !Starts(s, "(") && ParseRedirs(s) == Ok(rs, s1) && Text(s1)
    requires ParseArgs([], rs, s1) == Ok(Redirected(Exec(argv), more), s2)
    ensures ParseExec(s) == Ok(Redirected(Exec(argv), more), s2)
  {
    hide Starts, ParseRedirs, ParseArgs, ParseLine, Redirected;
  }

  lemma BlockUnit(s: string, s1: string, c: Command, s2: string, s3: string, rs: seq<Redirection>, s4: string)
    requires Text(s) && Starts(s, "(") && GetToken(s).1 == s1 && Text(s1) && ParseLine(s1) == Ok(c, s2)
    requires Text(s2) && Starts(s2, ")") && GetToken(s2).1 == s3 && Text(s3) && ParseRedirs(s3) == Ok(rs, s4)
    ensures ParseExec(s) == Ok(Redirected(c, rs), s4)
  {
    hide Starts, ParseRedirs, ParseArgs, ParseLine, Redirected, GetToken;
    RestIsText(s);
    RestIsText(s2);
  }

  lemma SimpleParses(s: string, items: seq<Item>, rest: seq<Token>, gaps: seq<string>) returns (s': string)
    requires At(s, ItemsTokens(items) + rest, gaps) && (rest == [] || Leads(rest, "|)&;")) && |Args(items)| < 10
    ensures Text(s) && |gaps| == |ItemsTokens(items)| + |rest| + 1
    ensures ParseExec(s) == Ok(Redirected(Exec(Args(items)), Tos(items)), s') && Left(s', rest, gaps[|ItemsTokens(items)|..])
  {
    hide Starts, ParseRedirs, ParseArgs, ParseExec, Redirected, GetToken, Left, DestsTokens, DestTos, ItemsTokens, Args, Tos, Run;
    var (dests, more) := Run(items);
    RunSplit(items, rest);
    NoParen(s, dests, more, rest, gaps);
    NoRedirection(s, dests, more, rest, gaps);
    var s1 := DestsParse(s, dests, ItemsTokens(more) + rest, gaps);
    var n := 2 * |dests|;
    LeftIsAt(s1, ItemsTokens(more) + rest, gaps[n..]);
    s' := ItemsParse(s1, [], DestTos(dests), more, rest, gaps[n..]);
    Slices(gaps, n, |ItemsTokens(more)|);
    assert [] + Args(more) == Args(more);
    WordsUnit(s, s1, DestTos(dests), Args(items), Tos(items), s');
  }

  lemma RunSplit(items: seq<Item>, rest: seq<Token>)
    ensures var (dests, more) := Run(items);
      && ItemsTokens(items) + rest == DestsTokens(dests) + (ItemsTokens(more) + rest)
      && |ItemsTokens(items)| == |DestsTokens(dests)| + |ItemsTokens(more)|
      && Args(more) == Args(items) && Tos(items) == DestTos(dests) + Tos(more) && (more == [] || more[0].Arg?)
  {
    RunIs(items);
    hide ItemsTokens, DestsTokens, Args, Tos, DestTos, Run;
    var (dests, more) := Run(items);
    Regroup([], DestsTokens(dests), ItemsTokens(more), rest);
  }

  /** Words and redirections do not begin with a parenthesis. */
  lemma NoParen(s: string, dests: seq<Dest>, more: seq<Item>, rest: seq<Token>, gaps: seq<string>)
    requires At(s, DestsTokens(dests) + (ItemsTokens(more) + rest), gaps)
    requires (rest == [] || Leads(rest, "|)&;")) && (more == [] || more[0].Arg?)
    ensures Text(s) && !Starts(s, "(")
  {
    hide GetToken, Starts, Spelled, FromToken, DestsTokens, ItemsTokens, CanWrite, Leads;
    var all := DestsTokens(dests) + (ItemsTokens(more) + rest);
    Ahead(s, all, gaps);
    assert [] + all == all;
    AllCanBeWritten(s, [], all, gaps);
    NotParen(dests, more, rest);
  }

  lemma NotParen(dests: seq<Dest>, more: seq<Item>, rest: seq<Token>)
    requires (rest == [] || Leads(rest, "|)&;")) && (more == [] || more[0].Arg?)
    requires var all := DestsTokens(dests) + (ItemsTokens(more) + rest); all != [] ==> CanWrite(all[0])
    ensures !Leads(DestsTokens(dests) + (ItemsTokens(more) + rest), "(")
  {
    FirstOfItems(more, rest);
    FirstOfDests(dests, ItemsTokens(more) + rest);
    hide DestsTokens, ItemsTokens;
  }

  lemma FirstOfDests(dests: seq<Dest>, rest: seq<Token>)
    ensures dests == [] ==> DestsTokens(dests) + rest == rest
    ensures dests != [] ==> Leads(DestsTokens(dests) + rest, "<>") && !Leads(DestsTokens(dests) + rest, "(")
  {
    if dests != [] { assert (DestsTokens(dests) + rest)[0] == DestTokens(dests[0])[0]; }
  }

  lemma {:induction false} UnitParses(s: string, u: Unit, rest: seq<Token>, gaps: seq<string>) returns (s': string)
    requires At(s, UnitTokens(u) + rest, gaps) && (rest == [] || Leads(rest, "|)&;")) && ShortUnit(u)
    ensures Text(s) && |gaps| == |UnitTokens(u)| + |rest| + 1
    ensures ParseExec(s) == Ok(MeansUnit(u), s') && Left(s', rest, gaps[|UnitTokens(u)|..])
    decreases u
  {
    hide Starts, ParseRedirs, ParseExec, ParseLine, Redirected, GetToken, Left, At, LineTokens, DestsTokens, DestTos, Leads;
    match u
    case Simple(items) =>
      s' := SimpleParses(s, items, rest, gaps);
    case Block(l, dests) =>
      var tail := DestsTokens(dests) + rest;
      var behind := [Sign(')')] + tail;
      BlockUnfold(l, dests, rest);
      var s1 := Begins(s, Sign('('), LineTokens(l) + behind, gaps);
      SignLeads2('(', [], "(");
      SignLeads2(')', tail, ")");
      var s2 := LineParses(s1, l, behind, gaps[1..]);
      var n := 1 + |LineTokens(l)|;
      Slices(gaps, 1, n - 1);
      LeftIsAt(s2, behind, gaps[n..]);
      var s3 := Begins(s2, Sign(')'), tail, gaps[n..]);
      SignLeads2(')', [], ")");
      Slices(gaps, n, 1);
      NoRedirAfter(rest);
      s' := DestsParse(s3, dests, rest, gaps[n + 1..]);
      Slices(gaps, n + 1, 2 * |dests|);
      BlockUnit(s, s1, MeansLine(l), s2, s3, DestTos(dests), s');
  }

  lemma BlockUnfold(l: Line, dests: seq<Dest>, rest: seq<Token>)
    ensures var toks := UnitTokens(Block(l, dests));
      && toks + rest == [Sign('(')] + (LineTokens(l) + ([Sign(')')] + (DestsTokens(dests) + rest)))
      && |toks| == 2 + |LineTokens(l)| + |DestsTokens(dests)|
  {
  }

  lemma SignLeads2(c: char, rest: seq<Token>, signs: string)
    ensures Leads([Sign(c)] + rest, signs) == Leads([Sign(c)], signs) == (c in signs)
  {
  }

  lemma NoRedirAfter(rest: seq<Token>)
    requires rest == [] || Leads(rest, "|)&;")
    ensures !Leads(rest, "<>")
  {
  }

  lemma PipeOne(s: string, c: Command, s1: string)
    requires Text(s) && ParseExec(s) == Ok(c, s1) && Text(s1) && !Starts(s1, "|")
    ensures ParsePipe(s) == Ok(c, SkipBlanks(s1))
  {
    hide Starts, ParseExec, SkipBlanks, GetToken;
  }

  lemma PipeMore(s: string, c: Command, s1: string, s2: string, d: Command, s3: string)
    requires Text(s) && ParseExec(s) == Ok(c, s1) && Text(s1) && Starts(s1, "|") && GetToken(s1).1 == s2
    requires Text(s2) && ParsePipe(s2) == Ok(d, s3)
    ensures ParsePipe(s) == Ok(Pipe(c, d), s3)
  {
    hide Starts, ParseExec, GetToken;
    RestIsText(s1);
  }

  lemma {:induction false} PipeParses(s: string, p: Pipeline, rest: seq<Token>, gaps: seq<string>) returns (s': string)
    requires At(s, PipeTokens(p) + rest, gaps) && (rest == [] || Leads(rest, ")&;")) && ShortPipe(p)
    ensures Text(s) && |gaps| == |PipeTokens(p)| + |rest| + 1
    ensures ParsePipe(s) == Ok(MeansPipe(p), s') && Left(s', rest, gaps[|PipeTokens(p)|..])
    decreases p
  {
    hide Starts, ParsePipe, ParseExec, GetToken, Left, At, UnitTokens, Leads, SkipBlanks;
    FollowsPipe(rest);
    match p
    case One(u) =>
      var s1 := UnitParses(s, u, rest, gaps);
      LeftIsAt(s1, rest, gaps[|UnitTokens(u)|..]);
      s' := Skips(s1, rest, gaps[|UnitTokens(u)|..]);
      PipeOne(s, MeansUnit(u), s1);
    case Into(u, next) =>
      var tail := PipeTokens(next) + rest;
      var n := |UnitTokens(u)|;
      assert PipeTokens(p) + rest == UnitTokens(u) + ([Sign('|')] + tail);
      SignLeads2('|', tail, "|)&;");
      var s1 := UnitParses(s, u, [Sign('|')] + tail, gaps);
      LeftIsAt(s1, [Sign('|')] + tail, gaps[n..]);
      var s2 := Begins(s1, Sign('|'), tail, gaps[n..]);
      SignLeads2('|', [], "|");
      Slices(gaps, n, 1);
      s' := PipeParses(s2, next, rest, gaps[n + 1..]);
      Slices(gaps, n + 1, |PipeTokens(next)|);
      PipeMore(s, MeansUnit(u), s1, s2, MeansPipe(next), s');
  }

  lemma FollowsPipe(rest: seq<Token>)
    requires rest == [] || Leads(rest, ")&;")
    ensures (rest == [] || Leads(rest, "|)&;")) && !Leads(rest, "|")
  {
  }

  lemma BacksOne(s: string, c: Command, s1: string)
    requires Text(s) && Starts(s, "&") && GetToken(s).1 == s1 && Text(s1)
    ensures ParseBacks(c, s) == ParseBacks(Back(c), s1)
  {
    hide Starts, GetToken;
    RestIsText(s);
  }

  /** The loop over '&'. */
  lemma {:induction false} AmpsParse(s: string, c: Command, n: nat, rest: seq<Token>, gaps: seq<string>) returns (s': string)
    requires At(s, Amps(n) + rest, gaps)
    ensures Text(s) && |gaps| == n + |rest| + 1 && Text(s') && At(s', rest, gaps[n..])
    ensures ParseBacks(c, s) == ParseBacks(Backed(c, n), s')
    decreases n
  {
    hide Starts, GetToken, At, Left, Leads, ParseBacks;
    if n == 0 {
      assert Amps(n) + rest == rest;
      Length(s, rest, gaps);
      s' := s;
    } else {
      assert Amps(n) + rest == [Sign('&')] + (Amps(n - 1) + rest);
      var s1 := Begins(s, Sign('&'), Amps(n - 1) + rest, gaps);
      SignLeads2('&', [], "&");
      BacksOne(s, c, s1);
      s' := AmpsParse(s1, Back(c), n - 1, rest, gaps[1..]);
      Slices(gaps, 1, n - 1);
    }
  }

  lemma BacksEnd(s: string, c: Command)
    requires Text(s) && !Starts(s, "&") && !Starts(s, ";")
    ensures ParseBacks(c, s) == Ok(c, SkipBlanks(s))
  {
    hide Starts, SkipBlanks, GetToken;
  }

  lemma BacksThen(s: string, c: Command, s1: string, d: Command, s2: string)
    requires Text(s) && !Starts(s, "&") && Starts(s, ";") && GetToken(s).1 == s1 && Text(s1) && ParseLine(s1) == Ok(d, s2)
    ensures ParseBacks(c, s) == Ok(List(c, d), s2)
  {
    hide Starts, SkipBlanks, GetToken;
    RestIsText(s);
  }

  lemma LineBegins(s: string, c: Command, s1: string)
    requires Text(s) && ParsePipe(s) == Ok(c, s1) && Text(s1)
    ensures ParseLine(s) == ParseBacks(c, s1)
  {
    hide ParsePipe, ParseBacks;
  }

  lemma {:induction false} LineParses(s: string, l: Line, rest: seq<Token>, gaps: seq<string>) returns (s': string)
    requires At(s, LineTokens(l) + rest, gaps) && (rest == [] || Leads(rest, ")")) && ShortLine(l)
    ensures Text(s) && |gaps| == |LineTokens(l)| + |rest| + 1
    ensures ParseLine(s) == Ok(MeansLine(l), s') && Left(s', rest, gaps[|LineTokens(l)|..])
    decreases l
  {
    hide Starts, ParsePipe, ParseBacks, ParseLine, GetToken, Left, At, PipeTokens, Leads, SkipBlanks;
    var p, b, n := l.first, l.backs, |PipeTokens(l.first)|;
    var tail := if l.Last? then rest else [Sign(';')] + (LineTokens(l.next) + rest);
    LineUnfold(l, rest);
    FollowsLine(l, rest);
    var s1 := PipeParses(s, p, Amps(b) + tail, gaps);
    LeftIsAt(s1, Amps(b) + tail, gaps[n..]);
    Length(s1, Amps(b) + tail, gaps[n..]);
    LineBegins(s, MeansPipe(p), s1);
    var s2 := AmpsParse(s1, MeansPipe(p), b, tail, gaps[n..]);
    Slices(gaps, n, b);
    match l
    case Last(_, _) =>
      s' := Skips(s2, rest, gaps[n + b..]);
      BacksEnd(s2, Backed(MeansPipe(p), b));
    case Then(_, _, next) =>
      var s3 := Begins(s2, Sign(';'), LineTokens(next) + rest, gaps[n + b..]);
      Slices(gaps, n + b, 1);
      SignLeads2(';', [], ";");
      SignLeads2(';', [], "&");
      s' := LineParses(s3, next, rest, gaps[n + b + 1..]);
      Slices(gaps, n + b + 1, |LineTokens(next)|);
      BacksThen(s2, Backed(MeansPipe(p), b), s3, MeansLine(next), s');
  }

  lemma LineUnfold(l: Line, rest: seq<Token>)
    ensures var tail := if l.Last? then rest else [Sign(';')] + (LineTokens(l.next) + rest);
      && LineTokens(l) + rest == PipeTokens(l.first) + (Amps(l.backs) + tail)
      && |LineTokens(l)| == |PipeTokens(l.first)| + l.backs + if l.Last? then 0 else 1 + |LineTokens(l.next)|
  {
  }

  lemma FollowsLine(l: Line, rest: seq<Token>)
    requires rest == [] || Leads(rest, ")")
    ensures var tail := if l.Last? then rest else [Sign(';')] + (LineTokens(l.next) + rest);
      (Amps(l.backs) + tail == [] || Leads(Amps(l.backs) + tail, ")&;")) && !Leads(rest, "&") && !Leads(rest, ";")
  {
    if l.backs > 0 {
      assert Amps(l.backs)[0] == Sign('&');
    } else {
      assert Amps(0) + rest == rest;
    }
  }

  // ----- the round trip -----

  /** However a line is written, with whatever blanks in its gaps, it parses to the command that it
      stands for, and all of the text is used. */
  lemma RoundTrip(l: Line, gaps: seq<string>)
    requires ShortLine(l) && Fits(LineTokens(l), gaps)
    ensures Text(Spelled(LineTokens(l), gaps)) && ParseCmd(Spelled(LineTokens(l), gaps)) == Ok(MeansLine(l), "")
  {
    hide ParseLine;
    var s := Spelled(LineTokens(l), gaps);
    assert LineTokens(l) + [] == LineTokens(l);
    var s' := LineParses(s, l, [], gaps);
  }

  // ----- every command can be written -----

  /** A command that can be typed in: proper words, and no more of them than the parser takes. */
  predicate Proper(t: Command) {
    match t
    case Exec(argv) => |argv| < 10 && forall i :: 0 <= i < |argv| ==> IsWord(argv[i])
    case Redir(c, to) => IsWord(to.file) && Proper(c)
    case Pipe(l, r) => Proper(l) && Proper(r)
    case List(l, r) => Proper(l) && Proper(r)
    case Back(c) => Proper(c)
  }

  /** The command under the redirections around t, and these, innermost first. */
  function Stripped(t: Command): (r: (Command, seq<Redirection>))
    ensures !r.0.Redir? && (r.0 == t || r.0 < t)
    ensures Proper(t) ==> Proper(r.0) && forall i :: 0 <= i < |r.1| ==> IsWord(r.1[i].file)
  {
    match t
    case Redir(c, to) => var (core, rs) := Stripped(c); (core, rs + [to])
    case _ => (t, [])
  }

  lemma {:induction false} StrippedIs(t: Command)
    ensures Redirected(Stripped(t).0, Stripped(t).1) == t
  {
    if t.Redir? {
      StrippedIs(t.cmd);
      RedirectedMore(Stripped(t.cmd).0, Stripped(t.cmd).1, t.to);
    }
  }

  function ArgItems(argv: seq<string>, rs: seq<Redirection>): seq<Item> {
    if argv != [] then [Arg(argv[0])] + ArgItems(argv[1..], rs)
    else if rs != [] then [To(Dest(rs[0], false))] + ArgItems([], rs[1..])
    else []
  }

  function Dests(rs: seq<Redirection>): seq<Dest> {
    seq(|rs|, i requires 0 <= i < |rs| => Dest(rs[i], false))
  }

  function LineOf(t: Command): Line
    decreases t, 5
  {
    match t
    case List(l, r) => var (p, n) := BacksOf(l); Then(p, n, LineOf(r))
    case _ => var (p, n) := BacksOf(t); Last(p, n)
  }

  function BacksOf(t: Command): (Pipeline, nat)
    decreases t, 4
  {
    match t
    case Back(c) => var (p, n) := BacksOf(c); (p, n + 1)
    case _ => (PipeOf(t), 0)
  }

  function PipeOf(t: Command): Pipeline
    decreases t, 3
  {
    match t
    case Pipe(l, r) => Into(UnitOf(l), PipeOf(r))
    case _ => One(UnitOf(t))
  }

  function UnitOf(t: Command): Unit
    decreases t, 2
  {
    var (core, rs) := Stripped(t);
    if core.Exec? then Simple(ArgItems(core.argv, rs)) else Block(InsideOf(core), Dests(rs))
  }

  /** As LineOf, for a command that is not a unit. */
  function InsideOf(t: Command): Line
    requires !t.Redir? && !t.Exec?
    decreases t, 0
  {
    match t
    case List(l, r) => var (p, n) := BacksOf(l); Then(p, n, LineOf(r))
    case Pipe(l, r) => Last(Into(UnitOf(l), PipeOf(r)), 0)
    case Back(c) => var (p, n) := BacksOf(c); Last(p, n + 1)
  }

  predicate AllWritten(toks: seq<Token>) {
    forall i :: 0 <= i < |toks| ==> CanWrite(toks[i])
  }

  lemma {:induction false} BackedMore(c: Command, n: nat)
    ensures Backed(c, n + 1) == Back(Backed(c, n))
    decreases n
  {
    if n > 0 { BackedMore(Back(c), n - 1); }
  }

  lemma {:induction false} ArgItemsMean(argv: seq<string>, rs: seq<Redirection>)
    requires (forall i :: 0 <= i < |argv| ==> IsWord(argv[i])) && (forall i :: 0 <= i < |rs| ==> IsWord(rs[i].file))
    ensures Args(ArgItems(argv, rs)) == argv && Tos(ArgItems(argv, rs)) == rs && AllWritten(ItemsTokens(ArgItems(argv, rs)))
    decreases |argv| + |rs|
  {
    if argv != [] {
      ArgItemsMean(argv[1..], rs);
      assert argv == [argv[0]] + argv[1..];
    } else if rs != [] {
      ArgItemsMean([], rs[1..]);
      assert rs == [rs[0]] + rs[1..];
    }
  }

  lemma {:induction false} DestsMean(rs: seq<Redirection>)
    requires forall i :: 0 <= i < |rs| ==> IsWord(rs[i].file)
    ensures DestTos(Dests(rs)) == rs && AllWritten(DestsTokens(Dests(rs)))
    decreases |rs|
  {
    if rs != [] {
      DestsMean(rs[1..]);
      assert Dests(rs)[1..] == Dests(rs[1..]);
      assert rs == [rs[0]] + rs[1..];
    }
  }

  lemma {:induction false} LineOfMeans(t: Command)
    requires Proper(t)
    ensures MeansLine(LineOf(t)) == t && ShortLine(LineOf(t)) && AllWritten(LineTokens(LineOf(t)))
    decreases t, 5
  {
    hide BacksOf, PipeTokens;
    match t
    case List(l, r) => BacksOfMeans(l); LineOfMeans(r);
    case _ => BacksOfMeans(t);
  }

  lemma {:induction false} BacksOfMeans(t: Command)
    requires Proper(t)
    ensures var (p, n) := BacksOf(t); Backed(MeansPipe(p), n) == t && ShortPipe(p) && AllWritten(PipeTokens(p))
    decreases t, 4
  {
    hide PipeOf, PipeTokens;
    match t
    case Back(c) => BacksOfMeans(c); BackedMore(MeansPipe(BacksOf(c).0), BacksOf(c).1);
    case _ => PipeOfMeans(t);
  }

  lemma {:induction false} PipeOfMeans(t: Command)
    requires Proper(t)
    ensures MeansPipe(PipeOf(t)) == t && ShortPipe(PipeOf(t)) && AllWritten(PipeTokens(PipeOf(t)))
    decreases t, 3
  {
    hide UnitOf, UnitTokens;
    match t
    case Pipe(l, r) => UnitOfMeans(l); PipeOfMeans(r);
    case _ => UnitOfMeans(t);
  }

  lemma {:induction false} UnitOfMeans(t: Command)
    requires Proper(t)
    ensures MeansUnit(UnitOf(t)) == t && ShortUnit(UnitOf(t)) && AllWritten(UnitTokens(UnitOf(t)))
    decreases t, 2
  {
    hide InsideOf, LineTokens, ArgItems, Dests;
    var (core, rs) := Stripped(t);
    StrippedIs(t);
    if core.Exec? { ArgItemsMean(core.argv, rs); } else { InsideOfMeans(core); DestsMean(rs); }
  }

  lemma {:induction false} InsideOfMeans(t: Command)
    requires Proper(t) && !t.Redir? && !t.Exec?
    ensures MeansLine(InsideOf(t)) == t && ShortLine(InsideOf(t)) && AllWritten(LineTokens(InsideOf(t)))
    decreases t, 0
  {
    hide BacksOf, PipeOf, UnitOf, UnitTokens;
    match t
    case List(l, r) => BacksOfMeans(l); LineOfMeans(r);
    case Pipe(l, r) => UnitOfMeans(l); PipeOfMeans(r);
    case Back(c) => BacksOfMeans(c); BackedMore(MeansPipe(BacksOf(c).0), BacksOf(c).1);
  }

  /** Every proper command can be written so that it parses back. */
  lemma EveryCommand(t: Command) returns (l: Line, gaps: seq<string>)
    requires Proper(t)
    ensures ShortLine(l) && MeansLine(l) == t && Fits(LineTokens(l), gaps)
    ensures Text(Spelled(LineTokens(l), gaps)) && ParseCmd(Spelled(LineTokens(l), gaps)) == Ok(t, "")
  {
    l := LineOf(t);
    LineOfMeans(t);
    gaps := seq(|LineTokens(l)| + 1, _ => " ");
    RoundTrip(l, gaps);
  }
}
