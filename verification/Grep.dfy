/** The regular-expression matcher: its loops and recursion against what an expression means. A
    string stands for the characters before its NUL. */
module Grep {

  /** One character of a text, or any number of them; '.' admits every character. */
  datatype Item = One(c: char) | Star(c: char)

  /** The items of an expression in order, and whether it ends in the anchor '$'. */
  datatype Pattern = Pattern(items: seq<Item>, toEnd: bool)

  /** How an expression is read, after a leading '^'. A character before '*' is repeated whatever it
      is, and '$' is an anchor only as the last character. */
  function Read(re: string): (p: Pattern) {
    if re == "" then Pattern([], false)
    else if |re| > 1 && re[1] == '*' then var p := Read(re[2..]); Pattern([Star(re[0])] + p.items, p.toEnd)
    else if re == "$" then Pattern([], true)
    else var p := Read(re[1..]); Pattern([One(re[0])] + p.items, p.toEnd)
  }

  predicate Admits(c: char, x: char) {
    c == '.' || c == x
  }

  /** The text t is an instance of one item. */
  predicate Instance(item: Item, t: string) {
    match item
    case One(c) => |t| == 1 && Admits(c, t[0])
    case Star(c) => forall i :: 0 <= i < |t| ==> Admits(c, t[i])
  }

  function Flatten(parts: seq<string>): string {
    if parts == [] then "" else parts[0] + Flatten(parts[1..])
  }

  predicate Splits(parts: seq<string>, items: seq<Item>, t: string) {
    && |parts| == |items| && Flatten(parts) == t
    && (forall i :: 0 <= i < |items| ==> Instance(items[i], parts[i]))
  }

  /** The text t falls into instances of the items, one after the other. */
  ghost predicate In(t: string, items: seq<Item>) {
    exists parts :: Splits(parts, items, t)
  }

  predicate Upto(j: nat, p: Pattern, text: string) {
    j <= |text| && (p.toEnd ==> j == |text|)
  }

  /** An instance of p begins text, and ends it if p is anchored there. */
  ghost predicate Begins(p: Pattern, text: string) {
    exists j: nat :: Upto(j, p, text) && In(text[..j], p.items)
  }

  /** The meaning of a whole expression: with '^' an instance begins the text, and without it one
      begins some suffix. */
  ghost predicate Found(re: string, text: string) {
    if re != "" && re[0] == '^' then Begins(Read(re[1..]), text)
    else exists i :: 0 <= i <= |text| && Begins(Read(re), text[i..])
  }

  // ----- reading and writing expressions -----

  function Written(item: Item): string {
    match item
    case One(c) => [c]
    case Star(c) => [c, '*']
  }

  /** The expression of a pattern: its items in order, and the anchor. */
  function Spell(p: Pattern): string
    decreases |p.items|
  {
    if p.items == [] then (if p.toEnd then "$" else "")
    else Written(p.items[0]) + Spell(Pattern(p.items[1..], p.toEnd))
  }

  /** A pattern that has an expression: no '*' follows a single character, and no '$' is the last
      item without an anchor behind it. */
  predicate Plain(p: Pattern) {
    && (forall i :: 0 <= i < |p.items| - 1 && p.items[i].One? ==> p.items[i + 1].c != '*')
    && (p.items != [] && !p.toEnd ==> p.items[|p.items| - 1] != One('$'))
  }

  /** How an expression starts when an item stands in front of it. */
  lemma SpellFirst(item: Item, rest: Pattern)
    ensures var p := Pattern([item] + rest.items, rest.toEnd);
      && Spell(p) == Written(item) + Spell(rest) && Spell(p)[0] == item.c
      && Spell(p)[|Written(item)|..] == Spell(rest)
  {
    assert ([item] + rest.items)[1..] == rest.items;
  }

  lemma PlainFirst(item: Item, rest: Pattern)
    ensures Plain(Pattern([item] + rest.items, rest.toEnd)) <==>
      && Plain(rest)
      && (item.One? && rest.items != [] ==> rest.items[0].c != '*')
      && (rest.items == [] && !rest.toEnd ==> item != One('$'))
  {
    var items := [item] + rest.items;
    if Plain(Pattern(items, rest.toEnd)) {
      forall i | 0 <= i < |rest.items| - 1 && rest.items[i].One? ensures rest.items[i + 1].c != '*' {
        assert items[i + 1] == rest.items[i] && items[i + 2] == rest.items[i + 1];
      }
      if item.One? && rest.items != [] { assert items[0].One? && items[1] == rest.items[0]; }
    }
  }

  /** What is written as an expression is read back as the same pattern. */
  lemma {:induction false} ReadSpelled(p: Pattern)
    requires Plain(p)
    ensures Read(Spell(p)) == p
    decreases |p.items|
  {
    if p.items != [] {
      var item, rest := p.items[0], Pattern(p.items[1..], p.toEnd);
      assert p == Pattern([item] + rest.items, rest.toEnd);
      PlainFirst(item, rest);
      ReadSpelled(rest);
      SpellFirst(item, rest);
      SpellStart(rest);
      hide Plain, Spell;
    }
  }

  lemma SpellStart(p: Pattern)
    ensures Spell(p) == "" <==> p.items == [] && !p.toEnd
    ensures Spell(p) != "" ==> Spell(p)[0] == if p.items != [] then p.items[0].c else '$'
    ensures Spell(p) == "$" ==> p.toEnd || p.items == [One('$')]
  {
    if p.items != [] {
      var item, rest := p.items[0], Pattern(p.items[1..], p.toEnd);
      SpellFirst(item, rest);
      assert [item] + rest.items == p.items;
      SpellNothing(rest);
      hide Spell;
    }
  }

  lemma SpellNothing(p: Pattern)
    ensures Spell(p) == "" <==> p.items == [] && !p.toEnd
  {
  }

  /** Every expression is that of the pattern it is read as. */
  lemma {:induction false} SpellRead(re: string)
    ensures Plain(Read(re)) && Spell(Read(re)) == re
    decreases |re|
  {
    if re != "" && re != "$" {
      var w := if |re| > 1 && re[1] == '*' then 2 else 1;
      var item, rest := if w == 2 then Star(re[0]) else One(re[0]), Read(re[w..]);
      SpellRead(re[w..]);
      PlainFirst(item, rest);
      SpellFirst(item, rest);
      SpellStart(rest);
      ReadFirst(re, w, item);
      hide Plain, Spell, Read;
    }
  }

  lemma ReadFirst(re: string, w: nat, item: Item)
    requires re != "" && re != "$" && w == (if |re| > 1 && re[1] == '*' then 2 else 1)
    requires item == if w == 2 then Star(re[0]) else One(re[0])
    ensures var rest := Read(re[w..]); Read(re) == Pattern([item] + rest.items, rest.toEnd)
    ensures re == Written(item) + re[w..]
  {
  }

  // ----- what the first item of a pattern means -----

  lemma NoItems(toEnd: bool, text: string)
    ensures Begins(Pattern([], toEnd), text) <==> (toEnd ==> text == "")
  {
    var p := Pattern([], toEnd);
    if toEnd ==> text == "" {
      assert Splits([], [], text[..0]);
      assert Upto(0, p, text);
    }
    if Begins(p, text) {
      var j: nat :| Upto(j, p, text) && In(text[..j], []);
      var parts :| Splits(parts, [], text[..j]);
      assert |text[..j]| == 0;
    }
  }

  /** The first part of a split, and the rest of it. */
  lemma InFirst(item: Item, items: seq<Item>, t: string) returns (k: nat)
    requires In(t, [item] + items)
    ensures k <= |t| && Instance(item, t[..k]) && In(t[k..], items)
  {
    var parts :| Splits(parts, [item] + items, t);
    k := |parts[0]|;
    assert t[..k] == parts[0] && t[k..] == Flatten(parts[1..]);
    assert ([item] + items)[0] == item;
    forall i | 0 <= i < |items| ensures Instance(items[i], parts[1..][i]) {
      assert ([item] + items)[i + 1] == items[i];
    }
    assert Splits(parts[1..], items, t[k..]);
  }

  lemma InMore(item: Item, items: seq<Item>, t: string, k: nat)
    requires k <= |t| && Instance(item, t[..k]) && In(t[k..], items)
    ensures In(t, [item] + items)
  {
    var parts :| Splits(parts, items, t[k..]);
    var all := [t[..k]] + parts;
    assert all[1..] == parts && t[..k] + t[k..] == t;
    assert Splits(all, [item] + items, t);
  }

  /** One character more in front of j characters. */
  lemma Tails(text: string, j: nat, k: nat)
    requires 0 < k <= j <= |text|
    ensures text[1..][..j - 1] == text[..j][1..] && text[..j][1..][k - 1..] == text[..j][k..]
    ensures text[..j][1..][..k - 1] == text[..j][..k][1..]
  {
  }

  lemma OneFirst(c: char, p: Pattern, text: string)
    ensures Begins(Pattern([One(c)] + p.items, p.toEnd), text)
      <==> text != "" && Admits(c, text[0]) && Begins(p, text[1..])
  {
    hide In;
    var q := Pattern([One(c)] + p.items, p.toEnd);
    if Begins(q, text) {
      var j: nat :| Upto(j, q, text) && In(text[..j], q.items);
      InOne(c, p.items, text[..j]);
      assert text[..j][1..] == text[1..][..j - 1];
      assert Upto(j - 1, p, text[1..]);
    }
    if text != "" && Admits(c, text[0]) && Begins(p, text[1..]) {
      var j: nat :| Upto(j, p, text[1..]) && In(text[1..][..j], p.items);
      assert text[..j + 1][1..] == text[1..][..j];
      InOne(c, p.items, text[..j + 1]);
      assert Upto(j + 1, q, text);
    }
  }

  lemma InOne(c: char, items: seq<Item>, t: string)
    ensures In(t, [One(c)] + items) <==> t != "" && Admits(c, t[0]) && In(t[1..], items)
  {
    hide In;
    if In(t, [One(c)] + items) {
      var k := InFirst(One(c), items, t);
    }
    if t != "" && Admits(c, t[0]) && In(t[1..], items) {
      InMore(One(c), items, t, 1);
    }
  }

  /** What begins with no instance of c, or with more than one character, begins without the first. */
  lemma StarUsed(c: char, p: Pattern, text: string)
    requires Begins(Pattern([Star(c)] + p.items, p.toEnd), text)
    ensures Begins(p, text) || (text != "" && Admits(c, text[0]) && Begins(Pattern([Star(c)] + p.items, p.toEnd), text[1..]))
  {
    hide In;
    var q := Pattern([Star(c)] + p.items, p.toEnd);
    var j: nat :| Upto(j, q, text) && In(text[..j], q.items);
    var k := InFirst(Star(c), p.items, text[..j]);
    if k == 0 {
      assert text[..j][0..] == text[..j];
      assert Upto(j, p, text);
    } else {
      Tails(text, j, k);
      assert Admits(c, text[..j][..k][0]);
      InMore(Star(c), p.items, text[1..][..j - 1], k - 1);
      assert Upto(j - 1, q, text[1..]);
    }
  }

  lemma StarUnused(c: char, p: Pattern, text: string)
    requires Begins(p, text)
    ensures Begins(Pattern([Star(c)] + p.items, p.toEnd), text)
  {
    hide In;
    var q := Pattern([Star(c)] + p.items, p.toEnd);
    var j: nat :| Upto(j, p, text) && In(text[..j], p.items);
    assert text[..j][0..] == text[..j];
    InMore(Star(c), p.items, text[..j], 0);
    assert Upto(j, q, text);
  }

  lemma StarMore(c: char, p: Pattern, text: string)
    requires text != "" && Admits(c, text[0]) && Begins(Pattern([Star(c)] + p.items, p.toEnd), text[1..])
    ensures Begins(Pattern([Star(c)] + p.items, p.toEnd), text)
  {
    var q := Pattern([Star(c)] + p.items, p.toEnd);
    var j: nat :| Upto(j, q, text[1..]) && In(text[1..][..j], q.items);
    InOneMore(c, p.items, text, j);
    assert Upto(j + 1, q, text);
  }

  lemma InOneMore(c: char, items: seq<Item>, text: string, j: nat)
    requires j < |text| && Admits(c, text[0]) && In(text[1..][..j], [Star(c)] + items)
    ensures In(text[..j + 1], [Star(c)] + items)
  {
    hide In;
    var k := InFirst(Star(c), items, text[1..][..j]);
    Tails(text, j + 1, k + 1);
    OneMoreOf(c, text[..j + 1][..k + 1], text[1..][..j][..k]);
    InMore(Star(c), items, text[..j + 1], k + 1);
  }

  lemma OneMoreOf(c: char, t: string, rest: string)
    requires t != "" && t[1..] == rest && Admits(c, t[0]) && Instance(Star(c), rest)
    ensures Instance(Star(c), t)
  {
    forall i | 0 <= i < |t| ensures Admits(c, t[i]) {
      if i > 0 { assert t[i] == rest[i - 1]; }
    }
  }

  lemma StarFirst(c: char, p: Pattern, text: string)
    ensures var q := Pattern([Star(c)] + p.items, p.toEnd);
      Begins(q, text) <==> Begins(p, text) || (text != "" && (c == '.' || c == text[0]) && Begins(q, text[1..]))
  {
    hide Begins;
    var q := Pattern([Star(c)] + p.items, p.toEnd);
    if Begins(q, text) { StarUsed(c, p, text); }
    if Begins(p, text) { StarUnused(c, p, text); }
    if text != "" && Admits(c, text[0]) && Begins(q, text[1..]) { StarMore(c, p, text); }
  }

  // ----- words -----

  /** Without stars, an expression begins the texts that agree with it character by character, where
      '.' agrees with every one. */
  lemma {:induction false} WordBegins(w: string, text: string)
    requires (forall k :: 0 <= k < |w| ==> w[k] != '*') && (w != "" ==> w[|w| - 1] != '$')
    ensures Begins(Read(w), text) <==> |w| <= |text| && forall k :: 0 <= k < |w| ==> w[k] == '.' || w[k] == text[k]
    decreases |w|
  {
    hide Begins;
    if w == "" {
      NoItems(false, text);
    } else {
      OneFirst(w[0], Read(w[1..]), text);
      if text != "" { WordBegins(w[1..], text[1..]); }
    }
  }

  /** With '$' behind it, it is the whole text that has to agree. */
  lemma {:induction false} WordToEnd(w: string, text: string)
    requires forall k :: 0 <= k < |w| ==> w[k] != '*'
    ensures Begins(Read(w + "$"), text) <==> |w| == |text| && forall k :: 0 <= k < |w| ==> w[k] == '.' || w[k] == text[k]
    decreases |w|
  {
    hide Begins;
    if w == "" {
      NoItems(true, text);
      assert w + "$" == "$";
    } else {
      assert (w + "$")[1..] == w[1..] + "$";
      OneFirst(w[0], Read(w[1..] + "$"), text);
      if text != "" { WordToEnd(w[1..], text[1..]); }
    }
  }

  /** A word without special characters, but for dots, is found exactly in the texts that it is a part
      of. */
  lemma WordFound(w: string, text: string)
    requires (forall k :: 0 <= k < |w| ==> w[k] != '*') && (w != "" ==> w[0] != '^' && w[|w| - 1] != '$')
    ensures Found(w, text) <==>
      exists i :: 0 <= i <= |text| && |w| <= |text[i..]| && forall k :: 0 <= k < |w| ==> w[k] == '.' || w[k] == text[i..][k]
  {
    hide Begins, Read;
    forall i | 0 <= i <= |text|
      ensures Begins(Read(w), text[i..]) <==>
        |w| <= |text[i..]| && forall k :: 0 <= k < |w| ==> w[k] == '.' || w[k] == text[i..][k]
    {
      WordBegins(w, text[i..]);
    }
  }

  /** With '^' in front of it, only at the start of the text. */
  lemma WordAtStart(w: string, text: string)
    requires (forall k :: 0 <= k < |w| ==> w[k] != '*') && (w != "" ==> w[|w| - 1] != '$')
    ensures Found("^" + w, text) <==> |w| <= |text| && forall k :: 0 <= k < |w| ==> w[k] == '.' || w[k] == text[k]
  {
    assert ("^" + w)[1..] == w;
    WordBegins(w, text);
  }

  // ----- the matcher -----

  /** match() */
  method Match(re: string, text: string) returns (r: bool)
    ensures r <==> Found(re, text)
  {
    if re != "" && re[0] == '^' {
      r := Matchhere(re[1..], text);
      return;
    }
    var t := text;
    while true
      invariant |t| <= |text| && t == text[|text| - |t|..]
      invariant forall i :: 0 <= i < |text| - |t| ==> !Begins(Read(re), text[i..])
      decreases |t|
    {
      var here := Matchhere(re, t);
      if here { return true; }
      if t == "" { break; }
      t := t[1..];
    }
    r := false;
  }

  /** matchhere() */
  method Matchhere(re: string, text: string) returns (r: bool)
    ensures r <==> Begins(Read(re), text)
    decreases |re|, 0
  {
    hide Begins;
    if re == "" {
      NoItems(false, text);
      r := true;
    } else if |re| > 1 && re[1] == '*' {
      r := Matchstar(re[0], re[2..], text);
    } else if re == "$" {
      NoItems(true, text);
      r := text == "";
    } else {
      OneFirst(re[0], Read(re[1..]), text);
      if text != "" && (re[0] == '.' || re[0] == text[0]) {
        r := Matchhere(re[1..], text[1..]);
      } else {
        r := false;
      }
    }
  }

  /** matchstar() */
  method Matchstar(c: char, re: string, text: string) returns (r: bool)
    ensures var p := Read(re); r <==> Begins(Pattern([Star(c)] + p.items, p.toEnd), text)
    decreases |re|, 1
  {
    hide Begins;
    ghost var p := Read(re);
    ghost var q := Pattern([Star(c)] + p.items, p.toEnd);
    var t := text;
    while true
      invariant Begins(q, t) <==> Begins(q, text)
      decreases |t|
    {
      StarFirst(c, p, t);
      var here := Matchhere(re, t);
      if here { return true; }
      if t == "" || !(t[0] == c || c == '.') { break; }
      t := t[1..];
    }
    r := false;
  }
}
