/** The shell's parser accepts exactly its grammar, whatever the white space (user/sh.c): a line
    parses if and only if its tokens spell a command line, and to the tree that is spelled. */
module ShellGrammar {
  import opened Shell
  import opened ShellRoundTrip

  // ---- the tokens of a line ----

  datatype Tok = Text(text: string) | Op(kind: char)

  function TokOf(t: string, k: Token): Tok
    requires k.q <= k.eq <= |t|
  {
    if k.kind == 'a' then Tok.Text(t[k.q..k.eq]) else Op(k.kind)
  }

  /** The tokens from position s on. */
  function Toks(t: string, s: nat): seq<Tok>
    requires s <= |t| && Line(t)
    decreases |t| - s
  {
    var k := Next(t, s);
    if k.kind == NUL then [] else [TokOf(t, k)] + Toks(t, k.s)
  }

  predicate IsRedir(tok: Tok) { tok == Op('<') || tok == Op('>') || tok == Op('+') }

  predicate EndsArgs(tok: Tok) { tok == Op('|') || tok == Op(')') || tok == Op('&') || tok == Op(';') }

  /** What peek sees of the next token. */
  predicate Begins(c: char, tok: Tok) {
    match tok
    case Text(_) => WordChar(c)
    case Op(kind) => c == if kind == '+' then '>' else kind
  }

  lemma SkipTwice(t: string, s: nat)
    requires s <= |t|
    ensures Skip(t, Skip(t, s)) == Skip(t, s)
  {
  }

  lemma Head(t: string, s: nat)
    requires s <= |t| && Line(t)
    ensures var s1 := Skip(t, s); var k := Next(t, s1);
      && Next(t, s) == k && Toks(t, s1) == Toks(t, s)
      && (Toks(t, s) == [] <==> s1 == |t|) && (k.kind == NUL <==> s1 == |t|)
      && (s1 < |t| ==> Toks(t, s) == [TokOf(t, k)] + Toks(t, k.s) && Begins(t[s1], TokOf(t, k)) && s1 < k.s)
  {
    SkipTwice(t, s);
    NextSkip(t, s);
    NextBegins(t, Skip(t, s));
    hide Next, Skip, Begins, Line;
  }

  lemma NextSkip(t: string, s: nat)
    requires s <= |t| && Line(t)
    ensures Next(t, s) == Next(t, Skip(t, s))
  {
    SkipTwice(t, s);
    hide Skip, WordEnd, White, Symbol;
  }

  lemma NextBegins(t: string, s: nat)
    requires s <= |t| && Line(t) && Skip(t, s) == s
    ensures var k := Next(t, s);
      && (k.kind == NUL <==> s == |t|) && s <= k.s <= |t| && k.q <= k.eq <= |t|
      && (s < |t| ==> Begins(t[s], TokOf(t, k)) && s < k.s)
  {
    hide Skip, WordEnd, White;
  }

  /** peek for one symbol. */
  lemma PeekOne(t: string, s: nat, c: char)
    requires s <= |t| && Line(t) && (c == '|' || c == '&' || c == ';' || c == '(' || c == ')')
    ensures Peek(t, Skip(t, s), [c]) <==> Toks(t, s) != [] && Toks(t, s)[0] == Op(c)
  {
    Head(t, s);
    hide Toks;
  }

  lemma PeekRedir(t: string, s: nat)
    requires s <= |t| && Line(t)
    ensures Peek(t, Skip(t, s), "<>") <==> Toks(t, s) != [] && IsRedir(Toks(t, s)[0])
  {
    Head(t, s);
    hide Toks;
  }

  lemma PeekEnd(t: string, s: nat)
    requires s <= |t| && Line(t)
    ensures Peek(t, Skip(t, s), "|)&;") <==> Toks(t, s) != [] && EndsArgs(Toks(t, s)[0])
  {
    Head(t, s);
    hide Toks;
  }

  // ---- the grammar ----

  /** An argument, or one of <, > and >> with its file. */
  datatype Item = Arg(word: string) | To(op: char, file: string)

  /** A command line as it is written. */
  datatype Src =
    | Simple(items: seq<Item>)
    | Block(line: Src, items: seq<Item>)
    | Bar(left: Src, right: Src)
    | Amp(cmd: Src)
    | Semi(left: Src, right: Src)

  predicate ItemOk(item: Item) { item.To? ==> item.op == '<' || item.op == '>' || item.op == '+' }

  predicate ItemsOk(items: seq<Item>) { forall i :: 0 <= i < |items| ==> ItemOk(items[i]) }

  predicate AllTo(items: seq<Item>) { forall i :: 0 <= i < |items| ==> items[i].To? }

  /** A simple command with fewer than MAXARGS arguments, redirections anywhere among them; or a
      line in parentheses with redirections after it. */
  predicate IsExec(src: Src)
    decreases src, 0
  {
    match src
    case Simple(items) => ItemsOk(items) && |Args(items)| < MAXARGS
    case Block(line, items) => IsLine(line) && ItemsOk(items) && AllTo(items)
    case _ => false
  }

  /** | binds tighter than &, and & tighter than ;. */
  predicate IsPipe(src: Src)
    decreases src, 1
  {
    if src.Bar? then IsExec(src.left) && IsPipe(src.right) else IsExec(src)
  }

  predicate IsBacks(src: Src)
    decreases src, 2
  {
    if src.Amp? then IsBacks(src.cmd) else IsPipe(src)
  }

  predicate IsLine(src: Src)
    decreases src, 3
  {
    if src.Semi? then IsBacks(src.left) && IsLine(src.right) else IsBacks(src)
  }

  function ItemToks(items: seq<Item>): seq<Tok> {
    if items == [] then [] else
      (match items[0] case Arg(w) => [Tok.Text(w)] case To(op, f) => [Op(op), Tok.Text(f)]) + ItemToks(items[1..])
  }

  function Spelled(src: Src): seq<Tok> {
    match src
    case Simple(items) => ItemToks(items)
    case Block(line, items) => [Op('(')] + Spelled(line) + [Op(')')] + ItemToks(items)
    case Bar(l, r) => Spelled(l) + [Op('|')] + Spelled(r)
    case Amp(c) => Spelled(c) + [Op('&')]
    case Semi(l, r) => Spelled(l) + [Op(';')] + Spelled(r)
  }

  /** A redirection as the tree knows it. */
  datatype Red = Red(input: bool, file: string)

  function Args(items: seq<Item>): seq<string> {
    if items == [] then []
    else (if items[0].Arg? then [items[0].word] else []) + Args(items[1..])
  }

  function Reds(items: seq<Item>): seq<Red> {
    if items == [] then []
    else (if items[0].To? then [Red(items[0].op == '<', items[0].file)] else []) + Reds(items[1..])
  }

  /** The first redirection is the innermost. */
  function Enclose(tree: Tree, reds: seq<Red>): Tree {
    if reds == [] then tree else
      var r, inner := reds[|reds| - 1], Enclose(tree, reds[..|reds| - 1]);
      if r.input then From(inner, r.file) else Into(inner, r.file)
  }

  function TreeOf(src: Src): Tree {
    match src
    case Simple(items) => Enclose(Run(Args(items)), Reds(items))
    case Block(line, items) => Enclose(TreeOf(line), Reds(items))
    case Bar(l, r) => Piped(TreeOf(l), TreeOf(r))
    case Amp(c) => Background(TreeOf(c))
    case Semi(l, r) => Then(TreeOf(l), TreeOf(r))
  }

  // ---- redirections ----

  function RedOf(t: string, r: Redirection): Red { Red(r.mode == 0, ShellRoundTrip.Text(t, r.file)) }

  function RedsOf(t: string, rs: seq<Redirection>): (r: seq<Red>)
    ensures |r| == |rs| && forall i :: 0 <= i < |r| ==> r[i] == RedOf(t, rs[i])
  {
    if rs == [] then [] else RedsOf(t, rs[..|rs| - 1]) + [RedOf(t, rs[|rs| - 1])]
  }

  lemma {:induction false} WrapEnclose(t: string, cmd: Cmd, rs: seq<Redirection>)
    ensures Meaning(t, Wrap(cmd, rs)) == Enclose(Meaning(t, cmd), RedsOf(t, rs))
  {
    if rs != [] {
      WrapEnclose(t, cmd, rs[..|rs| - 1]);
      assert RedsOf(t, rs)[..|rs| - 1] == RedsOf(t, rs[..|rs| - 1]);
    }
  }

  /** One redirection from its two tokens. */
  lemma RedirTurn(t: string, rs: seq<Redirection>, s: nat)
    requires s <= |t| && Line(t) && Peek(t, Skip(t, s), "<>")
    ensures var op := Next(t, Skip(t, s)); var w := Next(t, op.s);
      && Toks(t, s) != [] && Toks(t, s)[0] == Op(op.kind) && Toks(t, s)[1..] == Toks(t, op.s) && s < op.s <= |t|
      && (op.kind == '<' || op.kind == '>' || op.kind == '+')
      && (w.kind == 'a' <==> |Toks(t, s)| > 1 && Toks(t, s)[1].Text?)
      && (w.kind == 'a' ==>
            var r := Redirect(op.kind, Span(w.q, w.eq));
            && Toks(t, s) == [Op(op.kind), Toks(t, s)[1]] + Toks(t, w.s) && op.s < w.s <= |t|
            && RedOf(t, r) == Red(op.kind == '<', Toks(t, s)[1].text)
            && RedsOf(t, rs + [r]) == RedsOf(t, rs) + [RedOf(t, r)])
  {
    PeekRedir(t, s);
    Head(t, s);
    var op := Next(t, Skip(t, s));
    Head(t, op.s);
    hide Toks;
  }

  lemma RedirsUnfold(t: string, rs: seq<Redirection>, s: nat)
    requires s <= |t| && Line(t)
    ensures var s1 := Skip(t, s); var op := Next(t, s1); var w := Next(t, op.s);
      ParseRedirs(t, rs, s) ==
        if !Peek(t, s1, "<>") then Ok(rs, s1)
        else if w.kind != 'a' then Panic("missing file for redirection")
        else ParseRedirs(t, rs + [Redirect(op.kind, Span(w.q, w.eq))], w.s)
  {
  }

  /** What the first item is spelled as and means. */
  lemma FirstItem(item: Item, more: seq<Item>)
    ensures ItemToks([item] + more) ==
      (match item case Arg(w) => [Tok.Text(w)] case To(op, f) => [Op(op), Tok.Text(f)]) + ItemToks(more)
    ensures Args([item] + more) == (if item.Arg? then [item.word] else []) + Args(more)
    ensures Reds([item] + more) == (if item.To? then [Red(item.op == '<', item.file)] else []) + Reds(more)
  {
    assert ([item] + more)[1..] == more;
  }

  lemma NoItems()
    ensures ItemToks([]) == [] && Args([]) == [] && Reds([]) == []
  {
  }

  /** Two tokens off the front. */
  lemma TwoOff(ts: seq<Tok>, a: Tok, b: Tok, x: seq<Tok>, rest: seq<Tok>)
    requires ts == [a, b] + x + rest
    ensures |ts| > 1 && ts[0] == a && ts[1] == b && forall y {:trigger [a, b] + y} :: ts == [a, b] + y ==> y == x + rest
  {
    forall y | ts == [a, b] + y
      ensures y == x + rest
    {
      assert y == ts[2..] && x + rest == ts[2..];
    }
  }

  /** parseredirs on redirections followed by something else. */
  lemma {:induction false} RedirsParse(t: string, rs: seq<Redirection>, s: nat, items: seq<Item>, rest: seq<Tok>)
    requires s <= |t| && Line(t) && ItemsOk(items) && AllTo(items)
    requires Toks(t, s) == ItemToks(items) + rest && (rest != [] ==> !IsRedir(rest[0]))
    ensures var r := ParseRedirs(t, rs, s);
      r.Ok? && Toks(t, r.s) == rest && RedsOf(t, r.value) == RedsOf(t, rs) + Reds(items)
    decreases |items|
  {
    hide Toks, Next, Skip, Peek, ParseRedirs, RedsOf, ItemToks, Reds, Redirect, RedOf, Line;
    PeekRedir(t, s);
    Head(t, s);
    RedirsUnfold(t, rs, s);
    if items == [] {
      NoItems();
      assert ItemToks(items) + rest == rest;
      assert RedsOf(t, rs) + Reds(items) == RedsOf(t, rs);
    } else {
      var item, more := items[0], items[1..];
      assert items == [item] + more && ItemOk(items[0]) && items[0].To?;
      FirstItem(item, more);
      var a, b := Op(item.op), Tok.Text(item.file);
      assert Toks(t, s) == [a, b] + ItemToks(more) + rest;
      TwoOff(Toks(t, s), a, b, ItemToks(more), rest);
      RedirTurn(t, rs, s);
      var op := Next(t, Skip(t, s));
      var w := Next(t, op.s);
      var rs' := rs + [Redirect(op.kind, Span(w.q, w.eq))];
      assert Toks(t, w.s) == ItemToks(more) + rest;
      RedirsParse(t, rs', w.s, more, rest);
      assert RedsOf(t, rs') + Reds(more) == RedsOf(t, rs) + Reds(items);
    }
  }

  /** And the other way: what parseredirs has read. */
  lemma {:induction false} RedirsSource(t: string, rs: seq<Redirection>, s: nat) returns (items: seq<Item>)
    requires s <= |t| && Line(t) && ParseRedirs(t, rs, s).Ok?
    ensures ItemsOk(items) && AllTo(items)
    ensures var r := ParseRedirs(t, rs, s);
      && Toks(t, s) == ItemToks(items) + Toks(t, r.s) && RedsOf(t, r.value) == RedsOf(t, rs) + Reds(items)
      && (Toks(t, r.s) != [] ==> !IsRedir(Toks(t, r.s)[0]))
    decreases |t| - s
  {
    hide Toks, Next, Skip, Peek, ParseRedirs, RedsOf, ItemToks, Reds, Redirect, RedOf, Line;
    PeekRedir(t, s);
    Head(t, s);
    RedirsUnfold(t, rs, s);
    if Peek(t, Skip(t, s), "<>") {
      RedirTurn(t, rs, s);
      var op := Next(t, Skip(t, s));
      var w := Next(t, op.s);
      var rs' := rs + [Redirect(op.kind, Span(w.q, w.eq))];
      var more := RedirsSource(t, rs', w.s);
      var item := To(op.kind, Toks(t, s)[1].text);
      items := [item] + more;
      FirstItem(item, more);
      var e := ParseRedirs(t, rs, s).s;
      assert Toks(t, s) == [Op(op.kind), Tok.Text(item.file)] + (ItemToks(more) + Toks(t, e));
      assert RedsOf(t, rs') + Reds(more) == RedsOf(t, rs) + Reds(items);
    } else {
      items := [];
      NoItems();
      assert ItemToks(items) + Toks(t, s) == Toks(t, s);
      assert RedsOf(t, rs) + Reds(items) == RedsOf(t, rs);
    }
  }

  // ---- simple commands ----

  lemma {:induction false} ItemsConcat(a: seq<Item>, b: seq<Item>)
    ensures ItemToks(a + b) == ItemToks(a) + ItemToks(b)
    ensures Args(a + b) == Args(a) + Args(b) && Reds(a + b) == Reds(a) + Reds(b)
    decreases |a|
  {
    hide ItemToks, Args, Reds;
    if a == [] {
      NoItems();
      assert a + b == b;
    } else {
      assert a == [a[0]] + a[1..] && a + b == [a[0]] + (a[1..] + b);
      ItemsConcat(a[1..], b);
      FirstItem(a[0], a[1..]);
      FirstItem(a[0], a[1..] + b);
    }
  }

  /** How many redirections come first. */
  function Leading(items: seq<Item>): (k: nat)
    ensures k <= |items| && AllTo(items[..k]) && (k < |items| ==> items[k].Arg?)
  {
    if items == [] || items[0].Arg? then 0 else
      assert items[..1 + Leading(items[1..])] == [items[0]] + items[1..][..Leading(items[1..])];
      1 + Leading(items[1..])
  }

  lemma LeadSplit(item: Item, more: seq<Item>)
    requires ItemsOk([item] + more)
    ensures var k := Leading(more);
      && more == more[..k] + more[k..] && ItemsOk(more[..k]) && AllTo(more[..k]) && ItemsOk(more[k..])
      && (more[k..] != [] ==> more[k..][0].Arg?)
  {
    forall i | 0 <= i < |more|
      ensures ItemOk(more[i])
    {
      assert ItemOk(([item] + more)[i + 1]);
    }
    LeadItems(more);
  }

  lemma {:induction false} ToOnly(items: seq<Item>)
    requires AllTo(items)
    ensures Args(items) == []
  {
    if items != [] {
      ToOnly(items[1..]);
    }
  }

  lemma ArgsUnfold(t: string, argv: seq<Span>, rs: seq<Redirection>, s: nat)
    requires s <= |t| && Line(t)
    ensures var s1 := Skip(t, s); var w := Next(t, s1); var more := ParseRedirs(t, rs, w.s);
      ParseArgs(t, argv, rs, s) ==
        if Peek(t, s1, "|)&;") then Ok(Wrap(Exec(argv), rs), s1)
        else if w.kind == NUL then Ok(Wrap(Exec(argv), rs), w.s)
        else if w.kind != 'a' then Panic("syntax")
        else if |argv| + 1 >= MAXARGS then Panic("too many args")
        else if more.Panic? then Panic(more.why)
        else ParseArgs(t, argv + [Span(w.q, w.eq)], more.value, more.s)
  {
  }

  /** The loop's end. */
  lemma ArgsEnd(t: string, argv: seq<Span>, rs: seq<Redirection>, s: nat)
    requires s <= |t| && Line(t) && (Toks(t, s) != [] ==> EndsArgs(Toks(t, s)[0]))
    ensures var r := ParseArgs(t, argv, rs, s);
      && r.Ok? && Toks(t, r.s) == Toks(t, s)
      && Meaning(t, r.value) == Enclose(Run(Texts(t, argv)), RedsOf(t, rs))
  {
    hide Toks, ParseArgs, Wrap, Enclose, Texts, RedsOf, Skip, Peek;
    PeekEnd(t, s);
    Head(t, s);
    ArgsUnfold(t, argv, rs, s);
    WrapEnclose(t, Exec(argv), rs);
  }

  /** One argument. */
  lemma ArgTurn(t: string, argv: seq<Span>, s: nat)
    requires s <= |t| && Line(t) && Toks(t, s) != [] && Toks(t, s)[0].Text?
    ensures var w := Next(t, Skip(t, s));
      && !Peek(t, Skip(t, s), "|)&;") && w.kind == 'a' && s < w.s <= |t|
      && Toks(t, s) == [Toks(t, s)[0]] + Toks(t, w.s)
      && Texts(t, argv + [Span(w.q, w.eq)]) == Texts(t, argv) + [Toks(t, s)[0].text]
  {
    PeekEnd(t, s);
    Head(t, s);
    hide Toks;
  }

  lemma {:induction false} ArgsParse(t: string, argv: seq<Span>, rs: seq<Redirection>, s: nat, items: seq<Item>,
                                     rest: seq<Tok>)
    requires s <= |t| && Line(t) && ItemsOk(items) && (items != [] ==> items[0].Arg?)
    requires |argv| + |Args(items)| < MAXARGS
    requires Toks(t, s) == ItemToks(items) + rest && (rest != [] ==> EndsArgs(rest[0]))
    ensures var r := ParseArgs(t, argv, rs, s);
      && r.Ok? && Toks(t, r.s) == rest
      && Meaning(t, r.value) == Enclose(Run(Texts(t, argv) + Args(items)), RedsOf(t, rs) + Reds(items))
    decreases |items|
  {
    hide Toks, ParseArgs, ParseRedirs, ItemToks, Args, Reds, RedsOf, Texts, Enclose, Meaning, Skip, Next, Peek, Wrap,
      Line, ItemsOk, AllTo, EndsArgs, IsRedir;
    if items == [] {
      NoItems();
      assert ItemToks(items) + rest == rest;
      ArgsEnd(t, argv, rs, s);
      assert Texts(t, argv) + Args(items) == Texts(t, argv) && RedsOf(t, rs) + Reds(items) == RedsOf(t, rs);
    } else {
      var item, more := items[0], items[1..];
      assert items == [item] + more;
      FirstItem(item, more);
      var k := Leading(more);
      var lead, tail := more[..k], more[k..];
      LeadSplit(item, more);
      ItemsConcat(lead, tail);
      ToOnly(lead);
      Assoc([Tok.Text(item.word)], ItemToks(more), rest);
      FirstOff(Toks(t, s), Tok.Text(item.word), ItemToks(more) + rest);
      ArgTurn(t, argv, s);
      ArgsUnfold(t, argv, rs, s);
      var w := Next(t, Skip(t, s));
      FirstOff(Toks(t, s), Tok.Text(item.word), Toks(t, w.s));
      Assoc(ItemToks(lead), ItemToks(tail), rest);
      FollowsLead(tail, rest);
      RedirsParse(t, rs, w.s, lead, ItemToks(tail) + rest);
      var rr := ParseRedirs(t, rs, w.s);
      ArgsParse(t, argv + [Span(w.q, w.eq)], rr.value, rr.s, tail, rest);
      Assoc(Texts(t, argv), [item.word], Args(tail));
      Assoc(RedsOf(t, rs), Reds(lead), Reds(tail));
      NoneFirst(Args(tail));
      NoneFirst(Reds(more));
    }
  }

  lemma Assoc<T>(a: seq<T>, b: seq<T>, c: seq<T>)
    ensures (a + b) + c == a + (b + c)
  {
  }

  lemma NoneFirst<T>(a: seq<T>)
    ensures [] + a == a
  {
  }

  lemma FirstOff(ts: seq<Tok>, a: Tok, rest: seq<Tok>)
    requires ts == [a] + rest
    ensures ts != [] && ts[0] == a && ts[1..] == rest
  {
  }

  /** What comes after leading redirections is none. */
  lemma FollowsLead(tail: seq<Item>, rest: seq<Tok>)
    requires tail != [] ==> tail[0].Arg?
    requires rest != [] ==> EndsArgs(rest[0])
    ensures ItemToks(tail) + rest != [] ==> !IsRedir((ItemToks(tail) + rest)[0])
  {
  }

  /** What parseexec's loop has read. */
  lemma {:induction false} ArgsSource(t: string, argv: seq<Span>, rs: seq<Redirection>, s: nat)
    returns (items: seq<Item>)
    requires s <= |t| && Line(t) && ParseArgs(t, argv, rs, s).Ok? && |argv| < MAXARGS
    ensures ItemsOk(items) && |argv| + |Args(items)| < MAXARGS
    ensures var r := ParseArgs(t, argv, rs, s);
      && Toks(t, s) == ItemToks(items) + Toks(t, r.s) && (Toks(t, r.s) != [] ==> EndsArgs(Toks(t, r.s)[0]))
      && Meaning(t, r.value) == Enclose(Run(Texts(t, argv) + Args(items)), RedsOf(t, rs) + Reds(items))
    decreases |t| - s
  {
    hide ParseArgs, ParseRedirs, ItemToks, Args, Reds, RedsOf, Texts, Enclose, Meaning, Skip, Next, Peek, Wrap,
      Line, Toks;
    PeekEnd(t, s);
    Head(t, s);
    ArgsUnfold(t, argv, rs, s);
    if Toks(t, s) == [] || EndsArgs(Toks(t, s)[0]) {
      ArgsEnd(t, argv, rs, s);
      NoItems();
      items := [];
      assert ItemToks(items) + Toks(t, s) == Toks(t, s);
      assert Texts(t, argv) + Args(items) == Texts(t, argv) && RedsOf(t, rs) + Reds(items) == RedsOf(t, rs);
    } else {
      var w := Next(t, Skip(t, s));
      assert w.kind == 'a';
      ArgTurn(t, argv, s);
      var lead := RedirsSource(t, rs, w.s);
      var rr := ParseRedirs(t, rs, w.s);
      var argv' := argv + [Span(w.q, w.eq)];
      var tail := ArgsSource(t, argv', rr.value, rr.s);
      var item := Arg(Toks(t, s)[0].text);
      items := [item] + (lead + tail);
      FirstItem(item, lead + tail);
      ItemsConcat(lead, tail);
      ToOnly(lead);
      assert Texts(t, argv') + Args(tail) == Texts(t, argv) + Args(items);
      assert RedsOf(t, rr.value) + Reds(tail) == RedsOf(t, rs) + Reds(items);
      var e := ParseArgs(t, argv, rs, s).s;
      assert Toks(t, s) == [Tok.Text(item.word)] + (ItemToks(lead) + (ItemToks(tail) + Toks(t, e)));
    }
  }

  // ---- one level of the parser at a time ----

  lemma ExecUnfold(t: string, s: nat)
    requires s <= |t| && Line(t)
    ensures var s1 := Skip(t, s); var rs := ParseRedirs(t, [], s1);
      ParseExec(t, s) ==
        if Peek(t, s1, "(") then ParseBlock(t, s1)
        else if rs.Panic? then Panic(rs.why) else ParseArgs(t, [], rs.value, rs.s)
  {
  }

  lemma BlockUnfold(t: string, s: nat)
    requires s <= |t| && Line(t)
    ensures var s1 := Skip(t, s); var c := ParseLine(t, Next(t, s1).s);
      ParseBlock(t, s) ==
        if !Peek(t, s1, "(") then Panic("parseblock")
        else if c.Panic? then c
        else
          var s2 := Skip(t, c.s);
          if !Peek(t, s2, ")") then Panic("syntax - missing )") else
            var rs := ParseRedirs(t, [], Next(t, s2).s);
            if rs.Panic? then Panic(rs.why) else Ok(Wrap(c.value, rs.value), rs.s)
  {
  }

  lemma PipeUnfold(t: string, s: nat)
    requires s <= |t| && Line(t)
    ensures var e := ParseExec(t, s);
      ParsePipe(t, s) ==
        if e.Panic? then e else
          var s1 := Skip(t, e.s);
          if !Peek(t, s1, "|") then Ok(e.value, s1) else
            var r := ParsePipe(t, Next(t, s1).s);
            if r.Panic? then r else Ok(Pipe(e.value, r.value), r.s)
  {
  }

  lemma BacksUnfold(t: string, cmd: Cmd, s: nat)
    requires s <= |t| && Line(t)
    ensures var s1 := Skip(t, s);
      ParseBacks(t, cmd, s) ==
        if !Peek(t, s1, "&") then Ok(cmd, s1) else ParseBacks(t, Back(cmd), Next(t, s1).s)
  {
  }

  lemma LineUnfold(t: string, s: nat)
    requires s <= |t| && Line(t)
    ensures var p := ParsePipe(t, s);
      ParseLine(t, s) ==
        if p.Panic? then p else
          var b := ParseBacks(t, p.value, p.s);
          if !Peek(t, b.s, ";") then b else
            var r := ParseLine(t, Next(t, b.s).s);
            if r.Panic? then r else Ok(List(b.value, r.value), r.s)
  {
  }

  lemma {:induction false} BacksSkipped(t: string, cmd: Cmd, s: nat)
    requires s <= |t| && Line(t)
    ensures Skip(t, ParseBacks(t, cmd, s).s) == ParseBacks(t, cmd, s).s
    decreases |t| - s
  {
    SkipTwice(t, s);
    BacksUnfold(t, cmd, s);
    if Peek(t, Skip(t, s), "&") {
      BacksSkipped(t, Back(cmd), Next(t, Skip(t, s)).s);
    }
  }

  /** The symbol at the cursor goes. */
  lemma OpOff(t: string, s: nat, c: char)
    requires s <= |t| && Line(t) && (c == '|' || c == '&' || c == ';' || c == '(' || c == ')')
    requires Toks(t, s) != [] && Toks(t, s)[0] == Op(c)
    ensures var k := Next(t, Skip(t, s));
      Peek(t, Skip(t, s), [c]) && s < k.s <= |t| && Toks(t, s) == [Op(c)] + Toks(t, k.s)
  {
    PeekOne(t, s, c);
    Head(t, s);
    hide Toks;
  }

  // ---- background ----

  function Amps(n: nat): seq<Tok> {
    if n == 0 then [] else [Op('&')] + Amps(n - 1)
  }

  lemma {:induction false} AmpsEnd(n: nat)
    ensures Amps(n) + [Op('&')] == Amps(n + 1)
  {
    if n > 0 {
      AmpsEnd(n - 1);
      Assoc([Op('&')], Amps(n - 1), [Op('&')]);
    }
  }

  function Backed(tree: Tree, n: nat): Tree
    decreases n
  {
    if n == 0 then tree else Backed(Background(tree), n - 1)
  }

  function AmpN(src: Src, n: nat): Src
    decreases n
  {
    if n == 0 then src else AmpN(Amp(src), n - 1)
  }

  lemma {:induction false} AmpNFacts(src: Src, n: nat)
    requires IsBacks(src)
    ensures IsBacks(AmpN(src, n)) && Spelled(AmpN(src, n)) == Spelled(src) + Amps(n)
    ensures TreeOf(AmpN(src, n)) == Backed(TreeOf(src), n)
    decreases n
  {
    if n > 0 {
      AmpNFacts(Amp(src), n - 1);
      Assoc(Spelled(src), [Op('&')], Amps(n - 1));
    } else {
      assert Spelled(src) + Amps(0) == Spelled(src);
    }
  }

  /** The &s at the end of a command, and what they are around. */
  lemma {:induction false} AmpsOf(src: Src) returns (base: Src, n: nat)
    requires IsBacks(src)
    ensures IsPipe(base) && src == AmpN(base, n) && (base == src || base < src)
    decreases src
  {
    if src.Amp? {
      base, n := AmpsOf(src.cmd);
      AmpOver(base, n);
      n := n + 1;
    } else {
      base, n := src, 0;
    }
  }

  lemma {:induction false} AmpOver(src: Src, n: nat)
    ensures Amp(AmpN(src, n)) == AmpN(src, n + 1)
    decreases n
  {
    if n > 0 {
      AmpOver(Amp(src), n - 1);
    }
  }

  lemma {:induction false} BacksParse(t: string, cmd: Cmd, s: nat, n: nat, rest: seq<Tok>)
    requires s <= |t| && Line(t) && Toks(t, s) == Amps(n) + rest && (rest != [] ==> rest[0] != Op('&'))
    ensures var r := ParseBacks(t, cmd, s);
      Toks(t, r.s) == rest && Meaning(t, r.value) == Backed(Meaning(t, cmd), n)
    decreases n
  {
    hide Toks, ParseBacks, Skip, Next, Peek;
    PeekOne(t, s, '&');
    BacksUnfold(t, cmd, s);
    Head(t, s);
    if n > 0 {
      Assoc([Op('&')], Amps(n - 1), rest);
      FirstOff(Toks(t, s), Op('&'), Amps(n - 1) + rest);
      OpOff(t, s, '&');
      FirstOff(Toks(t, s), Op('&'), Toks(t, Next(t, Skip(t, s)).s));
      BacksParse(t, Back(cmd), Next(t, Skip(t, s)).s, n - 1, rest);
    } else {
      assert Amps(0) + rest == rest;
    }
  }

  lemma {:induction false} BacksSource(t: string, cmd: Cmd, s: nat) returns (n: nat)
    requires s <= |t| && Line(t)
    ensures var r := ParseBacks(t, cmd, s);
      && Toks(t, s) == Amps(n) + Toks(t, r.s) && Meaning(t, r.value) == Backed(Meaning(t, cmd), n)
    decreases |t| - s
  {
    hide Toks, ParseBacks, Skip, Next, Peek;
    PeekOne(t, s, '&');
    BacksUnfold(t, cmd, s);
    Head(t, s);
    if Toks(t, s) != [] && Toks(t, s)[0] == Op('&') {
      OpOff(t, s, '&');
      n := BacksSource(t, Back(cmd), Next(t, Skip(t, s)).s);
      Assoc([Op('&')], Amps(n), Toks(t, ParseBacks(t, cmd, s).s));
      n := n + 1;
    } else {
      n := 0;
      assert Amps(0) + Toks(t, s) == Toks(t, s);
    }
  }

  // ---- a line that is spelled right parses, to its tree ----

  predicate Ends(rest: seq<Tok>, stops: seq<Tok>) { rest == [] || rest[0] in stops }

  lemma {:induction false} LineParses(t: string, s: nat, src: Src, rest: seq<Tok>)
    requires s <= |t| && Line(t) && IsLine(src) && Toks(t, s) == Spelled(src) + rest && Ends(rest, [Op(')')])
    ensures var r := ParseLine(t, s); r.Ok? && Toks(t, r.s) == rest && Meaning(t, r.value) == TreeOf(src)
    decreases src, 3
  {
    hide Toks, ParseLine, ParsePipe, ParseBacks, Skip, Next, Peek, Spelled;
    var left := if src.Semi? then src.left else src;
    var after := if src.Semi? then [Op(';')] + Spelled(src.right) + rest else rest;
    SemiSpelled(src, rest);
    var base, n := AmpsOf(left);
    AmpNFacts(base, n);
    Assoc(Spelled(base), Amps(n), after);
    AmpsEnds(n, after);
    PipeParses(t, s, base, Amps(n) + after);
    LineUnfold(t, s);
    var p := ParsePipe(t, s);
    BacksParse(t, p.value, p.s, n, after);
    var b := ParseBacks(t, p.value, p.s);
    BacksSkipped(t, p.value, p.s);
    PeekOne(t, b.s, ';');
    if src.Semi? {
      OpOff(t, b.s, ';');
      Assoc([Op(';')], Spelled(src.right), rest);
      FirstOff(Toks(t, b.s), Op(';'), Toks(t, Next(t, b.s).s));
      FirstOff(Toks(t, b.s), Op(';'), Spelled(src.right) + rest);
      LineParses(t, Next(t, b.s).s, src.right, rest);
    }
  }

  lemma SemiSpelled(src: Src, rest: seq<Tok>)
    ensures src.Semi? ==> Spelled(src) + rest == Spelled(src.left) + ([Op(';')] + Spelled(src.right) + rest)
  {
  }

  lemma AmpsEnds(n: nat, after: seq<Tok>)
    requires Ends(after, [Op(')'), Op(';')])
    ensures Ends(Amps(n) + after, [Op('&'), Op(')'), Op(';')])
  {
  }

  lemma {:induction false} PipeParses(t: string, s: nat, src: Src, rest: seq<Tok>)
    requires s <= |t| && Line(t) && IsPipe(src) && Toks(t, s) == Spelled(src) + rest
    requires Ends(rest, [Op('&'), Op(')'), Op(';')])
    ensures var r := ParsePipe(t, s); r.Ok? && Toks(t, r.s) == rest && Meaning(t, r.value) == TreeOf(src)
    decreases src, 1
  {
    hide Toks, ParsePipe, ParseExec, Skip, Next, Peek, Spelled;
    var left := if src.Bar? then src.left else src;
    var after := if src.Bar? then [Op('|')] + Spelled(src.right) + rest else rest;
    BarSpelled(src, rest);
    ExecParses(t, s, left, after);
    PipeUnfold(t, s);
    var e := ParseExec(t, s);
    PeekOne(t, e.s, '|');
    Head(t, e.s);
    if src.Bar? {
      OpOff(t, e.s, '|');
      Assoc([Op('|')], Spelled(src.right), rest);
      FirstOff(Toks(t, e.s), Op('|'), Toks(t, Next(t, Skip(t, e.s)).s));
      FirstOff(Toks(t, e.s), Op('|'), Spelled(src.right) + rest);
      PipeParses(t, Next(t, Skip(t, e.s)).s, src.right, rest);
    }
  }

  lemma BarSpelled(src: Src, rest: seq<Tok>)
    ensures src.Bar? ==> Spelled(src) + rest == Spelled(src.left) + ([Op('|')] + Spelled(src.right) + rest)
  {
  }

  lemma {:induction false} ExecParses(t: string, s: nat, src: Src, rest: seq<Tok>)
    requires s <= |t| && Line(t) && IsExec(src) && Toks(t, s) == Spelled(src) + rest
    requires Ends(rest, [Op('|'), Op('&'), Op(')'), Op(';')])
    ensures var r := ParseExec(t, s); r.Ok? && Toks(t, r.s) == rest && Meaning(t, r.value) == TreeOf(src)
    decreases src, 0
  {
    if src.Simple? {
      SimpleParses(t, s, src.items, rest);
    } else {
      BlockParses(t, s, src, rest);
    }
  }

  lemma SimpleParses(t: string, s: nat, items: seq<Item>, rest: seq<Tok>)
    requires s <= |t| && Line(t) && IsExec(Simple(items)) && Toks(t, s) == ItemToks(items) + rest
    requires Ends(rest, [Op('|'), Op('&'), Op(')'), Op(';')])
    ensures var r := ParseExec(t, s); r.Ok? && Toks(t, r.s) == rest && Meaning(t, r.value) == TreeOf(Simple(items))
  {
    hide Toks, ParseExec, ParseRedirs, ParseArgs, ItemToks, Args, Reds, RedsOf, Skip, Next, Peek, ItemsOk, AllTo,
      Enclose, IsRedir, Meaning, Texts, Line;
    var k := Leading(items);
    var lead, tail := items[..k], items[k..];
    LeadItems(items);
    ItemsConcat(lead, tail);
    ToOnly(lead);
    Assoc(ItemToks(lead), ItemToks(tail), rest);
    FollowsLead(tail, rest);
    PeekOne(t, s, '(');
    NotParen(items, rest);
    Head(t, s);
    ExecUnfold(t, s);
    RedirsParse(t, [], Skip(t, s), lead, ItemToks(tail) + rest);
    var rs := ParseRedirs(t, [], Skip(t, s));
    ArgsParse(t, [], rs.value, rs.s, tail, rest);
    NoWords(t);
    NoneFirst(Args(tail));
    NoneFirst(Reds(lead));
  }

  lemma LeadItems(items: seq<Item>)
    requires ItemsOk(items)
    ensures var k := Leading(items);
      && items == items[..k] + items[k..] && ItemsOk(items[..k]) && AllTo(items[..k]) && ItemsOk(items[k..])
      && (items[k..] != [] ==> items[k..][0].Arg?)
  {
  }

  lemma NotParen(items: seq<Item>, rest: seq<Tok>)
    requires ItemsOk(items) && Ends(rest, [Op('|'), Op('&'), Op(')'), Op(';')])
    ensures ItemToks(items) + rest != [] ==> (ItemToks(items) + rest)[0] != Op('(')
  {
    if items != [] {
      assert ItemOk(items[0]);
    }
  }

  lemma {:induction false} BlockParses(t: string, s: nat, src: Src, rest: seq<Tok>)
    requires s <= |t| && Line(t) && src.Block? && IsExec(src) && Toks(t, s) == Spelled(src) + rest
    requires Ends(rest, [Op('|'), Op('&'), Op(')'), Op(';')])
    ensures var r := ParseExec(t, s); r.Ok? && Toks(t, r.s) == rest && Meaning(t, r.value) == TreeOf(src)
    decreases src.line, 4
  {
    hide Toks, ParseExec, ParseBlock, ParseLine, ParseRedirs, RedsOf, Skip, Next, Peek, Spelled, ItemToks;
    var line, items := src.line, src.items;
    var inside := [Op(')')] + ItemToks(items) + rest;
    BlockSpelled(line, items, rest);
    FirstOff(Toks(t, s), Op('('), Spelled(line) + inside);
    OpOff(t, s, '(');
    Head(t, s);
    SkipTwice(t, s);
    ExecUnfold(t, s);
    BlockUnfold(t, Skip(t, s));
    var s1 := Next(t, Skip(t, s)).s;
    FirstOff(Toks(t, s), Op('('), Toks(t, s1));
    LineParses(t, s1, line, inside);
    var c := ParseLine(t, s1);
    OpOff(t, c.s, ')');
    var s2 := Next(t, Skip(t, c.s)).s;
    Assoc([Op(')')], ItemToks(items), rest);
    FirstOff(Toks(t, c.s), Op(')'), Toks(t, s2));
    FirstOff(Toks(t, c.s), Op(')'), ItemToks(items) + rest);
    RedirsParse(t, [], s2, items, rest);
    var rs := ParseRedirs(t, [], s2);
    WrapEnclose(t, c.value, rs.value);
    assert RedsOf(t, []) == [];
    NoneFirst(Reds(items));
  }

  lemma BlockSpelled(line: Src, items: seq<Item>, rest: seq<Tok>)
    ensures Spelled(Block(line, items)) + rest == [Op('(')] + (Spelled(line) + ([Op(')')] + ItemToks(items) + rest))
  {
  }

  // ---- a line that parses is spelled right ----

  /** What parseline has read, and what it made of it. */
  lemma {:induction false} LineSource(t: string, s: nat) returns (src: Src)
    requires s <= |t| && Line(t) && ParseLine(t, s).Ok?
    ensures var r := ParseLine(t, s);
      IsLine(src) && Toks(t, s) == Spelled(src) + Toks(t, r.s) && Meaning(t, r.value) == TreeOf(src)
    decreases |t| - s, 4
  {
    hide Toks, ParseLine, ParsePipe, ParseBacks, Skip, Next, Peek, Spelled;
    LineUnfold(t, s);
    var base := PipeSource(t, s);
    var p := ParsePipe(t, s);
    var n := BacksSource(t, p.value, p.s);
    var b := ParseBacks(t, p.value, p.s);
    var left := AmpN(base, n);
    PipeIsBacks(base);
    AmpNFacts(base, n);
    Assoc(Spelled(base), Amps(n), Toks(t, b.s));
    BacksSkipped(t, p.value, p.s);
    PeekOne(t, b.s, ';');
    AmpNLine(base, n);
    if Peek(t, b.s, ";") {
      OpOff(t, b.s, ';');
      var right := LineSource(t, Next(t, b.s).s);
      src := Semi(left, right);
      SemiSpelled(src, Toks(t, ParseLine(t, s).s));
      Assoc([Op(';')], Spelled(right), Toks(t, ParseLine(t, s).s));
    } else {
      src := left;
    }
  }

  lemma PipeIsBacks(src: Src)
    requires IsPipe(src)
    ensures IsBacks(src)
  {
  }

  lemma {:induction false} AmpNLine(src: Src, n: nat)
    requires IsPipe(src)
    ensures IsLine(AmpN(src, n)) && !AmpN(src, n).Semi?
  {
    AmpNFacts(src, n);
    AmpNOver(src, n);
  }

  lemma {:induction false} AmpNOver(src: Src, n: nat)
    ensures n > 0 ==> AmpN(src, n).Amp?
    decreases n
  {
    if n > 1 {
      AmpNOver(Amp(src), n - 1);
    }
  }

  lemma {:induction false} PipeSource(t: string, s: nat) returns (src: Src)
    requires s <= |t| && Line(t) && ParsePipe(t, s).Ok?
    ensures var r := ParsePipe(t, s);
      IsPipe(src) && Toks(t, s) == Spelled(src) + Toks(t, r.s) && Meaning(t, r.value) == TreeOf(src)
    decreases |t| - s, 3
  {
    hide Toks, ParsePipe, ParseExec, Skip, Next, Peek, Spelled;
    PipeUnfold(t, s);
    var left := ExecSource(t, s);
    var e := ParseExec(t, s);
    PeekOne(t, e.s, '|');
    Head(t, e.s);
    if Peek(t, Skip(t, e.s), "|") {
      OpOff(t, e.s, '|');
      var right := PipeSource(t, Next(t, Skip(t, e.s)).s);
      src := Bar(left, right);
      BarSpelled(src, Toks(t, ParsePipe(t, s).s));
      Assoc([Op('|')], Spelled(right), Toks(t, ParsePipe(t, s).s));
    } else {
      src := left;
    }
  }

  lemma {:induction false} ExecSource(t: string, s: nat) returns (src: Src)
    requires s <= |t| && Line(t) && ParseExec(t, s).Ok?
    ensures var r := ParseExec(t, s);
      IsExec(src) && Toks(t, s) == Spelled(src) + Toks(t, r.s) && Meaning(t, r.value) == TreeOf(src)
    decreases |t| - s, 2
  {
    hide Toks, ParseExec, ParseBlock, ParseRedirs, ParseArgs, Skip, Next, Peek, Spelled, RedsOf, ItemToks, Args, Reds;
    ExecUnfold(t, s);
    Head(t, s);
    if Peek(t, Skip(t, s), "(") {
      src := BlockSource(t, Skip(t, s));
    } else {
      var lead := RedirsSource(t, [], Skip(t, s));
      var rs := ParseRedirs(t, [], Skip(t, s));
      var tail := ArgsSource(t, [], rs.value, rs.s);
      var r := ParseExec(t, s);
      var items := lead + tail;
      src := Simple(items);
      SimpleSpelled(items);
      ItemsConcat(lead, tail);
      ToOnly(lead);
      Assoc(ItemToks(lead), ItemToks(tail), Toks(t, r.s));
      NoWords(t);
      NoneFirst(Args(tail));
      NoneFirst(Reds(lead));
    }
  }

  lemma NoWords(t: string)
    ensures Texts(t, []) == [] && RedsOf(t, []) == []
  {
  }

  lemma SimpleSpelled(items: seq<Item>)
    ensures Spelled(Simple(items)) == ItemToks(items)
  {
  }

  lemma {:induction false} BlockSource(t: string, s: nat) returns (src: Src)
    requires s <= |t| && Line(t) && Skip(t, s) == s && Peek(t, s, "(") && ParseBlock(t, s).Ok?
    ensures var r := ParseBlock(t, s);
      IsExec(src) && Toks(t, s) == Spelled(src) + Toks(t, r.s) && Meaning(t, r.value) == TreeOf(src)
    decreases |t| - s, 0
  {
    hide Toks, ParseBlock, ParseLine, ParseRedirs, Skip, Next, Peek, Spelled, RedsOf, ItemToks;
    PeekOne(t, s, '(');
    OpOff(t, s, '(');
    BlockUnfold(t, s);
    var s1 := Next(t, s).s;
    var line := LineSource(t, s1);
    var c := ParseLine(t, s1);
    PeekOne(t, c.s, ')');
    OpOff(t, c.s, ')');
    var s2 := Next(t, Skip(t, c.s)).s;
    var items := RedirsSource(t, [], s2);
    var rs := ParseRedirs(t, [], s2);
    src := Block(line, items);
    var rest := Toks(t, ParseBlock(t, s).s);
    BlockSpelled(line, items, rest);
    Assoc([Op(')')], ItemToks(items), rest);
    WrapEnclose(t, c.value, rs.value);
    NoWords(t);
    NoneFirst(Reds(items));
  }

  // ---- the parser and the grammar ----

  /** A line whose tokens, under any spacing, spell a command line parses to its tree. */
  lemma SpelledParses(t: string, src: Src)
    requires Line(t) && IsLine(src) && Toks(t, 0) == Spelled(src)
    ensures var r := ParseCmd(t); r.Ok? && Meaning(t, r.value) == TreeOf(src)
  {
    hide Toks, ParseLine, Spelled;
    assert Spelled(src) + [] == Spelled(src);
    LineParses(t, 0, src, []);
    Head(t, ParseLine(t, 0).s);
  }

  /** A line that parses spells a command line, and parses to its tree. */
  lemma ParsedSpells(t: string) returns (src: Src)
    requires Line(t) && ParseCmd(t).Ok?
    ensures IsLine(src) && Toks(t, 0) == Spelled(src) && Meaning(t, ParseCmd(t).value) == TreeOf(src)
  {
    hide Toks, ParseLine, Spelled;
    src := LineSource(t, 0);
    Head(t, ParseLine(t, 0).s);
    assert Spelled(src) + [] == Spelled(src);
  }

  /** parsecmd succeeds on exactly the lines of the grammar. */
  lemma ParsesIff(t: string)
    requires Line(t)
    ensures ParseCmd(t).Ok? <==> exists src :: IsLine(src) && Toks(t, 0) == Spelled(src)
  {
    if ParseCmd(t).Ok? {
      var src := ParsedSpells(t);
    }
    if exists src :: IsLine(src) && Toks(t, 0) == Spelled(src) {
      var src :| IsLine(src) && Toks(t, 0) == Spelled(src);
      SpelledParses(t, src);
    }
  }

  // ---- nothing is lost and nothing invented ----

  /** The words that are no redirection's file, in order. */
  function Plain(ts: seq<Tok>): seq<string> {
    if ts == [] then []
    else if ts[0].Text? then [ts[0].text] + Plain(ts[1..])
    else if IsRedir(ts[0]) && |ts| > 1 then Plain(ts[2..])
    else Plain(ts[1..])
  }

  /** The redirections with the word after each, in order. */
  function Files(ts: seq<Tok>): seq<Red> {
    if ts == [] then []
    else if IsRedir(ts[0]) && |ts| > 1 && ts[1].Text? then [Red(ts[0] == Op('<'), ts[1].text)] + Files(ts[2..])
    else Files(ts[1..])
  }

  /** The |, & and ; in order. */
  function Joints(ts: seq<Tok>): seq<Tok> {
    if ts == [] then []
    else (if ts[0] in [Op('|'), Op('&'), Op(';')] then [ts[0]] else []) + Joints(ts[1..])
  }

  function TreeArgs(tree: Tree): seq<string> {
    match tree
    case Run(ws) => ws
    case From(c, _) => TreeArgs(c)
    case Into(c, _) => TreeArgs(c)
    case Piped(l, r) => TreeArgs(l) + TreeArgs(r)
    case Then(l, r) => TreeArgs(l) + TreeArgs(r)
    case Background(c) => TreeArgs(c)
  }

  function TreeFiles(tree: Tree): seq<Red> {
    match tree
    case Run(_) => []
    case From(c, f) => TreeFiles(c) + [Red(true, f)]
    case Into(c, f) => TreeFiles(c) + [Red(false, f)]
    case Piped(l, r) => TreeFiles(l) + TreeFiles(r)
    case Then(l, r) => TreeFiles(l) + TreeFiles(r)
    case Background(c) => TreeFiles(c)
  }

  function TreeJoints(tree: Tree): seq<Tok> {
    match tree
    case Run(_) => []
    case From(c, _) => TreeJoints(c)
    case Into(c, _) => TreeJoints(c)
    case Piped(l, r) => TreeJoints(l) + [Op('|')] + TreeJoints(r)
    case Then(l, r) => TreeJoints(l) + [Op(';')] + TreeJoints(r)
    case Background(c) => TreeJoints(c) + [Op('&')]
  }

  lemma {:induction false} EncloseRecords(tree: Tree, reds: seq<Red>)
    ensures TreeArgs(Enclose(tree, reds)) == TreeArgs(tree) && TreeJoints(Enclose(tree, reds)) == TreeJoints(tree)
    ensures TreeFiles(Enclose(tree, reds)) == TreeFiles(tree) + reds
  {
    if reds != [] {
      EncloseRecords(tree, reds[..|reds| - 1]);
      assert reds == reds[..|reds| - 1] + [reds[|reds| - 1]];
    }
  }

  lemma WordRecords(word: string, rest: seq<Tok>)
    ensures Plain([Tok.Text(word)] + rest) == [word] + Plain(rest)
    ensures Files([Tok.Text(word)] + rest) == Files(rest) && Joints([Tok.Text(word)] + rest) == Joints(rest)
  {
    assert ([Tok.Text(word)] + rest)[1..] == rest;
  }

  lemma RedirRecords(op: char, file: string, rest: seq<Tok>)
    requires op == '<' || op == '>' || op == '+'
    ensures var ts := [Op(op), Tok.Text(file)] + rest;
      Plain(ts) == Plain(rest) && Files(ts) == [Red(op == '<', file)] + Files(rest) && Joints(ts) == Joints(rest)
  {
    var ts := [Op(op), Tok.Text(file)] + rest;
    assert ts[2..] == rest && ts[1..][1..] == rest && ts[1..][0] == Tok.Text(file);
  }

  lemma OpRecords(op: Tok, rest: seq<Tok>)
    requires op in [Op('|'), Op('&'), Op(';'), Op('('), Op(')')]
    ensures Plain([op] + rest) == Plain(rest) && Files([op] + rest) == Files(rest)
    ensures Joints([op] + rest) == (if op == Op('(') || op == Op(')') then [] else [op]) + Joints(rest)
  {
    assert ([op] + rest)[1..] == rest;
  }

  lemma {:induction false} ItemsRecord(items: seq<Item>, rest: seq<Tok>)
    requires ItemsOk(items)
    ensures Plain(ItemToks(items) + rest) == Args(items) + Plain(rest)
    ensures Files(ItemToks(items) + rest) == Reds(items) + Files(rest)
    ensures Joints(ItemToks(items) + rest) == Joints(rest)
    decreases |items|
  {
    hide ItemToks, Plain, Files, Joints, Args, Reds;
    if items == [] {
      NoItems();
      NoneFirst(rest);
      NoneFirst(Plain(rest));
      NoneFirst(Files(rest));
    } else {
      var item, more := items[0], items[1..];
      assert ItemOk(items[0]) && items == [item] + more;
      ItemsRecord(more, rest);
      FirstItem(item, more);
      if item.Arg? {
        Assoc([Tok.Text(item.word)], ItemToks(more), rest);
        WordRecords(item.word, ItemToks(more) + rest);
        Assoc([item.word], Args(more), Plain(rest));
        NoneFirst(Reds(more));
      } else {
        Assoc([Op(item.op), Tok.Text(item.file)], ItemToks(more), rest);
        RedirRecords(item.op, item.file, ItemToks(more) + rest);
        Assoc([Red(item.op == '<', item.file)], Reds(more), Files(rest));
        NoneFirst(Args(more));
      }
    }
  }

  /** All of a source's redirections are redirections. */
  predicate Proper(src: Src) {
    match src
    case Simple(items) => ItemsOk(items)
    case Block(line, items) => Proper(line) && ItemsOk(items) && AllTo(items)
    case Bar(l, r) => Proper(l) && Proper(r)
    case Amp(c) => Proper(c)
    case Semi(l, r) => Proper(l) && Proper(r)
  }

  lemma {:induction false} ExecProper(src: Src)
    requires IsExec(src)
    ensures Proper(src)
    decreases src, 0
  {
    if src.Block? {
      LineProper(src.line);
    }
  }

  lemma {:induction false} PipeProper(src: Src)
    requires IsPipe(src)
    ensures Proper(src)
    decreases src, 1
  {
    if src.Bar? {
      ExecProper(src.left);
      PipeProper(src.right);
    } else {
      ExecProper(src);
    }
  }

  lemma {:induction false} BacksProper(src: Src)
    requires IsBacks(src)
    ensures Proper(src)
    decreases src, 2
  {
    if src.Amp? {
      BacksProper(src.cmd);
    } else {
      PipeProper(src);
    }
  }

  lemma {:induction false} LineProper(src: Src)
    requires IsLine(src)
    ensures Proper(src)
    decreases src, 3
  {
    if src.Semi? {
      BacksProper(src.left);
      LineProper(src.right);
    } else {
      BacksProper(src);
    }
  }

  /** ts says what tree records, and then what rest says. */
  predicate Records(ts: seq<Tok>, tree: Tree, rest: seq<Tok>) {
    && Plain(ts) == TreeArgs(tree) + Plain(rest)
    && Files(ts) == TreeFiles(tree) + Files(rest)
    && Joints(ts) == TreeJoints(tree) + Joints(rest)
  }

  lemma EncloseRest(ts: seq<Tok>, tree: Tree, reds: seq<Red>, mid: seq<Tok>, rest: seq<Tok>)
    requires Records(ts, tree, mid)
    requires Plain(mid) == Plain(rest) && Files(mid) == reds + Files(rest) && Joints(mid) == Joints(rest)
    ensures Records(ts, Enclose(tree, reds), rest)
  {
    hide Plain, Files, Joints, Enclose, TreeArgs, TreeFiles, TreeJoints;
    EncloseRecords(tree, reds);
    Assoc(TreeFiles(tree), reds, Files(rest));
  }

  lemma JoinRecords(ts: seq<Tok>, l: Tree, op: Tok, mid: seq<Tok>, r: Tree, rest: seq<Tok>)
    requires op == Op('|') || op == Op(';')
    requires Records(ts, l, [op] + mid) && Records(mid, r, rest)
    ensures Records(ts, if op == Op('|') then Piped(l, r) else Then(l, r), rest)
  {
    hide Plain, Files, Joints;
    OpRecords(op, mid);
    Assoc(TreeArgs(l), TreeArgs(r), Plain(rest));
    Assoc(TreeFiles(l), TreeFiles(r), Files(rest));
    Assoc(TreeJoints(l), [op], TreeJoints(r) + Joints(rest));
    Assoc(TreeJoints(l) + [op], TreeJoints(r), Joints(rest));
    Assoc([op], TreeJoints(r), Joints(rest));
  }

  /** What a source's tokens say is what its tree records. */
  lemma {:induction false} SrcRecords(src: Src, rest: seq<Tok>)
    requires Proper(src)
    ensures Records(Spelled(src) + rest, TreeOf(src), rest)
    decreases src
  {
    hide Plain, Files, Joints, Records, Spelled, ItemToks, Args, Reds, Enclose;
    match src
    case Simple(items) => SimpleRecords(items, rest);
    case Block(line, items) =>
      var inside := [Op(')')] + ItemToks(items) + rest;
      BlockSpelled(line, items, rest);
      SrcRecords(line, inside);
      ParenRecords(Spelled(line) + inside, TreeOf(line), inside);
      BlockRecords(Spelled(src) + rest, line, items, inside, rest);
    case Bar(l, r) =>
      BarSpelled(src, rest);
      Assoc([Op('|')], Spelled(r), rest);
      SrcRecords(l, [Op('|')] + (Spelled(r) + rest));
      SrcRecords(r, rest);
      JoinRecords(Spelled(src) + rest, TreeOf(l), Op('|'), Spelled(r) + rest, TreeOf(r), rest);
    case Amp(c) =>
      AmpSpelled(c, rest);
      SrcRecords(c, [Op('&')] + rest);
      AmpRecords(Spelled(src) + rest, TreeOf(c), rest);
    case Semi(l, r) =>
      SemiSpelled(src, rest);
      Assoc([Op(';')], Spelled(r), rest);
      SrcRecords(l, [Op(';')] + (Spelled(r) + rest));
      SrcRecords(r, rest);
      JoinRecords(Spelled(src) + rest, TreeOf(l), Op(';'), Spelled(r) + rest, TreeOf(r), rest);
  }

  lemma ParenRecords(ts: seq<Tok>, tree: Tree, rest: seq<Tok>)
    requires Records(ts, tree, rest)
    ensures Records([Op('(')] + ts, tree, rest)
  {
    hide Plain, Files, Joints;
    OpRecords(Op('('), ts);
    NoneFirst(Joints(ts));
  }

  lemma AmpSpelled(c: Src, rest: seq<Tok>)
    ensures Spelled(Amp(c)) + rest == Spelled(c) + ([Op('&')] + rest)
  {
  }

  lemma AmpRecords(ts: seq<Tok>, tree: Tree, rest: seq<Tok>)
    requires Records(ts, tree, [Op('&')] + rest)
    ensures Records(ts, Background(tree), rest)
  {
    hide Plain, Files, Joints;
    OpRecords(Op('&'), rest);
  }

  lemma SimpleRecords(items: seq<Item>, rest: seq<Tok>)
    requires ItemsOk(items)
    ensures Records(Spelled(Simple(items)) + rest, TreeOf(Simple(items)), rest)
  {
    hide Plain, Files, Joints, ItemToks, Args, Reds;
    ItemsRecord(items, rest);
    EncloseRecords(Run(Args(items)), Reds(items));
    NoneFirst(Reds(items));
    NoneFirst(Joints(rest));
  }

  lemma BlockRecords(ts: seq<Tok>, line: Src, items: seq<Item>, inside: seq<Tok>, rest: seq<Tok>)
    requires ItemsOk(items) && AllTo(items) && inside == [Op(')')] + ItemToks(items) + rest
    requires Records(ts, TreeOf(line), inside)
    ensures Records(ts, TreeOf(Block(line, items)), rest)
  {
    hide Plain, Files, Joints, ItemToks, Args, Reds, Records;
    Assoc([Op(')')], ItemToks(items), rest);
    OpRecords(Op(')'), ItemToks(items) + rest);
    NoneFirst(Joints(ItemToks(items) + rest));
    ItemsRecord(items, rest);
    ToOnly(items);
    NoneFirst(Plain(rest));
    EncloseRest(ts, TreeOf(line), Reds(items), inside, rest);
  }

  /** On every line that parses, the arguments recorded are the line's other words and the files the
      words after its redirections, each once and in order; and so are its |, & and ;. */
  lemma Recorded(t: string)
    requires Line(t) && ParseCmd(t).Ok?
    ensures var tree, ts := Meaning(t, ParseCmd(t).value), Toks(t, 0);
      TreeArgs(tree) == Plain(ts) && TreeFiles(tree) == Files(ts) && TreeJoints(tree) == Joints(ts)
  {
    hide Toks, ParseCmd, Spelled;
    var src := ParsedSpells(t);
    LineProper(src);
    SrcRecords(src, []);
    assert Spelled(src) + [] == Spelled(src);
  }
}
