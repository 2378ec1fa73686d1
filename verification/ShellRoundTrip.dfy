/** Printing a command tree fully parenthesised and parsing it (user/sh.c) gives the tree back. */
module ShellRoundTrip {
  import opened Shell

  /** What a parse means: words and file names as text. */
  datatype Tree =
    | Run(words: seq<string>)
    | From(tree: Tree, file: string)
    | Into(tree: Tree, file: string)
    | Piped(left: Tree, right: Tree)
    | Then(left: Tree, right: Tree)
    | Background(tree: Tree)

  function Text(t: string, w: Span): string {
    if w.q <= w.eq <= |t| then t[w.q..w.eq] else ""
  }

  function Texts(t: string, argv: seq<Span>): (r: seq<string>)
    ensures |r| == |argv| && forall i :: 0 <= i < |r| ==> r[i] == Text(t, argv[i])
  {
    if argv == [] then [] else Texts(t, argv[..|argv| - 1]) + [Text(t, argv[|argv| - 1])]
  }

  function Meaning(t: string, cmd: Cmd): Tree {
    match cmd
    case Exec(argv) => Run(Texts(t, argv))
    case Redir(c, file, mode, _) =>
      if mode == 0 then From(Meaning(t, c), Text(t, file)) else Into(Meaning(t, c), Text(t, file))
    case Pipe(l, r) => Piped(Meaning(t, l), Meaning(t, r))
    case List(l, r) => Then(Meaning(t, l), Meaning(t, r))
    case Back(c) => Background(Meaning(t, c))
  }

  predicate LegalWord(w: string) {
    w != [] && forall i :: 0 <= i < |w| ==> WordChar(w[i])
  }

  predicate LegalWords(ws: seq<string>) { forall i :: 0 <= i < |ws| ==> LegalWord(ws[i]) }

  predicate Legal(tree: Tree) {
    match tree
    case Run(ws) => |ws| < MAXARGS && LegalWords(ws)
    case From(c, f) => Legal(c) && LegalWord(f)
    case Into(c, f) => Legal(c) && LegalWord(f)
    case Piped(l, r) => Legal(l) && Legal(r)
    case Then(l, r) => Legal(l) && Legal(r)
    case Background(c) => Legal(c)
  }

  function Join(ws: seq<string>): string {
    if ws == [] then "" else if |ws| == 1 then ws[0] else ws[0] + " " + Join(ws[1..])
  }

  function Paren(x: string): string { "(" + x + ")" }

  function Print(tree: Tree): string {
    match tree
    case Run(ws) => Join(ws)
    case From(c, f) => Paren(Print(c)) + "<" + f
    case Into(c, f) => Paren(Print(c)) + ">" + f
    case Piped(l, r) => Paren(Print(l)) + "|" + Paren(Print(r))
    case Then(l, r) => Paren(Print(l)) + ";" + Paren(Print(r))
    case Background(c) => Paren(Print(c)) + "&"
  }

  // ---- text at a position ----

  predicate Occurs(t: string, s: nat, x: string) {
    s + |x| <= |t| && forall i :: 0 <= i < |x| ==> t[s + i] == x[i]
  }

  /** What follows a parenthesised text: its closing parenthesis or the end of the line. */
  predicate Stop(t: string, s: nat) { s == |t| || (s < |t| && t[s] == ')') }

  lemma OccursSplit(t: string, s: nat, x: string, y: string)
    requires Occurs(t, s, x + y)
    ensures Occurs(t, s, x) && Occurs(t, s + |x|, y)
  {
    forall i | 0 <= i < |x|
      ensures t[s + i] == x[i]
    {
      assert (x + y)[i] == x[i];
    }
    forall i | 0 <= i < |y|
      ensures t[s + |x| + i] == y[i]
    {
      assert t[s + (|x| + i)] == (x + y)[|x| + i] == y[i];
    }
  }

  lemma OccursParen(t: string, s: nat, x: string)
    requires Occurs(t, s, Paren(x))
    ensures s + |x| + 2 <= |t| && t[s] == '(' && Occurs(t, s + 1, x) && t[s + 1 + |x|] == ')'
  {
    OccursSplit(t, s, "(" + x, ")");
    OccursSplit(t, s, "(", x);
    assert t[s + 0] == "("[0];
    assert t[(s + |"(" + x|) + 0] == ")"[0];
  }

  /** A word that occurs where a non-word character follows is the next token. */
  lemma NextWord(t: string, s: nat, w: string)
    requires Line(t) && LegalWord(w) && Occurs(t, s, w)
    requires s + |w| < |t| ==> White(t[s + |w|]) || Symbol(t[s + |w|])
    ensures Next(t, s) == Token('a', s, s + |w|, Skip(t, s + |w|)) && Text(t, Span(s, s + |w|)) == w
  {
    forall i | s <= i < s + |w|
      ensures WordChar(t[i])
    {
      assert t[s + (i - s)] == w[i - s];
    }
    assert Skip(t, s) == s && WordEnd(t, s) == s + |w|;
    assert t[s..s + |w|] == w;
  }

  // ---- the parser, one case at a time ----

  lemma RedirsNone(t: string, rs: seq<Redirection>, s: nat)
    requires Line(t) && s <= |t| && At(t, s) != '<' && At(t, s) != '>' && !White(At(t, s))
    ensures Skip(t, s) == s && ParseRedirs(t, rs, s) == Ok(rs, s)
  {
    assert Skip(t, s) == s;
  }

  lemma NextOp(t: string, s: nat, op: char)
    requires Line(t) && (op == '<' || op == '>') && s + 1 < |t| && t[s] == op && WordChar(t[s + 1])
    ensures Next(t, s) == Token(op, s, s + 1, s + 1)
  {
    assert Skip(t, s) == s && Skip(t, s + 1) == s + 1;
  }

  lemma RedirsOne(t: string, s: nat, op: char, f: string)
    requires Line(t) && (op == '<' || op == '>') && LegalWord(f) && Occurs(t, s, [op] + f) && Stop(t, s + 1 + |f|)
    ensures ParseRedirs(t, [], s) == Ok([Redirect(op, Span(s + 1, s + 1 + |f|))], s + 1 + |f|)
    ensures Text(t, Span(s + 1, s + 1 + |f|)) == f && Skip(t, s) == s
  {
    hide ParseRedirs, Next, WordEnd, Redirect;
    OccursSplit(t, s, [op], f);
    assert t[s + 0] == [op][0] && t[s + 1 + 0] == f[0];
    NextWord(t, s + 1, f);
    NextOp(t, s, op);
    var e := s + 1 + |f|;
    var w := Redirect(op, Span(s + 1, e));
    RedirsNone(t, [w], e);
    RedirsStep(t, [], s, Next(t, s), Next(t, s + 1));
    assert [] + [w] == [w];
  }

  lemma RedirsStep(t: string, rs: seq<Redirection>, s: nat, op: Token, w: Token)
    requires Line(t) && s <= |t| && Skip(t, s) == s && (At(t, s) == '<' || At(t, s) == '>')
    requires op == Next(t, s) && w == Next(t, op.s) && w.kind == 'a'
    ensures ParseRedirs(t, rs, s) == ParseRedirs(t, rs + [Redirect(op.kind, Span(w.q, w.eq))], w.s)
  {
    hide Next, Skip, WordEnd, Redirect;
  }

  lemma ArgsDone(t: string, argv: seq<Span>, s: nat)
    requires Line(t) && Stop(t, s)
    ensures ParseArgs(t, argv, [], s) == Ok(Exec(argv), s)
  {
    hide ParseRedirs;
    assert Skip(t, s) == s && Wrap(Exec(argv), []) == Exec(argv);
  }

  lemma ArgsStep(t: string, argv: seq<Span>, s: nat, w: Token)
    requires Line(t) && s < |t| && WordChar(t[s]) && w == Next(t, s) && w.kind == 'a' && |argv| + 1 < MAXARGS
    requires ParseRedirs(t, [], w.s) == Ok([], w.s)
    ensures ParseArgs(t, argv, [], s) == ParseArgs(t, argv + [Span(w.q, w.eq)], [], w.s)
  {
    hide ParseRedirs, Next, WordEnd;
    assert Skip(t, s) == s;
  }

  lemma BlockStep(t: string, s: nat, c: Cmd, e: nat)
    requires Line(t) && s < |t| && t[s] == '(' && Skip(t, s + 1) == s + 1
    requires ParseLine(t, s + 1) == Ok(c, e) && e < |t| && t[e] == ')'
    ensures var rs := ParseRedirs(t, [], Skip(t, e + 1));
      ParseExec(t, s) == if rs.Panic? then Panic(rs.why) else Ok(Wrap(c, rs.value), rs.s)
  {
    hide ParseRedirs, ParseLine, ParseArgs;
    assert Skip(t, s) == s && Skip(t, e) == e;
    assert Next(t, s).s == s + 1 && Next(t, e).s == Skip(t, e + 1);
  }

  // ---- words ----

  /** The first of some words is the next token, and the others occur where it ends. */
  lemma FirstWord(t: string, ws: seq<string>, s: nat)
    requires Line(t) && LegalWords(ws) && ws != [] && Occurs(t, s, Join(ws)) && Stop(t, s + |Join(ws)|)
    ensures s < |t| && WordChar(t[s])
    ensures var e := s + |ws[0]|;
      var s1 := if |ws| > 1 then e + 1 else e;
      && Next(t, s) == Token('a', s, e, s1) && Text(t, Span(s, e)) == ws[0]
      && Occurs(t, s1, Join(ws[1..])) && s1 + |Join(ws[1..])| == s + |Join(ws)|
      && s1 < |t| + 1 && ParseRedirs(t, [], s1) == Ok([], s1)
  {
    hide ParseRedirs, Next, Skip, Occurs, Join, LegalWord, Text;
    var w, e, rest := ws[0], s + |ws[0]|, ws[1..];
    assert LegalWord(w);
    JoinStart(t, s, ws);
    JoinParts(ws);
    if |ws| > 1 {
      OccursSplit(t, s, w + " ", Join(rest));
      OccursSplit(t, s, w, " ");
      OccursAt(t, e, " ", 0);
      JoinStart(t, e + 1, rest);
      SkipOne(t, e);
    } else {
      OccursEmpty(t, e);
    }
    NextWord(t, s, w);
    var s1 := if |ws| > 1 then e + 1 else e;
    RedirsNone(t, [], s1);
  }

  lemma JoinParts(ws: seq<string>)
    requires ws != []
    ensures if |ws| > 1 then Join(ws) == ws[0] + " " + Join(ws[1..]) else Join(ws) == ws[0] && Join(ws[1..]) == ""
  {
  }

  lemma OccursAt(t: string, s: nat, x: string, i: nat)
    requires Occurs(t, s, x) && i < |x|
    ensures s + i < |t| && t[s + i] == x[i]
  {
  }

  lemma OccursEmpty(t: string, s: nat)
    requires s <= |t|
    ensures Occurs(t, s, "")
  {
  }

  lemma SkipOne(t: string, s: nat)
    requires s + 1 < |t| && White(t[s]) && !White(t[s + 1])
    ensures Skip(t, s) == s + 1
  {
  }

  lemma {:induction false} ArgsRoundTrip(t: string, argv: seq<Span>, ws: seq<string>, s: nat)
    requires Line(t) && LegalWords(ws) && |argv| + |ws| < MAXARGS
    requires Occurs(t, s, Join(ws)) && Stop(t, s + |Join(ws)|)
    ensures var r := ParseArgs(t, argv, [], s);
      r.Ok? && r.value.Exec? && r.s == s + |Join(ws)| && Texts(t, r.value.argv) == Texts(t, argv) + ws
    decreases |ws|
  {
    hide ParseArgs, ParseRedirs, Next, Occurs, LegalWord, Text, Skip, Stop;
    if ws == [] {
      ArgsDone(t, argv, s);
      assert Texts(t, argv) + ws == Texts(t, argv);
    } else {
      FirstWord(t, ws, s);
      var w := Next(t, s);
      ArgsStep(t, argv, s, w);
      ArgsRoundTrip(t, argv + [Span(w.q, w.eq)], ws[1..], w.s);
      assert Texts(t, argv + [Span(w.q, w.eq)]) == Texts(t, argv) + [ws[0]];
      assert Texts(t, argv) + [ws[0]] + ws[1..] == Texts(t, argv) + ws;
    }
  }

  lemma JoinStart(t: string, s: nat, ws: seq<string>)
    requires LegalWords(ws) && ws != [] && Occurs(t, s, Join(ws))
    ensures s < |t| && WordChar(t[s])
  {
    assert LegalWord(ws[0]);
    assert Join(ws)[0] == ws[0][0];
    assert t[s + 0] == Join(ws)[0];
  }

  lemma RunRoundTrip(t: string, ws: seq<string>, s: nat)
    requires Line(t) && LegalWords(ws) && |ws| < MAXARGS && Occurs(t, s, Join(ws)) && Stop(t, s + |Join(ws)|)
    ensures var r := ParseLine(t, s); r.Ok? && r.s == s + |Join(ws)| && Meaning(t, r.value) == Run(ws)
  {
    hide ParseArgs, ParseRedirs, ParseExec, ParseLine, ParsePipe, Next, Join, Texts, Text, Line, LegalWords;
    if ws != [] { JoinStart(t, s, ws); } else { JoinEmpty(); }
    RedirsNone(t, [], s);
    ArgsRoundTrip(t, [], ws, s);
    var r := ParseArgs(t, [], [], s);
    assert Texts(t, []) + ws == ws by { NoTexts(t); }
    ExecRun(t, s);
    Tail(t, s, r.value, r.s);
  }

  lemma NoTexts(t: string)
    ensures Texts(t, []) == []
  {
  }

  lemma JoinEmpty()
    ensures Join([]) == ""
  {
  }

  lemma ExecRun(t: string, s: nat)
    requires Line(t) && s <= |t| && (Stop(t, s) || WordChar(At(t, s))) && ParseRedirs(t, [], s) == Ok([], s)
    ensures ParseExec(t, s) == ParseArgs(t, [], [], s)
  {
    hide ParseArgs, ParseRedirs;
    assert Skip(t, s) == s;
  }

  /** With a stop after a command, the levels above it add nothing. */
  lemma Tail(t: string, s: nat, c: Cmd, e: nat)
    requires Line(t) && s <= |t| && ParseExec(t, s) == Ok(c, e) && Stop(t, e)
    ensures ParsePipe(t, s) == Ok(c, e) && ParseLine(t, s) == Ok(c, e)
  {
    assert ParseBacks(t, c, e) == Ok(c, e);
  }

  // ---- parentheses ----

  lemma PrintStart(tree: Tree)
    requires Legal(tree) && Print(tree) != ""
    ensures Print(tree)[0] == '(' || WordChar(Print(tree)[0])
  {
    if tree.Run? {
      assert LegalWord(tree.words[0]);
    }
  }

  /** A parenthesised tree is a block; what follows it decides about redirections. */
  lemma BlockRoundTrip(t: string, tree: Tree, s: nat)
    requires Line(t) && Legal(tree) && Occurs(t, s, Paren(Print(tree)))
    requires var c := ParseLine(t, s + 1); c.Ok? && c.s == s + 1 + |Print(tree)|
    ensures s + |Print(tree)| + 2 <= |t|
    ensures var e, c := s + |Print(tree)| + 2, ParseLine(t, s + 1).value;
      var rs := ParseRedirs(t, [], Skip(t, e));
      ParseExec(t, s) == if rs.Panic? then Panic(rs.why) else Ok(Wrap(c, rs.value), rs.s)
  {
    hide ParseLine, ParseRedirs, ParseExec, Print;
    OccursParen(t, s, Print(tree));
    if Print(tree) != "" {
      PrintStart(tree);
      assert t[s + 1 + 0] == Print(tree)[0];
    }
    BlockStep(t, s, ParseLine(t, s + 1).value, s + |Print(tree)| + 1);
  }

  /** Without a redirection the block is the command itself. */
  lemma PlainBlock(t: string, tree: Tree, s: nat)
    requires Line(t) && Legal(tree) && Occurs(t, s, Paren(Print(tree)))
    requires var c := ParseLine(t, s + 1); c.Ok? && c.s == s + 1 + |Print(tree)|
    requires var e := s + |Print(tree)| + 2; e < |t| ==> !White(t[e]) && t[e] != '<' && t[e] != '>'
    ensures ParseExec(t, s) == Ok(ParseLine(t, s + 1).value, s + |Print(tree)| + 2)
  {
    hide ParseLine, ParseRedirs, ParseExec, Print;
    BlockRoundTrip(t, tree, s);
    RedirsNone(t, [], s + |Print(tree)| + 2);
  }

  lemma RedirRoundTrip(t: string, tree: Tree, f: string, op: char, s: nat)
    requires Line(t) && Legal(tree) && LegalWord(f) && (op == '<' || op == '>')
    requires Occurs(t, s, Paren(Print(tree)) + [op] + f) && Stop(t, s + |Print(tree)| + 3 + |f|)
    requires var c := ParseLine(t, s + 1); c.Ok? && c.s == s + 1 + |Print(tree)|
    ensures var w := s + |Print(tree)| + 3;
      && w + |f| <= |t| && Text(t, Span(w, w + |f|)) == f
      && ParseLine(t, s) == Ok(Wrap(ParseLine(t, s + 1).value, [Redirect(op, Span(w, w + |f|))]), w + |f|)
  {
    hide ParseLine, ParseRedirs, ParseExec, Print, Paren;
    assert Paren(Print(tree)) + [op] + f == Paren(Print(tree)) + ([op] + f);
    OccursSplit(t, s, Paren(Print(tree)), [op] + f);
    ParenLength(Print(tree));
    BlockRoundTrip(t, tree, s);
    var e := s + |Print(tree)| + 2;
    RedirsOne(t, e, op, f);
    Tail(t, s, Wrap(ParseLine(t, s + 1).value, [Redirect(op, Span(e + 1, e + 1 + |f|))]), e + 1 + |f|);
  }

  lemma ParenLength(x: string)
    ensures |Paren(x)| == |x| + 2
  {
  }

  // ---- the theorem ----

  /** Parsing at s reads tree's text and no more, and means tree. */
  predicate Parses(t: string, tree: Tree, s: nat)
    requires Line(t) && s <= |t|
  {
    var r := ParseLine(t, s);
    r.Ok? && r.s == s + |Print(tree)| && Meaning(t, r.value) == tree
  }

  lemma {:induction false} LineRoundTrip(t: string, tree: Tree, s: nat)
    requires Line(t) && Legal(tree) && Occurs(t, s, Print(tree)) && Stop(t, s + |Print(tree)|)
    ensures Parses(t, tree, s)
    decreases tree
  {
    hide Parses, Occurs, LegalWord, Stop, Paren, Join, Print;
    PrintCase(tree);
    match tree {
      case Run(ws) => RunCase(t, ws, s);
      case From(c, f) =>
        Inside(t, c, s, tree, "<" + f);
        LineRoundTrip(t, c, s + 1);
        RedirCase(t, c, f, '<', s);
      case Into(c, f) =>
        Inside(t, c, s, tree, ">" + f);
        LineRoundTrip(t, c, s + 1);
        RedirCase(t, c, f, '>', s);
      case Piped(l, r) =>
        Both(t, l, r, "|", s);
        LineRoundTrip(t, l, s + 1);
        LineRoundTrip(t, r, s + |Print(l)| + 4);
        PairCase(t, l, r, '|', s);
      case Then(l, r) =>
        Both(t, l, r, ";", s);
        LineRoundTrip(t, l, s + 1);
        LineRoundTrip(t, r, s + |Print(l)| + 4);
        PairCase(t, l, r, ';', s);
      case Background(c) =>
        Inside(t, c, s, tree, "&");
        LineRoundTrip(t, c, s + 1);
        BackCase(t, c, s);
    }
  }

  lemma PrintCase(tree: Tree)
    ensures tree.From? ==> Print(tree) == Paren(Print(tree.tree)) + ("<" + tree.file)
    ensures tree.Into? ==> Print(tree) == Paren(Print(tree.tree)) + (">" + tree.file)
    ensures tree.Piped? ==> Print(tree) == Paren(Print(tree.left)) + "|" + Paren(Print(tree.right))
    ensures tree.Then? ==> Print(tree) == Paren(Print(tree.left)) + ";" + Paren(Print(tree.right))
    ensures tree.Background? ==> Print(tree) == Paren(Print(tree.tree)) + "&"
  {
  }

  lemma RunCase(t: string, ws: seq<string>, s: nat)
    requires Line(t) && LegalWords(ws) && |ws| < MAXARGS && Occurs(t, s, Print(Run(ws)))
        && Stop(t, s + |Print(Run(ws))|)
    ensures Parses(t, Run(ws), s)
  {
    hide ParseLine, Occurs, Join, LegalWords;
    RunRoundTrip(t, ws, s);
  }

  /** Redirected(op, c, f) is the tree that op builds. */
  function Redirected(op: char, c: Tree, f: string): Tree { if op == '<' then From(c, f) else Into(c, f) }

  lemma RedirCase(t: string, c: Tree, f: string, op: char, s: nat)
    requires Line(t) && Legal(c) && LegalWord(f) && (op == '<' || op == '>')
    requires Occurs(t, s, Print(Redirected(op, c, f))) && Stop(t, s + |Print(Redirected(op, c, f))|)
    requires Parses(t, c, s + 1)
    ensures Parses(t, Redirected(op, c, f), s)
  {
    hide ParseLine, Occurs, LegalWord, Stop, Legal;
    assert Print(Redirected(op, c, f)) == Paren(Print(c)) + [op] + f;
    RedirRoundTrip(t, c, f, op, s);
    WrapMeaning(t, ParseLine(t, s + 1).value, op, Span(s + |Print(c)| + 3, s + |Print(c)| + 3 + |f|));
  }

  function Paired(op: char, l: Tree, r: Tree): Tree { if op == '|' then Piped(l, r) else Then(l, r) }

  lemma PairCase(t: string, l: Tree, r: Tree, op: char, s: nat)
    requires Line(t) && Legal(l) && Legal(r) && (op == '|' || op == ';')
    requires Occurs(t, s, Print(Paired(op, l, r))) && Stop(t, s + |Print(Paired(op, l, r))|)
    requires Parses(t, l, s + 1) && s + |Print(l)| + 4 <= |t| && Parses(t, r, s + |Print(l)| + 4)
    ensures Parses(t, Paired(op, l, r), s)
  {
    hide ParseLine, Occurs, Stop, Legal;
    assert Print(Paired(op, l, r)) == Paren(Print(l)) + [op] + Paren(Print(r));
    Both(t, l, r, [op], s);
    if op == '|' {
      PipeRoundTrip(t, l, r, s);
    } else {
      ListRoundTrip(t, l, r, s);
    }
  }

  lemma BackCase(t: string, c: Tree, s: nat)
    requires Line(t) && Legal(c) && Occurs(t, s, Print(Background(c))) && Stop(t, s + |Print(Background(c))|)
    requires Parses(t, c, s + 1)
    ensures Parses(t, Background(c), s)
  {
    hide ParseLine, Occurs, Legal;
    Inside(t, c, s, Background(c), "&");
    OccursEnd(t, s + |Print(c)| + 2, "&");
    BackRoundTrip(t, c, s);
  }

  lemma OccursEnd(t: string, s: nat, x: string)
    requires Occurs(t, s, x) && |x| == 1
    ensures s < |t| && t[s] == x[0]
  {
    assert t[s + 0] == x[0];
  }

  /** A parenthesised part is itself an occurrence with a stop after it. */
  lemma Inside(t: string, c: Tree, s: nat, tree: Tree, rest: string)
    requires Occurs(t, s, Print(tree)) && Print(tree) == Paren(Print(c)) + rest
    ensures s + 1 <= |t|
    ensures Occurs(t, s, Paren(Print(c))) && Occurs(t, s + 1, Print(c)) && Stop(t, s + 1 + |Print(c)|)
    ensures Occurs(t, s + |Print(c)| + 2, rest)
  {
    hide Print;
    OccursSplit(t, s, Paren(Print(c)), rest);
    OccursParen(t, s, Print(c));
    ParenLength(Print(c));
  }

  lemma Both(t: string, l: Tree, r: Tree, op: string, s: nat)
    requires |op| == 1 && Occurs(t, s, Paren(Print(l)) + op + Paren(Print(r)))
    ensures var e := s + |Print(l)| + 2;
      && Occurs(t, s, Paren(Print(l))) && Occurs(t, s + 1, Print(l)) && Stop(t, s + 1 + |Print(l)|)
      && e + 2 <= |t| && t[e] == op[0]
      && Occurs(t, e + 1, Paren(Print(r))) && Occurs(t, e + 2, Print(r)) && Stop(t, e + 2 + |Print(r)|)
  {
    hide Print;
    var e := s + |Print(l)| + 2;
    assert Paren(Print(l)) + op + Paren(Print(r)) == Paren(Print(l)) + (op + Paren(Print(r)));
    OccursSplit(t, s, Paren(Print(l)), op + Paren(Print(r)));
    OccursParen(t, s, Print(l));
    OccursSplit(t, e, op, Paren(Print(r)));
    assert t[e + 0] == op[0];
    OccursParen(t, e + 1, Print(r));
  }

  lemma WrapMeaning(t: string, c: Cmd, op: char, w: Span)
    requires op == '<' || op == '>'
    ensures Meaning(t, Wrap(c, [Redirect(op, w)])) ==
              if op == '<' then From(Meaning(t, c), Text(t, w)) else Into(Meaning(t, c), Text(t, w))
  {
    assert Wrap(c, [Redirect(op, w)][..0]) == c;
  }

  lemma PipeRoundTrip(t: string, l: Tree, r: Tree, s: nat)
    requires Line(t) && Legal(l) && Legal(r)
    requires Occurs(t, s, Paren(Print(l))) && Occurs(t, s + |Print(l)| + 3, Paren(Print(r)))
    requires var e := s + |Print(l)| + 2; e < |t| && t[e] == '|' && Stop(t, e + |Print(r)| + 3)
    requires var c := ParseLine(t, s + 1); c.Ok? && c.s == s + 1 + |Print(l)|
    requires var c := ParseLine(t, s + |Print(l)| + 4); c.Ok? && c.s == s + |Print(l)| + 4 + |Print(r)|
    ensures ParseLine(t, s) == Ok(Pipe(ParseLine(t, s + 1).value, ParseLine(t, s + |Print(l)| + 4).value),
                                  s + |Print(l)| + |Print(r)| + 5)
  {
    hide ParseLine, ParseExec, ParseRedirs, Print, Paren, ParsePipe;
    var e := s + |Print(l)| + 2;
    PlainBlock(t, l, s);
    PlainBlock(t, r, e + 1);
    var e2 := e + |Print(r)| + 3;
    Tail(t, e + 1, ParseLine(t, e + 2).value, e2);
    OccursParen(t, e + 1, Print(r));
    PipeStep(t, s, ParseLine(t, s + 1).value, e, ParseLine(t, e + 2).value, e2);
  }

  lemma PipeStep(t: string, s: nat, a: Cmd, e: nat, b: Cmd, e2: nat)
    requires Line(t) && s <= |t| && ParseExec(t, s) == Ok(a, e) && e < |t| && t[e] == '|' && Skip(t, e + 1) == e + 1
    requires ParsePipe(t, e + 1) == Ok(b, e2) && Stop(t, e2)
    ensures ParseLine(t, s) == Ok(Pipe(a, b), e2)
  {
    hide ParseExec, ParseRedirs;
    assert Skip(t, e) == e && Next(t, e).s == e + 1;
    assert ParsePipe(t, s) == Ok(Pipe(a, b), e2);
    assert Skip(t, e2) == e2;
    assert ParseBacks(t, Pipe(a, b), e2) == Ok(Pipe(a, b), e2);
  }

  lemma ListRoundTrip(t: string, l: Tree, r: Tree, s: nat)
    requires Line(t) && Legal(l) && Legal(r)
    requires Occurs(t, s, Paren(Print(l))) && Occurs(t, s + |Print(l)| + 3, Paren(Print(r)))
    requires var e := s + |Print(l)| + 2; e < |t| && t[e] == ';' && Stop(t, e + |Print(r)| + 3)
    requires var c := ParseLine(t, s + 1); c.Ok? && c.s == s + 1 + |Print(l)|
    requires var c := ParseLine(t, s + |Print(l)| + 4); c.Ok? && c.s == s + |Print(l)| + 4 + |Print(r)|
    ensures ParseLine(t, s) == Ok(List(ParseLine(t, s + 1).value, ParseLine(t, s + |Print(l)| + 4).value),
                                  s + |Print(l)| + |Print(r)| + 5)
  {
    hide ParseLine, ParseExec, ParseRedirs, Print, Paren, ParsePipe;
    var e := s + |Print(l)| + 2;
    PlainBlock(t, l, s);
    PlainBlock(t, r, e + 1);
    var e2 := e + |Print(r)| + 3;
    Tail(t, e + 1, ParseLine(t, e + 2).value, e2);
    OccursParen(t, e + 1, Print(r));
    ListStep(t, s, ParseLine(t, s + 1).value, e, ParseLine(t, e + 2).value, e2);
  }

  lemma ListStep(t: string, s: nat, a: Cmd, e: nat, b: Cmd, e2: nat)
    requires Line(t) && s <= |t| && ParseExec(t, s) == Ok(a, e) && e < |t| && t[e] == ';' && Skip(t, e + 1) == e + 1
    requires ParseLine(t, e + 1) == Ok(b, e2)
    ensures ParseLine(t, s) == Ok(List(a, b), e2)
  {
    hide ParseExec, ParseRedirs;
    assert Skip(t, e) == e && Next(t, e).s == e + 1;
    assert ParsePipe(t, s) == Ok(a, e);
    assert ParseBacks(t, a, e) == Ok(a, e);
  }

  lemma BackRoundTrip(t: string, c: Tree, s: nat)
    requires Line(t) && Legal(c) && Occurs(t, s, Paren(Print(c)))
    requires var e := s + |Print(c)| + 2; e < |t| && t[e] == '&' && Stop(t, e + 1)
    requires var r := ParseLine(t, s + 1); r.Ok? && r.s == s + 1 + |Print(c)|
    ensures ParseLine(t, s) == Ok(Back(ParseLine(t, s + 1).value), s + |Print(c)| + 3)
  {
    hide ParseLine, ParseExec, ParseRedirs, Print, Paren, ParsePipe;
    PlainBlock(t, c, s);
    BackStep(t, s, ParseLine(t, s + 1).value, s + |Print(c)| + 2);
  }

  lemma BackStep(t: string, s: nat, a: Cmd, e: nat)
    requires Line(t) && s <= |t| && ParseExec(t, s) == Ok(a, e) && e < |t| && t[e] == '&' && Stop(t, e + 1)
    ensures ParseLine(t, s) == Ok(Back(a), e + 1)
  {
    hide ParseExec, ParseRedirs;
    assert Skip(t, e) == e && Next(t, e).s == e + 1;
    assert ParsePipe(t, s) == Ok(a, e);
    assert ParseBacks(t, Back(a), e + 1) == Ok(Back(a), e + 1);
    assert ParseBacks(t, a, e) == Ok(Back(a), e + 1);
  }

  lemma {:induction false} PrintLine(tree: Tree)
    requires Legal(tree)
    ensures Line(Print(tree))
  {
    match tree {
      case Run(ws) => JoinLine(ws);
      case From(c, f) => PrintLine(c);
      case Into(c, f) => PrintLine(c);
      case Piped(l, r) => PrintLine(l); PrintLine(r);
      case Then(l, r) => PrintLine(l); PrintLine(r);
      case Background(c) => PrintLine(c);
    }
  }

  lemma {:induction false} JoinLine(ws: seq<string>)
    requires LegalWords(ws)
    ensures Line(Join(ws))
  {
    if ws != [] {
      assert LegalWord(ws[0]);
      JoinLine(ws[1..]);
    }
  }

  /** parsecmd undoes fully parenthesised printing, for every tree the shell can hold. */
  lemma RoundTrip(tree: Tree)
    requires Legal(tree)
    ensures Line(Print(tree))
    ensures var r := ParseCmd(Print(tree)); r.Ok? && Meaning(Print(tree), r.value) == tree
  {
    hide ParseLine, Print;
    PrintLine(tree);
    var t := Print(tree);
    LineRoundTrip(t, tree, 0);
    assert Skip(t, |t|) == |t|;
  }

  // ---- >> ----

  /** parseredirs at a >> reads the file word and records what it records for a >. */
  lemma RedirsAppend(t: string, s: nat, f: string)
    requires Line(t) && LegalWord(f) && Occurs(t, s, ">>" + f) && Stop(t, s + 2 + |f|)
    ensures ParseRedirs(t, [], s) == Ok([Redirect('>', Span(s + 2, s + 2 + |f|))], s + 2 + |f|)
    ensures Text(t, Span(s + 2, s + 2 + |f|)) == f && Skip(t, s) == s
  {
    hide ParseRedirs, Next, WordEnd;
    OccursSplit(t, s, ">>", f);
    assert t[s + 0] == ">>"[0] && t[s + 1] == ">>"[1] && t[s + 2 + 0] == f[0];
    NextWord(t, s + 2, f);
    NextAppend(t, s);
    var e := s + 2 + |f|;
    var w := Redirect('>', Span(s + 2, e));
    RedirsNone(t, [w], e);
    RedirsStep(t, [], s, Next(t, s), Next(t, s + 2));
    assert [] + [w] == [w];
  }

  lemma NextAppend(t: string, s: nat)
    requires Line(t) && s + 2 < |t| && t[s] == '>' && t[s + 1] == '>' && WordChar(t[s + 2])
    ensures Next(t, s) == Token('+', s, s + 2, s + 2)
  {
    assert Skip(t, s) == s && Skip(t, s + 2) == s + 2;
  }

  /** A command with >> parses to the very tree of the command with >: same mode, same
      descriptor, so what the file held is overwritten from its beginning. */
  lemma AppendIsOverwrite(c: Tree, f: string)
    requires Legal(c) && LegalWord(f)
    ensures var t := Paren(Print(c)) + ">>" + f;
      && Line(t) && ParseCmd(t).Ok? && ParseCmd(t).value.Redir?
      && ParseCmd(t).value.mode == 0x201 && ParseCmd(t).value.fd == 1
      && Meaning(t, ParseCmd(t).value) == Into(c, f)
    ensures var t := Paren(Print(c)) + ">" + f;
      && Line(t) && ParseCmd(t).Ok? && Meaning(t, ParseCmd(t).value) == Into(c, f)
  {
    hide ParseLine, ParseExec, ParseRedirs, Print, Paren, Occurs, Line, Text, LegalWord, WordChar, Skip, Next;
    PrintLine(c);
    var p, t := Paren(Print(c)), Paren(Print(c)) + ">>" + f;
    assert Line(t) by { ParenLine(Print(c), f); }
    ParenLength(Print(c));
    OccursWhole(p, ">>" + f, t);
    OccursParen(t, 0, Print(c));
    LineRoundTrip(t, c, 1);
    BlockRoundTrip(t, c, 0);
    var e := |p|;
    RedirsAppend(t, e, f);
    var w := Span(e + 2, e + 2 + |f|);
    var inner := ParseLine(t, 1).value;
    Tail(t, 0, Wrap(inner, [Redirect('>', w)]), e + 2 + |f|);
    WrapMeaning(t, inner, '>', w);
    RoundTrip(Into(c, f));
    PrintCase(Into(c, f));
    assert Paren(Print(c)) + ">" + f == Paren(Print(c)) + (">" + f);
  }

  lemma ParenLine(x: string, f: string)
    requires Line(x) && LegalWord(f)
    ensures Line(Paren(x) + ">>" + f)
  {
  }

  lemma OccursWhole(a: string, b: string, t: string)
    requires t == a + b
    ensures Occurs(t, 0, a) && Occurs(t, |a|, b)
  {
  }
}
