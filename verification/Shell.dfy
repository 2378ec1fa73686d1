/** The shell's parser (user/sh.c) over the text of one line: tokens, the mutually recursive
    parse, and what it records. A position is an offset into the buffer. */
module Shell {

  const MAXARGS := 10
  const NUL := '\0'

  /** A word as the parser records it: its first character and the one past its last. */
  datatype Span = Span(q: nat, eq: nat)

  datatype Cmd =
    | Exec(argv: seq<Span>)
    | Redir(cmd: Cmd, file: Span, mode: nat, fd: nat)
    | Pipe(left: Cmd, right: Cmd)
    | List(left: Cmd, right: Cmd)
    | Back(cmd: Cmd)

  datatype Redirection = Redirection(file: Span, mode: nat, fd: nat)

  /** A parse leaves a tree and the cursor, or panics, which ends the process. */
  datatype Result<T> = Ok(value: T, s: nat) | Panic(why: string)

  datatype Token = Token(kind: char, q: nat, eq: nat, s: nat)

  predicate White(c: char) { c == ' ' || c == '\t' || c == '\r' || c == '\n' || c == '\U{0B}' }

  predicate Symbol(c: char) { c == '<' || c == '|' || c == '>' || c == '&' || c == ';' || c == '(' || c == ')' }

  predicate WordChar(c: char) { c != NUL && !White(c) && !Symbol(c) }

  /** The text of a line has no NUL before its end. */
  predicate Line(t: string) { forall i :: 0 <= i < |t| ==> t[i] != NUL }

  /** The character at s; the line's end reads as NUL. */
  function At(t: string, s: nat): char { if s < |t| then t[s] else NUL }

  function Skip(t: string, s: nat): (r: nat)
    requires s <= |t|
    ensures s <= r <= |t| && (r < |t| ==> !White(t[r])) && forall i :: s <= i < r ==> White(t[i])
    decreases |t| - s
  {
    if s < |t| && White(t[s]) then Skip(t, s + 1) else s
  }

  function WordEnd(t: string, s: nat): (r: nat)
    requires s <= |t|
    ensures s <= r <= |t| && (r < |t| ==> White(t[r]) || Symbol(t[r]))
    ensures forall i :: s <= i < r ==> !White(t[i]) && !Symbol(t[i])
    decreases |t| - s
  {
    if s < |t| && !White(t[s]) && !Symbol(t[s]) then WordEnd(t, s + 1) else s
  }

  /** gettoken. */
  function Next(t: string, s: nat): (r: Token)
    requires s <= |t| && Line(t)
    ensures s <= r.q <= r.eq <= r.s <= |t| && (r.kind == NUL <==> r.q == |t|) && (r.kind != NUL ==> r.q < r.eq)
    ensures r.kind == 'a' ==> Word(t, Span(r.q, r.eq))
  {
    var q := Skip(t, s);
    var c := At(t, q);
    if c == NUL then Token(NUL, q, q, q)
    else if c == '>' then
      if At(t, q + 1) == '>' then Token('+', q, q + 2, Skip(t, q + 2)) else Token('>', q, q + 1, Skip(t, q + 1))
    else if Symbol(c) then Token(c, q, q + 1, Skip(t, q + 1))
    else
      var eq := WordEnd(t, q);
      Token('a', q, eq, Skip(t, eq))
  }

  /** w is a maximal word of t: word characters, and none at its end. */
  predicate Word(t: string, w: Span) {
    w.q < w.eq <= |t| && (forall i :: w.q <= i < w.eq ==> WordChar(t[i])) && (w.eq < |t| ==> !WordChar(t[w.eq]))
  }

  /** peek's answer at a position that is already past white space. */
  predicate Peek(t: string, s: nat, toks: string) {
    At(t, s) != NUL && At(t, s) in toks
  }

  function Redirect(kind: char, file: Span): Redirection {
    if kind == '<' then Redirection(file, 0, 0) else Redirection(file, 0x201, 1)
  }

  /** redircmd applied once per redirection, the first innermost. */
  function Wrap(cmd: Cmd, rs: seq<Redirection>): Cmd {
    if rs == [] then cmd else
      var r := rs[|rs| - 1];
      Redir(Wrap(cmd, rs[..|rs| - 1]), r.file, r.mode, r.fd)
  }

  // ---- the parser ----

  function ParseRedirs(t: string, rs: seq<Redirection>, s: nat): (r: Result<seq<Redirection>>)
    requires s <= |t| && Line(t)
    ensures r.Ok? ==> s <= r.s <= |t|
    decreases |t| - s
  {
    var s1 := Skip(t, s);
    if !Peek(t, s1, "<>") then Ok(rs, s1) else
      var op := Next(t, s1);
      var w := Next(t, op.s);
      if w.kind != 'a' then Panic("missing file for redirection")
      else ParseRedirs(t, rs + [Redirect(op.kind, Span(w.q, w.eq))], w.s)
  }

  function ParseLine(t: string, s: nat): (r: Result<Cmd>)
    requires s <= |t| && Line(t)
    ensures r.Ok? ==> s <= r.s <= |t|
    decreases |t| - s, 4
  {
    var p := ParsePipe(t, s);
    if p.Panic? then p else
      var b := ParseBacks(t, p.value, p.s);
      if !Peek(t, b.s, ";") then b else
        var r := ParseLine(t, Next(t, b.s).s);
        if r.Panic? then r else Ok(List(b.value, r.value), r.s)
  }

  function ParseBacks(t: string, cmd: Cmd, s: nat): (r: Result<Cmd>)
    requires s <= |t| && Line(t)
    ensures r.Ok? && s <= r.s <= |t|
    decreases |t| - s
  {
    var s1 := Skip(t, s);
    if !Peek(t, s1, "&") then Ok(cmd, s1) else ParseBacks(t, Back(cmd), Next(t, s1).s)
  }

  function ParsePipe(t: string, s: nat): (r: Result<Cmd>)
    requires s <= |t| && Line(t)
    ensures r.Ok? ==> s <= r.s <= |t|
    decreases |t| - s, 3
  {
    var e := ParseExec(t, s);
    if e.Panic? then e else
      var s1 := Skip(t, e.s);
      if !Peek(t, s1, "|") then Ok(e.value, s1) else
        var r := ParsePipe(t, Next(t, s1).s);
        if r.Panic? then r else Ok(Pipe(e.value, r.value), r.s)
  }

  function ParseBlock(t: string, s: nat): (r: Result<Cmd>)
    requires s <= |t| && Line(t)
    ensures r.Ok? ==> s <= r.s <= |t|
    decreases |t| - s, 0
  {
    var s1 := Skip(t, s);
    if !Peek(t, s1, "(") then Panic("parseblock") else
      var c := ParseLine(t, Next(t, s1).s);
      if c.Panic? then c else
        var s2 := Skip(t, c.s);
        if !Peek(t, s2, ")") then Panic("syntax - missing )") else
          var rs := ParseRedirs(t, [], Next(t, s2).s);
          if rs.Panic? then Panic(rs.why) else Ok(Wrap(c.value, rs.value), rs.s)
  }

  function ParseExec(t: string, s: nat): (r: Result<Cmd>)
    requires s <= |t| && Line(t)
    ensures r.Ok? ==> s <= r.s <= |t|
    decreases |t| - s, 2
  {
    var s1 := Skip(t, s);
    if Peek(t, s1, "(") then ParseBlock(t, s1) else
      var rs := ParseRedirs(t, [], s1);
      if rs.Panic? then Panic(rs.why) else ParseArgs(t, [], rs.value, rs.s)
  }

  /** parseexec's loop: the arguments so far, and the redirections around them. */
  function ParseArgs(t: string, argv: seq<Span>, rs: seq<Redirection>, s: nat): (r: Result<Cmd>)
    requires s <= |t| && Line(t)
    ensures r.Ok? ==> s <= r.s <= |t|
    decreases |t| - s, 1
  {
    var s1 := Skip(t, s);
    if Peek(t, s1, "|)&;") then Ok(Wrap(Exec(argv), rs), s1) else
      var w := Next(t, s1);
      if w.kind == NUL then Ok(Wrap(Exec(argv), rs), w.s)
      else if w.kind != 'a' then Panic("syntax")
      else if |argv| + 1 >= MAXARGS then Panic("too many args")
      else
        var more := ParseRedirs(t, rs, w.s);
        if more.Panic? then Panic(more.why) else ParseArgs(t, argv + [Span(w.q, w.eq)], more.value, more.s)
  }

  function ParseCmd(t: string): Result<Cmd>
    requires Line(t)
  {
    var r := ParseLine(t, 0);
    if r.Panic? then r
    else if Skip(t, r.s) != |t| then Panic("syntax")
    else Ok(r.value, |t|)
  }

  // ---- what a parse records ----

  predicate WordsOk(t: string, argv: seq<Span>) { forall i :: 0 <= i < |argv| ==> Word(t, argv[i]) }

  predicate FilesOk(t: string, rs: seq<Redirection>) {
    forall i :: 0 <= i < |rs| ==>
        Word(t, rs[i].file) && ((rs[i].mode == 0 && rs[i].fd == 0) || (rs[i].mode == 0x201 && rs[i].fd == 1))
  }

  /** Every recorded word is a maximal word of t, no command has more than MAXARGS - 1 of them,
      and redirections have the modes the parser knows. */
  predicate WellFormed(t: string, cmd: Cmd) {
    match cmd
    case Exec(argv) => WordsOk(t, argv) && |argv| < MAXARGS
    case Redir(c, file, mode, fd) =>
      WellFormed(t, c) && Word(t, file) && ((mode == 0 && fd == 0) || (mode == 0x201 && fd == 1))
    case Pipe(l, r) => WellFormed(t, l) && WellFormed(t, r)
    case List(l, r) => WellFormed(t, l) && WellFormed(t, r)
    case Back(c) => WellFormed(t, c)
  }

  lemma {:induction false} WrapWellFormed(t: string, cmd: Cmd, rs: seq<Redirection>)
    requires WellFormed(t, cmd) && FilesOk(t, rs)
    ensures WellFormed(t, Wrap(cmd, rs))
  {
    if rs != [] {
      WrapWellFormed(t, cmd, rs[..|rs| - 1]);
    }
  }

  lemma {:induction false} RedirsWellFormed(t: string, rs: seq<Redirection>, s: nat)
    requires s <= |t| && Line(t) && FilesOk(t, rs)
    ensures ParseRedirs(t, rs, s).Ok? ==> FilesOk(t, ParseRedirs(t, rs, s).value)
    decreases |t| - s
  {
    var s1 := Skip(t, s);
    if Peek(t, s1, "<>") {
      var op := Next(t, s1);
      var w := Next(t, op.s);
      if w.kind == 'a' {
        RedirsWellFormed(t, rs + [Redirect(op.kind, Span(w.q, w.eq))], w.s);
      }
    }
  }

  lemma {:induction false} ArgsWellFormed(t: string, argv: seq<Span>, rs: seq<Redirection>, s: nat)
    requires s <= |t| && Line(t) && WordsOk(t, argv) && |argv| < MAXARGS && FilesOk(t, rs)
    ensures ParseArgs(t, argv, rs, s).Ok? ==> WellFormed(t, ParseArgs(t, argv, rs, s).value)
    decreases |t| - s
  {
    var s1 := Skip(t, s);
    WrapWellFormed(t, Exec(argv), rs);
    if !Peek(t, s1, "|)&;") {
      var w := Next(t, s1);
      if w.kind == 'a' && |argv| + 1 < MAXARGS {
        var more := ParseRedirs(t, rs, w.s);
        RedirsWellFormed(t, rs, w.s);
        if more.Ok? {
          ArgsWellFormed(t, argv + [Span(w.q, w.eq)], more.value, more.s);
        }
      }
    }
  }

  lemma {:induction false} BacksWellFormed(t: string, cmd: Cmd, s: nat)
    requires s <= |t| && Line(t) && WellFormed(t, cmd)
    ensures WellFormed(t, ParseBacks(t, cmd, s).value)
    decreases |t| - s
  {
    var s1 := Skip(t, s);
    if Peek(t, s1, "&") {
      BacksWellFormed(t, Back(cmd), Next(t, s1).s);
    }
  }

  /** Whatever the line, what parseline returns is well formed. */
  lemma {:induction false} LineWellFormed(t: string, s: nat)
    requires s <= |t| && Line(t)
    ensures ParseLine(t, s).Ok? ==> WellFormed(t, ParseLine(t, s).value)
    decreases |t| - s, 4
  {
    PipeWellFormed(t, s);
    var p := ParsePipe(t, s);
    if p.Ok? {
      BacksWellFormed(t, p.value, p.s);
      var b := ParseBacks(t, p.value, p.s);
      if Peek(t, b.s, ";") {
        LineWellFormed(t, Next(t, b.s).s);
      }
    }
  }

  lemma {:induction false} PipeWellFormed(t: string, s: nat)
    requires s <= |t| && Line(t)
    ensures ParsePipe(t, s).Ok? ==> WellFormed(t, ParsePipe(t, s).value)
    decreases |t| - s, 3
  {
    ExecWellFormed(t, s);
    var e := ParseExec(t, s);
    if e.Ok? && Peek(t, Skip(t, e.s), "|") {
      PipeWellFormed(t, Next(t, Skip(t, e.s)).s);
    }
  }

  lemma {:induction false} ExecWellFormed(t: string, s: nat)
    requires s <= |t| && Line(t)
    ensures ParseExec(t, s).Ok? ==> WellFormed(t, ParseExec(t, s).value)
    decreases |t| - s, 2
  {
    var s1 := Skip(t, s);
    if Peek(t, s1, "(") {
      BlockWellFormed(t, s1);
    } else {
      RedirsWellFormed(t, [], s1);
      var rs := ParseRedirs(t, [], s1);
      if rs.Ok? {
        ArgsWellFormed(t, [], rs.value, rs.s);
      }
    }
  }

  lemma {:induction false} BlockWellFormed(t: string, s: nat)
    requires s <= |t| && Line(t)
    ensures ParseBlock(t, s).Ok? ==> WellFormed(t, ParseBlock(t, s).value)
    decreases |t| - s, 0
  {
    var s1 := Skip(t, s);
    if Peek(t, s1, "(") {
      LineWellFormed(t, Next(t, s1).s);
      var c := ParseLine(t, Next(t, s1).s);
      if c.Ok? && Peek(t, Skip(t, c.s), ")") {
        RedirsWellFormed(t, [], Next(t, Skip(t, c.s)).s);
        var rs := ParseRedirs(t, [], Next(t, Skip(t, c.s)).s);
        if rs.Ok? {
          WrapWellFormed(t, c.value, rs.value);
        }
      }
    }
  }
}
