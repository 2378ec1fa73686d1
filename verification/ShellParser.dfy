/** sh.c's parser as it runs: a cursor over the line buffer, and the pass that ends every
    recorded word with a NUL in that buffer. */
module ShellParser {
  import opened Shell
  import opened ShellRoundTrip

  /** The positions that nulterminate overwrites. */
  function Ends(cmd: Cmd): set<nat> {
    match cmd
    case Exec(argv) => set i | 0 <= i < |argv| :: argv[i].eq
    case Redir(c, file, _, _) => Ends(c) + {file.eq}
    case Pipe(l, r) => Ends(l) + Ends(r)
    case List(l, r) => Ends(l) + Ends(r)
    case Back(c) => Ends(c)
  }

  function Words(cmd: Cmd): set<Span> {
    match cmd
    case Exec(argv) => set i | 0 <= i < |argv| :: argv[i]
    case Redir(c, file, _, _) => Words(c) + {file}
    case Pipe(l, r) => Words(l) + Words(r)
    case List(l, r) => Words(l) + Words(r)
    case Back(c) => Words(c)
  }

  /** The C string at q: the characters up to the first NUL. */
  function CString(buf: seq<char>, q: nat): string
    decreases |buf| - q
  {
    if q >= |buf| || buf[q] == NUL then "" else [buf[q]] + CString(buf, q + 1)
  }

  lemma {:induction false} CStringIs(buf: seq<char>, q: nat, eq: nat)
    requires q <= eq < |buf| && buf[eq] == NUL && forall i :: q <= i < eq ==> buf[i] != NUL
    ensures CString(buf, q) == buf[q..eq]
    decreases eq - q
  {
    if q < eq {
      CStringIs(buf, q + 1, eq);
    }
  }

  lemma {:induction false} EndsOfWords(t: string, cmd: Cmd)
    requires WellFormed(t, cmd)
    ensures forall w :: w in Words(cmd) ==> Word(t, w) && w.eq in Ends(cmd)
    ensures forall e :: e in Ends(cmd) ==> e <= |t| && (e < |t| ==> !WordChar(t[e]))
  {
    match cmd {
      case Exec(argv) =>
        forall i | 0 <= i < |argv|
          ensures Word(t, argv[i])
        {
        }
      case Redir(c, file, _, _) => EndsOfWords(t, c);
      case Pipe(l, r) => EndsOfWords(t, l); EndsOfWords(t, r);
      case List(l, r) => EndsOfWords(t, l); EndsOfWords(t, r);
      case Back(c) => EndsOfWords(t, c);
    }
  }

  /** The buffer after nulterminate: NUL at every recorded end, and the line elsewhere. */
  predicate Terminated(t: string, buf: seq<char>, cmd: Cmd) {
    && |buf| == |t| + 1 && buf[|t|] == NUL
    && forall i :: 0 <= i < |t| ==> buf[i] == if i in Ends(cmd) then NUL else t[i]
  }

  /** After nulterminate each recorded word, read as a C string, is the word that was parsed:
      no NUL lands inside another word. */
  lemma NulterminateSafe(t: string, cmd: Cmd, buf: seq<char>, w: Span)
    requires Line(t) && WellFormed(t, cmd) && Terminated(t, buf, cmd) && w in Words(cmd)
    ensures CString(buf, w.q) == Text(t, w)
  {
    EndsOfWords(t, cmd);
    assert Word(t, w);
    forall i | w.q <= i < w.eq
      ensures buf[i] == t[i] && buf[i] != NUL
    {
      assert WordChar(t[i]);
    }
    CStringIs(buf, w.q, w.eq);
    assert buf[w.q..w.eq] == t[w.q..w.eq];
  }

  class Parser {
    /** The line, its NUL, and the address of that NUL. */
    const buf: array<char>
    const es: nat
    /** *ps. */
    var s: nat

    ghost predicate Valid()
      reads this, buf
    {
      es + 1 == buf.Length && buf[es] == NUL && Line(buf[..es]) && s <= es
    }

    ghost function T(): string
      reads this, buf
      requires es <= buf.Length
    {
      buf[..es]
    }

    constructor (line: array<char>, n: nat)
      requires n + 1 == line.Length && line[n] == NUL && Line(line[..n])
      ensures Valid() && buf == line && es == n && s == 0
    {
      buf, es, s := line, n, 0;
    }

    method SkipWhite(from: nat) returns (r: nat)
      requires Valid() && from <= es
      ensures r == Skip(T(), from)
    {
      r := from;
      while r < es && White(buf[r])
        invariant from <= r <= es && Skip(T(), r) == Skip(T(), from)
      {
        r := r + 1;
      }
    }

    /** gettoken's loop over a word. */
    method SkipWord(from: nat) returns (r: nat)
      requires Valid() && from <= es
      ensures r == WordEnd(T(), from)
    {
      r := from;
      while r < es && !White(buf[r]) && !Symbol(buf[r])
        invariant from <= r <= es && WordEnd(T(), r) == WordEnd(T(), from)
      {
        r := r + 1;
      }
    }

    method Gettoken() returns (kind: char, q: nat, eq: nat)
      requires Valid()
      modifies this`s
      ensures Valid() && Next(T(), old(s)) == Token(kind, q, eq, s)
    {
      q := SkipWhite(s);
      eq := q;
      kind := buf[q];
      if kind == NUL {
      } else if kind == '|' || kind == '(' || kind == ')' || kind == ';' || kind == '&' || kind == '<' {
        eq := eq + 1;
      } else if kind == '>' {
        eq := eq + 1;
        if buf[eq] == '>' {
          kind := '+';
          eq := eq + 1;
        }
      } else {
        kind := 'a';
        eq := SkipWord(q);
      }
      s := SkipWhite(eq);
    }

    /** peek: moves the cursor past white space. */
    method Peek(toks: string) returns (r: bool)
      requires Valid()
      modifies this`s
      ensures Valid() && s == Skip(T(), old(s)) && (r <==> Shell.Peek(T(), s, toks))
    {
      s := SkipWhite(s);
      r := buf[s] != NUL && buf[s] in toks;
    }

    /** parseredirs: the redirections to wrap around cmd, which is still being filled. */
    method Parseredirs(rs0: seq<Redirection>) returns (ok: bool, rs: seq<Redirection>)
      requires Valid()
      modifies this`s
      ensures Valid()
      ensures var r := ParseRedirs(T(), rs0, old(s)); if ok then r == Ok(rs, s) else r.Panic?
    {
      rs := rs0;
      var more := Peek("<>");
      while more
        invariant Valid() && s == Skip(T(), s) && (more <==> Shell.Peek(T(), s, "<>"))
        invariant ParseRedirs(T(), rs, s) == ParseRedirs(T(), rs0, old(s))
        decreases es - s
      {
        ghost var s0 := s;
        var tok, _, _ := Gettoken();
        var kind, q, eq := Gettoken();
        if kind != 'a' {
          return false, rs;
        }
        rs := rs + [Redirect(tok, Span(q, eq))];
        ghost var s1 := s;
        more := Peek("<>");
        SkipTwice(T(), s1);
        RedirsSkip(T(), rs, s1);
      }
      ok := true;
    }

    method Parseline() returns (ok: bool, cmd: Cmd)
      requires Valid()
      modifies this`s
      ensures Valid()
      ensures var r := ParseLine(T(), old(s)); if ok then r == Ok(cmd, s) else r.Panic?
      decreases es - s, 4
    {
      ghost var t, s0 := T(), s;
      ok, cmd := Parsepipe();
      if !ok {
        return;
      }
      ghost var p := ParsePipe(t, s0);
      cmd := Parsebacks(cmd);
      var more := Peek(";");
      SkipTwice(t, p.s);
      BacksEnd(t, p.value, p.s);
      if more {
        var _, _, _ := Gettoken();
        var right;
        ok, right := Parseline();
        cmd := List(cmd, right);
      }
    }

    /** parseline's loop over trailing ampersands. */
    method Parsebacks(cmd0: Cmd) returns (cmd: Cmd)
      requires Valid()
      modifies this`s
      ensures Valid() && ParseBacks(T(), cmd0, old(s)) == Ok(cmd, s)
    {
      cmd := cmd0;
      ghost var s1 := s;
      var more := Peek("&");
      SkipTwice(T(), s1);
      while more
        invariant Valid() && s == Skip(T(), s) && (more <==> Shell.Peek(T(), s, "&"))
        invariant ParseBacks(T(), cmd, s) == ParseBacks(T(), cmd0, old(s))
        decreases es - s
      {
        var _, _, _ := Gettoken();
        cmd := Back(cmd);
        s1 := s;
        more := Peek("&");
        SkipTwice(T(), s1);
      }
    }

    method Parsepipe() returns (ok: bool, cmd: Cmd)
      requires Valid()
      modifies this`s
      ensures Valid()
      ensures var r := ParsePipe(T(), old(s)); if ok then r == Ok(cmd, s) else r.Panic?
      decreases es - s, 3
    {
      ok, cmd := Parseexec();
      if !ok {
        return;
      }
      var more := Peek("|");
      if more {
        var _, _, _ := Gettoken();
        var right;
        ok, right := Parsepipe();
        cmd := Pipe(cmd, right);
      }
    }

    method Parseblock() returns (ok: bool, cmd: Cmd)
      requires Valid()
      modifies this`s
      ensures Valid()
      ensures var r := ParseBlock(T(), old(s)); if ok then r == Ok(cmd, s) else r.Panic?
      decreases es - s, 0
    {
      cmd := Exec([]);
      ok := Peek("(");
      if !ok {
        return;
      }
      var _, _, _ := Gettoken();
      ok, cmd := Parseline();
      if !ok {
        return;
      }
      ok := Peek(")");
      if !ok {
        return;
      }
      var _, _, _ := Gettoken();
      var rs;
      ok, rs := Parseredirs([]);
      cmd := Wrap(cmd, rs);
    }

    method Parseexec() returns (ok: bool, cmd: Cmd)
      requires Valid()
      modifies this`s
      ensures Valid()
      ensures var r := ParseExec(T(), old(s)); if ok then r == Ok(cmd, s) else r.Panic?
      decreases es - s, 2
    {
      cmd := Exec([]);
      var block := Peek("(");
      if block {
        ok, cmd := Parseblock();
        return;
      }
      var rs;
      ok, rs := Parseredirs([]);
      if !ok {
        return;
      }
      ok, cmd := Parseargs(rs);
    }

    /** parseexec's loop. */
    method Parseargs(rs0: seq<Redirection>) returns (ok: bool, cmd: Cmd)
      requires Valid()
      modifies this`s
      ensures Valid()
      ensures var r := ParseArgs(T(), [], rs0, old(s)); if ok then r == Ok(cmd, s) else r.Panic?
    {
      var argv, rs: seq<Redirection> := [], rs0;
      cmd := Exec([]);
      ghost var start: nat := s;
      var done := Peek("|)&;");
      while !done
        invariant Valid() && start <= es && s == Skip(T(), start) && (done <==> Shell.Peek(T(), s, "|)&;"))
        invariant ParseArgs(T(), argv, rs, start) == ParseArgs(T(), [], rs0, old(s))
        decreases es - s
      {
        SkipTwice(T(), start);
        var kind, q, eq := Gettoken();
        if kind == NUL {
          break;
        }
        if kind != 'a' {
          return false, cmd;
        }
        argv := argv + [Span(q, eq)];
        if |argv| >= MAXARGS {
          return false, cmd;
        }
        ok, rs := Parseredirs(rs);
        if !ok {
          return false, cmd;
        }
        start := s;
        done := Peek("|)&;");
      }
      return true, Wrap(Exec(argv), rs);
    }

    /** nulterminate. */
    method Nulterminate(cmd: Cmd)
      requires buf.Length == es + 1 && forall e :: e in Ends(cmd) ==> e <= es
      modifies buf
      ensures forall i :: 0 <= i <= es ==> buf[i] == if i in Ends(cmd) then NUL else old(buf[i])
      decreases cmd
    {
      match cmd {
        case Exec(argv) =>
          var i := 0;
          while i < |argv|
            invariant i <= |argv|
            invariant forall j :: 0 <= j <= es ==>
                buf[j] == if exists k :: 0 <= k < i && argv[k].eq == j then NUL else old(buf[j])
          {
            assert argv[i].eq in Ends(cmd);
            buf[argv[i].eq] := NUL;
            i := i + 1;
          }
        case Redir(c, file, _, _) =>
          assert file.eq in Ends(cmd);
          Nulterminate(c);
          buf[file.eq] := NUL;
        case Pipe(l, r) =>
          assert Ends(l) <= Ends(cmd) && Ends(r) <= Ends(cmd);
          assert forall e :: e in Ends(l) ==> e in Ends(cmd);
          assert forall e :: e in Ends(r) ==> e in Ends(cmd);
          Nulterminate(l);
          Nulterminate(r);
        case List(l, r) =>
          assert Ends(l) <= Ends(cmd) && Ends(r) <= Ends(cmd);
          assert forall e :: e in Ends(l) ==> e in Ends(cmd);
          assert forall e :: e in Ends(r) ==> e in Ends(cmd);
          Nulterminate(l);
          Nulterminate(r);
        case Back(c) =>
          assert Ends(cmd) == Ends(c);
          Nulterminate(c);
      }
    }

    /** parsecmd: on success every word of the tree is a C string in the buffer. */
    method Parsecmd() returns (ok: bool, cmd: Cmd)
      requires Valid() && s == 0
      modifies this`s, buf
      ensures var r := ParseCmd(old(T())); if ok then r == Ok(cmd, es) else r.Panic?
      ensures ok ==> WellFormed(old(T()), cmd) && Terminated(old(T()), buf[..], cmd)
      ensures ok ==> forall w :: w in Words(cmd) ==> CString(buf[..], w.q) == Text(old(T()), w)
    {
      ghost var t := T();
      ok, cmd := Parseline();
      if !ok {
        return;
      }
      var _ := Peek("");
      if s != es {
        return false, cmd;
      }
      LineWellFormed(t, 0);
      EndsOfWords(t, cmd);
      Nulterminate(cmd);
      forall w | w in Words(cmd)
        ensures CString(buf[..], w.q) == Text(t, w)
      {
        NulterminateSafe(t, cmd, buf[..], w);
      }
    }
  }

  lemma SkipTwice(t: string, s: nat)
    requires s <= |t|
    ensures Skip(t, Skip(t, s)) == Skip(t, s)
  {
  }

  lemma RedirsSkip(t: string, rs: seq<Redirection>, s: nat)
    requires s <= |t| && Line(t)
    ensures ParseRedirs(t, rs, Skip(t, s)) == ParseRedirs(t, rs, s)
  {
    SkipTwice(t, s);
  }

  /** After the ampersands the cursor is past white space. */
  lemma {:induction false} BacksEnd(t: string, cmd: Cmd, s: nat)
    requires s <= |t| && Line(t)
    ensures var b := ParseBacks(t, cmd, s); Skip(t, b.s) == b.s
    decreases |t| - s
  {
    SkipTwice(t, s);
    if Shell.Peek(t, Skip(t, s), "&") {
      BacksEnd(t, Back(cmd), Next(t, Skip(t, s)).s);
    }
  }
}
