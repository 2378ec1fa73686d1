/** grep's matcher (user/grep.c) against what its patterns mean. */
module Grep {

  /** One piece of a pattern: a literal or any character, a character repeated, the end of text. */
  datatype Item = Char(c: char) | Star(c: char) | End

  /** How the matcher reads a pattern after a leading ^: a star after any character repeats that
      character, and $ is the end only as the very last one. */
  function Parse(re: string): (items: seq<Item>)
    ensures re != "" <==> items != []
    ensures forall i :: 0 <= i < |items| && items[i].End? ==> i == |items| - 1
    decreases |re|
  {
    if re == "" then []
    else if |re| >= 2 && re[1] == '*' then [Star(re[0])] + Parse(re[2..])
    else if re == "$" then [End]
    else [Char(re[0])] + Parse(re[1..])
  }

  predicate Fits(c: char, x: char) { c == '.' || c == x }

  predicate PieceOk(item: Item, piece: string) {
    match item
    case Char(c) => |piece| == 1 && Fits(c, piece[0])
    case Star(c) => forall i :: 0 <= i < |piece| ==> Fits(c, piece[i])
    case End => piece == ""
  }

  function Concat(pieces: seq<string>): string {
    if pieces == [] then "" else pieces[0] + Concat(pieces[1..])
  }

  /** pieces say how the items match at the beginning of text. */
  predicate Witness(items: seq<Item>, pieces: seq<string>, text: string) {
    && |pieces| == |items| && Concat(pieces) <= text
    && (forall i :: 0 <= i < |items| ==> PieceOk(items[i], pieces[i]))
    && (items != [] && items[|items| - 1].End? ==> Concat(pieces) == text)
  }

  /** The items match at the beginning of text. */
  ghost predicate Here(items: seq<Item>, text: string) {
    exists pieces :: Witness(items, pieces, text)
  }

  /** The pattern matches somewhere in text; with a leading ^, at its beginning. */
  ghost predicate Matches(re: string, text: string) {
    if re != "" && re[0] == '^' then Here(Parse(re[1..]), text)
    else exists s :: 0 <= s <= |text| && Here(Parse(re), text[s..])
  }

  // ---- what Here is for each first item ----

  lemma HereNothing(text: string)
    ensures Here([], text)
  {
    assert Witness([], [], text);
  }

  lemma HereEnd(text: string)
    ensures Here([End], text) <==> text == ""
  {
    if text == "" {
      assert Concat([""]) == "";
      assert Witness([End], [""], text);
    }
    if Here([End], text) {
      var pieces :| Witness([End], pieces, text);
      assert pieces[1..] == [];
      assert PieceOk([End][0], pieces[0]);
      assert Concat(pieces) == pieces[0] + Concat(pieces[1..]) == "";
    }
  }

  lemma WitnessSplit(item: Item, rest: seq<Item>, pieces: seq<string>, text: string)
    requires Witness([item] + rest, pieces, text) && !item.End?
    ensures PieceOk(item, pieces[0]) && pieces[0] <= text && Witness(rest, pieces[1..], text[|pieces[0]|..])
  {
    var items := [item] + rest;
    assert PieceOk(items[0], pieces[0]);
    var p := pieces[0];
    assert text[..|p|] == Concat(pieces)[..|p|] == p;
    assert text[|p|..][..|Concat(pieces[1..])|] == Concat(pieces[1..]);
    forall i | 0 <= i < |rest|
      ensures PieceOk(rest[i], pieces[1..][i])
    {
      assert PieceOk(items[i + 1], pieces[i + 1]);
    }
    if rest != [] && rest[|rest| - 1].End? {
      assert items[|items| - 1].End?;
      assert text == p + Concat(pieces[1..]);
    }
  }

  lemma WitnessJoin(item: Item, rest: seq<Item>, piece: string, pieces: seq<string>, text: string)
    requires PieceOk(item, piece) && piece <= text && Witness(rest, pieces, text[|piece|..]) && !item.End?
    ensures Witness([item] + rest, [piece] + pieces, text)
  {
    var all := [piece] + pieces;
    assert all[1..] == pieces;
    assert text == piece + text[|piece|..];
    assert Concat(pieces) == text[|piece|..][..|Concat(pieces)|];
    assert Concat(all) == text[..|Concat(all)|];
    forall i | 0 <= i < |all|
      ensures PieceOk(([item] + rest)[i], all[i])
    {
      assert i > 0 ==> PieceOk(rest[i - 1], pieces[i - 1]);
    }
  }

  lemma HereChar(c: char, rest: seq<Item>, text: string)
    ensures Here([Char(c)] + rest, text) <==> text != "" && Fits(c, text[0]) && Here(rest, text[1..])
  {
    if Here([Char(c)] + rest, text) {
      var pieces :| Witness([Char(c)] + rest, pieces, text);
      WitnessSplit(Char(c), rest, pieces, text);
    }
    if text != "" && Fits(c, text[0]) && Here(rest, text[1..]) {
      var pieces :| Witness(rest, pieces, text[1..]);
      assert [text[0]] <= text;
      WitnessJoin(Char(c), rest, [text[0]], pieces, text);
    }
  }

  /** The first k characters of text can be c's repetitions. */
  predicate Repeats(c: char, text: string, k: nat) {
    k <= |text| && forall i :: 0 <= i < k ==> Fits(c, text[i])
  }

  lemma HereStar(c: char, rest: seq<Item>, text: string)
    ensures Here([Star(c)] + rest, text) <==> exists k: nat :: Repeats(c, text, k) && Here(rest, text[k..])
  {
    if Here([Star(c)] + rest, text) {
      var pieces :| Witness([Star(c)] + rest, pieces, text);
      WitnessSplit(Star(c), rest, pieces, text);
      assert Repeats(c, text, |pieces[0]|);
    }
    if exists k: nat :: Repeats(c, text, k) && Here(rest, text[k..]) {
      var k: nat :| Repeats(c, text, k) && Here(rest, text[k..]);
      var pieces :| Witness(rest, pieces, text[k..]);
      assert text[..k] <= text;
      WitnessJoin(Star(c), rest, text[..k], pieces, text);
    }
  }

  // ---- the code ----

  /** match: 1 exactly when the pattern matches. */
  method Match(re: string, text: string) returns (r: bool)
    ensures r <==> Matches(re, text)
  {
    if re != "" && re[0] == '^' {
      r := Matchhere(re[1..], text);
      return;
    }
    var s := 0;
    while true
      invariant s <= |text|
      invariant forall j :: 0 <= j < s ==> !Here(Parse(re), text[j..])
      decreases |text| - s
    {
      var here := Matchhere(re, text[s..]);
      if here {
        return true;
      }
      if s == |text| {
        break;
      }
      s := s + 1;
    }
    r := false;
  }

  method Matchhere(re: string, text: string) returns (r: bool)
    ensures r <==> Here(Parse(re), text)
    decreases |re|, 0
  {
    if re == "" {
      HereNothing(text);
      return true;
    }
    if |re| >= 2 && re[1] == '*' {
      r := Matchstar(re[0], re[2..], text);
      return;
    }
    if re == "$" {
      HereEnd(text);
      return text == "";
    }
    HereChar(re[0], Parse(re[1..]), text);
    if text != "" && (re[0] == '.' || re[0] == text[0]) {
      r := Matchhere(re[1..], text[1..]);
      return;
    }
    r := false;
  }

  method Matchstar(c: char, re: string, text: string) returns (r: bool)
    ensures r <==> Here([Star(c)] + Parse(re), text)
    decreases |re|, 1
  {
    HereStar(c, Parse(re), text);
    var k := 0;
    while true
      invariant Repeats(c, text, k)
      invariant forall j: nat :: j < k ==> !Here(Parse(re), text[j..])
      decreases |text| - k
    {
      var here := Matchhere(re, text[k..]);
      if here {
        return true;
      }
      if k == |text| || !(text[k] == c || c == '.') {
        break;
      }
      k := k + 1;
    }
    forall j: nat | Repeats(c, text, j)
      ensures !Here(Parse(re), text[j..])
    {
      if j > k {
        assert Fits(c, text[k]);
      }
    }
    r := false;
  }

  // ---- what patterns say ----

  /** How a list of items is written. */
  function Written(items: seq<Item>): string {
    if items == [] then "" else
      (match items[0] case Char(c) => [c] case Star(c) => [c, '*'] case End => "$") + Written(items[1..])
  }

  /** Items that can be written: the end comes last, a last literal is no $, and no literal * follows
      a literal. */
  predicate Writable(items: seq<Item>) {
    && (forall i :: 0 <= i < |items| && items[i].End? ==> i == |items| - 1)
    && (items != [] ==> items[|items| - 1] != Char('$'))
    && (forall i :: 0 <= i < |items| - 1 && items[i].Char? ==> !Starry(items[i + 1]))
  }

  predicate Starry(item: Item) { item == Char('*') || item == Star('*') }

  /** Reading a written pattern gives its items back, so c* is a repetition of c, a last $ is the
      end of the text and every other character is a literal. */
  lemma {:induction false} ParseWritten(items: seq<Item>)
    requires Writable(items)
    ensures Parse(Written(items)) == items
    decreases |items|
  {
    if items != [] {
      var rest := items[1..];
      forall i | 0 <= i < |rest| - 1 && rest[i].Char?
        ensures !Starry(rest[i + 1])
      {
        assert items[i + 1].Char? && rest[i + 1] == items[i + 2];
      }
      ParseWritten(rest);
      var w := Written(items);
      match items[0]
      case Char(c) =>
        assert w == [c] + Written(rest) && w[1..] == Written(rest);
        if rest != [] {
          assert !Starry(items[1]);
          assert Written(rest) == (match rest[0] case Char(c) => [c] case Star(c) => [c, '*'] case End => "$")
                                  + Written(rest[1..]);
        }
      case Star(c) => assert w == [c, '*'] + Written(rest) && w[2..] == Written(rest);
      case End => assert rest == [];
    }
  }

  /** The other way: every pattern is the writing of its items. */
  lemma {:induction false} WrittenParse(re: string)
    ensures Written(Parse(re)) == re
    decreases |re|
  {
    if re != "" {
      if |re| >= 2 && re[1] == '*' {
        WrittenParse(re[2..]);
        assert Parse(re)[1..] == Parse(re[2..]);
        assert re == [re[0], '*'] + re[2..];
      } else if re == "$" {
        assert Parse(re)[1..] == [];
        assert Written([]) == "";
      } else {
        WrittenParse(re[1..]);
        assert Parse(re)[1..] == Parse(re[1..]);
        assert re == [re[0]] + re[1..];
      }
    }
  }

  /** A pattern without special characters matches where it occurs. */
  predicate Plain(re: string) {
    forall i :: 0 <= i < |re| ==> re[i] != '*' && re[i] != '$' && re[i] != '.' && re[i] != '^'
  }

  lemma {:induction false} PlainHere(re: string, text: string)
    requires Plain(re)
    ensures Here(Parse(re), text) <==> re <= text
    decreases |re|
  {
    if re == "" {
      HereNothing(text);
    } else {
      HereChar(re[0], Parse(re[1..]), text);
      if text != "" {
        PlainHere(re[1..], text[1..]);
        assert re == [re[0]] + re[1..] && text == [text[0]] + text[1..];
      }
    }
  }

  lemma PlainMatches(re: string, text: string)
    requires Plain(re)
    ensures Matches(re, text) <==> exists s :: 0 <= s <= |text| && re <= text[s..]
    ensures Matches("^" + re, text) <==> re <= text
  {
    forall s | 0 <= s <= |text|
      ensures Here(Parse(re), text[s..]) <==> re <= text[s..]
    {
      PlainHere(re, text[s..]);
    }
    assert ("^" + re)[1..] == re;
    PlainHere(re, text);
  }

  /** . stands for any character, c* for any number of c's, and a last $ for the end. */
  lemma SpecialMatches(c: char, text: string)
    ensures Matches(".", text) <==> text != ""
    ensures Matches("^$", text) <==> text == ""
    ensures c != '.' ==> (Matches(['^', c, '*', '$'], text) <==> forall i :: 0 <= i < |text| ==> text[i] == c)
    ensures Matches("^.*$", text)
  {
    DotMatches(text);
    HereEnd(text);
    assert "^$"[1..] == "$" && Parse("$") == [End];
    StarEnd(c, text);
    StarEnd('.', text);
    assert ['^', c, '*', '$'][1..] == [c, '*', '$'] && "^.*$"[1..] == ['.', '*', '$'];
  }

  lemma DotMatches(text: string)
    ensures Matches(".", text) <==> text != ""
  {
    assert Parse(".") == [Char('.')] + [];
    forall s | 0 <= s <= |text|
      ensures Here(Parse("."), text[s..]) <==> s < |text|
    {
      HereChar('.', [], text[s..]);
      if s < |text| { HereNothing(text[s..][1..]); }
    }
    if text != "" {
      assert Here(Parse("."), text[0..]);
    }
  }

  lemma StarEnd(c: char, text: string)
    ensures Here(Parse([c, '*', '$']), text) <==> forall i :: 0 <= i < |text| ==> Fits(c, text[i])
  {
    assert [c, '*', '$'][2..] == "$";
    assert Parse([c, '*', '$']) == [Star(c)] + [End];
    HereStar(c, [End], text);
    forall k: nat | k <= |text|
      ensures Here([End], text[k..]) <==> k == |text|
    {
      HereEnd(text[k..]);
    }
    if forall i :: 0 <= i < |text| ==> Fits(c, text[i]) {
      assert Repeats(c, text, |text|) && Here([End], text[|text|..]);
    }
  }
}
