/** rle.c's compress: a count before each letter that repeats. */
module Rle {
  import opened Runs

  predicate Digit(c: char) { '0' <= c <= '9' }

  function DigitOf(d: nat): (c: char)
    requires d < 10
    ensures Digit(c)
  {
    ['0', '1', '2', '3', '4', '5', '6', '7', '8', '9'][d]
  }

  function ValueOf(c: char): (d: nat)
    requires Digit(c)
    ensures d < 10
  {
    (c as int) - ('0' as int)
  }

  /** sprintf's "%d". */
  function Decimal(n: nat): (s: string)
    ensures |s| > 0 && forall i :: 0 <= i < |s| ==> Digit(s[i])
  {
    if n < 10 then [DigitOf(n)] else Decimal(n / 10) + [DigitOf(n % 10)]
  }

  /** A count has fewer digits than the run it counts has letters. */
  lemma {:induction false} DecimalShort(n: nat)
    requires n >= 2
    ensures |Decimal(n)| + 1 <= n
  {
    if n >= 20 {
      DecimalShort(n / 10);
    } else if n >= 10 {
      assert |Decimal(n / 10)| == 1;
    }
  }

  function Code(r: Run): string {
    if r.length > 1 then Decimal(r.length) + [r.letter] else [r.letter]
  }

  function Codes(runs: seq<Run>): string {
    if runs == [] then "" else Codes(runs[..|runs| - 1]) + Code(runs[|runs| - 1])
  }

  /** What a reader of the output does: n is the count read so far, 0 for none. */
  function Decode(s: string, n: nat): (r: string)
    ensures forall i :: 0 <= i < |r| ==> !Digit(r[i])
  {
    if s == "" then ""
    else if Digit(s[0]) then Decode(s[1..], n * 10 + ValueOf(s[0]))
    else Repeat(s[0], if n == 0 then 1 else n) + Decode(s[1..], 0)
  }

  predicate DigitFree(s: string) { forall i :: 0 <= i < |s| ==> !Digit(s[i]) }

  lemma {:induction false} DecodeDecimal(n: nat, rest: string)
    requires n > 0
    ensures Decode(Decimal(n) + rest, 0) == Decode(rest, n)
  {
    if n < 10 {
      assert (Decimal(n) + rest)[1..] == rest;
    } else {
      var more := [DigitOf(n % 10)] + rest;
      DecodeDecimal(n / 10, more);
      assert Decimal(n) + rest == Decimal(n / 10) + more;
      DecodeDigit(n, rest);
    }
  }

  lemma DecodeDigit(n: nat, rest: string)
    ensures Decode([DigitOf(n % 10)] + rest, n / 10) == Decode(rest, n)
  {
    assert ([DigitOf(n % 10)] + rest)[1..] == rest;
  }

  lemma DecodeCode(r: Run, rest: string)
    requires r.length > 0 && !Digit(r.letter)
    ensures Decode(Code(r) + rest, 0) == Repeat(r.letter, r.length) + Decode(rest, 0)
  {
    var tail := [r.letter] + rest;
    assert tail[1..] == rest;
    if r.length > 1 {
      DecodeDecimal(r.length, tail);
      assert Code(r) + rest == Decimal(r.length) + tail;
    }
  }

  lemma {:induction false} DecodeCodes(runs: seq<Run>, rest: string)
    requires forall i :: 0 <= i < |runs| ==> runs[i].length > 0 && !Digit(runs[i].letter)
    ensures Decode(Codes(runs) + rest, 0) == Expand(runs) + Decode(rest, 0)
    decreases |runs|
  {
    hide Decode, Code;
    if runs == [] {
      assert Codes(runs) + rest == rest && Expand(runs) + Decode(rest, 0) == Decode(rest, 0);
    } else {
      var init, last := runs[..|runs| - 1], runs[|runs| - 1];
      DecodeCodes(init, Code(last) + rest);
      DecodeCode(last, rest);
      assert Expand(runs) + Decode(rest, 0) == Expand(init) + (Repeat(last.letter, last.length) + Decode(rest, 0));
      assert Codes(runs) + rest == Codes(init) + (Code(last) + rest);
    }
  }

  /** Every letter of a run is a letter of the text. */
  lemma {:induction false} LettersFree(runs: seq<Run>)
    requires DigitFree(Expand(runs)) && forall i :: 0 <= i < |runs| ==> runs[i].length > 0
    ensures forall i :: 0 <= i < |runs| ==> !Digit(runs[i].letter)
    decreases |runs|
  {
    if runs != [] {
      var init, last := runs[..|runs| - 1], runs[|runs| - 1];
      assert Expand(runs)[..|Expand(init)|] == Expand(init);
      assert Expand(runs)[|Expand(init)|] == last.letter;
      assert DigitFree(Expand(init)) by {
        forall i | 0 <= i < |Expand(init)|
          ensures !Digit(Expand(init)[i])
        {
          assert Expand(runs)[i] == Expand(init)[i];
        }
      }
      LettersFree(init);
    }
  }

  /** Decode gives the text back exactly when it has no digit. */
  lemma RoundTrip(runs: seq<Run>, src: string)
    requires RunsOf(runs, src)
    ensures Decode(Codes(runs), 0) == src <==> DigitFree(src)
  {
    if DigitFree(src) {
      LettersFree(runs);
      DecodeCodes(runs, "");
      assert Codes(runs) + "" == Codes(runs);
      assert Expand(runs) + Decode("", 0) == src;
    }
  }

  /** No reader can do better for all texts: two of them have one encoding. */
  lemma Ambiguous()
    ensures RunsOf([Run('a', 2)], "aa") && RunsOf([Run('2', 1), Run('a', 1)], "2a")
    ensures Codes([Run('a', 2)]) == Codes([Run('2', 1), Run('a', 1)]) == "2a"
  {
    var a, b := [Run('a', 2)], [Run('2', 1), Run('a', 1)];
    assert a[..0] == [] && b[..1] == [Run('2', 1)] && b[..1][..0] == [];
    assert Repeat('a', 2) == "aa" && Repeat('2', 1) == "2" && Repeat('a', 1) == "a";
    assert Code(a[0]) == "2a" && Code(b[0]) == "2" && Code(b[1]) == "a";
    assert Expand([]) == "" && Codes([]) == "";
    assert Expand(b[..1]) == Expand([]) + Repeat('2', 1);
    assert Codes(b[..1]) == Codes([]) + Code(b[0]);
    assert Apart(b, 0);
  }

  /** Texts without a digit keep their encodings apart. */
  lemma DigitFreeDistinct(a: seq<Run>, s: string, b: seq<Run>, t: string)
    requires RunsOf(a, s) && RunsOf(b, t) && DigitFree(s) && DigitFree(t) && Codes(a) == Codes(b)
    ensures s == t
  {
    RoundTrip(a, s);
    RoundTrip(b, t);
  }

  /** compress never makes the text longer. */
  lemma {:induction false} NotLonger(runs: seq<Run>)
    requires forall i :: 0 <= i < |runs| ==> runs[i].length > 0
    ensures |Codes(runs)| <= |Expand(runs)|
    decreases |runs|
  {
    if runs != [] {
      var last := runs[|runs| - 1];
      NotLonger(runs[..|runs| - 1]);
      if last.length > 1 { DecimalShort(last.length); }
    }
  }

  /** compress of a string of at most size characters; count is its buffer of size characters. */
  method Compress(src: string, size: nat) returns (encode: string, ghost runs: seq<Run>)
    requires |src| <= size
    ensures RunsOf(runs, src) && encode == Codes(runs)
    ensures |encode| <= |src|
    ensures Decode(encode, 0) == src <==> DigitFree(src)
  {
    encode, runs := "", [];
    var i := 0;
    while i < |src|
      invariant i <= |src| && RunsOf(runs, src[..i]) && encode == Codes(runs)
      invariant runs != [] && i < |src| ==> runs[|runs| - 1].letter != src[i]
    {
      var j, counter := RunEnd(src, i, |src|);
      assert src[..|src|] == src;
      RunText(src, i, j);
      Extended(runs, src[..i], src[i], counter);
      ghost var more := runs + [Run(src[i], counter)];
      assert more[..|more| - 1] == runs;
      if counter > 1 {
        DecimalShort(counter);
        encode := encode + Sprintf(counter, size);
      }
      encode := encode + [src[j - 1]];
      runs, i := more, j;
    }
    assert src[..i] == src;
    NotLonger(runs);
    RoundTrip(runs, src);
  }

  /** The count as it stands in a buffer of size characters, with its NUL. */
  function Sprintf(counter: nat, size: nat): string
    requires |Decimal(counter)| + 1 <= size
  {
    Decimal(counter)
  }
}
