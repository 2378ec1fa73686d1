/** Runs of equal characters, which both run-length encoders compute (rle.c, prle.c). */
module Runs {

  datatype Run = Run(letter: char, length: nat)

  function Repeat(c: char, n: nat): (s: string)
    ensures |s| == n && forall i :: 0 <= i < n ==> s[i] == c
  {
    if n == 0 then "" else [c] + Repeat(c, n - 1)
  }

  function Expand(runs: seq<Run>): string {
    if runs == [] then "" else Expand(runs[..|runs| - 1]) + Repeat(runs[|runs| - 1].letter, runs[|runs| - 1].length)
  }

  /** The maximal runs of s. */
  predicate RunsOf(runs: seq<Run>, s: string) {
    && Expand(runs) == s
    && (forall i :: 0 <= i < |runs| ==> runs[i].length > 0)
    && (forall i {:trigger Apart(runs, i)} :: 0 <= i < |runs| - 1 ==> Apart(runs, i))
  }

  predicate Apart(runs: seq<Run>, i: int)
    requires 0 <= i < |runs| - 1
  {
    runs[i].letter != runs[i + 1].letter
  }

  lemma {:induction false} ExpandConcat(a: seq<Run>, b: seq<Run>)
    ensures Expand(a + b) == Expand(a) + Expand(b)
  {
    if b == [] {
      assert a + b == a;
    } else {
      ExpandConcat(a, b[..|b| - 1]);
      assert (a + b)[..|a + b| - 1] == a + b[..|b| - 1];
    }
  }

  /** One more run, of a letter that does not continue the last one. */
  lemma Extended(runs: seq<Run>, s: string, c: char, n: nat)
    requires RunsOf(runs, s) && n > 0 && (runs != [] ==> runs[|runs| - 1].letter != c)
    ensures RunsOf(runs + [Run(c, n)], s + Repeat(c, n))
  {
    var r := runs + [Run(c, n)];
    assert r[..|r| - 1] == runs;
    forall i | 0 <= i < |r| - 1
      ensures Apart(r, i)
    {
      assert i < |runs| - 1 ==> Apart(runs, i);
    }
  }

  /** The run at i of s ends before j. */
  predicate RunAt(s: string, i: nat, j: nat) {
    i < j <= |s| && (forall k :: i <= k < j ==> s[k] == s[i]) && (j < |s| ==> s[j] != s[i])
  }

  lemma RunText(s: string, i: nat, j: nat)
    requires RunAt(s, i, j)
    ensures s[..j] == s[..i] + Repeat(s[i], j - i)
  {
  }

  /** The inner loop of both encoders: the end of the run at i. */
  method RunEnd(s: string, i: nat, end: nat) returns (j: nat, counter: nat)
    requires i < end <= |s|
    ensures RunAt(s[..end], i, j) && counter == j - i
  {
    counter := 1;
    j := i;
    while j + 1 < end && s[j] == s[j + 1]
      invariant i <= j < end && counter == j - i + 1
      invariant forall k :: i <= k <= j ==> s[k] == s[i]
    {
      counter := counter + 1;
      j := j + 1;
    }
    j := j + 1;
  }
}
