/** prle.c's division of the input over threads, and each thread's list of runs. */
module Prle {
  import opened Runs

  const NTHREADS := 8
  const INPUT_THRESHOLD := 24
  const NUL := '\0'

  /** The runs of s and the entry that marks the end of the list. */
  predicate ListOf(enc: seq<Run>, s: string) {
    enc != [] && enc[|enc| - 1] == Run(NUL, 0) && RunsOf(enc[..|enc| - 1], s)
  }

  lemma NoRuns()
    ensures RunsOf([], "")
  {
  }

  lemma RunSlice(buf: string, start: nat, end: nat, i: nat, j: nat)
    requires start <= i <= end <= |buf| && RunAt(buf[..end], i, j)
    ensures buf[start..j] == buf[start..i] + Repeat(buf[i], j - i)
    ensures buf[j - 1] == buf[i] && (j < end ==> buf[j] != buf[i])
  {
    var s := buf[..end];
    assert s[j - 1] == s[i];
    forall m | 0 <= m < j - start
      ensures buf[start..j][m] == (buf[start..i] + Repeat(buf[i], j - i))[m]
    {
      assert s[start + m] == buf[start + m];
    }
  }

  /** prle over buf[start..end]. */
  method Encode(buf: string, start: nat, end: nat) returns (enc: seq<Run>)
    requires start <= end <= |buf|
    ensures ListOf(enc, buf[start..end])
  {
    hide RunAt, RunsOf;
    enc := [];
    NoRuns();
    assert buf[start..start] == "";
    var i := start;
    while i < end
      invariant start <= i <= end && RunsOf(enc, buf[start..i])
      invariant enc != [] && i < end ==> enc[|enc| - 1].letter != buf[i]
    {
      var j, counter := RunEnd(buf, i, end);
      RunSlice(buf, start, end, i, j);
      Extended(enc, buf[start..i], buf[i], counter);
      enc := enc + [Run(buf[j - 1], counter)];
      i := j;
    }
    ghost var runs := enc;
    enc := enc + [Run(NUL, 0)];
    assert enc[..|enc| - 1] == runs;
  }

  /** The bytes of a RunEntry. */
  const ENTRY := 8

  lemma {:induction false} ExpandLonger(runs: seq<Run>)
    requires forall i :: 0 <= i < |runs| ==> runs[i].length > 0
    ensures |runs| <= |Expand(runs)|
  {
    if runs != [] {
      ExpandLonger(runs[..|runs| - 1]);
    }
  }

  /** n letters with n runs. */
  lemma {:induction false} Alternating(n: nat) returns (runs: seq<Run>, s: string)
    ensures |runs| == |s| == n && RunsOf(runs, s)
    ensures n > 0 ==> runs[n - 1].letter == if n % 2 == 1 then 'a' else 'b'
  {
    if n == 0 {
      runs, s := [], "";
      NoRuns();
    } else {
      runs, s := Alternating(n - 1);
      var c := if n % 2 == 1 then 'a' else 'b';
      Extended(runs, s, c, 1);
      runs, s := runs + [Run(c, 1)], s + Repeat(c, 1);
    }
  }

  /** allocBuffer gives the list of n letters n * n bytes: enough for every text if and only if
      there are at least nine. */
  lemma RoomIff(n: nat)
    ensures n >= 9 <==> forall enc: seq<Run>, s: string :: |s| == n && ListOf(enc, s) ==> ENTRY * |enc| <= n * n
  {
    hide RunsOf, Expand;
    if n >= 9 {
      forall enc: seq<Run>, s: string | |s| == n && ListOf(enc, s)
        ensures ENTRY * |enc| <= n * n
      {
        RunsFewer(enc[..|enc| - 1], s);
        Squares(n, |enc|);
      }
    } else {
      var runs, s := Alternating(n);
      var enc := runs + [Run(NUL, 0)];
      assert enc[..|enc| - 1] == runs;
      assert ListOf(enc, s) && |enc| == n + 1;
      SmallSquares(n);
    }
  }

  lemma RunsFewer(runs: seq<Run>, s: string)
    requires RunsOf(runs, s)
    ensures |runs| <= |s|
  {
    ExpandLonger(runs);
  }

  lemma Squares(n: nat, k: nat)
    requires n >= 9 && k <= n + 1
    ensures 8 * k <= n * n
  {
    assert n * n >= 9 * n;
  }

  lemma SmallSquares(n: nat)
    requires n < 9
    ensures 8 * (n + 1) > n * n
  {
    assert n * n <= 8 * n;
  }

  datatype Chunk = Chunk(offset: nat, size: nat)

  /** Chunk i starts where the one before it ends. */
  predicate Adjoins(chunks: seq<Chunk>, i: nat)
    requires i < |chunks|
  {
    chunks[i].offset == if i == 0 then 0 else chunks[i - 1].offset + chunks[i - 1].size
  }

  /** The chunks cover [0, n) in order, each position once. */
  predicate Partition(chunks: seq<Chunk>, n: nat) {
    && (forall i :: 0 <= i < |chunks| ==> Adjoins(chunks, i))
    && n == if chunks == [] then 0 else chunks[|chunks| - 1].offset + chunks[|chunks| - 1].size
  }

  /** go's division of bytesRead positions over n threads. */
  method Divide(bytesRead: nat, n: nat) returns (chunks: seq<Chunk>)
    requires n > 0
    ensures |chunks| == n && Partition(chunks, bytesRead)
    ensures forall i :: 0 <= i < n ==> chunks[i].size == bytesRead / n + if i == n - 1 then bytesRead % n else 0
  {
    var chunk := bytesRead / n;
    chunks := [];
    Products(chunk, n, bytesRead);
    var i := 0;
    while i < n
      invariant i <= n && |chunks| == i
      invariant Partition(chunks, if i == n then bytesRead else i * chunk)
      invariant forall k :: 0 <= k < i ==> chunks[k].size == chunk + if k == n - 1 then bytesRead % n else 0
    {
      var size := chunk;
      var offset := i * chunk;
      if i == n - 1 {
        size := bytesRead - offset;
      } else {
        NextOffset(i, chunk);
      }
      ghost var before := chunks;
      chunks := chunks + [Chunk(offset, size)];
      forall k | 0 <= k < |chunks|
        ensures Adjoins(chunks, k)
      {
        assert k < i ==> Adjoins(before, k);
      }
      i := i + 1;
    }
  }

  lemma NextOffset(i: nat, chunk: nat)
    ensures i * chunk + chunk == (i + 1) * chunk
  {
  }

  lemma Products(chunk: nat, n: nat, total: nat)
    requires n > 0 && chunk == total / n
    ensures (n - 1) * chunk <= total && total - (n - 1) * chunk == chunk + total % n
  {
    assert total == total / n * n + total % n;
    NextOffset(n - 1, chunk);
  }

  /** go up to the merge: whatever the number of threads, their chunks divide the buffer, each
      list holds its chunk's runs, and the lists together expand to the buffer. */
  method Go(buf: string) returns (chunks: seq<Chunk>, results: seq<seq<Run>>)
    ensures |results| == |chunks| == if |buf| > INPUT_THRESHOLD then NTHREADS else 1
    ensures Partition(chunks, |buf|) && Lists(buf, chunks, results)
    ensures Expand(Flatten(results)) == buf
  {
    var n := 1;
    if |buf| > INPUT_THRESHOLD {
      n := NTHREADS;
    }
    chunks, results := RunThreads(buf, n);
  }

  /** The lists with their end marks removed, one after the other. */
  function Flatten(results: seq<seq<Run>>): seq<Run> {
    if results == [] then [] else
      var last := results[|results| - 1];
      Flatten(results[..|results| - 1]) + if last == [] then [] else last[..|last| - 1]
  }

  predicate ListAt(buf: string, c: Chunk, enc: seq<Run>) {
    c.offset + c.size <= |buf| && ListOf(enc, buf[c.offset..c.offset + c.size])
  }

  predicate Lists(buf: string, chunks: seq<Chunk>, results: seq<seq<Run>>) {
    |results| <= |chunks| && forall i :: 0 <= i < |results| ==> ListAt(buf, chunks[i], results[i])
  }

  method RunThreads(buf: string, n: nat) returns (chunks: seq<Chunk>, results: seq<seq<Run>>)
    requires n > 0
    ensures |results| == |chunks| == n && Partition(chunks, |buf|) && Lists(buf, chunks, results)
    ensures Expand(Flatten(results)) == buf
  {
    hide ListOf, Expand, Flatten, Partition;
    chunks := Divide(|buf|, n);
    results := [];
    Within(chunks, |buf|);
    FlattenNone();
    var i := 0;
    while i < n
      invariant i <= n == |chunks| && |results| == i && Lists(buf, chunks, results)
      invariant Start(chunks, i) <= |buf| && Expand(Flatten(results)) == buf[..Start(chunks, i)]
    {
      StartAt(chunks, |buf|, i);
      var enc := Encode(buf, chunks[i].offset, chunks[i].offset + chunks[i].size);
      FlattenMore(results, enc, buf, Start(chunks, i), Start(chunks, i + 1));
      results, i := results + [enc], i + 1;
    }
    StartEnd(chunks, |buf|);
    assert buf[..|buf|] == buf;
  }

  lemma FlattenNone()
    ensures Expand(Flatten([])) == ""
  {
  }

  lemma StartAt(chunks: seq<Chunk>, n: nat, i: nat)
    requires Partition(chunks, n) && i < |chunks|
    ensures Start(chunks, i) == chunks[i].offset && Start(chunks, i + 1) == chunks[i].offset + chunks[i].size
  {
    assert Adjoins(chunks, i);
  }

  lemma StartEnd(chunks: seq<Chunk>, n: nat)
    requires Partition(chunks, n)
    ensures Start(chunks, |chunks|) == n
  {
  }

  lemma FlattenMore(results: seq<seq<Run>>, enc: seq<Run>, buf: string, a: nat, b: nat)
    requires a <= b <= |buf| && Expand(Flatten(results)) == buf[..a] && ListOf(enc, buf[a..b])
    ensures Expand(Flatten(results + [enc])) == buf[..b]
  {
    assert (results + [enc])[..|results|] == results;
    ExpandConcat(Flatten(results), enc[..|enc| - 1]);
    assert buf[..b] == buf[..a] + buf[a..b];
  }

  /** Where chunk i starts; past the last one, where it ends. */
  function Start(chunks: seq<Chunk>, i: nat): nat
    requires i <= |chunks|
  {
    if i == 0 then 0 else chunks[i - 1].offset + chunks[i - 1].size
  }

  lemma {:induction false} Within(chunks: seq<Chunk>, n: nat)
    requires Partition(chunks, n)
    ensures forall i :: 0 <= i < |chunks| ==> chunks[i].offset + chunks[i].size <= n
    decreases |chunks|
  {
    if chunks != [] {
      var init := chunks[..|chunks| - 1];
      assert Adjoins(chunks, |chunks| - 1);
      forall i | 0 <= i < |init|
        ensures Adjoins(init, i)
      {
        assert Adjoins(chunks, i);
      }
      Within(init, Start(chunks, |chunks| - 1));
      assert forall i :: 0 <= i < |init| ==> init[i] == chunks[i];
    }
  }
}
