/** The redo log (kernel/log.c): one commit or recovery as the list of block writes it
    issues, what recovery makes of the disk after any prefix of that list, and the code that
    issues the writes. */
module Log {
  import opened Blocks
  import opened Sets

  const MAXOPBLOCKS := 10
  const LOGSIZE := 30

  type Disk = seq<Block>

  datatype Write = Write(at: nat, data: Block)

  /** log.start and log.size: the header block followed by size - 1 log blocks. */
  datatype Geometry = Geometry(start: nat, size: nat)

  predicate InLog(g: Geometry, b: nat) {
    g.start <= b < g.start + g.size
  }

  ghost predicate Fits(g: Geometry, d: Disk) {
    0 < g.size && g.start + g.size <= |d|
  }

  ghost predicate Distinct(blocks: seq<Uint>) {
    blocks == [] || (blocks[|blocks|-1] !in blocks[..|blocks|-1] && Distinct(blocks[..|blocks|-1]))
  }

  lemma {:induction false} DistinctElements(blocks: seq<Uint>)
    requires Distinct(blocks)
    ensures forall i, j :: 0 <= i < j < |blocks| ==> blocks[i] != blocks[j]
  {
    if blocks != [] {
      var rest := blocks[..|blocks|-1];
      DistinctElements(rest);
      forall i, j | 0 <= i < j < |blocks|
        ensures blocks[i] != blocks[j]
      {
        assert blocks[i] == rest[i];
        assert j < |rest| ==> blocks[j] == rest[j];
      }
    }
  }

  lemma DistinctAbsorb(blocks: seq<Uint>, b: Uint)
    requires Distinct(blocks)
    ensures Distinct(Absorb(blocks, b))
  {
    assert (blocks + [b])[..|blocks|] == blocks;
  }

  /** The block numbers of a transaction: distinct, outside the log, and few enough for it. */
  ghost predicate Loggable(blocks: seq<Uint>, g: Geometry, d: Disk) {
    && |blocks| <= LOGSIZE
    && |blocks| < g.size
    && Distinct(blocks)
    && (forall i :: 0 <= i < |blocks| ==> blocks[i] < |d| && !InLog(g, blocks[i]))
  }

  // ---- the writes of a run, applied in order ----

  function Apply(d: Disk, ws: seq<Write>): (r: Disk)
    ensures |r| == |d|
  {
    if ws == [] then d
    else
      var p := Apply(d, ws[..|ws|-1]);
      var w := ws[|ws|-1];
      if w.at < |d| then p[w.at := w.data] else p
  }

  lemma ApplyOne(d: Disk, ws: seq<Write>, w: Write)
    requires w.at < |d|
    ensures Apply(d, ws + [w]) == Apply(d, ws)[w.at := w.data]
  {
    assert (ws + [w])[..|ws|] == ws;
  }

  lemma ApplyNothing(d: Disk, ws: seq<Write>)
    requires ws == []
    ensures Apply(d, ws) == d
  {
  }

  lemma {:induction false} ApplyConcat(d: Disk, ws: seq<Write>, vs: seq<Write>)
    ensures Apply(d, ws + vs) == Apply(Apply(d, ws), vs)
    decreases |vs|
  {
    if vs == [] {
      assert ws + vs == ws;
    } else {
      ApplyConcat(d, ws, vs[..|vs|-1]);
      assert (ws + vs)[..|ws + vs|-1] == ws + vs[..|vs|-1];
    }
  }

  ghost predicate DistinctTargets(ws: seq<Write>, n: nat) {
    && (forall i, j :: 0 <= i < j < |ws| ==> ws[i].at != ws[j].at)
    && (forall i :: 0 <= i < |ws| ==> ws[i].at < n)
  }

  lemma {:induction false} ApplyDistinct(d: Disk, ws: seq<Write>)
    requires DistinctTargets(ws, |d|)
    ensures forall i :: 0 <= i < |ws| ==> Apply(d, ws)[ws[i].at] == ws[i].data
    ensures forall a {:trigger Apply(d, ws)[a]} :: 0 <= a < |d| && (forall i :: 0 <= i < |ws| ==> ws[i].at != a) ==>
        Apply(d, ws)[a] == d[a]
  {
    if ws != [] {
      ApplyDistinct(d, ws[..|ws|-1]);
    }
  }

  // ---- the on-disk header ----

  function HeaderN(h: Block): Uint { Word(h, 0) }

  /** lh.block[0..n] as read_head copies it; the header of a sound log has n <= LOGSIZE. */
  function HeaderBlocks(h: Block): (bs: seq<Uint>)
    requires HeaderN(h) <= LOGSIZE
    ensures |bs| == HeaderN(h) && forall i :: 0 <= i < |bs| ==> bs[i] == Word(h, 1 + i)
  {
    HeaderPrefix(h, HeaderN(h))
  }

  function HeaderPrefix(h: Block, k: nat): (bs: seq<Uint>)
    requires k <= LOGSIZE
    ensures |bs| == k && forall i :: 0 <= i < k ==> bs[i] == Word(h, 1 + i)
  {
    if k == 0 then [] else HeaderPrefix(h, k - 1) + [Word(h, k)]
  }

  /** write_head after k of its copies: stale words beyond n keep their old contents. */
  function PutHeader(h: Block, blocks: seq<Uint>, k: nat): Block
    requires k <= |blocks| <= LOGSIZE
  {
    if k == 0 then PutWord(h, 0, |blocks|) else PutWord(PutHeader(h, blocks, k - 1), k, blocks[k - 1])
  }

  lemma {:induction false} PutHeaderWords(h: Block, blocks: seq<Uint>, k: nat)
    requires k <= |blocks| <= LOGSIZE
    ensures Word(PutHeader(h, blocks, k), 0) == |blocks|
    ensures forall i :: 0 <= i < k ==> Word(PutHeader(h, blocks, k), 1 + i) == blocks[i]
  {
    hide Word, PutWord;
    if k > 0 {
      PutHeaderWords(h, blocks, k - 1);
      forall i | 0 <= i < k - 1
        ensures Word(PutHeader(h, blocks, k), 1 + i) == blocks[i]
      {
        assert Word(PutHeader(h, blocks, k - 1), 1 + i) == blocks[i];
      }
    }
  }

  /** Reading back the header that write_head wrote gives the logged block numbers. */
  lemma HeaderRoundTrip(h: Block, blocks: seq<Uint>)
    requires |blocks| <= LOGSIZE
    ensures HeaderN(PutHeader(h, blocks, |blocks|)) == |blocks|
    ensures HeaderBlocks(PutHeader(h, blocks, |blocks|)) == blocks
  {
    PutHeaderWords(h, blocks, |blocks|);
  }

  // ---- recovery ----

  ghost predicate SoundLog(d: Disk, g: Geometry) {
    && Fits(g, d)
    && HeaderN(d[g.start]) <= LOGSIZE && HeaderN(d[g.start]) < g.size
    && Loggable(HeaderBlocks(d[g.start]), g, d)
  }

  /** The writes of install_trans. */
  function InstallWrites(d: Disk, g: Geometry, blocks: seq<Uint>): (ws: seq<Write>)
    requires g.start + |blocks| < |d|
    ensures |ws| == |blocks|
    ensures forall i :: 0 <= i < |ws| ==> ws[i] == Write(blocks[i], d[g.start + 1 + i])
  {
    if blocks == [] then [] else
      var k := |blocks| - 1;
      InstallWrites(d, g, blocks[..k]) + [Write(blocks[k], d[g.start + 1 + k])]
  }

  function EraseWrite(d: Disk, g: Geometry): Write
    requires g.start < |d|
  {
    Write(g.start, PutWord(d[g.start], 0, 0))
  }

  /** The writes of recover_from_log: install every logged block, then empty the header. */
  function RecoveryWrites(d: Disk, g: Geometry): seq<Write>
    requires g.start < |d| && HeaderN(d[g.start]) <= LOGSIZE
    requires g.start + HeaderN(d[g.start]) < |d|
  {
    InstallWrites(d, g, HeaderBlocks(d[g.start])) + [EraseWrite(d, g)]
  }

  function Recovered(d: Disk, g: Geometry): (r: Disk)
    requires g.start < |d| && HeaderN(d[g.start]) <= LOGSIZE
    requires g.start + HeaderN(d[g.start]) < |d|
    ensures |r| == |d|
  {
    Apply(d, RecoveryWrites(d, g))
  }

  lemma InstallPrefix(d: Disk, g: Geometry, bs: seq<Uint>, k: nat)
    requires Fits(g, d) && Loggable(bs, g, d) && k <= |bs|
    ensures var r := Apply(d, InstallWrites(d, g, bs)[..k]);
      && (forall a {:trigger r[a]} :: 0 <= a < |d| && a !in bs[..k] ==> r[a] == d[a])
      && (forall i :: 0 <= i < k ==> r[bs[i]] == d[g.start + 1 + i])
  {
    hide Word, InstallWrites, Apply;
    DistinctElements(bs);
    var ws := InstallWrites(d, g, bs)[..k];
    ApplyDistinct(d, ws);
    forall i | 0 <= i < k
      ensures Apply(d, ws)[bs[i]] == d[g.start + 1 + i]
    {
      assert ws[i] == Write(bs[i], d[g.start + 1 + i]);
    }
    forall a | 0 <= a < |d| && a !in bs[..k]
      ensures Apply(d, ws)[a] == d[a]
    {
      assert forall i :: 0 <= i < k ==> ws[i].at == bs[..k][i];
    }
  }

  /** Outside the log, recovery stores log block i at its home and changes nothing else. */
  lemma RecoveredContents(d: Disk, g: Geometry)
    requires SoundLog(d, g)
    ensures var bs := HeaderBlocks(d[g.start]);
      && (forall i :: 0 <= i < |bs| ==> Recovered(d, g)[bs[i]] == d[g.start + 1 + i])
      && (forall a {:trigger Recovered(d, g)[a]} :: 0 <= a < |d| && a != g.start && a !in bs ==>
          Recovered(d, g)[a] == d[a])
      && Recovered(d, g)[g.start] == PutWord(d[g.start], 0, 0)
  {
    hide Word, PutWord, HeaderPrefix, InstallWrites;
    var bs := HeaderBlocks(d[g.start]);
    var ws := InstallWrites(d, g, bs);
    assert ws[..|bs|] == ws && bs[..|bs|] == bs;
    InstallPrefix(d, g, bs, |bs|);
    ApplyOne(d, ws, EraseWrite(d, g));
  }

  /** Two disks that agree on the log, and outside it except on the logged blocks. */
  ghost predicate SameLog(g: Geometry, bs: seq<Uint>, d: Disk, r: Disk) {
    && |r| == |d|
    && (forall a {:trigger r[a]} :: 0 <= a < |d| && a !in bs ==> r[a] == d[a])
  }

  lemma SameLogSameRecovery(d: Disk, r: Disk, g: Geometry)
    requires SoundLog(d, g) && SameLog(g, HeaderBlocks(d[g.start]), d, r)
    ensures SoundLog(r, g) && Recovered(r, g) == Recovered(d, g)
  {
    hide Word, PutWord, HeaderPrefix, Recovered;
    var bs := HeaderBlocks(d[g.start]);
    assert r[g.start] == d[g.start];
    RecoveredContents(d, g);
    RecoveredContents(r, g);
    forall a | 0 <= a < |d|
      ensures Recovered(r, g)[a] == Recovered(d, g)[a]
    {
      if a in bs {
        var i :| 0 <= i < |bs| && bs[i] == a;
        assert r[g.start + 1 + i] == d[g.start + 1 + i];
      }
    }
  }

  lemma RestartMidway(d: Disk, g: Geometry, k: nat)
    requires SoundLog(d, g)
    requires k <= |HeaderBlocks(d[g.start])|
    ensures var r := Apply(d, InstallWrites(d, g, HeaderBlocks(d[g.start]))[..k]);
      SoundLog(r, g) && Recovered(r, g) == Recovered(d, g)
  {
    hide Word, PutWord, HeaderPrefix, Recovered, InstallWrites;
    var bs := HeaderBlocks(d[g.start]);
    InstallPrefix(d, g, bs, k);
    SameLogSameRecovery(d, Apply(d, InstallWrites(d, g, bs)[..k]), g);
  }

  lemma RestartAtEnd(d: Disk, g: Geometry)
    requires SoundLog(d, g)
    ensures SoundLog(Recovered(d, g), g)
    ensures Recovered(Recovered(d, g), g) == Recovered(d, g)
  {
    hide Recovered, InstallWrites;
    var r := Recovered(d, g);
    RecoveredContents(d, g);
    assert HeaderBlocks(r[g.start]) == [];
    RecoveredContents(r, g);
    assert PutWord(PutWord(d[g.start], 0, 0), 0, 0) == PutWord(d[g.start], 0, 0);
  }

  /** Stopping recovery after any prefix of its writes leaves a disk from which recovery
      reaches the same final disk. */
  lemma RecoveryRestart(d: Disk, g: Geometry, k: nat)
    requires SoundLog(d, g)
    requires k <= |RecoveryWrites(d, g)|
    ensures SoundLog(Apply(d, RecoveryWrites(d, g)[..k]), g)
    ensures Recovered(Apply(d, RecoveryWrites(d, g)[..k]), g) == Recovered(d, g)
  {
    var ws := RecoveryWrites(d, g);
    if k == |ws| {
      assert ws[..k] == ws;
      RestartAtEnd(d, g);
    } else {
      assert ws[..k] == InstallWrites(d, g, HeaderBlocks(d[g.start]))[..k];
      RestartMidway(d, g, k);
    }
  }

  /** The disk after a series of recoveries, the i-th of them cut short after stops[i] writes. */
  ghost function AfterCrashes(d: Disk, g: Geometry, stops: seq<nat>): (r: Disk)
    requires SoundLog(d, g)
    ensures |r| == |d| && SoundLog(r, g)
    decreases |stops|
  {
    if stops == [] then d
    else
      var ws := RecoveryWrites(d, g);
      var k := if stops[0] <= |ws| then stops[0] else |ws|;
      RecoveryRestart(d, g, k);
      AfterCrashes(Apply(d, ws[..k]), g, stops[1..])
  }

  /** However often and wherever recovery crashes, the recovery that completes ends in the
      same disk as one that never crashed. */
  lemma {:induction false} RepeatedCrashes(d: Disk, g: Geometry, stops: seq<nat>)
    requires SoundLog(d, g)
    ensures Recovered(AfterCrashes(d, g, stops), g) == Recovered(d, g)
    decreases |stops|
  {
    hide Loggable, InstallWrites, HeaderBlocks, Apply, Recovered, HeaderN, EraseWrite;
    if stops != [] {
      var ws := RecoveryWrites(d, g);
      var k := if stops[0] <= |ws| then stops[0] else |ws|;
      RecoveryRestart(d, g, k);
      RepeatedCrashes(Apply(d, ws[..k]), g, stops[1..]);
    }
  }

  // ---- commit ----

  /** What the buffer cache returns for block b: its pinned dirty buffer, else the disk. */
  function View(d: Disk, dirty: map<nat, Block>, b: nat): Block
    requires b < |d|
  {
    if b in dirty then dirty[b] else d[b]
  }

  /** The writes of write_log. */
  function LogWrites(d: Disk, dirty: map<nat, Block>, g: Geometry, blocks: seq<Uint>): (ws: seq<Write>)
    requires forall i :: 0 <= i < |blocks| ==> blocks[i] < |d|
    ensures |ws| == |blocks|
    ensures forall i :: 0 <= i < |ws| ==> ws[i] == Write(g.start + 1 + i, View(d, dirty, blocks[i]))
  {
    if blocks == [] then [] else
      var k := |blocks| - 1;
      LogWrites(d, dirty, g, blocks[..k]) + [Write(g.start + 1 + k, View(d, dirty, blocks[k]))]
  }

  function HeaderWrite(d: Disk, g: Geometry, blocks: seq<Uint>): Write
    requires g.start < |d| && |blocks| <= LOGSIZE
  {
    Write(g.start, PutHeader(d[g.start], blocks, |blocks|))
  }

  /** The disk right after the header write, the commit point. */
  function Logged(d: Disk, dirty: map<nat, Block>, g: Geometry, blocks: seq<Uint>): (r: Disk)
    requires g.start < |d| && |blocks| <= LOGSIZE
    requires forall i :: 0 <= i < |blocks| ==> blocks[i] < |d|
    ensures |r| == |d|
  {
    Apply(d, LogWrites(d, dirty, g, blocks) + [HeaderWrite(d, g, blocks)])
  }

  lemma LogWritesPrefix(d: Disk, dirty: map<nat, Block>, g: Geometry, blocks: seq<Uint>, k: nat)
    requires Fits(g, d) && Loggable(blocks, g, d) && k <= |blocks|
    ensures var r := Apply(d, LogWrites(d, dirty, g, blocks)[..k]);
      && (forall i :: 0 <= i < k ==> r[g.start + 1 + i] == View(d, dirty, blocks[i]))
      && (forall a {:trigger r[a]} :: 0 <= a < |d| && !(g.start < a <= g.start + k) ==> r[a] == d[a])
  {
    hide Word, PutWord, LogWrites, Apply;
    var ws := LogWrites(d, dirty, g, blocks)[..k];
    ApplyDistinct(d, ws);
    forall i | 0 <= i < k
      ensures Apply(d, ws)[g.start + 1 + i] == View(d, dirty, blocks[i])
    {
      assert ws[i] == Write(g.start + 1 + i, View(d, dirty, blocks[i]));
    }
  }

  lemma LoggedContents(d: Disk, dirty: map<nat, Block>, g: Geometry, blocks: seq<Uint>)
    requires Fits(g, d) && Loggable(blocks, g, d)
    ensures var r := Logged(d, dirty, g, blocks);
      && (forall i :: 0 <= i < |blocks| ==> r[g.start + 1 + i] == View(d, dirty, blocks[i]))
      && (forall a {:trigger r[a]} :: 0 <= a < |d| && !InLog(g, a) ==> r[a] == d[a])
      && r[g.start] == PutHeader(d[g.start], blocks, |blocks|)
  {
    hide Word, PutWord, PutHeader, LogWrites, HeaderPrefix;
    var ws := LogWrites(d, dirty, g, blocks);
    assert ws[..|blocks|] == ws;
    LogWritesPrefix(d, dirty, g, blocks, |blocks|);
    ApplyOne(d, ws, HeaderWrite(d, g, blocks));
  }

  lemma LoggedSound(d: Disk, dirty: map<nat, Block>, g: Geometry, blocks: seq<Uint>)
    requires Fits(g, d) && Loggable(blocks, g, d)
    ensures var r := Logged(d, dirty, g, blocks);
      SoundLog(r, g) && HeaderBlocks(r[g.start]) == blocks
  {
    hide Word, PutWord, PutHeader, HeaderPrefix;
    LoggedContents(d, dirty, g, blocks);
    HeaderRoundTrip(d[g.start], blocks);
  }

  /** The writes of commit: the log, the header, then exactly what recovery would write. */
  function CommitWrites(d: Disk, dirty: map<nat, Block>, g: Geometry, blocks: seq<Uint>): seq<Write>
    requires Fits(g, d) && Loggable(blocks, g, d)
  {
    if blocks == [] then [] else
      LoggedSound(d, dirty, g, blocks);
      LogWrites(d, dirty, g, blocks) + [HeaderWrite(d, g, blocks)] + RecoveryWrites(Logged(d, dirty, g, blocks), g)
  }

  /** The disk with every logged block's new contents at home. */
  ghost predicate Installed(d: Disk, dirty: map<nat, Block>, blocks: seq<Uint>, g: Geometry, r: Disk)
    requires |r| == |d|
  {
    forall a {:trigger r[a]} :: 0 <= a < |d| && !InLog(g, a) ==>
      r[a] == if a in blocks then View(d, dirty, a) else d[a]
  }

  ghost predicate SameHome(g: Geometry, d: Disk, r: Disk) {
    && |d| == |r|
    && forall a {:trigger r[a]} :: 0 <= a < |d| && !InLog(g, a) ==> r[a] == d[a]
  }

  /** Crash atomicity: cut commit short after any k block writes; recovery, however often it is
      itself cut short, leaves the home blocks all old when the header write had not happened
      and all new when it had. */
  lemma CrashAtomic(d: Disk, dirty: map<nat, Block>, g: Geometry, blocks: seq<Uint>, k: nat, stops: seq<nat>)
    requires SoundLog(d, g) && HeaderN(d[g.start]) == 0
    requires Loggable(blocks, g, d)
    requires k <= |CommitWrites(d, dirty, g, blocks)|
    ensures SoundLog(Apply(d, CommitWrites(d, dirty, g, blocks)[..k]), g)
    ensures var c := Apply(d, CommitWrites(d, dirty, g, blocks)[..k]);
      && (k <= |blocks| ==> SameHome(g, d, Recovered(AfterCrashes(c, g, stops), g)))
      && (k > |blocks| ==> Installed(d, dirty, blocks, g, Recovered(AfterCrashes(c, g, stops), g)))
  {
    hide Word, PutWord, HeaderPrefix, PutHeader, LogWrites, InstallWrites, Apply, Distinct, Recovered, Installed,
        CommitWrites;
    var ws := CommitWrites(d, dirty, g, blocks);
    var c := Apply(d, ws[..k]);
    if k <= |blocks| {
      CommitPrefix(d, dirty, g, blocks, k);
      RecoveredContents(c, g);
    } else {
      CommitSuffix(d, dirty, g, blocks, k);
      RecoveredLogged(d, dirty, g, blocks);
    }
    RepeatedCrashes(c, g, stops);
  }

  lemma CommitPrefix(d: Disk, dirty: map<nat, Block>, g: Geometry, blocks: seq<Uint>, k: nat)
    requires SoundLog(d, g) && HeaderN(d[g.start]) == 0
    requires Loggable(blocks, g, d)
    requires k <= |blocks| && k <= |CommitWrites(d, dirty, g, blocks)|
    ensures var c := Apply(d, CommitWrites(d, dirty, g, blocks)[..k]);
      SameHome(g, d, c) && c[g.start] == d[g.start] && SoundLog(c, g)
  {
    hide Word, PutWord, HeaderPrefix, PutHeader, RecoveryWrites, InstallWrites, LogWrites, Apply;
    if blocks != [] {
      assert CommitWrites(d, dirty, g, blocks)[..k] == LogWrites(d, dirty, g, blocks)[..k];
      LogWritesPrefix(d, dirty, g, blocks, k);
    } else {
      ApplyNothing(d, CommitWrites(d, dirty, g, blocks)[..k]);
    }
  }

  lemma RecoveredLogged(d: Disk, dirty: map<nat, Block>, g: Geometry, blocks: seq<Uint>)
    requires Fits(g, d) && Loggable(blocks, g, d)
    ensures SoundLog(Logged(d, dirty, g, blocks), g)
    ensures Installed(d, dirty, blocks, g, Recovered(Logged(d, dirty, g, blocks), g))
  {
    var l := Logged(d, dirty, g, blocks);
    LoggedContents(d, dirty, g, blocks);
    LoggedSound(d, dirty, g, blocks);
    RecoveredContents(l, g);
    forall a | 0 <= a < |d| && !InLog(g, a)
      ensures Recovered(l, g)[a] == if a in blocks then View(d, dirty, a) else d[a]
    {
      if a in blocks {
        var i :| 0 <= i < |blocks| && blocks[i] == a;
        assert Recovered(l, g)[HeaderBlocks(l[g.start])[i]] == l[g.start + 1 + i];
      }
    }
  }

  lemma CommitSuffix(d: Disk, dirty: map<nat, Block>, g: Geometry, blocks: seq<Uint>, k: nat)
    requires SoundLog(d, g) && Loggable(blocks, g, d)
    requires |blocks| < k <= |CommitWrites(d, dirty, g, blocks)|
    ensures var c := Apply(d, CommitWrites(d, dirty, g, blocks)[..k]);
      var l := Logged(d, dirty, g, blocks);
      SoundLog(l, g) && SoundLog(c, g) && Recovered(c, g) == Recovered(l, g)
  {
    hide Word, PutWord, HeaderPrefix, PutHeader, LogWrites, InstallWrites, Apply, Distinct, Recovered;
    var l := Logged(d, dirty, g, blocks);
    LoggedSound(d, dirty, g, blocks);
    var first := LogWrites(d, dirty, g, blocks) + [HeaderWrite(d, g, blocks)];
    var j := k - |first|;
    assert CommitWrites(d, dirty, g, blocks)[..k] == first + RecoveryWrites(l, g)[..j];
    ApplyConcat(d, first, RecoveryWrites(l, g)[..j]);
    RecoveryRestart(l, g, j);
  }

  /** A commit that runs to the end has installed the transaction and emptied the log. */
  lemma CommitComplete(d: Disk, dirty: map<nat, Block>, g: Geometry, blocks: seq<Uint>)
    requires SoundLog(d, g) && HeaderN(d[g.start]) == 0
    requires Loggable(blocks, g, d)
    ensures var r := Apply(d, CommitWrites(d, dirty, g, blocks));
      SoundLog(r, g) && HeaderN(r[g.start]) == 0 && Installed(d, dirty, blocks, g, r)
  {
    if blocks != [] {
      var l := Logged(d, dirty, g, blocks);
      LoggedSound(d, dirty, g, blocks);
      var first := LogWrites(d, dirty, g, blocks) + [HeaderWrite(d, g, blocks)];
      ApplyConcat(d, first, RecoveryWrites(l, g));
      RecoveredLogged(d, dirty, g, blocks);
      RecoveredContents(l, g);
      RestartAtEnd(l, g);
    }
  }

  // ---- admission, absorption and the panic test ----

  /** begin_op's test: the operation may start instead of sleeping. */
  predicate CanBegin(n: nat, outstanding: int, committing: bool) {
    !committing && n + (outstanding + 1) * MAXOPBLOCKS <= LOGSIZE
  }

  /** log_write's unlocked test. */
  predicate MustPanic(n: nat, outstanding: int, size: nat) {
    n >= LOGSIZE || n >= size - 1 || outstanding < 1
  }

  /** lh.block after log_write(b). */
  function Absorb(blocks: seq<Uint>, b: Uint): (r: seq<Uint>)
    ensures b in r && forall a :: a in r <==> a in blocks || a == b
  {
    if b in blocks then blocks else blocks + [b]
  }

  // ---- one turn of each copying loop ----

  lemma InstallStep(d: Disk, g: Geometry, bs: seq<Uint>, k: nat)
    requires Fits(g, d) && Loggable(bs, g, d) && k < |bs|
    ensures bs[k] < |d| && g.start + 1 + k < |d| && !InLog(g, bs[k]) && InLog(g, g.start + 1 + k)
    ensures var ws := InstallWrites(d, g, bs);
      var p := Apply(d, ws[..k]);
      && |ws| == |bs| && |p| == |d|
      && p[g.start + 1 + k] == d[g.start + 1 + k]
      && ws[..k + 1] == ws[..k] + [Write(bs[k], d[g.start + 1 + k])]
      && Apply(d, ws[..k + 1]) == p[bs[k] := d[g.start + 1 + k]]
  {
    hide Apply;
    var ws := InstallWrites(d, g, bs);
    InstallPrefix(d, g, bs, k);
    assert InLog(g, g.start + 1 + k);
    assert ws[..k + 1] == ws[..k] + [ws[k]];
    ApplyOne(d, ws[..k], ws[k]);
  }

  lemma LogStep(d: Disk, dirty: map<nat, Block>, g: Geometry, bs: seq<Uint>, k: nat)
    requires Fits(g, d) && Loggable(bs, g, d) && k < |bs|
    ensures bs[k] < |d| && g.start + 1 + k < |d| && !InLog(g, bs[k]) && InLog(g, g.start + 1 + k)
    ensures var ws := LogWrites(d, dirty, g, bs);
      var p := Apply(d, ws[..k]);
      && |ws| == |bs| && |p| == |d|
      && View(p, dirty, bs[k]) == View(d, dirty, bs[k])
      && ws[..k + 1] == ws[..k] + [Write(g.start + 1 + k, View(d, dirty, bs[k]))]
      && Apply(d, ws[..k + 1]) == p[g.start + 1 + k := View(d, dirty, bs[k])]
  {
    hide Apply;
    var ws := LogWrites(d, dirty, g, bs);
    LogWritesPrefix(d, dirty, g, bs, k);
    assert !InLog(g, bs[k]);
    assert ws[..k + 1] == ws[..k] + [ws[k]];
    ApplyOne(d, ws[..k], ws[k]);
  }

  lemma WritesLengths(d: Disk, dirty: map<nat, Block>, g: Geometry, bs: seq<Uint>)
    requires Fits(g, d) && Loggable(bs, g, d)
    ensures forall i :: 0 <= i < |bs| ==> bs[i] < |d|
    ensures |InstallWrites(d, g, bs)| == |bs| == |LogWrites(d, dirty, g, bs)|
  {
  }

  lemma InstallKeepsHeader(d: Disk, g: Geometry, bs: seq<Uint>)
    requires Fits(g, d) && Loggable(bs, g, d)
    ensures |Apply(d, InstallWrites(d, g, bs))| == |d|
    ensures Apply(d, InstallWrites(d, g, bs))[g.start] == d[g.start]
  {
    InstallPrefix(d, g, bs, |bs|);
    assert InstallWrites(d, g, bs)[..|bs|] == InstallWrites(d, g, bs) && bs[..|bs|] == bs;
    assert InLog(g, g.start);
  }

  lemma LogKeepsHeader(d: Disk, dirty: map<nat, Block>, g: Geometry, bs: seq<Uint>)
    requires Fits(g, d) && Loggable(bs, g, d)
    ensures |Apply(d, LogWrites(d, dirty, g, bs))| == |d|
    ensures Apply(d, LogWrites(d, dirty, g, bs))[g.start] == d[g.start]
  {
    LogWritesPrefix(d, dirty, g, bs, |bs|);
    assert LogWrites(d, dirty, g, bs)[..|bs|] == LogWrites(d, dirty, g, bs);
  }

  /** commit's disk after each of its four phases. */
  lemma CommitPhases(d: Disk, dirty: map<nat, Block>, g: Geometry, bs: seq<Uint>)
    requires Fits(g, d) && Loggable(bs, g, d) && bs != []
    ensures var p := Apply(d, LogWrites(d, dirty, g, bs));
      var l := Logged(d, dirty, g, bs);
      var i := Apply(l, InstallWrites(l, g, bs));
      && |p| == |l| == |i| == |d|
      && HeaderWrite(p, g, bs) == HeaderWrite(d, g, bs)
      && l == p[g.start := HeaderWrite(d, g, bs).data]
      && Loggable(bs, g, l)
      && EraseWrite(i, g) == EraseWrite(l, g)
      && HeaderWrite(i, g, []) == EraseWrite(l, g)
      && Apply(d, CommitWrites(d, dirty, g, bs)) == i[g.start := EraseWrite(l, g).data]
      && CommitWrites(d, dirty, g, bs)
         == LogWrites(d, dirty, g, bs) + [HeaderWrite(d, g, bs)] + InstallWrites(l, g, bs) + [EraseWrite(l, g)]
  {
    hide InstallWrites, LogWrites, Word, PutWord, HeaderPrefix;
    var l := Logged(d, dirty, g, bs);
    LogKeepsHeader(d, dirty, g, bs);
    LoggedSound(d, dirty, g, bs);
    ApplyOne(d, LogWrites(d, dirty, g, bs), HeaderWrite(d, g, bs));
    InstallKeepsHeader(l, g, bs);
    ApplyOne(l, InstallWrites(l, g, bs), EraseWrite(l, g));
    ApplyConcat(d, LogWrites(d, dirty, g, bs) + [HeaderWrite(d, g, bs)], RecoveryWrites(l, g));
  }

  lemma NothingToCommit(d: Disk, dirty: map<nat, Block>, g: Geometry, bs: seq<Uint>, t: seq<Write>)
    requires Fits(g, d) && bs == []
    ensures Loggable(bs, g, d) && Stopped(CommitWrites(d, dirty, g, bs), d, t, true, 0, d, t)
  {
  }

  /** What commit writes first, and what it has on disk then. */
  lemma CommitParts(d: Disk, dirty: map<nat, Block>, g: Geometry, bs: seq<Uint>)
    requires Fits(g, d) && Loggable(bs, g, d) && bs != []
    ensures var ws, logs, l := CommitWrites(d, dirty, g, bs), LogWrites(d, dirty, g, bs), Logged(d, dirty, g, bs);
      && |logs| == |bs| && SoundLog(l, g) && HeaderBlocks(l[g.start]) == bs
      && ws == logs + [HeaderWrite(d, g, bs)] + RecoveryWrites(l, g) && l == Apply(d, logs + [HeaderWrite(d, g, bs)])
      && var p := Apply(d, logs);
      |p| == |d| && HeaderWrite(p, g, bs) == HeaderWrite(d, g, bs)
  {
    hide InstallWrites, LogWrites, Apply, HeaderWrite, EraseWrite, HeaderBlocks, SoundLog;
    CommitPhases(d, dirty, g, bs);
    WritesLengths(d, dirty, g, bs);
    LoggedSound(d, dirty, g, bs);
  }

  lemma RecoveryParts(d: Disk, g: Geometry)
    requires SoundLog(d, g)
    ensures var copies := InstallWrites(d, g, HeaderBlocks(d[g.start]));
      && |copies| == HeaderN(d[g.start]) && RecoveryWrites(d, g) == copies + [EraseWrite(d, g)]
      && Apply(d, RecoveryWrites(d, g)) == Recovered(d, g)
      && var p := Apply(d, copies);
      |p| == |d| && HeaderWrite(p, g, []) == EraseWrite(d, g)
  {
    hide InstallWrites, Apply, Word, PutWord, Loggable;
    InstallKeepsHeader(d, g, HeaderBlocks(d[g.start]));
  }

  /** The code has made the first done writes of ws, all of them exactly when ok: when not, a bread
      found no buffer for the next one. */
  ghost predicate Stopped(ws: seq<Write>, d0: Disk, t0: seq<Write>, ok: bool, done: nat, disk: Disk, trace: seq<Write>)
  {
    && done <= |ws| && (ok <==> done == |ws|)
    && disk == Apply(d0, ws[..done]) && trace == t0 + ws[..done]
  }

  lemma NotStarted(ws: seq<Write>, d: Disk, t: seq<Write>)
    ensures Stopped(ws, d, t, ws == [], 0, d, t)
  {
  }

  lemma OneWrite(w: Write, d: Disk, t: seq<Write>)
    requires w.at < |d|
    ensures Stopped([w], d, t, true, 1, d[w.at := w.data], t + [w])
  {
    assert [w][..1] == [w] && [] + [w] == [w];
    ApplyOne(d, [], w);
  }

  lemma StoppedAll(ws: seq<Write>, d0: Disk, t0: seq<Write>, done: nat, disk: Disk, trace: seq<Write>)
    requires Stopped(ws, d0, t0, true, done, disk, trace)
    ensures disk == Apply(d0, ws) && trace == t0 + ws && done == |ws|
  {
    assert ws[..done] == ws;
  }

  lemma StoppedFirst(ws: seq<Write>, vs: seq<Write>, d0: Disk, t0: seq<Write>, done: nat, disk: Disk, trace: seq<Write>)
    requires Stopped(ws, d0, t0, false, done, disk, trace)
    ensures Stopped(ws + vs, d0, t0, false, done, disk, trace)
  {
    assert (ws + vs)[..done] == ws[..done];
  }

  lemma StoppedThen(ws: seq<Write>, vs: seq<Write>, d0: Disk, t0: seq<Write>, n: nat, d1: Disk, t1: seq<Write>,
                    ok: bool, done: nat, disk: Disk, trace: seq<Write>)
    requires Stopped(ws, d0, t0, true, n, d1, t1) && Stopped(vs, d1, t1, ok, done, disk, trace)
    ensures d1 == Apply(d0, ws) && n == |ws| && Stopped(ws + vs, d0, t0, ok, n + done, disk, trace)
  {
    hide Apply;
    assert ws[..n] == ws && (ws + vs)[..n + done] == ws + vs[..done];
    ApplyConcat(d0, ws, vs[..done]);
  }

  // ---- the code ----

  /** The buffer cache as log.c uses it. trace lists the block writes, oldest first, so every
      disk the machine can crash with is Apply of one of its prefixes. A pass of bget that has to
      recycle a buffer finds none when each is dirty, locked here or locked by another process. */
  class Store {
    var disk: Disk
    /** The pinned blocks, with their buffers' contents. */
    var dirty: map<nat, Block>
    /** The blocks this code has locked. */
    var locked: set<nat>
    /** How many further buffers other processes have locked at the t-th bread. */
    const others: nat -> nat
    var breads: nat
    ghost var trace: seq<Write>

    constructor (disk: Disk, others: nat -> nat)
      ensures this.disk == disk && this.others == others && dirty == map[] && locked == {} && trace == []
    {
      this.disk, this.others := disk, others;
      dirty, locked, breads, trace := map[], {}, 0, [];
    }

    /** bread: a pinned block has its buffer; any other needs one. */
    method Bread(b: nat) returns (found: bool, data: Block)
      requires b < |disk| && b !in locked
      modifies this`locked, this`breads
      ensures found <==> b in dirty || |dirty.Keys + old(locked)| + others(old(breads)) < NBUF
      ensures breads == old(breads) + 1
      ensures if found then data == View(disk, dirty, b) && locked == old(locked) + {b} else locked == old(locked)
    {
      data := if b in dirty then dirty[b] else disk[b];
      found := b in dirty || |dirty.Keys + locked| + others(breads) < NBUF;
      breads := breads + 1;
      if found {
        locked := locked + {b};
      }
    }

    method Bwrite(b: nat, data: Block)
      requires b < |disk| && b in locked
      modifies this`disk, this`dirty, this`trace
      ensures disk == old(disk)[b := data]
      ensures dirty == old(dirty) - {b}
      ensures trace == old(trace) + [Write(b, data)]
    {
      disk := disk[b := data];
      dirty := dirty - {b};
      trace := trace + [Write(b, data)];
    }

    method Brelse(b: nat)
      requires b in locked
      modifies this`locked
      ensures locked == old(locked) - {b}
    {
      locked := locked - {b};
    }
  }

  /** Besides the pinned buffers there are k for log.c at every bread. */
  ghost predicate Roomy(dirty: map<nat, Block>, others: nat -> nat, k: nat) {
    forall t: nat :: |dirty.Keys| + k + others(t) <= NBUF
  }

  /** Copying the blocks in bs between the log and their homes finds its buffers: one at a time
      for the log when the homes are pinned, else two. */
  ghost predicate Enough(dirty: map<nat, Block>, others: nat -> nat, bs: seq<Uint>) {
    || Roomy(dirty, others, 2)
    || (Roomy(dirty, others, 1) && forall i :: 0 <= i < |bs| ==> bs[i] as nat in dirty)
  }

  /** With no other process at the buffers, there are enough exactly when fewer than NBUF blocks are pinned. */
  lemma EnoughAlone(dirty: map<nat, Block>, others: nat -> nat, bs: seq<Uint>)
    requires forall t: nat :: others(t) == 0
    requires forall i :: 0 <= i < |bs| ==> bs[i] as nat in dirty
    ensures Enough(dirty, others, bs) <==> |dirty.Keys| < NBUF
  {
    assert others(0) == 0;
  }

  lemma OneMore(taken: set<nat>, b: nat)
    ensures |taken + {b}| <= |taken| + 1 && taken + {} == taken
  {
    if b in taken {
      assert taken + {b} == taken;
    }
  }

  lemma NotPinned(d: Disk, dirty: map<nat, Block>, b: nat)
    requires b < |d| && b !in dirty
    ensures View(d, dirty, b) == d[b]
  {
  }

  /** dirty when the blocks in bs have been written. */
  function Unpinned(dirty: map<nat, Block>, bs: seq<Uint>): map<nat, Block> {
    dirty - (set b | b in bs)
  }

  /** Unpinning the first k blocks leaves the next one pinned. */
  lemma NextPinned(dirty: map<nat, Block>, bs: seq<Uint>, k: nat)
    requires Distinct(bs) && k < |bs|
    ensures bs[k] as nat in dirty ==> bs[k] as nat in Unpinned(dirty, bs[..k])
    ensures Unpinned(dirty, bs[..k + 1]) == Unpinned(dirty, bs[..k]) - {bs[k] as nat}
  {
    hide Distinct;
    DistinctElements(bs);
    UnpinOne(dirty, bs[..k], bs[k]);
    assert bs[..k + 1] == bs[..k] + [bs[k]];
  }

  lemma UnpinOne(dirty: map<nat, Block>, bs: seq<Uint>, b: Uint)
    ensures Unpinned(dirty, bs + [b]) == Unpinned(dirty, bs) - {b as nat}
  {
    assert forall y :: y in bs + [b] <==> y in bs || y == b;
  }

  /** It leaves no fewer buffers. */
  lemma StillRoomy(dirty: map<nat, Block>, bs: seq<Uint>, others: nat -> nat, k: nat)
    ensures Roomy(dirty, others, k) ==> Roomy(Unpinned(dirty, bs), others, k)
    ensures forall b :: b in Unpinned(dirty, bs) ==> b in dirty
    ensures bs == [] ==> Unpinned(dirty, bs) == dirty
  {
    Smaller(Unpinned(dirty, bs).Keys, dirty.Keys);
  }

  lemma EnoughTurn(dirty: map<nat, Block>, others: nat -> nat, bs: seq<Uint>, k: nat)
    requires Enough(dirty, others, bs) && Distinct(bs) && k < |bs|
    ensures var rest := Unpinned(dirty, bs[..k]);
      Roomy(rest, others, 2) || (bs[k] as nat in rest && Roomy(rest, others, 1))
  {
    hide Roomy, Unpinned;
    StillRoomy(dirty, bs[..k], others, 1);
    StillRoomy(dirty, bs[..k], others, 2);
    NextPinned(dirty, bs, k);
  }

  class KernelLog {
    const geo: Geometry
    const store: Store
    const block: array<Uint>
    var n: nat
    var outstanding: int
    var committing: bool

    ghost predicate Valid()
      reads this, store
    {
      && block.Length == LOGSIZE
      && n <= LOGSIZE
      && Fits(geo, store.disk)
      && forall b :: b in store.dirty ==> !InLog(geo, b)
    }

    function Blocks(): seq<Uint>
      reads this, block
      requires n <= block.Length
    {
      block[..n]
    }

    constructor (geo: Geometry, store: Store)
      requires Fits(geo, store.disk) && store.dirty == map[]
      ensures Valid() && this.geo == geo && this.store == store
      ensures n == 0 && outstanding == 0 && !committing && fresh(block)
    {
      this.geo, this.store := geo, store;
      block := new Uint[LOGSIZE](_ => 0);
      n, outstanding, committing := 0, 0, false;
    }

    /** The two breads that a turn of write_log or install_trans starts with. */
    method BreadPair(slot: nat, home: nat) returns (ok: bool, l: Block, h: Block)
      requires slot < |store.disk| && home < |store.disk| && slot != home
      requires store.locked == {} && slot !in store.dirty
      modifies store`locked, store`breads
      ensures ok ==>
        && l == store.disk[slot] && h == View(store.disk, store.dirty, home)
        && store.locked == {slot, home}
      ensures |store.dirty.Keys| >= NBUF ==> !ok
      ensures Roomy(store.dirty, store.others, 2) || (home in store.dirty && Roomy(store.dirty, store.others, 1)) ==> ok
    {
      hide View;
      OneMore(store.dirty.Keys, slot);
      NotPinned(store.disk, store.dirty, slot);
      ok, l := store.Bread(slot);
      h := l;
      if ok {
        ok, h := store.Bread(home);
      }
    }

    /** A turn of install_trans. */
    method InstallTurn(slot: nat, home: nat) returns (ok: bool)
      requires slot < |store.disk| && home < |store.disk| && slot != home
      requires store.locked == {} && slot !in store.dirty
      modifies store`disk, store`dirty, store`trace, store`locked, store`breads
      ensures ok ==>
        && store.disk == old(store.disk)[home := old(store.disk)[slot]] && store.dirty == old(store.dirty) - {home}
        && store.trace == old(store.trace) + [Write(home, old(store.disk)[slot])] && store.locked == {}
      ensures !ok ==>
        store.disk == old(store.disk) && store.dirty == old(store.dirty) && store.trace == old(store.trace)
      ensures Roomy(old(store.dirty), store.others, 2) ==> ok
      ensures home in old(store.dirty) && Roomy(old(store.dirty), store.others, 1) ==> ok
    {
      hide Roomy;
      var lbuf, dbuf;
      ok, lbuf, dbuf := BreadPair(slot, home);
      if ok {
        dbuf := lbuf;
        store.Bwrite(home, dbuf);
        store.Brelse(slot);
        store.Brelse(home);
      }
    }

    /** A turn of write_log. */
    method LogTurn(slot: nat, home: nat) returns (ok: bool)
      requires slot < |store.disk| && home < |store.disk| && slot != home
      requires store.locked == {} && slot !in store.dirty
      modifies store`disk, store`dirty, store`trace, store`locked, store`breads
      ensures ok ==>
        && store.disk == old(store.disk)[slot := View(old(store.disk), store.dirty, home)]
        && store.trace == old(store.trace) + [Write(slot, View(old(store.disk), store.dirty, home))]
        && store.locked == {}
      ensures !ok ==> store.disk == old(store.disk) && store.trace == old(store.trace)
      ensures store.dirty == old(store.dirty) && (|store.dirty.Keys| >= NBUF ==> !ok)
      ensures Roomy(store.dirty, store.others, 2) || (home in store.dirty && Roomy(store.dirty, store.others, 1)) ==> ok
    {
      hide Roomy;
      var to, from;
      ok, to, from := BreadPair(slot, home);
      if ok {
        to := from;
        store.Bwrite(slot, to);
        store.Brelse(home);
        store.Brelse(slot);
      }
    }

    /** A false result, here and below, is bget's panic for want of a buffer. */
    method InstallTrans() returns (ok: bool, ghost done: nat)
      requires Valid() && Loggable(Blocks(), geo, store.disk) && store.locked == {}
      modifies store`disk, store`dirty, store`trace, store`locked, store`breads
      ensures Valid() && (ok ==> store.locked == {})
      ensures Stopped(InstallWrites(old(store.disk), geo, Blocks()), old(store.disk), old(store.trace),
                      ok, done, store.disk, store.trace)
      ensures done <= n && (ok ==> done == n) && store.dirty == Unpinned(old(store.dirty), Blocks()[..done])
      ensures Enough(old(store.dirty), store.others, Blocks()) ==> ok
    {
      hide InstallWrites, Apply, Unpinned, Roomy, Enough, Distinct, View, InLog;
      ghost var d, bs, dirty := store.disk, Blocks(), store.dirty;
      ghost var ws := InstallWrites(d, geo, bs);
      done := 0;
      var tail := 0;
      NotStarted(ws, d, store.trace);
      StillRoomy(dirty, bs[..0], store.others, 0);
      WritesLengths(d, dirty, geo, bs);
      while tail < n
        invariant 0 <= tail <= n && Valid() && Blocks() == bs && store.locked == {} && done == tail
        invariant store.disk == Apply(d, ws[..tail])
        invariant store.trace == old(store.trace) + ws[..tail]
        invariant store.dirty == Unpinned(dirty, bs[..tail])
      {
        InstallStep(d, geo, bs, tail);
        NextPinned(dirty, bs, tail);
        if Enough(dirty, store.others, bs) { EnoughTurn(dirty, store.others, bs, tail); }
        ok := InstallTurn(geo.start + tail + 1, block[tail]);
        if !ok {
          return false, tail;
        }
        tail, done := tail + 1, tail + 1;
      }
      ok := true;
    }

    method BreadHead() returns (ok: bool, buf: Block)
      requires Valid() && store.locked == {}
      modifies store`locked, store`breads
      ensures ok ==> buf == store.disk[geo.start] && store.locked == {geo.start}
      ensures Roomy(store.dirty, store.others, 1) ==> ok
    {
      OneMore(store.dirty.Keys, geo.start);
      assert InLog(geo, geo.start);
      ok, buf := store.Bread(geo.start);
    }

    method ReadHead() returns (ok: bool)
      requires Valid() && SoundLog(store.disk, geo) && store.locked == {}
      modifies this`n, block, store`locked, store`breads
      ensures Valid() && (Roomy(store.dirty, store.others, 1) ==> ok)
      ensures ok ==> Blocks() == HeaderBlocks(store.disk[geo.start]) && store.locked == {}
    {
      hide Loggable, HeaderPrefix, Word, PutWord;
      var buf;
      ok, buf := BreadHead();
      if !ok {
        return;
      }
      n := HeaderN(buf);
      var i := 0;
      while i < n
        invariant 0 <= i <= n && n == HeaderN(buf)
        invariant forall j :: 0 <= j < i ==> block[j] == Word(buf, 1 + j)
        modifies block
      {
        block[i] := Word(buf, 1 + i);
        i := i + 1;
      }
      assert Blocks() == HeaderBlocks(buf);
      store.Brelse(geo.start);
    }

    /** write_head's change of the header's buffer. */
    method FillHeader(h: Block) returns (buf: Block)
      requires n <= LOGSIZE == block.Length
      ensures buf == PutHeader(h, Blocks(), n)
    {
      hide Word, PutWord;
      buf := PutWord(h, 0, n);
      var i := 0;
      while i < n
        invariant 0 <= i <= n && buf == PutHeader(h, Blocks(), i)
      {
        buf := PutWord(buf, 1 + i, block[i]);
        i := i + 1;
      }
    }

    method WriteHead() returns (ok: bool)
      requires Valid() && store.locked == {}
      modifies store`disk, store`dirty, store`trace, store`locked, store`breads
      ensures Valid() && (ok ==> store.locked == {}) && store.dirty == old(store.dirty)
      ensures Stopped([HeaderWrite(old(store.disk), geo, Blocks())], old(store.disk), old(store.trace),
                      ok, if ok then 1 else 0, store.disk, store.trace)
      ensures Roomy(store.dirty, store.others, 1) ==> ok
    {
      hide PutHeader, Stopped, Roomy;
      ghost var bs, d, t := Blocks(), store.disk, store.trace;
      NotStarted([HeaderWrite(d, geo, bs)], d, t);
      var buf;
      ok, buf := BreadHead();
      if !ok {
        return;
      }
      buf := FillHeader(buf);
      store.Bwrite(geo.start, buf);
      store.Brelse(geo.start);
      OneWrite(HeaderWrite(d, geo, bs), d, t);
    }

    method WriteLog() returns (ok: bool, ghost done: nat)
      requires Valid() && Loggable(Blocks(), geo, store.disk) && store.locked == {}
      modifies store`disk, store`dirty, store`trace, store`locked, store`breads
      ensures Valid() && (ok ==> store.locked == {}) && store.dirty == old(store.dirty)
      ensures Stopped(LogWrites(old(store.disk), store.dirty, geo, Blocks()), old(store.disk), old(store.trace),
                      ok, done, store.disk, store.trace)
      ensures n > 0 && |store.dirty.Keys| >= NBUF ==> done == 0
      ensures Enough(store.dirty, store.others, Blocks()) ==> ok
    {
      hide LogWrites, Apply, Roomy, Loggable, View, InLog;
      ghost var d, bs, dirty := store.disk, Blocks(), store.dirty;
      WritesLengths(d, dirty, geo, bs);
      ghost var ws := LogWrites(d, dirty, geo, bs);
      done := 0;
      var tail := 0;
      NotStarted(ws, d, store.trace);
      while tail < n
        invariant 0 <= tail <= n && Valid() && Blocks() == bs && store.locked == {} && done == tail
        invariant store.disk == Apply(d, ws[..tail])
        invariant store.trace == old(store.trace) + ws[..tail]
        invariant store.dirty == dirty && (|dirty.Keys| >= NBUF ==> tail == 0)
      {
        LogStep(d, dirty, geo, bs, tail);
        ok := LogTurn(geo.start + tail + 1, block[tail]);
        if !ok {
          return false, tail;
        }
        tail, done := tail + 1, tail + 1;
      }
      ok := true;
    }

    /** What commit and recover_from_log end with: install_trans and an empty header. */
    method InstallAndErase() returns (ok: bool, ghost done: nat)
      requires Valid() && SoundLog(store.disk, geo) && store.locked == {}
      requires Blocks() == HeaderBlocks(store.disk[geo.start])
      modifies this`n, store`disk, store`dirty, store`trace, store`locked, store`breads
      ensures Valid()
      ensures Stopped(RecoveryWrites(old(store.disk), geo), old(store.disk), old(store.trace),
                      ok, done, store.disk, store.trace)
      ensures ok ==> n == 0 && store.locked == {} && store.dirty == Unpinned(old(store.dirty), old(Blocks()))
      ensures forall b :: b in store.dirty ==> b in old(store.dirty)
      ensures Enough(old(store.dirty), store.others, old(Blocks())) ==> ok
    {
      hide InstallWrites, HeaderBlocks, EraseWrite, HeaderWrite, RecoveryWrites, Apply, Unpinned, Stopped, Loggable;
      ghost var d, t, bs, dirty := store.disk, store.trace, Blocks(), store.dirty;
      ghost var copies, erase := InstallWrites(d, geo, bs), EraseWrite(d, geo);
      RecoveryParts(d, geo);
      ok, done := InstallTrans();
      StillRoomy(dirty, bs[..done], store.others, 1);
      assert done == n ==> bs[..done] == bs;
      assert Enough(dirty, store.others, bs) ==> Roomy(dirty, store.others, 1);
      ghost var d1, t1, k := store.disk, store.trace, done;
      if !ok {
        StoppedFirst(copies, [erase], d, t, done, d1, t1);
        return;
      }
      StoppedAll(copies, d, t, done, d1, t1);
      n := 0;
      ok := WriteHead();
      done := done + if ok then 1 else 0;
      StoppedThen(copies, [erase], d, t, k, d1, t1, ok, if ok then 1 else 0, store.disk, store.trace);
    }

    /** The code issues exactly RecoveryWrites, or a prefix when a buffer is wanting, so
        RepeatedCrashes speaks about it. */
    method RecoverFromLog() returns (ok: bool, ghost done: nat)
      requires Valid() && SoundLog(store.disk, geo) && store.dirty == map[] && store.locked == {}
      modifies this`n, block, store`disk, store`dirty, store`trace, store`locked, store`breads
      ensures Valid() && store.dirty == map[]
      ensures Stopped(RecoveryWrites(old(store.disk), geo), old(store.disk), old(store.trace),
                      ok, done, store.disk, store.trace)
      ensures ok ==> n == 0 && store.locked == {} && store.disk == Recovered(old(store.disk), geo)
      ensures Roomy(map[], store.others, 2) ==> ok
    {
      hide RecoveryWrites, HeaderBlocks, Apply, Stopped, Loggable;
      ghost var d, t := store.disk, store.trace;
      RecoveryParts(d, geo);
      NotStarted(RecoveryWrites(d, geo), d, t);
      done := 0;
      ok := ReadHead();
      if ok {
        ok, done := InstallAndErase();
        if ok { StoppedAll(RecoveryWrites(d, geo), d, t, done, store.disk, store.trace); }
      }
    }

    /** The code issues exactly CommitWrites, or a prefix when a buffer is wanting, so CrashAtomic
        speaks about it. With NBUF blocks pinned it does not make the first write. */
    method Commit() returns (ok: bool, ghost done: nat)
      requires Valid() && Loggable(Blocks(), geo, store.disk) && store.locked == {}
      modifies this`n, store`disk, store`dirty, store`trace, store`locked, store`breads
      ensures Valid()
      ensures Stopped(CommitWrites(old(store.disk), old(store.dirty), geo, old(Blocks())), old(store.disk),
                      old(store.trace), ok, done, store.disk, store.trace)
      ensures ok ==> n == 0 && store.locked == {} && store.dirty == Unpinned(old(store.dirty), old(Blocks()))
      ensures old(n) > 0 && |old(store.dirty).Keys| >= NBUF ==> !ok && done == 0
      ensures old(n) == 0 ==> store.disk == old(store.disk) && store.trace == old(store.trace)
      ensures old(n) == 0 || Enough(old(store.dirty), store.others, old(Blocks())) ==> ok
    {
      hide LogWrites, HeaderWrite, RecoveryWrites, CommitWrites, HeaderBlocks, Logged, Apply, Unpinned, Stopped;
      ghost var d, t, dirty, bs := store.disk, store.trace, store.dirty, Blocks();
      if n == 0 {
        NothingToCommit(d, dirty, geo, bs, t);
        StillRoomy(dirty, bs, store.others, 0);
        return true, 0;
      }
      CommitParts(d, dirty, geo, bs);
      ghost var logs, head := LogWrites(d, dirty, geo, bs), HeaderWrite(d, geo, bs);
      ghost var rest := RecoveryWrites(Logged(d, dirty, geo, bs), geo);
      assert logs + [head] + rest == logs + ([head] + rest);
      ok, done := WriteLog();
      ghost var d1, t1, k := store.disk, store.trace, done;
      if !ok {
        StoppedFirst(logs, [head] + rest, d, t, done, d1, t1);
        return;
      }
      StoppedAll(logs, d, t, done, d1, t1);
      ok := WriteHead();
      done := k + if ok then 1 else 0;
      StoppedThen(logs, [head], d, t, k, d1, t1, ok, if ok then 1 else 0, store.disk, store.trace);
      ghost var d2, t2 := store.disk, store.trace;
      if !ok {
        StoppedFirst(logs + [head], rest, d, t, done, d2, t2);
        return;
      }
      StoppedAll(logs + [head], d, t, done, d2, t2);
      ok, k := InstallAndErase();
      StoppedThen(logs + [head], rest, d, t, done, d2, t2, ok, k, store.disk, store.trace);
      done := done + k;
    }

    /** One turn of begin_op's loop; a false result is a sleep on &log. */
    method BeginOp() returns (admitted: bool)
      requires Valid() && outstanding >= 0
      modifies this`outstanding
      ensures Valid()
      ensures admitted == CanBegin(n, old(outstanding), committing)
      ensures !committing && n + (old(outstanding) + 1) * MAXOPBLOCKS <= LOGSIZE ==>
        admitted && outstanding == old(outstanding) + 1
      ensures committing || n + (old(outstanding) + 1) * MAXOPBLOCKS > LOGSIZE ==>
        !admitted && outstanding == old(outstanding)
    {
      if committing {
        admitted := false;
      } else if n + (outstanding + 1) * MAXOPBLOCKS > LOGSIZE {
        admitted := false;
      } else {
        outstanding := outstanding + 1;
        admitted := true;
      }
    }

    /** The last open operation commits the transaction; any other only gives up its place. A
        false result is bget's panic in commit. */
    method EndOp() returns (ok: bool, ghost done: nat)
      requires Valid() && Loggable(Blocks(), geo, store.disk) && store.locked == {}
      requires !committing && outstanding >= 1
      modifies this`n, this`outstanding, this`committing
      modifies store`disk, store`dirty, store`trace, store`locked, store`breads
      ensures Valid() && (ok ==> !committing && store.locked == {}) && outstanding == old(outstanding) - 1
      ensures outstanding > 0 ==>
        && ok && n == old(n) && store.disk == old(store.disk) && store.dirty == old(store.dirty)
        && store.trace == old(store.trace)
      ensures outstanding == 0 ==>
        && Stopped(CommitWrites(old(store.disk), old(store.dirty), geo, old(Blocks())), old(store.disk),
                   old(store.trace), ok, done, store.disk, store.trace)
        && (ok ==> n == 0 && store.dirty == Unpinned(old(store.dirty), old(Blocks())))
        && (old(n) > 0 && |old(store.dirty).Keys| >= NBUF ==> !ok && done == 0)
        && (old(n) == 0 ==> store.disk == old(store.disk) && store.trace == old(store.trace))
        && (old(n) == 0 || Enough(old(store.dirty), store.others, old(Blocks())) ==> ok)
    {
      hide CommitWrites, Apply, Loggable, Stopped, Unpinned, Enough;
      var doCommit := false;
      outstanding := outstanding - 1;
      if outstanding == 0 {
        doCommit := true;
        committing := true;
      }
      ok, done := true, 0;
      if doCommit {
        ok, done := Commit();
        if ok {
          committing := false;
        }
      }
    }

    /** b is the number and data the contents of a buffer its caller has modified. */
    method LogWrite(b: Uint, data: Block) returns (panicked: bool)
      requires Valid() && !InLog(geo, b)
      modifies this`n, block, store`dirty
      ensures Valid()
      ensures panicked == MustPanic(old(n), outstanding, geo.size)
      ensures panicked <==> old(n) >= LOGSIZE || old(n) >= geo.size - 1 || outstanding < 1
      ensures panicked ==> n == old(n) && Blocks() == old(Blocks()) && store.dirty == old(store.dirty)
      ensures !panicked ==> Blocks() == Absorb(old(Blocks()), b) && store.dirty == old(store.dirty)[b as nat := data]
      ensures !panicked && b in old(Blocks()) ==> Blocks() == old(Blocks())
      ensures !panicked && b !in old(Blocks()) ==> Blocks() == old(Blocks()) + [b]
      ensures (forall i :: 0 <= i < old(n) ==> old(block[i]) as nat in old(store.dirty)) ==>
                forall i :: 0 <= i < n ==> block[i] as nat in store.dirty
    {
      if n >= LOGSIZE || n >= geo.size - 1 {
        return true;
      }
      if outstanding < 1 {
        return true;
      }
      var i := 0;
      while i < n
        invariant 0 <= i <= n
        invariant b !in block[..i]
      {
        if block[i] == b {
          break;
        }
        i := i + 1;
      }
      block[i] := b;
      if i == n {
        n := n + 1;
      }
      store.dirty := store.dirty[b as nat := data];
      return false;
    }
  }
}
