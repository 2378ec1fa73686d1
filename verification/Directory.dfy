/** Directories (kernel/fs.c): a file of 16-byte entries as a finite map from names, cut to 14
    bytes, to inode numbers. */
module Directory {
  import opened Blocks
  import opened FileBlocks
  import opened FileSystem
  import opened FileContents

  const DIRSIZ := 14
  const DIRENT := 16

  type Name = seq<Byte>

  datatype Entry = Entry(inum: nat, name: Name)

  /** A struct dirent: a little-endian ushort and the name. */
  function DecodeEntry(b: seq<Byte>): (e: Entry)
    requires |b| == DIRENT
    ensures e.inum == Decode(b[..2]) && e.inum < 0x1_0000 && b == b[..2] + e.name
  {
    assert b[..2][1..][1..] == [];
    Entry(b[0] as int + 0x100 * b[1] as int, b[2..])
  }

  function EncodeEntry(e: Entry): (b: seq<Byte>)
    requires e.inum < 0x1_0000 && |e.name| == DIRSIZ
    ensures |b| == DIRENT && DecodeEntry(b) == e
  {
    var b := [e.inum % 0x100, e.inum / 0x100] + e.name;
    assert b[2..] == e.name && e.inum == e.inum % 0x100 + 0x100 * (e.inum / 0x100);
    b
  }

  lemma OneLess(n: nat)
    requires n % DIRENT == 0 && n > 0
    ensures n >= DIRENT && (n - DIRENT) % DIRENT == 0
  {
    assert n == DIRENT * (n / DIRENT);
  }

  lemma EntriesSame(bytes: seq<Byte>, m: nat, n: nat)
    requires m <= |bytes| && DIRENT * n <= m
    ensures forall i :: 0 <= i < n ==>
      bytes[..m][DIRENT * i..DIRENT * i + DIRENT] == bytes[DIRENT * i..DIRENT * i + DIRENT]
  {
  }

  /** The entries that the bytes of a directory hold. */
  function Entries(bytes: seq<Byte>): (es: seq<Entry>)
    requires |bytes| % DIRENT == 0
    ensures |es| * DIRENT == |bytes|
    ensures forall i :: 0 <= i < |es| ==> es[i] == DecodeEntry(bytes[DIRENT * i..DIRENT * i + DIRENT])
  {
    if bytes == [] then [] else
      OneLess(|bytes|);
      var rest := bytes[..|bytes| - DIRENT];
      var es := Entries(rest);
      EntriesSame(bytes, |bytes| - DIRENT, |es|);
      assert bytes[|bytes| - DIRENT..] == bytes[DIRENT * |es|..DIRENT * |es| + DIRENT];
      es + [DecodeEntry(bytes[|bytes| - DIRENT..])]
  }

  /** A name field up to its first NUL. */
  function Key(field: Name): (k: Name)
    ensures |k| <= |field| && k == field[..|k|] && (|k| < |field| ==> field[|k|] == 0)
    ensures forall i :: 0 <= i < |k| ==> k[i] != 0
  {
    if field == [] || field[0] == 0 then [] else [field[0]] + Key(field[1..])
  }

  /** What a directory keeps of a name. */
  function Short(name: Name): (s: Name)
    ensures s <= name && |s| <= DIRSIZ && (|name| <= DIRSIZ ==> s == name) && (|name| > DIRSIZ ==> |s| == DIRSIZ)
  {
    if |name| > DIRSIZ then name[..DIRSIZ] else name
  }

  /** A path element: a C string without its NUL. */
  predicate NoNul(name: Name) { forall i :: 0 <= i < |name| ==> name[i] != 0 }

  predicate Live(e: Entry, key: Name) { e.inum != 0 && Key(e.name) == key }

  /** The first entry from k on that binds key, or the number of entries. */
  function Find(es: seq<Entry>, key: Name, k: nat): (i: nat)
    requires k <= |es|
    ensures k <= i <= |es| && (i < |es| ==> Live(es[i], key)) && forall j :: k <= j < i ==> !Live(es[j], key)
    decreases |es| - k
  {
    if k == |es| || Live(es[k], key) then k else Find(es, key, k + 1)
  }

  /** The names a directory binds. */
  ghost function Names(es: seq<Entry>): set<Name> {
    set i | 0 <= i < |es| && es[i].inum != 0 :: Key(es[i].name)
  }

  /** The map a directory is. */
  ghost function Bindings(es: seq<Entry>): map<Name, nat> {
    map key | key in Names(es) :: if Find(es, key, 0) < |es| then es[Find(es, key, 0)].inum else 0
  }

  /** A name is bound to the inode of its first entry. */
  lemma BindingAt(es: seq<Entry>, key: Name)
    ensures key in Bindings(es) <==> Find(es, key, 0) < |es|
    ensures key in Bindings(es) ==> Bindings(es)[key] == es[Find(es, key, 0)].inum && Bindings(es)[key] != 0
  {
    if key in Names(es) {
      var i :| 0 <= i < |es| && es[i].inum != 0 && Key(es[i].name) == key;
      assert Live(es[i], key);
    }
  }

  /** No binding is hidden behind another one of the same name. */
  predicate Faithful(es: seq<Entry>) {
    forall i :: 0 <= i < |es| && es[i].inum != 0 ==> Find(es, Key(es[i].name), 0) == i
  }

  /** Filling a free entry, or adding one at the end, with a name that is not there. */
  lemma Linked(es: seq<Entry>, i: nat, e: Entry)
    requires i <= |es| && (i < |es| ==> es[i].inum == 0) && e.inum != 0 && Key(e.name) !in Bindings(es)
    ensures var es' := if i < |es| then es[i := e] else es + [e];
      Bindings(es') == Bindings(es)[Key(e.name) := e.inum] && (Faithful(es) ==> Faithful(es'))
  {
    hide Bindings, Find, Key;
    var es', key := if i < |es| then es[i := e] else es + [e], Key(e.name);
    var m, m' := Bindings(es), Bindings(es');
    forall k
      ensures k in m' <==> k == key || k in m
      ensures k in m' ==> m'[k] == if k == key then e.inum else m[k]
    {
      FindLinked(es, i, e, k);
      BindingAt(es, k);
      BindingAt(es', k);
    }
    assert m'.Keys == m.Keys + {key};
    assert m' == m[key := e.inum];
    if Faithful(es) {
      forall j | 0 <= j < |es'| && es'[j].inum != 0
        ensures Find(es', Key(es'[j].name), 0) == j
      {
        FindLinked(es, i, e, Key(es'[j].name));
        BindingAt(es, Key(es'[j].name));
        assert j != i ==> j < |es| && es'[j] == es[j];
      }
    }
  }

  /** An entry written with inode number 0 is free: it binds nothing. */
  lemma LinkedFree(es: seq<Entry>, i: nat, e: Entry)
    requires i <= |es| && (i < |es| ==> es[i].inum == 0) && e.inum == 0
    ensures var es' := if i < |es| then es[i := e] else es + [e];
      Bindings(es') == Bindings(es) && (Faithful(es) ==> Faithful(es'))
  {
    hide Bindings, Find, Key;
    var es' := if i < |es| then es[i := e] else es + [e];
    var m, m' := Bindings(es), Bindings(es');
    forall k
      ensures k in m' <==> k in m
      ensures k in m' ==> m'[k] == m[k]
    {
      FindFree(es, i, e, k);
      BindingAt(es, k);
      BindingAt(es', k);
    }
    assert m'.Keys == m.Keys;
    assert m' == m;
    if Faithful(es) {
      forall j | 0 <= j < |es'| && es'[j].inum != 0
        ensures Find(es', Key(es'[j].name), 0) == j
      {
        FindFree(es, i, e, Key(es'[j].name));
        assert j != i && j < |es| && es'[j] == es[j];
      }
    }
  }

  lemma FindFree(es: seq<Entry>, i: nat, e: Entry, k: Name)
    requires i <= |es| && (i < |es| ==> es[i].inum == 0) && e.inum == 0
    ensures var es' := if i < |es| then es[i := e] else es + [e];
      Find(es', k, 0) == if Find(es, k, 0) < |es| then Find(es, k, 0) else |es'|
  {
    var es' := if i < |es| then es[i := e] else es + [e];
    var want := if Find(es, k, 0) < |es| then Find(es, k, 0) else |es'|;
    assert want < |es'| ==> Live(es'[want], k);
    forall j | 0 <= j < want
      ensures !Live(es'[j], k)
    {
      assert j < |es| && j != i ==> es'[j] == es[j];
    }
    FindIs(es', k, 0, want);
  }

  lemma {:induction false} FindIs(es: seq<Entry>, key: Name, k: nat, want: nat)
    requires k <= want <= |es| && (want < |es| ==> Live(es[want], key))
    requires forall j :: k <= j < want ==> !Live(es[j], key)
    ensures Find(es, key, k) == want
    decreases want - k
  {
    if k < want {
      FindIs(es, key, k + 1, want);
    }
  }

  lemma FindLinked(es: seq<Entry>, i: nat, e: Entry, k: Name)
    requires i <= |es| && (i < |es| ==> es[i].inum == 0) && e.inum != 0 && Key(e.name) !in Bindings(es)
    ensures var es' := if i < |es| then es[i := e] else es + [e];
      Find(es', k, 0) == if k == Key(e.name) then i else if Find(es, k, 0) < |es| then Find(es, k, 0) else |es'|
  {
    BindingAt(es, Key(e.name));
    var es' := if i < |es| then es[i := e] else es + [e];
    var want := if k == Key(e.name) then i else if Find(es, k, 0) < |es| then Find(es, k, 0) else |es'|;
    assert want < |es'| ==> Live(es'[want], k);
    forall j | 0 <= j < want
      ensures !Live(es'[j], k)
    {
      assert j < |es| && j != i ==> es'[j] == es[j];
    }
    FindIs(es', k, 0, want);
  }

  // ---- strncmp and strncpy on 14 bytes ----

  /** namecmp: equal when the directory would keep the same name. */
  method Namecmp(name: Name, field: Name) returns (same: bool)
    requires NoNul(name) && |field| == DIRSIZ
    ensures same <==> Key(field) == Short(name)
  {
    var i := 0;
    while i < DIRSIZ && i < |name| && name[i] == field[i]
      invariant i <= DIRSIZ && i <= |name| && name[..i] == field[..i]
    {
      i := i + 1;
    }
    KeyCompared(name, field, i);
    if i == DIRSIZ {
      return true;
    }
    same := (if i < |name| then name[i] else 0) == field[i];
  }

  /** A key is determined by where its first NUL is. */
  lemma {:induction false} KeyIs(field: Name, k: nat)
    requires k <= |field| && (k < |field| ==> field[k] == 0) && forall i :: 0 <= i < k ==> field[i] != 0
    ensures Key(field) == field[..k]
  {
    if k > 0 {
      KeyIs(field[1..], k - 1);
    }
  }

  /** After i equal characters the next ones decide. */
  lemma KeyCompared(name: Name, field: Name, i: nat)
    requires |field| == DIRSIZ && i <= DIRSIZ && i <= |name| && NoNul(name) && name[..i] == field[..i]
    requires i < DIRSIZ && i < |name| ==> name[i] != field[i]
    ensures i == DIRSIZ ==> Key(field) == Short(name)
    ensures i < DIRSIZ ==> (Key(field) == Short(name) <==> (if i < |name| then name[i] else 0) == field[i])
  {
    forall j | 0 <= j < i
      ensures field[j] == name[j] && field[j] != 0
    {
      assert field[..i][j] == name[..i][j];
    }
    if i == DIRSIZ || field[i] == 0 {
      KeyIs(field, i);
      assert i == |name| ==> Short(name) == name[..i];
    } else if i < |name| {
      assert |Short(name)| > i && Short(name)[i] == name[i];
      assert |Key(field)| > i ==> Key(field)[i] == field[i];
    }
  }

  /** strncpy of a name into a field: the rest is NUL. */
  method Strncpy(name: Name) returns (field: Name)
    requires NoNul(name)
    ensures |field| == DIRSIZ && Key(field) == Short(name)
  {
    field := [];
    while |field| < DIRSIZ && |field| < |name|
      invariant |field| <= DIRSIZ && |field| <= |name| && field == name[..|field|]
    {
      field := field + [name[|field|]];
    }
    ghost var k := |field|;
    while |field| < DIRSIZ
      invariant k <= |field| <= DIRSIZ && field[..k] == Short(name) && |Short(name)| == k
      invariant forall i :: k <= i < |field| ==> field[i] == 0
    {
      field := field + [0];
    }
    assert forall i :: 0 <= i < k ==> field[i] == field[..k][i];
    KeyIs(field, k);
  }

  // ---- the code ----

  /** off is the offset of the entry that binds key. */
  predicate FoundAt(es: seq<Entry>, key: Name, off: nat) {
    off == DIRENT * Find(es, key, 0)
  }

  /** dp is a directory that can be read: whole entries, and every block there. */
  ghost predicate DirShape(data: seq<Block>, inodes: seq<Inode>, dp: nat) {
    dp < |inodes| && inodes[dp].size <= MAXFILE * BSIZE && inodes[dp].size % DIRENT == 0
    && Backed(data, inodes, dp, inodes[dp].size)
  }

  ghost function EntriesIn(data: seq<Block>, inodes: seq<Inode>, dp: nat): (es: seq<Entry>)
    requires DirShape(data, inodes, dp)
    ensures |es| * DIRENT == inodes[dp].size
  {
    Entries(Contents(data, inodes, dp))
  }

  ghost predicate DirFile(v: Volume, dp: nat)
    reads v
  {
    v.Valid() && DirShape(v.data, v.inode, dp)
  }

  ghost function EntriesOf(v: Volume, dp: nat): (es: seq<Entry>)
    requires DirFile(v, dp)
    reads v
  {
    EntriesIn(v.data, v.inode, dp)
  }

  /** One entry, read as the code reads it. */
  method ReadEntry(v: Volume, dp: nat, i: nat) returns (e: Entry)
    requires DirFile(v, dp) && i * DIRENT < v.inode[dp].size
    modifies v`data, v`inode, v`owner
    ensures v.data == old(v.data) && v.inode == old(v.inode) && v.Valid()
    ensures i < |EntriesOf(v, dp)| && e == EntriesOf(v, dp)[i]
  {
    hide AddrAt, Owned, Backed, Bytes;
    var r, de, ok := Readi(v, dp, i * DIRENT, DIRENT);
    e := DecodeEntry(de);
  }

  /** dirlookup: the inode number bound to the name, 0 for none, and the entry's offset. */
  method Dirlookup(v: Volume, dp: nat, name: Name) returns (inum: nat, poff: nat)
    requires DirFile(v, dp) && NoNul(name)
    modifies v`data, v`inode, v`owner
    ensures v.data == old(v.data) && v.inode == old(v.inode) && DirFile(v, dp)
    ensures var m := Bindings(EntriesOf(v, dp));
      inum == (if Short(name) in m then m[Short(name)] else 0)
        && (inum == 0 <==> Short(name) !in m)
    ensures inum != 0 ==> FoundAt(EntriesOf(v, dp), Short(name), poff)
  {
    hide AddrAt, Owned, Backed, Bytes, Bindings, Contents, Entries, Key;
    var i := 0;
    poff := 0;
    ghost var es := EntriesOf(v, dp);
    BindingAt(es, Short(name));
    while i * DIRENT < v.inode[dp].size
      invariant v.data == old(v.data) && v.inode == old(v.inode) && DirFile(v, dp) && EntriesOf(v, dp) == es
      invariant i <= |es| && Find(es, Short(name), i) == Find(es, Short(name), 0)
    {
      var de := ReadEntry(v, dp, i);
      if de.inum != 0 {
        EntryName(Contents(v.data, v.inode, dp), i);
        var same := Namecmp(name, de.name);
        if same {
          return de.inum, i * DIRENT;
        }
      }
      i := i + 1;
    }
    inum := 0;
  }

  lemma EntryName(bytes: seq<Byte>, i: nat)
    requires |bytes| % DIRENT == 0 && i < |Entries(bytes)|
    ensures |Entries(bytes)[i].name| == DIRSIZ
  {
  }

  /** The first free entry, or the number of entries. */
  method FreeEntry(v: Volume, dp: nat) returns (i: nat)
    requires DirFile(v, dp)
    modifies v`data, v`inode, v`owner
    ensures v.data == old(v.data) && v.inode == old(v.inode) && DirFile(v, dp)
    ensures i <= |EntriesOf(v, dp)| && (i < |EntriesOf(v, dp)| ==> EntriesOf(v, dp)[i].inum == 0)
    ensures forall j :: 0 <= j < i ==> EntriesOf(v, dp)[j].inum != 0
  {
    hide AddrAt, Owned, Backed, Bytes, Contents, Entries;
    i := 0;
    ghost var es := EntriesOf(v, dp);
    while i * DIRENT < v.inode[dp].size
      invariant v.data == old(v.data) && v.inode == old(v.inode) && DirFile(v, dp) && EntriesOf(v, dp) == es
      invariant i <= |es| && forall j :: 0 <= j < i ==> es[j].inum != 0
    {
      var de := ReadEntry(v, dp, i);
      if de.inum == 0 {
        break;
      }
      i := i + 1;
    }
  }

  /** The inode number as an entry holds it: a ushort. */
  function Stored(inum: Uint): (n: nat)
    ensures n < 0x1_0000 && (inum < 0x1_0000 ==> n == inum) && exists k: nat :: inum == n + 0x1_0000 * k
  {
    assert inum == inum % 0x1_0000 + 0x1_0000 * (inum / 0x1_0000);
    inum % 0x1_0000
  }

  /** A map with one binding more, where 0 is no inode number. */
  function Bound(m: map<Name, nat>, key: Name, inum: nat): (r: map<Name, nat>)
    ensures r.Keys == (if inum == 0 then m.Keys else m.Keys + {key})
    ensures forall k :: k in r ==> r[k] == if k == key && inum != 0 then inum else m[k]
    ensures inum != 0 ==> r == m[key := inum]
  {
    if inum == 0 then m else m[key := inum]
  }

  lemma LinkedAny(es: seq<Entry>, i: nat, e: Entry)
    requires i <= |es| && (i < |es| ==> es[i].inum == 0) && Key(e.name) !in Bindings(es)
    ensures var es' := if i < |es| then es[i := e] else es + [e];
      Bindings(es') == Bound(Bindings(es), Key(e.name), e.inum) && (Faithful(es) ==> Faithful(es'))
  {
    hide Bindings, Key, Faithful;
    if e.inum == 0 { LinkedFree(es, i, e); } else { Linked(es, i, e); }
  }

  /** dirlink: -1 when the name is there; else one binding more, and nothing else. ok is false
      where the code panics: the directory or the volume is full. */
  method Dirlink(v: Volume, dp: nat, name: Name, inum: Uint) returns (r: int, ok: bool)
    requires DirFile(v, dp) && NoNul(name)
    modifies v`data, v`inode, v`owner, v`dinode
    ensures v.Valid()
    ensures Short(name) in Bindings(old(EntriesOf(v, dp))) ==>
              r == -1 && ok && v.data == old(v.data) && v.inode == old(v.inode) && v.dinode == old(v.dinode)
    ensures Short(name) !in Bindings(old(EntriesOf(v, dp))) && ok ==>
              && r == 0 && DirFile(v, dp)
              && Bindings(EntriesOf(v, dp)) == Bound(Bindings(old(EntriesOf(v, dp))), Short(name), Stored(inum))
              && (0 < inum < 0x1_0000 ==>
                    Bindings(EntriesOf(v, dp)) == Bindings(old(EntriesOf(v, dp)))[Short(name) := inum])
              && (Faithful(old(EntriesOf(v, dp))) ==> Faithful(EntriesOf(v, dp)))
              && OthersKeep(old(v.data), old(v.inode), v.data, v.inode, dp)
    ensures !ok ==> Full(v.l, v.data) || old(v.inode)[dp].size == MAXFILE * BSIZE
  {
    hide AddrAt, Owned, Backed, Bytes, Bindings, Entries, Key, Find, FoundAt, Full, OthersKeep, Faithful, Overwritten,
        Bound;
    var there, _ := Dirlookup(v, dp, name);
    if there != 0 {
      return -1, true;
    }
    var i := FreeEntry(v, dp);
    var field := Strncpy(name);
    var e := Entry(Stored(inum), field);
    ghost var es, was := EntriesOf(v, dp), Contents(v.data, v.inode, dp);
    LinkedAny(es, i, e);
    var size := v.inode[dp].size;
    if i * DIRENT >= size { assert i == |es|; }
    var wrote;
    wrote, ok := Writei(v, dp, EncodeEntry(e), i * DIRENT);
    if !ok {
      return 0, false;
    }
    if wrote != DIRENT {
      return 0, false;
    }
    EntriesWritten(was, i, e);
    r := 0;
  }

  /** Writing entry i's bytes changes entry i, or adds it at the end. */
  lemma EntriesWritten(bytes: seq<Byte>, i: nat, e: Entry)
    requires |bytes| % DIRENT == 0 && i <= |Entries(bytes)| && e.inum < 0x1_0000 && |e.name| == DIRSIZ
    ensures i * DIRENT <= |bytes|
    ensures var b := Overwritten(bytes, i * DIRENT, EncodeEntry(e));
      && |b| % DIRENT == 0
      && Entries(b) == if i < |Entries(bytes)| then Entries(bytes)[i := e] else Entries(bytes) + [e]
  {
    hide Entries, Overwritten, DecodeEntry, EncodeEntry;
    var b, es := Overwritten(bytes, i * DIRENT, EncodeEntry(e)), Entries(bytes);
    assert |b| == if i < |es| then |bytes| else |bytes| + DIRENT;
    var want := if i < |es| then es[i := e] else es + [e];
    forall j | 0 <= j < |Entries(b)|
      ensures Entries(b)[j] == want[j]
    {
      EntryWritten(bytes, i, EncodeEntry(e), j);
    }
  }

  lemma EntryWritten(bytes: seq<Byte>, i: nat, src: seq<Byte>, j: nat)
    requires |src| == DIRENT && i * DIRENT <= |bytes|
    requires j * DIRENT + DIRENT <= |Overwritten(bytes, i * DIRENT, src)|
    requires j != i ==> j * DIRENT + DIRENT <= |bytes|
    ensures Overwritten(bytes, i * DIRENT, src)[DIRENT * j..DIRENT * j + DIRENT] ==
              if j == i then src else bytes[DIRENT * j..DIRENT * j + DIRENT]
  {
    hide Overwritten;
  }
}
