/** The mapped disk image of WFS: bytes that represent a log, and the walks over them that
    mount.wfs.c and fsck.wfs.c share. */
module WfsImage {
  import opened Common
  import opened WfsLog

  const DELETED: nat := 4               // offsets in struct wfs_inode
  const MODE: nat := 8
  const SIZE: nat := 24

  // ---------------------------------------------------------------- the representation

  function Size(e: Entry): nat {
    INODE + |e.data|
  }

  /** The offset of entry k; of the end of the log if there are k entries. */
  function Start(es: seq<Entry>, k: nat): (s: nat)
    requires k <= |es|
    ensures s >= SB
  {
    if k == 0 then SB else Start(es, k - 1) + Size(es[k - 1])
  }

  function End(es: seq<Entry>): nat {
    Start(es, |es|)
  }

  /** The pointer to an entry found, or -1 for NULL. */
  function At(es: seq<Entry>, k: int): int
    requires -1 <= k < |es|
  {
    if k == -1 then -1 else Start(es, k)
  }

  function WordsBytes(ws: seq<Uint>): (b: seq<Byte>)
    ensures |b| == 4 * |ws|
  {
    if ws == [] then [] else WordsBytes(ws[..|ws| - 1]) + Bytes4(ws[|ws| - 1])
  }

  /** The fields of struct wfs_inode in order. */
  function Fields(i: Inode): (ws: seq<Uint>)
    ensures |ws| == 11
  {
    [i.number, i.deleted, i.mode, i.uid, i.gid, i.flags, i.size, i.atime, i.mtime, i.ctime, i.links]
  }

  /** An entry as it lies on the disk. */
  function EntryBytes(e: Entry): (b: seq<Byte>)
    ensures |b| == Size(e)
  {
    WordsBytes(Fields(e.inode)) + e.data
  }

  predicate EntryAt(d: seq<Byte>, off: nat, e: Entry) {
    off + Size(e) <= |d| && d[off..off + Size(e)] == EntryBytes(e)
  }

  predicate EntryThere(d: seq<Byte>, es: seq<Entry>, k: nat)
    requires k < |es|
  {
    EntryAt(d, Start(es, k), es[k])
  }

  predicate EntriesAt(d: seq<Byte>, es: seq<Entry>) {
    forall k | 0 <= k < |es| :: EntryThere(d, es, k)
  }

  lemma {:induction false} WordsAt(ws: seq<Uint>, i: nat)
    requires i < |ws|
    ensures WordsBytes(ws)[4 * i..4 * i + 4] == Bytes4(ws[i])
  {
    var last := |ws| - 1;
    if i < last {
      WordsAt(ws[..last], i);
      assert WordsBytes(ws)[4 * i..4 * i + 4] == WordsBytes(ws[..last])[4 * i..4 * i + 4];
    }
  }

  lemma {:induction false} WordsUpdated(ws: seq<Uint>, i: nat, w: Uint)
    requires i < |ws|
    ensures WordsBytes(ws[i := w]) == WordsBytes(ws)[..4 * i] + Bytes4(w) + WordsBytes(ws)[4 * i + 4..]
  {
    var last := |ws| - 1;
    var b := WordsBytes(ws[..last]);
    if i < last {
      WordsUpdated(ws[..last], i, w);
      assert ws[i := w][..last] == ws[..last][i := w];
      assert WordsBytes(ws)[..4 * i] == b[..4 * i];
      assert WordsBytes(ws)[4 * i + 4..] == b[4 * i + 4..] + Bytes4(ws[last]);
    } else {
      assert ws[i := w][..last] == ws[..last];
      assert WordsBytes(ws)[..4 * i] == b && WordsBytes(ws)[4 * i + 4..] == [];
    }
  }

  /** The i-th field of an entry, read from the disk. */
  lemma FieldAt(d: seq<Byte>, off: nat, e: Entry, i: nat)
    requires EntryAt(d, off, e) && i < 11
    ensures off + 4 * i + 4 <= |d| && Word4(d, off + 4 * i) == Fields(e.inode)[i]
  {
    WordsAt(Fields(e.inode), i);
    SubSlice(d, off, Size(e), 4 * i, 4 * i + 4);
    assert EntryBytes(e)[4 * i..4 * i + 4] == WordsBytes(Fields(e.inode))[4 * i..4 * i + 4];
    WordOf(d, off + 4 * i, Fields(e.inode)[i]);
  }

  /** struct wfs_inode at off, field by field. */
  predicate InodeAt(d: seq<Byte>, off: nat, i: Inode)
    requires off + INODE <= |d|
  {
    && Word4(d, off) == i.number && Word4(d, off + 4) == i.deleted && Word4(d, off + 8) == i.mode
    && Word4(d, off + 12) == i.uid && Word4(d, off + 16) == i.gid && Word4(d, off + 20) == i.flags
    && Word4(d, off + 24) == i.size && Word4(d, off + 28) == i.atime && Word4(d, off + 32) == i.mtime
    && Word4(d, off + 36) == i.ctime && Word4(d, off + 40) == i.links
  }

  lemma FieldsAt(d: seq<Byte>, off: nat, i: Inode)
    requires off + INODE <= |d| && d[off..off + INODE] == WordsBytes(Fields(i))
    ensures InodeAt(d, off, i)
  {
    FieldIs(d, off, i, 0);
    FieldIs(d, off, i, 1);
    FieldIs(d, off, i, 2);
    FieldIs(d, off, i, 3);
    FieldIs(d, off, i, 4);
    FieldIs(d, off, i, 5);
    FieldIs(d, off, i, 6);
    FieldIs(d, off, i, 7);
    FieldIs(d, off, i, 8);
    FieldIs(d, off, i, 9);
    FieldIs(d, off, i, 10);
  }

  lemma FieldIs(d: seq<Byte>, off: nat, i: Inode, k: nat)
    requires off + INODE <= |d| && d[off..off + INODE] == WordsBytes(Fields(i)) && k < 11
    ensures Word4(d, off + 4 * k) == Fields(i)[k]
  {
    WordsAt(Fields(i), k);
    SubSlice(d, off, INODE, 4 * k, 4 * k + 4);
    WordOf(d, off + 4 * k, Fields(i)[k]);
  }

  lemma SubSlice(d: seq<Byte>, off: nat, n: nat, lo: nat, hi: nat)
    requires off + n <= |d| && lo <= hi <= n
    ensures d[off..off + n][lo..hi] == d[off + lo..off + hi]
  {
    var a, b := d[off..off + n][lo..hi], d[off + lo..off + hi];
    assert |a| == |b|;
    forall i | 0 <= i < |a|
      ensures a[i] == b[i]
    {
      assert a[i] == d[off..off + n][lo + i] == d[off + lo + i];
    }
  }

  /** ... and its data. */
  lemma DataAt(d: seq<Byte>, off: nat, e: Entry, lo: nat, hi: nat)
    requires EntryAt(d, off, e) && lo <= hi <= |e.data|
    ensures d[off + INODE + lo..off + INODE + hi] == e.data[lo..hi]
  {
    SubSlice(d, off, Size(e), INODE + lo, INODE + hi);
    assert EntryBytes(e)[INODE + lo..INODE + hi] == e.data[lo..hi];
  }

  /** Walking the entries from the superblock lands exactly on head, inside the disk. */
  ghost predicate Walks(d: seq<Byte>, es: seq<Entry>) {
    && SB <= End(es) <= |d| < INT
    && Word4(d, 0) == MAGIC && Word4(d, 4) == End(es)
    && EntriesAt(d, es)
  }

  /** ... and the entries are well formed. */
  ghost predicate LogAt(d: seq<Byte>, es: seq<Entry>) {
    Walks(d, es) && forall e | e in es :: EntryOk(e)
  }

  /** A mounted image also has a first entry, the root's. */
  ghost predicate Rep(d: seq<Byte>, es: seq<Entry>) {
    es != [] && LogAt(d, es)
  }

  lemma {:induction false} StartOrder(es: seq<Entry>, j: nat, k: nat)
    requires j < k <= |es|
    ensures Start(es, j) + Size(es[j]) <= Start(es, k)
  {
    if j < k - 1 {
      StartOrder(es, j, k - 1);
    }
  }

  lemma {:induction false} StartSame(es: seq<Entry>, es': seq<Entry>, k: nat)
    requires k <= |es| && k <= |es'| && forall j | 0 <= j < k :: |es[j].data| == |es'[j].data|
    ensures Start(es, k) == Start(es', k)
  {
    if k > 0 {
      StartSame(es, es', k - 1);
    }
  }

  /** The live entries of inode n among the first k are marked deleted. */
  ghost predicate Deleting(es0: seq<Entry>, es: seq<Entry>, n: nat, k: nat) {
    && |es| == |es0| && k <= |es|
    && forall j | 0 <= j < |es| :: if j < k then Deletes(es0[j], n, es[j]) else es[j] == es0[j]
  }

  lemma {:induction false} AtEnd(es: seq<Entry>, k: nat)
    requires k <= |es|
    ensures Start(es, k) <= End(es) && (Start(es, k) < End(es) <==> k < |es|)
  {
    if k < |es| {
      StartOrder(es, k, |es|);
    }
  }

  // ---------------------------------------------------------------- what a change leaves alone

  predicate SameAt(d: seq<Byte>, d': seq<Byte>, k: nat) {
    k < |d| && k < |d'| && d'[k] == d[k]
  }

  /** Only bytes lo to hi differ. */
  predicate Outside(d: seq<Byte>, d': seq<Byte>, lo: nat, hi: nat) {
    |d'| == |d| && forall k | 0 <= k < |d| && !(lo <= k < hi) :: SameAt(d, d', k)
  }

  /** The bytes from n on are the same. */
  predicate Behind(d: seq<Byte>, d': seq<Byte>, n: nat) {
    |d'| == |d| && forall k | n <= k < |d| :: SameAt(d, d', k)
  }

  lemma OutsideTwice(d: seq<Byte>, d': seq<Byte>, d'': seq<Byte>, lo: nat, hi: nat, lo': nat, hi': nat, l: nat, h: nat)
    requires Outside(d, d', lo, hi) && Outside(d', d'', lo', hi') && l <= lo && l <= lo' && hi <= h && hi' <= h
    ensures Outside(d, d'', l, h)
  {
    forall k | 0 <= k < |d| && !(l <= k < h)
      ensures SameAt(d, d'', k)
    {
      assert SameAt(d, d', k) && SameAt(d', d'', k);
    }
  }

  lemma BehindTwice(d: seq<Byte>, d': seq<Byte>, d'': seq<Byte>, m: nat, n: nat)
    requires Behind(d, d', m) && Behind(d', d'', n) && m <= n
    ensures Behind(d, d'', n)
  {
    forall k | n <= k < |d|
      ensures SameAt(d, d'', k)
    {
      assert SameAt(d, d', k) && SameAt(d', d'', k);
    }
  }

  lemma SliceSame(d: seq<Byte>, d': seq<Byte>, lo: nat, hi: nat, a: nat, b: nat)
    requires Outside(d, d', lo, hi) && a <= b <= |d| && (b <= lo || hi <= a)
    ensures d'[a..b] == d[a..b]
  {
    forall k | a <= k < b
      ensures d'[k] == d[k]
    {
      assert SameAt(d, d', k);
    }
  }

  lemma WordSame(d: seq<Byte>, d': seq<Byte>, lo: nat, hi: nat, off: nat)
    requires Outside(d, d', lo, hi) && off + 4 <= |d| && (off + 4 <= lo || hi <= off)
    ensures Word4(d', off) == Word4(d, off)
  {
    SliceSame(d, d', lo, hi, off, off + 4);
  }

  lemma EntrySame(d: seq<Byte>, d': seq<Byte>, lo: nat, hi: nat, off: nat, e: Entry)
    requires Outside(d, d', lo, hi) && EntryAt(d, off, e) && (off + Size(e) <= lo || hi <= off)
    ensures EntryAt(d', off, e)
  {
    SliceSame(d, d', lo, hi, off, off + Size(e));
  }

  /** An entry of the log and its place. */
  lemma EntryIn(d: seq<Byte>, es: seq<Entry>, k: nat)
    requires Rep(d, es) && k < |es|
    ensures EntryAt(d, Start(es, k), es[k]) && EntryOk(es[k])
    ensures Start(es, k) + Size(es[k]) <= End(es) <= |d|
  {
    assert EntryThere(d, es, k) && es[k] in es;
    StartOrder(es, k, |es|);
  }

  lemma DataKept(d: seq<Byte>, d': seq<Byte>, off: nat, e: Entry, lo: nat, hi: nat)
    requires EntryAt(d, off, e) && Outside(d, d', lo, hi) && off + Size(e) <= lo
    ensures d'[off + INODE..off + Size(e)] == e.data
  {
    DataAt(d, off, e, 0, |e.data|);
    SliceSame(d, d', lo, hi, off + INODE, off + Size(e));
  }

  /** An entry written behind the log, even with more bytes behind it, and the advanced head make a
      longer log. */
  lemma {:induction false} Appended(d: seq<Byte>, d': seq<Byte>, d'': seq<Byte>, es: seq<Entry>, e: Entry, hi: nat)
    requires Walks(d, es) && End(es) + Size(e) <= hi
    requires Outside(d, d', End(es), hi) && EntryAt(d', End(es), e)
    requires Outside(d', d'', 4, 8) && Word4(d'', 4) == End(es) + Size(e)
    ensures Walks(d'', es + [e]) && End(es + [e]) == End(es) + Size(e)
    ensures Behind(d, d'', hi)
  {
    var es' := es + [e];
    forall k | 0 <= k < |es'|
      ensures EntryThere(d'', es', k)
    {
      StartSame(es, es', k);
      if k < |es| {
        assert EntryThere(d, es, k);
        StartOrder(es, k, |es|);
        EntrySame(d, d', End(es), hi, Start(es, k), es[k]);
      }
      EntrySame(d', d'', 4, 8, Start(es', k), es'[k]);
    }
    StartSame(es, es', |es|);
    WordSame(d, d', End(es), hi, 0);
    WordSame(d', d'', 4, 8, 0);
    OutsideBehind(d, d', End(es), hi);
    OutsideBehind(d', d'', 4, 8);
    BehindMore(d', d'', 8, hi);
    BehindTwice(d, d', d'', hi, hi);
  }

  lemma OutsideBehind(d: seq<Byte>, d': seq<Byte>, lo: nat, hi: nat)
    requires Outside(d, d', lo, hi)
    ensures Behind(d, d', hi)
  {
    assert forall k | hi <= k < |d| :: SameAt(d, d', k);
  }

  lemma BehindMore(d: seq<Byte>, d': seq<Byte>, m: nat, n: nat)
    requires Behind(d, d', m) && m <= n
    ensures Behind(d, d', n)
  {
    assert forall k | n <= k < |d| :: SameAt(d, d', k);
  }

  function Mark(e: Entry): Entry {
    e.(inode := e.inode.(deleted := 1))
  }

  /** Marking entry k deleted. */
  lemma {:induction false} Marked(d: seq<Byte>, d': seq<Byte>, es: seq<Entry>, k: nat)
    requires Rep(d, es) && k < |es|
    requires var o := Start(es, k) + DELETED; Outside(d, d', o, o + 4) && o + 4 <= |d| && Word4(d', o) == 1
    ensures Rep(d', es[k := Mark(es[k])]) && End(es[k := Mark(es[k])]) == End(es)
  {
    var es' := es[k := Mark(es[k])];
    var o := Start(es, k) + DELETED;
    forall j | 0 <= j < |es'|
      ensures EntryThere(d', es', j)
    {
      MarkedAt(d, d', es, k, j);
    }
    assert forall e | e in es' :: e in es || e == Mark(es[k]);
    assert es[k] in es;
    StartSame(es, es', |es|);
    WordSame(d, d', o, o + 4, 0);
    WordSame(d, d', o, o + 4, 4);
  }

  lemma {:induction false} MarkedAt(d: seq<Byte>, d': seq<Byte>, es: seq<Entry>, k: nat, j: nat)
    requires Rep(d, es) && k < |es| && j < |es|
    requires var o := Start(es, k) + DELETED; Outside(d, d', o, o + 4) && o + 4 <= |d| && Word4(d', o) == 1
    ensures EntryThere(d', es[k := Mark(es[k])], j)
  {
    var o := Start(es, k) + DELETED;
    StartSame(es, es[k := Mark(es[k])], j);
    assert EntryThere(d, es, j);
    if j < k {
      StartOrder(es, j, k);
      EntrySame(d, d', o, o + 4, Start(es, j), es[j]);
    } else if j > k {
      StartOrder(es, k, j);
      EntrySame(d, d', o, o + 4, Start(es, j), es[j]);
    } else {
      MarkedEntry(d, d', Start(es, k), es[k]);
    }
  }

  lemma MarkedEntry(d: seq<Byte>, d': seq<Byte>, off: nat, e: Entry)
    requires EntryAt(d, off, e) && Outside(d, d', off + DELETED, off + DELETED + 4) && Word4(d', off + DELETED) == 1
    ensures EntryAt(d', off, Mark(e))
  {
    FieldStored(d, d', off, e, 1, 1);
    assert Fields(e.inode)[1 := 1] == Fields(Mark(e).inode);
  }

  /** A store into one word of the inode at off. */
  lemma FieldStored(d: seq<Byte>, d': seq<Byte>, off: nat, e: Entry, i: nat, w: Uint)
    requires EntryAt(d, off, e) && i < |Fields(e.inode)|
    requires Outside(d, d', off + 4 * i, off + 4 * i + 4) && Word4(d', off + 4 * i) == w
    ensures d'[off..off + Size(e)] == WordsBytes(Fields(e.inode)[i := w]) + e.data
  {
    var ws := Fields(e.inode);
    Patched(d, d', off, Size(e), 4 * i);
    WordOf(d', off + 4 * i, w);
    WordsUpdated(ws, i, w);
    PatchedHead(WordsBytes(ws), e.data, 4 * i, Bytes4(w));
  }

  lemma Patched(d: seq<Byte>, d': seq<Byte>, off: nat, n: nat, lo: nat)
    requires off + n <= |d| && lo + 4 <= n && Outside(d, d', off + lo, off + lo + 4)
    ensures d'[off..off + n] == d[off..off + n][..lo] + d'[off + lo..off + lo + 4] + d[off..off + n][lo + 4..]
  {
    var b := d[off..off + n];
    var r := b[..lo] + d'[off + lo..off + lo + 4] + b[lo + 4..];
    forall j | 0 <= j < n
      ensures d'[off + j] == r[j]
    {
      assert !(lo <= j < lo + 4) ==> SameAt(d, d', off + j);
    }
  }

  lemma PatchedHead(w: seq<Byte>, c: seq<Byte>, lo: nat, x: seq<Byte>)
    requires lo + 4 <= |w|
    ensures (w + c)[..lo] + x + (w + c)[lo + 4..] == (w[..lo] + x + w[lo + 4..]) + c
  {
  }

  // ---------------------------------------------------------------- the mapped image

  class Image {
    const data: array<Byte>
    ghost var es: seq<Entry>            // the log that the image represents

    ghost predicate Valid()
      reads this, data
    {
      Rep(data[..], es)
    }

    constructor (d: array<Byte>, ghost log: seq<Entry>)
      ensures data == d && es == log
    {
      data, es := d, log;
    }

    method GetWord(off: nat) returns (w: Uint)
      requires off + 4 <= data.Length
      ensures w == Word4(data[..], off)
    {
      var b := data[off..off + 4];
      w := Word4(b, 0);
      assert b[0..4] == b == data[..][off..off + 4];
    }

    method PutWord(off: nat, w: Uint)
      requires off + 4 <= data.Length
      modifies data
      ensures Outside(old(data[..]), data[..], off, off + 4) && Word4(data[..], off) == w
    {
      var b := Bytes4(w);
      data[off], data[off + 1], data[off + 2], data[off + 3] := b[0], b[1], b[2], b[3];
      WordOf(data[..], off, w) by {
        assert data[..][off..off + 4] == b;
      }
    }

    /** The inode fields of entry k that the walks look at. */
    method Header(off: nat, ghost k: nat) returns (number: Uint, deleted: Uint, mode: Uint, size: Uint)
      requires Valid() && k < |es| && off == Start(es, k)
      ensures number == es[k].inode.number && deleted == es[k].inode.deleted && mode == es[k].inode.mode
      ensures size == es[k].inode.size && off + INODE + size == Start(es, k + 1) && size == |es[k].data|
      ensures off < End(es) && EntryAt(data[..], off, es[k])
    {
      assert EntryThere(data[..], es, k) && es[k] in es;
      AtEnd(es, k);
      FieldAt(data[..], off, es[k], 0);
      FieldAt(data[..], off, es[k], 1);
      FieldAt(data[..], off, es[k], 2);
      FieldAt(data[..], off, es[k], 6);
      number := GetWord(off);
      deleted := GetWord(off + DELETED);
      mode := GetWord(off + MODE);
      size := GetWord(off + SIZE);
    }

    /** find_latest_log_entry. */
    method FindLatest(n: nat) returns (latest: int)
      requires Valid()
      ensures latest == At(es, Current(es, n))
    {
      latest := -1;
      var head := GetWord(4);
      var off := SB;
      ghost var k := 0;
      while off < head
        invariant k <= |es| && off == Start(es, k) && latest == At(es, Latest(es, n, k))
        decreases |es| - k
      {
        AtEnd(es, k);
        var number, deleted, _, size := Header(off, k);
        if number == n && deleted == 0 {
          latest := off;
        }
        off, k := off + INODE + size, k + 1;
      }
      AtEnd(es, k);
    }

    /** find_max_inode_number. */
    method FindMax() returns (m: nat)
      requires Valid()
      ensures m == MaxNumber(es, |es|) < INT
    {
      m := 0;
      var head := GetWord(4);
      var off := SB;
      ghost var k := 0;
      while off < head
        invariant k <= |es| && off == Start(es, k) && m == MaxNumber(es, k) < INT
        decreases |es| - k
      {
        AtEnd(es, k);
        var number, _, _, size := Header(off, k);
        assert es[k] in es;
        if number > m {
          m := number;
        }
        off, k := off + INODE + size, k + 1;
      }
      AtEnd(es, k);
    }

    method MarkDeleted(off: nat, ghost k: nat)
      requires Valid() && k < |es| && off == Start(es, k)
      modifies this`es, data
      ensures Valid() && es == old(es)[k := Mark(old(es[k]))] && End(es) == old(End(es))
      ensures Start(es, k + 1) == old(Start(es, k + 1))
      ensures Behind(old(data[..]), data[..], End(es))
    {
      ghost var d := data[..];
      StartOrder(es, k, |es|);
      PutWord(off + DELETED, 1);
      Marked(d, data[..], es, k);
      OutsideBehind(d, data[..], off + DELETED, off + DELETED + 4);
      BehindMore(d, data[..], off + DELETED + 4, End(es));
      StartSame(es, es[k := Mark(es[k])], k + 1);
      es := es[k := Mark(es[k])];
    }

    /** One turn of the loop below: entry k is marked deleted if it is a live one of inode n. */
    method DeleteTurn(off: nat, ghost k: nat, n: nat, ghost es0: seq<Entry>) returns (hit: bool, next: nat)
      requires Valid() && k < |es| && off == Start(es, k) && Deleting(es0, es, n, k)
      modifies this`es, data
      ensures Valid() && End(es) == old(End(es)) && Deleting(es0, es, n, k + 1)
      ensures next == Start(es, k + 1) && (hit <==> Live(es0[k], n))
      ensures Behind(old(data[..]), data[..], End(es))
    {
      AtEnd(es, k);
      var number, deleted, _, size := Header(off, k);
      hit, next := number == n && deleted == 0, off + INODE + size;
      if hit {
        MarkDeleted(off, k);
      }
    }

    /** delete_log_entries: every entry of inode n is marked deleted; -1 if none was live. */
    method DeleteEntries(n: nat) returns (r: int)
      requires Valid()
      modifies this`es, data
      ensures Valid() && es == Deleted(old(es), n) && End(es) == old(End(es))
      ensures Behind(old(data[..]), data[..], End(es))
      ensures r == if old(Current(es, n)) >= 0 then 1 else -1
    {
      ghost var es0, d0 := es, data[..];
      var flag := 0;
      var head := GetWord(4);
      var off := SB;
      ghost var k := 0;
      while off < head
        invariant Valid() && |es| == |es0| && End(es) == End(es0) == head
        invariant k <= |es| && off == Start(es, k)
        invariant Deleting(es0, es, n, k)
        invariant flag == if Latest(es0, n, k) >= 0 then 1 else 0
        invariant Behind(d0, data[..], head)
        decreases |es| - k
      {
        AtEnd(es, k);
        ghost var d := data[..];
        var hit;
        hit, off := DeleteTurn(off, k, n, es0);
        BehindTwice(d0, d, data[..], head, head);
        flag := if hit then 1 else flag;
        k := k + 1;
      }
      AtEnd(es, k);
      assert es == Deleted(es0, n);
      r := if flag == 1 then flag else -1;
    }

    /** memcpy inside the image. */
    method Memcpy(dst: nat, src: nat, n: nat)
      requires dst + n <= data.Length && src + n <= dst
      modifies data
      ensures Outside(old(data[..]), data[..], dst, dst + n)
      ensures data[..][dst..dst + n] == old(data[..])[src..src + n]
    {
      for i := 0 to n
        invariant forall k | 0 <= k < data.Length && !(dst <= k < dst + i) :: data[k] == old(data[k])
        invariant data[dst..dst + i] == old(data[src..src + i])
      {
        data[dst + i] := data[src + i];
        assert data[dst..dst + i + 1] == data[dst..dst + i] + [data[dst + i]];
      }
      assert data[..][dst..dst + n] == data[dst..dst + n] && old(data[..])[src..src + n] == old(data[src..src + n]);
    }

    /** memcpy from a buffer. */
    method Put(dst: nat, b: seq<Byte>)
      requires dst + |b| <= data.Length
      modifies data
      ensures Outside(old(data[..]), data[..], dst, dst + |b|)
      ensures data[..][dst..dst + |b|] == b
    {
      for i := 0 to |b|
        invariant forall k | 0 <= k < data.Length && !(dst <= k < dst + i) :: data[k] == old(data[k])
        invariant data[dst..dst + i] == b[..i]
      {
        data[dst + i] := b[i];
        assert data[dst..dst + i + 1] == data[dst..dst + i] + [b[i]];
      }
      assert data[..][dst..dst + |b|] == data[dst..dst + |b|];
    }

    /** The assignments to the fields of a new entry's inode. */
    method PutInode(off: nat, i: Inode)
      requires off + INODE <= data.Length
      modifies data
      ensures Outside(old(data[..]), data[..], off, off + INODE)
      ensures data[..][off..off + INODE] == WordsBytes(Fields(i))
    {
      var ws := Fields(i);
      for j := 0 to 11
        invariant Outside(old(data[..]), data[..], off, off + 4 * j)
        invariant data[..][off..off + 4 * j] == WordsBytes(ws[..j])
      {
        ghost var d := data[..];
        PutWord(off + 4 * j, ws[j]);
        WordAppended(d, data[..], off, ws, j);
        OutsideTwice(old(data[..]), d, data[..], off, off + 4 * j, off + 4 * j, off + 4 * j + 4, off, off + 4 * j + 4);
      }
      assert ws[..11] == ws;
    }

    method PutDentry(off: nat, d: Dentry)
      requires off + DENTRY <= data.Length && |d.name| == NAME && d.number < UINT
      modifies data
      ensures Outside(old(data[..]), data[..], off, off + DENTRY)
      ensures data[..][off..off + DENTRY] == DentryBytes(d)
    {
      ghost var d0 := data[..];
      PutWord(off + NAME, d.number);
      ghost var d1 := data[..];
      PutWord(off + NAME + 4, 0);
      ghost var d2 := data[..];
      Put(off, d.name);
      DentryWritten(d0, d1, d2, data[..], off, d);
    }

    /** sb->head += the size of the entry e that has been written at head, where nothing was written
        from hi on; d0 is the image before. */
    method Advance(ghost d0: seq<Byte>, ghost e: Entry, size: nat, ghost hi: nat)
      requires Walks(d0, es) && size == |e.data| && End(es) + Size(e) <= hi
      requires Outside(d0, data[..], End(es), hi) && EntryAt(data[..], End(es), e)
      modifies this`es, data
      ensures Walks(data[..], es) && es == old(es) + [e] && End(es) == old(End(es)) + Size(e)
      ensures LogAt(d0, old(es)) && EntryOk(e) ==> LogAt(data[..], es)
      ensures Behind(d0, data[..], hi)
    {
      ghost var d := data[..];
      WordSame(d0, d, End(es), hi, 4);
      var head := GetWord(4);
      PutWord(4, head + INODE + size);
      Appended(d0, d, data[..], es, e, hi);
      es := es + [e];
    }
  }

  lemma DentryWritten(d0: seq<Byte>, d1: seq<Byte>, d2: seq<Byte>, d3: seq<Byte>, off: nat, d: Dentry)
    requires |d.name| == NAME && d.number < UINT && off + DENTRY <= |d0|
    requires Outside(d0, d1, off + NAME, off + NAME + 4) && Word4(d1, off + NAME) == d.number
    requires Outside(d1, d2, off + NAME + 4, off + DENTRY) && Word4(d2, off + NAME + 4) == 0
    requires Outside(d2, d3, off, off + NAME) && d3[off..off + NAME] == d.name
    ensures Outside(d0, d3, off, off + DENTRY) && d3[off..off + DENTRY] == DentryBytes(d)
  {
    WordOf(d1, off + NAME, d.number);
    WordOf(d2, off + NAME + 4, 0);
    SliceSame(d1, d2, off + NAME + 4, off + DENTRY, off + NAME, off + NAME + 4);
    SliceSame(d2, d3, off, off + NAME, off + NAME, off + NAME + 4);
    SliceSame(d2, d3, off, off + NAME, off + NAME + 4, off + DENTRY);
    OutsideTwice(d0, d1, d2, off + NAME, off + NAME + 4, off + NAME + 4, off + DENTRY, off, off + DENTRY);
    OutsideTwice(d0, d2, d3, off, off + DENTRY, off, off + NAME, off, off + DENTRY);
    assert d3[off..off + DENTRY]
             == d3[off..off + NAME] + d3[off + NAME..off + NAME + 4] + d3[off + NAME + 4..off + DENTRY];
  }

  lemma WordAppended(d: seq<Byte>, d': seq<Byte>, off: nat, ws: seq<Uint>, j: nat)
    requires j < |ws| && off + 4 * j + 4 <= |d| && d[off..off + 4 * j] == WordsBytes(ws[..j])
    requires Outside(d, d', off + 4 * j, off + 4 * j + 4) && Word4(d', off + 4 * j) == ws[j]
    ensures d'[off..off + 4 * (j + 1)] == WordsBytes(ws[..j + 1])
  {
    assert ws[..j + 1][..j] == ws[..j];
    WordOf(d', off + 4 * j, ws[j]);
    SliceSame(d, d', off + 4 * j, off + 4 * j + 4, off, off + 4 * j);
    assert d'[off..off + 4 * (j + 1)] == d'[off..off + 4 * j] + d'[off + 4 * j..off + 4 * j + 4];
  }
}
