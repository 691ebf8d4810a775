/** fsck.wfs.c: offline compaction. */
module Fsck {
  import opened Common
  import opened WfsLog
  import opened WfsImage

  /** The latest entries of the inodes below n, by inode number. */
  function Compact(es: seq<Entry>, n: nat): seq<Entry> {
    if n == 0 then []
    else if Current(es, n - 1) == -1 then Compact(es, n - 1)
    else Compact(es, n - 1) + [es[Current(es, n - 1)]]
  }

  function Compacted(es: seq<Entry>): seq<Entry> {
    Compact(es, MaxNumber(es, |es|) + 1)
  }

  // ---------------------------------------------------------------- what compaction keeps

  /** Compaction keeps, for every inode, the latest undeleted entry. */
  lemma {:induction false} CompactCurrent(es: seq<Entry>, n: nat, m: nat)
    ensures var c := Compact(es, n);
            && (Current(c, m) >= 0 <==> m < n && Current(es, m) >= 0)
            && (Current(c, m) >= 0 ==> c[Current(c, m)] == es[Current(es, m)])
  {
    if n > 0 {
      CompactCurrent(es, n - 1, m);
      if Current(es, n - 1) >= 0 {
        CurrentAdded(Compact(es, n - 1), es[Current(es, n - 1)], m);
      }
    }
  }

  lemma {:induction false} CompactionPreserves(es: seq<Entry>)
    ensures SameExcept(es, Compacted(es), {})
  {
    forall m: nat
      ensures SameCurrent(es, Compacted(es), m)
    {
      CompactCurrent(es, MaxNumber(es, |es|) + 1, m);
    }
  }

  /** Live entries of es, of inodes below n, sorted by inode number without repetition. */
  ghost predicate SortedLive(es: seq<Entry>, c: seq<Entry>, n: nat) {
    && (forall i | 0 <= i < |c| :: LiveOf(es, c[i], n))
    && forall i, j | 0 <= i < j < |c| :: c[i].inode.number < c[j].inode.number
  }

  predicate LiveOf(es: seq<Entry>, e: Entry, n: nat) {
    e in es && e.inode.deleted == 0 && e.inode.number < n
  }

  lemma {:induction false} CompactSorted(es: seq<Entry>, n: nat)
    ensures SortedLive(es, Compact(es, n), n)
  {
    if n > 0 {
      CompactSorted(es, n - 1);
      var p, c := Compact(es, n - 1), Compact(es, n);
      forall i | 0 <= i < |c|
        ensures LiveOf(es, c[i], n)
      {
        assert i < |p| ==> LiveOf(es, p[i], n - 1);
      }
      forall i, j | 0 <= i < j < |c|
        ensures c[i].inode.number < c[j].inode.number
      {
        assert LiveOf(es, p[i], n - 1);
      }
    }
  }

  lemma {:induction false} CompactSame(es: seq<Entry>, es': seq<Entry>, n: nat)
    requires forall m: nat :: SameCurrent(es, es', m)
    ensures Compact(es', n) == Compact(es, n)
  {
    if n > 0 {
      CompactSame(es, es', n - 1);
      assert SameCurrent(es, es', n - 1);
    }
  }

  lemma {:induction false} CompactStops(es: seq<Entry>, m: nat, n: nat)
    requires m <= n && forall k: nat | m <= k < n :: Current(es, k) == -1
    ensures Compact(es, n) == Compact(es, m)
  {
    if m < n {
      CompactStops(es, m, n - 1);
    }
  }

  /** Compacting twice is compacting once. */
  lemma {:induction false} CompactIdempotent(es: seq<Entry>)
    ensures Compacted(Compacted(es)) == Compacted(es)
  {
    var c, n := Compacted(es), MaxNumber(es, |es|) + 1;
    CompactionPreserves(es);
    CompactSorted(es, n);
    forall m: nat
      ensures SameCurrent(es, c, m)
    {
    }
    var k := MaxNumber(c, |c|) + 1;
    CompactSame(es, c, k);
    assert forall j | 0 <= j < |c| :: LiveOf(es, c[j], n);
    CompactStops(c, k, n);
    CompactSame(es, c, n);
  }

  // ---------------------------------------------------------------- the space it takes

  /** The bytes of those of the first k entries that belong to inodes below n. */
  function Below(es: seq<Entry>, k: nat, n: nat): nat
    requires k <= |es|
  {
    if k == 0 then 0 else Below(es, k - 1, n) + if es[k - 1].inode.number < n then Size(es[k - 1]) else 0
  }

  lemma {:induction false} BelowAll(es: seq<Entry>, k: nat, n: nat)
    requires k <= |es|
    ensures Below(es, k, n) + SB <= Start(es, k)
  {
    if k > 0 {
      BelowAll(es, k - 1, n);
    }
  }

  lemma {:induction false} BelowNext(es: seq<Entry>, k: nat, n: nat)
    requires k <= |es|
    ensures Below(es, k, n + 1) >= Below(es, k, n) + if Latest(es, n, k) >= 0 then Size(es[Latest(es, n, k)]) else 0
  {
    if k > 0 {
      BelowNext(es, k - 1, n);
    }
  }

  lemma {:induction false} EndAdded(es: seq<Entry>, e: Entry)
    ensures End(es + [e]) == End(es) + Size(e)
  {
    StartSame(es + [e], es, |es|);
  }

  /** head never grows: the entries kept take no more room than the log did. */
  lemma {:induction false} CompactFits(es: seq<Entry>, n: nat)
    ensures End(Compact(es, n)) <= Below(es, |es|, n) + SB <= End(es)
  {
    BelowAll(es, |es|, n);
    if n > 0 {
      CompactFits(es, n - 1);
      BelowNext(es, |es|, n - 1);
      if Current(es, n - 1) >= 0 {
        EndAdded(Compact(es, n - 1), es[Current(es, n - 1)]);
      }
    }
  }

  // ---------------------------------------------------------------- the program

  ghost predicate ZeroFrom(d: seq<Byte>, n: nat) {
    forall k | n <= k < |d| :: d[k] == 0
  }

  /** The compaction loop of main: the buffer receives the latest entry of each inode. */
  method CompactInto(img: Image, buf: Image)
    requires img.Valid() && buf != img && buf.data != img.data && buf.data.Length == img.data.Length
    requires LogAt(buf.data[..], buf.es) && buf.es == [] && ZeroFrom(buf.data[..], SB)
    requires MaxNumber(img.es, |img.es|) + 1 < INT
    modifies buf`es, buf.data
    ensures LogAt(buf.data[..], buf.es) && buf.es == Compacted(img.es) && ZeroFrom(buf.data[..], End(buf.es))
  {
    var max := img.FindMax();
    var i := 0;
    while i <= max
      invariant 0 <= i <= max + 1 && buf.es == Compact(img.es, i)
      invariant LogAt(buf.data[..], buf.es) && ZeroFrom(buf.data[..], End(buf.es))
    {
      var entry := img.FindLatest(i);
      if entry != -1 {
        CopyEntry(img, buf, entry, Current(img.es, i), i);
      }
      i := i + 1;
    }
  }

  /** One turn of the loop, for the inode n with latest entry k. */
  method CopyEntry(img: Image, buf: Image, entry: nat, ghost k: nat, ghost n: nat)
    requires img.Valid() && buf != img && buf.data != img.data && buf.data.Length == img.data.Length
    requires k < |img.es| && entry == Start(img.es, k) && k == Current(img.es, n)
    requires LogAt(buf.data[..], buf.es) && buf.es == Compact(img.es, n) && ZeroFrom(buf.data[..], End(buf.es))
    modifies buf`es, buf.data
    ensures LogAt(buf.data[..], buf.es) && buf.es == Compact(img.es, n + 1) && ZeroFrom(buf.data[..], End(buf.es))
  {
    ghost var e, d0 := img.es[k], buf.data[..];
    EntryIn(img.data[..], img.es, k);
    CompactFits(img.es, n + 1);
    EndAdded(buf.es, e);
    var _, _, _, size := img.Header(entry, k);
    var head := buf.GetWord(4);
    buf.Put(head, img.data[entry..entry + INODE + size]);
    assert buf.data[..][head..head + Size(e)] == img.data[..][entry..entry + Size(e)] == EntryBytes(e);
    buf.Advance(d0, e, size, End(buf.es) + Size(e));
    ZeroBehind(d0, buf.data[..], head, End(buf.es));
  }

  lemma ZeroBehind(d: seq<Byte>, d': seq<Byte>, m: nat, n: nat)
    requires ZeroFrom(d, m) && Behind(d, d', n) && m <= n
    ensures ZeroFrom(d', n)
  {
    forall k | n <= k < |d'|
      ensures d'[k] == 0
    {
      assert SameAt(d, d', k);
    }
  }

  /** The zeroed buffer with its superblock. */
  method NewBuffer(length: nat) returns (buf: Image)
    requires SB <= length < INT
    ensures fresh(buf) && fresh(buf.data) && buf.data.Length == length
    ensures LogAt(buf.data[..], buf.es) && buf.es == [] && ZeroFrom(buf.data[..], SB)
  {
    var data := new Byte[length](_ => 0);
    buf := new Image(data, []);
    ghost var d0 := data[..];
    buf.PutWord(0, MAGIC);
    ghost var d1 := data[..];
    buf.PutWord(4, 0);
    ghost var d2 := data[..];
    var head := buf.GetWord(4);
    buf.PutWord(4, head + SB);
    WordSame(d1, d2, 4, 8, 0);
    WordSame(d2, data[..], 4, 8, 0);
    forall k | SB <= k < length
      ensures data[..][k] == 0
    {
      assert d0[k] == 0 && SameAt(d0, d1, k) && SameAt(d1, d2, k) && SameAt(d2, data[..], k);
    }
  }

  /** main, from the mapping of the disk on: afterwards the disk holds the compacted log and zeros. */
  method CompactDisk(img: Image)
    requires img.Valid() && MaxNumber(img.es, |img.es|) + 1 < INT
    modifies img`es, img.data
    ensures LogAt(img.data[..], img.es) && img.es == Compacted(old(img.es)) && ZeroFrom(img.data[..], End(img.es))
    ensures End(img.es) <= old(End(img.es))
  {
    AtEnd(img.es, 0);
    var buf := NewBuffer(img.data.Length);
    CompactInto(img, buf);
    CompactFits(img.es, MaxNumber(img.es, |img.es|) + 1);
    img.Put(0, buf.data[..]);
    assert img.data[..] == buf.data[..];
    img.es := buf.es;
  }

  // ---------------------------------------------------------------- compacting a compacted disk

  /** An image whose bytes behind the log are zero is determined by its log. */
  lemma {:induction false} ImageFixed(d: seq<Byte>, d': seq<Byte>, es: seq<Entry>)
    requires LogAt(d, es) && LogAt(d', es) && |d| == |d'| && ZeroFrom(d, End(es)) && ZeroFrom(d', End(es))
    ensures d == d'
  {
    PrefixFixed(d, d', es, |es|);
    forall k | 0 <= k < |d|
      ensures d[k] == d'[k]
    {
      if k < End(es) {
        assert d[k] == d[..End(es)][k] && d'[k] == d'[..End(es)][k];
      }
    }
  }

  lemma {:induction false} PrefixFixed(d: seq<Byte>, d': seq<Byte>, es: seq<Entry>, k: nat)
    requires LogAt(d, es) && LogAt(d', es) && k <= |es|
    ensures Start(es, k) <= |d| && Start(es, k) <= |d'| && d[..Start(es, k)] == d'[..Start(es, k)]
  {
    AtEnd(es, k);
    if k == 0 {
      NumFixesBytes(d[0..4], d'[0..4]);
      NumFixesBytes(d[4..8], d'[4..8]);
      assert d[..SB] == d[0..4] + d[4..8] && d'[..SB] == d'[0..4] + d'[4..8];
    } else {
      PrefixFixed(d, d', es, k - 1);
      var s := Start(es, k - 1);
      assert EntryThere(d, es, k - 1) && EntryThere(d', es, k - 1);
      assert d[..Start(es, k)] == d[..s] + d[s..s + Size(es[k - 1])];
      assert d'[..Start(es, k)] == d'[..s] + d'[s..s + Size(es[k - 1])];
    }
  }

  /** Compacting twice leaves the disk as compacting once, byte for byte: d is the disk after the first
      time and d' after the second. */
  lemma {:induction false} SecondTime(es: seq<Entry>, d: seq<Byte>, d': seq<Byte>)
    requires LogAt(d, Compacted(es)) && ZeroFrom(d, End(Compacted(es)))
    requires var c := Compacted(Compacted(es)); LogAt(d', c) && ZeroFrom(d', End(c))
    requires |d| == |d'|
    ensures d == d'
  {
    CompactIdempotent(es);
    ImageFixed(d, d', Compacted(es));
  }

  // ---------------------------------------------------------------- paths after compaction

  lemma {:induction false} MatchSame(es: seq<Entry>, es': seq<Entry>, ds: seq<Dentry>, tok: seq<Byte>, i: nat)
    requires SameExcept(es, es', {}) && i <= |ds|
    ensures FirstMatch(es, ds, tok, i) == FirstMatch(es', ds, tok, i)
    decreases |ds| - i
  {
    if i < |ds| {
      assert SameCurrent(es, es', ds[i].number % UINT);
      MatchSame(es, es', ds, tok, i + 1);
    }
  }

  /** A path resolves in the compacted tree to what it resolved to before. */
  lemma {:induction false} ResolveSame(es: seq<Entry>, es': seq<Entry>, n: nat, toks: seq<seq<Byte>>)
    requires SameExcept(es, es', {})
    ensures Resolve(es, n, toks) >= 0 <==> Resolve(es', n, toks) >= 0
    ensures Resolve(es, n, toks) >= 0 ==> es'[Resolve(es', n, toks)] == es[Resolve(es, n, toks)]
    decreases |toks|
  {
    assert SameCurrent(es, es', n);
    if toks != [] && Current(es, n) >= 0 {
      var e := es[Current(es, n)];
      MatchSame(es, es', Dentries(e.data), toks[0], 0);
      var c := Child(es, e, toks[0]);
      if c >= 0 {
        ResolveSame(es, es', c, toks[1..]);
      }
    }
  }

  /** The directory tree stays well formed. */
  lemma {:induction false} CompactTree(es: seq<Entry>)
    requires TreeOk(es)
    ensures TreeOk(Compacted(es))
  {
    var c, n := Compacted(es), MaxNumber(es, |es|) + 1;
    CompactionPreserves(es);
    CompactSorted(es, n);
    ListingsSame(es, c);
    forall k | 0 <= k < |c|
      ensures EntryOk(c[k]) && Kept(c, k)
    {
      CompactKept(es, c, k, n);
    }
  }

  lemma {:induction false} ListingsSame(es: seq<Entry>, c: seq<Entry>)
    requires ListsLive(es) && ListsOnce(es) && SameExcept(es, c, {})
    ensures ListsLive(c) && ListsOnce(c)
  {
    forall m
      ensures Listing(c, m) == Listing(es, m) && (Current(c, m) >= 0 <==> Current(es, m) >= 0)
    {
      assert SameCurrent(es, c, m);
    }
    assert forall m, i, k :: Lists(c, m, i, k) <==> Lists(es, m, i, k);
  }

  lemma {:induction false} CompactKept(es: seq<Entry>, c: seq<Entry>, k: nat, bound: nat)
    requires EntriesOk(es) && ListsLive(es) && SameExcept(es, c, {}) && k < |c| && SortedLive(es, c, bound)
    ensures EntryOk(c[k]) && Kept(c, k)
  {
    assert LiveOf(es, c[k], bound);
    var n := c[k].inode.number;
    var l :| 0 <= l < |es| && es[l] == c[k];
    assert EntryOk(es[l]);
    LatestIs(c, n, |c|);
    assert Current(c, n) == k;
    assert SameCurrent(es, c, n);
    if IsDir(c[k]) {
      forall d | d in Dentries(c[k].data)
        ensures Used(c, d.number) && d in Listing(c, n)
      {
        var i :| 0 <= i < |Listing(es, n)| && Listing(es, n)[i] == d;
        assert Lists(es, n, i, d.number) && SameCurrent(es, c, d.number);
      }
    }
  }
}
