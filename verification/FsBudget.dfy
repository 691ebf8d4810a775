/** How many blocks the pieces log that filewrite (file.c) cuts a write into, against the MAXOPBLOCKS that
    begin_op reserves for an operation. */
module FsBudget {
  import opened Common
  import opened FsBlocks
  import opened Fs
  import opened LogDisk

  const CHUNK: nat := (MAXOPBLOCKS - 1 - 1 - 2) / 2 * 512

  // ---------------------------------------------------------------- at most MAXOPBLOCKS

  lemma PieceSpan(off: nat, n: nat)
    requires n <= CHUNK
    ensures Span(off, n) <= if off % BSIZE == 0 then 3 else 4
  {
    assert CHUNK == 1536;
  }

  /** A file has the block in which a write begins, unless it begins with the block. */
  lemma FirstThere(sb: Super, s: State, i: nat, off: nat)
    requires Sound(sb, s) && i in s.inodes && off <= s.inodes[i].size && off % BSIZE != 0
    ensures SlotRef(s.blocks, s.inodes, Slot(i, SlotOf(off / BSIZE))) != 0
  {
    SizesMapped(sb, s, i, off - 1);
    assert (off - 1) / BSIZE == off / BSIZE;
  }

  /** The slots that can be missing for at most three blocks from lo on. */
  function Missable(lo: nat): set<nat> {
    {SlotOf(lo), SlotOf(lo + 1), SlotOf(lo + 2), NDIRECT}
  }

  lemma TakesFew(lo: nat, hi: nat, first: nat, k: nat)
    requires Takes(lo, hi, k) && hi <= first + 3 && (first == lo || (first == lo + 1 && k != SlotOf(lo)))
    ensures k in Missable(first)
  {
  }

  lemma LackingFew(sb: Super, s: State, i: nat, off: nat, n: nat, lo: nat, hi: nat)
    requires Sound(sb, s) && i in s.inodes && off <= s.inodes[i].size && n <= CHUNK
    requires lo == off / BSIZE && hi == BlockEnd(off, n)
    ensures Lacking(s, i, lo, hi) <= Missable(if off % BSIZE == 0 then lo else lo + 1)
    ensures |Lacking(s, i, lo, hi)| <= 4
  {
    var first := if off % BSIZE == 0 then lo else lo + 1;
    PieceSpan(off, n);
    if off % BSIZE != 0 {
      FirstThere(sb, s, i, off);
    }
    forall k | k in Lacking(s, i, lo, hi)
      ensures k in Missable(first)
    {
      assert Lacks(s, i, lo, hi, k);
      TakesFew(lo, hi, first, k);
    }
    MissableFew(first);
    SubsetSize(Lacking(s, i, lo, hi), Missable(first));
  }

  lemma MissableFew(lo: nat)
    ensures |Missable(lo)| <= 4
  {
  }

  /** Whatever a piece writes, wherever, and however many blocks the bitmap has. */
  lemma ChunkBudget(sb: Super, s: State, i: nat, off: nat, n: nat)
    requires Sound(sb, s) && i in s.inodes && off <= s.inodes[i].size && n <= CHUNK
    ensures WriteCount(sb, s, i, off, n) <= Least(BitmapLength(sb), 4) + 6 <= MAXOPBLOCKS
  {
    LackingFew(sb, s, i, off, n, off / BSIZE, BlockEnd(off, n));
    PieceSpan(off, n);
  }

  // ---------------------------------------------------------------- when it is all of MAXOPBLOCKS

  ghost predicate IsFree(sb: Super, s: State, b: nat)
    requires Geometry(sb, s.blocks)
  {
    b in FreeBlocks(sb, s.blocks)
  }

  /** The four lowest free blocks, a to d, have four different bitmap blocks. */
  ghost predicate Apart(sb: Super, s: State, a: nat, b: nat, c: nat, d: nat)
    requires Geometry(sb, s.blocks)
  {
    && a / BPB < b / BPB < c / BPB < d / BPB
    && IsFree(sb, s, a) && IsFree(sb, s, b) && IsFree(sb, s, c) && IsFree(sb, s, d)
    && forall x: nat | x < d && IsFree(sb, s, x) :: x == a || x == b || x == c
  }

  ghost predicate FourApart(sb: Super, s: State)
    requires Geometry(sb, s.blocks)
  {
    exists a, b, c, d :: Apart(sb, s, a, b, c, d)
  }

  /** The state in which a piece spends its whole budget: it covers four blocks, lacks three of them and the
      indirect block, and the four lowest free blocks lie under four bitmap blocks. */
  ghost predicate Spends(sb: Super, s: State, i: nat, off: nat, n: nat)
    requires Geometry(sb, s.blocks)
  {
    Span(off, n) == 4 && |Lacking(s, i, off / BSIZE, BlockEnd(off, n))| == 4 && FourApart(sb, s)
  }

  lemma {:induction false} LeastOf(x: set<nat>) returns (a: nat)
    requires x != {}
    ensures a in x && forall b | b in x :: a <= b
  {
    var c :| c in x;
    a := c;
    if x != {c} {
      var b := LeastOf(x - {c});
      a := if c < b then c else b;
      assert forall d | d in x :: d == c || d in x - {c};
    }
  }

  lemma InOrder(x: set<nat>) returns (a: nat, b: nat, c: nat, d: nat)
    requires |x| == 4
    ensures a < b < c < d && x == {a, b, c, d}
  {
    a := LeastOf(x);
    var y := x - {a};
    assert |y| == 3;
    b := LeastOf(y);
    var z := y - {b};
    assert |z| == 2;
    c := LeastOf(z);
    var w := z - {c};
    assert |w| == 1;
    d := LeastOf(w);
    assert |w - {d}| == 0 && w == (w - {d}) + {d};
    assert w == {d} && z == w + {c} && y == z + {b} && x == y + {a};
  }

  lemma BitmapsOfFour(sb: Super, a: nat, b: nat, c: nat, d: nat)
    requires a < b < c < d
    ensures |BitmapsOf(sb, {a, b, c, d})| == 4 <==> a / BPB < b / BPB < c / BPB < d / BPB
  {
    var x := {BitmapOf(sb, a), BitmapOf(sb, b), BitmapOf(sb, c), BitmapOf(sb, d)};
    assert BitmapsOf(sb, {a, b, c, d}) == x;
    Rises(a, b);
    Rises(b, c);
    Rises(c, d);
    if !(a / BPB < b / BPB < c / BPB < d / BPB) {
      assert x == {BitmapOf(sb, a), BitmapOf(sb, b), BitmapOf(sb, d)}
          || x == {BitmapOf(sb, a), BitmapOf(sb, c), BitmapOf(sb, d)};
    }
  }

  lemma Rises(a: nat, b: nat)
    requires a <= b
    ensures a / BPB <= b / BPB
  {
  }

  /** x holds the lowest of the free numbers. */
  ghost predicate LowestOf(x: set<nat>, free: set<nat>) {
    x <= free && forall b, c | b in x && c in free && c < b :: c in x
  }

  /** The new blocks are the lowest that were free. */
  lemma NewLowest(sb: Super, s: State, t: State, i: nat, lo: nat, hi: nat)
    requires Sound(sb, s) && Sound(sb, t) && Grown(sb, s, t, i, lo, hi)
    ensures LowestOf(NewBlocks(s, t), FreeBlocks(sb, s.blocks))
  {
    NewWereFree(sb, s, t);
    forall b, c | b in NewBlocks(s, t) && c in FreeBlocks(sb, s.blocks) && c < b
      ensures c in NewBlocks(s, t)
    {
      assert Lowest(sb, t, b);
      assert c !in Metadata(sb) + s.owner.Keys;
    }
  }

  lemma ApartOrder(sb: Super, s: State, a: nat, b: nat, c: nat, d: nat)
    requires Geometry(sb, s.blocks) && Apart(sb, s, a, b, c, d)
    ensures a < b < c < d && {a, b, c, d} <= FreeBlocks(sb, s.blocks)
    ensures forall x | x in FreeBlocks(sb, s.blocks) && x < d :: x in {a, b, c, d}
  {
    assert forall x | x in FreeBlocks(sb, s.blocks) :: IsFree(sb, s, x);
    Below(a, b);
    Below(b, c);
    Below(c, d);
  }

  lemma Below(a: nat, b: nat)
    requires a / BPB < b / BPB
    ensures a < b
  {
  }

  lemma LowestFour(x: set<nat>, free: set<nat>, a: nat, b: nat, c: nat, d: nat)
    requires LowestOf(x, free) && |x| == 4 && {a, b, c, d} <= free && a < b < c < d
    requires forall y | y in free && y < d :: y in {a, b, c, d}
    ensures x == {a, b, c, d}
  {
    forall y | y in x
      ensures y in {a, b, c, d}
    {
      if y > d {
        assert a in x && b in x && c in x && d in x;
        SubsetSize({a, b, c, d, y}, x);
      }
    }
    assert {a, b, c, d} == x + ({a, b, c, d} - x);
  }

  /** The new blocks lie under four bitmap blocks exactly when the four lowest free ones do. */
  lemma NewApart(sb: Super, s: State, t: State, i: nat, lo: nat, hi: nat)
    requires Sound(sb, s) && Sound(sb, t) && Grown(sb, s, t, i, lo, hi) && |NewBlocks(s, t)| == 4
    ensures |BitmapsOf(sb, NewBlocks(s, t))| == 4 <==> FourApart(sb, s)
  {
    NewLowest(sb, s, t, i, lo, hi);
    LowestApart(sb, s, NewBlocks(s, t));
  }

  lemma LowestApart(sb: Super, s: State, x: set<nat>)
    requires Geometry(sb, s.blocks) && LowestOf(x, FreeBlocks(sb, s.blocks)) && |x| == 4
    ensures |BitmapsOf(sb, x)| == 4 <==> FourApart(sb, s)
  {
    var a, b, c, d := InOrder(x);
    BitmapsOfFour(sb, a, b, c, d);
    if a / BPB < b / BPB < c / BPB < d / BPB {
      assert forall y: nat | y < d && IsFree(sb, s, y) :: y in x;
      assert Apart(sb, s, a, b, c, d);
    }
    if FourApart(sb, s) {
      var p, q, r, u :| Apart(sb, s, p, q, r, u);
      ApartOrder(sb, s, p, q, r, u);
      LowestFour(x, FreeBlocks(sb, s.blocks), p, q, r, u);
      BitmapsOfFour(sb, p, q, r, u);
    }
  }

  /** The data blocks of a range are as many as its length says, and none is the indirect block. */
  lemma {:induction false} DataSize(sb: Super, t: State, i: nat, lo: nat, hi: nat)
    requires Sound(sb, t) && Filled(t, i, lo, hi) && lo <= hi
    ensures |DataBlocks(t, i, lo, hi)| == hi - lo
    decreases hi - lo
  {
    if lo == hi {
      assert DataBlocks(t, i, lo, hi) == {};
    } else {
      assert forall k: nat | Takes(lo + 1, hi, k) :: Takes(lo, hi, k);
      DataSize(sb, t, i, lo + 1, hi);
      DataSplit(t, i, lo, lo + 1, hi);
      DataOne(t, i, lo);
      DataOwned(sb, t, i, lo, hi);
      assert SlotRef(t.blocks, t.inodes, Slot(i, SlotOf(lo))) !in DataBlocks(t, i, lo + 1, hi);
    }
  }

  lemma DataOwned(sb: Super, t: State, i: nat, lo: nat, hi: nat)
    requires Sound(sb, t) && Filled(t, i, lo, hi)
    ensures forall n: nat | lo <= n < hi ::
              var b := SlotRef(t.blocks, t.inodes, Slot(i, SlotOf(n)));
              b in t.owner && t.owner[b] == Slot(i, SlotOf(n)) && sb.datastart <= b
  {
    forall n: nat | lo <= n < hi
      ensures SlotRef(t.blocks, t.inodes, Slot(i, SlotOf(n))) != 0
    {
      assert Takes(lo, hi, SlotOf(n));
    }
  }

  lemma FullSlots(sb: Super, s: State, i: nat, off: nat, n: nat, lo: nat, hi: nat)
    requires Sound(sb, s) && i in s.inodes && off <= s.inodes[i].size && n <= CHUNK
    requires lo == off / BSIZE && hi == BlockEnd(off, n) && Span(off, n) == 4 && |Lacking(s, i, lo, hi)| == 4
    ensures NDIRECT in Lacking(s, i, lo, hi) && off + n > s.inodes[i].size
  {
    PieceSpan(off, n);
    LackingFew(sb, s, i, off, n, lo, hi);
    MissableFew(lo + 1);
    SameSizeSame(Lacking(s, i, lo, hi), Missable(lo + 1));
    assert Lacks(s, i, lo, hi, SlotOf(lo + 3));
    PastEnd(sb, s, i, lo + 3);
  }

  lemma SameSizeSame(x: set<nat>, y: set<nat>)
    requires x <= y && |x| >= |y|
    ensures x == y
  {
    assert y == x + (y - x);
  }

  /** Where a block is missing the file has ended. */
  lemma PastEnd(sb: Super, s: State, i: nat, bn: nat)
    requires Sound(sb, s) && i in s.inodes && SlotRef(s.blocks, s.inodes, Slot(i, SlotOf(bn))) == 0
    ensures s.inodes[i].size <= bn * BSIZE
  {
    assert NoHoles(s.blocks, s.inodes[i]);
    assert SlotRef(s.blocks, s.inodes, Slot(i, SlotOf(bn))) == Ref(s.blocks, s.inodes[i], SlotOf(bn));
  }

  /** A piece logs MAXOPBLOCKS blocks if and only if the state before it spends its whole budget. */
  lemma FullPiece(sb: Super, s: Moment, t: Moment, i: nat, off: nat, n: nat)
    requires Sound(sb, s.now) && WriteLogs(sb, s, t, i, off, n)
    requires off <= s.now.inodes[i].size && n <= CHUNK && InodeBlock(sb, i) < sb.bmapstart
    ensures s.log <= t.log && |BlocksOf(sb, Since(s.log, t.log))| <= MAXOPBLOCKS
    ensures |BlocksOf(sb, Since(s.log, t.log))| == MAXOPBLOCKS <==> Spends(sb, s.now, i, off, n)
  {
    var lo, hi := off / BSIZE, BlockEnd(off, n);
    var x := NewBlocks(s.now, t.now);
    NewForLacking(sb, s.now, t.now, i, lo, hi);
    LackingFew(sb, s.now, i, off, n, lo, hi);
    PieceSpan(off, n);
    BitmapsFew(sb, x);
    PieceLogs(sb, s, t, i, lo, hi, off + n > s.now.inodes[i].size);
    if |x| == 4 {
      NewApart(sb, s.now, t.now, i, lo, hi);
    }
    if Spends(sb, s.now, i, off, n) {
      FullSlots(sb, s.now, i, off, n, lo, hi);
      AllLogged(sb, s, t, i, lo, hi);
    }
  }

  lemma PieceLogs(sb: Super, s: Moment, t: Moment, i: nat, lo: nat, hi: nat, longer: bool)
    requires BlocksLogged(sb, s, t, i, lo, hi, longer) && lo <= hi
    ensures |BlocksOf(sb, Since(s.log, t.log))| <= |BitmapsOf(sb, NewBlocks(s.now, t.now))| + hi - lo + 2
  {
    LogsIn(sb, s, t, i, lo, hi, longer);
    DataFew(t.now, i, lo, hi);
    SumFew(BlocksOf(sb, Since(s.log, t.log)), BitmapsOf(sb, NewBlocks(s.now, t.now)), DataBlocks(t.now, i, lo, hi),
           IndirectOf(t.now.inodes, i),
           {InodeBlock(sb, i)});
  }

  lemma AllLogged(sb: Super, s: Moment, t: Moment, i: nat, lo: nat, hi: nat)
    requires Sound(sb, s.now) && BlocksLogged(sb, s, t, i, lo, hi, true) && lo <= hi
    requires NDIRECT in Lacking(s.now, i, lo, hi) && InodeBlock(sb, i) < sb.bmapstart
    ensures |BlocksOf(sb, Since(s.log, t.log))| >= |BitmapsOf(sb, NewBlocks(s.now, t.now))| + hi - lo + 2
  {
    var x, data := NewBlocks(s.now, t.now), DataBlocks(t.now, i, lo, hi);
    assert Lacks(s.now, i, lo, hi, NDIRECT);
    FilledNew(sb, s.now, t.now, i, lo, hi, NDIRECT);
    var ind := SlotRef(t.now.blocks, t.now.inodes, Slot(i, NDIRECT));
    DataSize(sb, t.now, i, lo, hi);
    DataOwned(sb, t.now, i, lo, hi);
    assert ind !in data;
    BitmapsBelow(sb, s.now, t.now);
    assert InBitmap(sb, 0);
    assert forall b | b in data :: sb.datastart <= b;
    Disjoint(BlocksOf(sb, Since(s.log, t.log)), BitmapsOf(sb, x), data, ind, InodeBlock(sb, i), sb.bmapstart,
             sb.datastart);
  }

  lemma BitmapsBelow(sb: Super, s: State, t: State)
    requires Sound(sb, s) && Sound(sb, t)
    ensures forall m | m in BitmapsOf(sb, NewBlocks(s, t)) :: sb.bmapstart <= m < sb.datastart
  {
    NewWereFree(sb, s, t);
    forall b | b in NewBlocks(s, t)
      ensures sb.bmapstart <= BitmapOf(sb, b) < sb.datastart
    {
      assert InBitmap(sb, b);
    }
  }

  lemma Disjoint(l: set<nat>, maps: set<nat>, data: set<nat>, ind: nat, inode: nat, lo: nat, hi: nat)
    requires maps <= l && data <= l && ind in l && inode in l && ind !in data && inode < lo <= hi <= ind
    requires (forall m | m in maps :: lo <= m < hi) && forall b | b in data :: hi <= b
    ensures |l| >= |maps| + |data| + 2
  {
    var x := maps + data;
    assert maps !! data && ind !in x && inode !in x + {ind};
    assert |x + {ind} + {inode}| == |maps| + |data| + 2;
    SubsetSize(x + {ind} + {inode}, l);
  }
}
