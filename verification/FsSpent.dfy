/** Disks, one for each length of the bitmap from four blocks on, on which a piece of a write logs all of
    MAXOPBLOCKS blocks; on those with a shorter bitmap no piece does. */
module FsSpent {
  import opened Common
  import opened FsBlocks
  import opened Fs
  import opened FsBudget
  import LogDisk
  import opened FsLog

  const MAPS: nat := UINT / BPB        // the longest bitmap of a disk with 32-bit block numbers

  /** A disk with l bitmap blocks and an inode for every block. */
  function Disk(l: nat): Super
    requires l > 0
  {
    Super(BPB * l - 1, 2, 2 + BPB / IPB * l, 2 + BPB / IPB * l + l)
  }

  /** The last block of the first bitmap block that has data blocks; it is free, and so are the last one of
      the next two and everything behind. */
  function Edge(l: nat): nat
    requires l > 0
  {
    (Disk(l).datastart / BPB + 1) * BPB - 1
  }

  function Beyond(l: nat): nat
    requires l > 0
  {
    Edge(l) + 2 * BPB + 1
  }

  lemma DiskOk(l: nat)
    requires 4 <= l <= MAPS
    ensures var sb := Disk(l);
            && BitmapLength(sb) == l && sb.size < UINT && 0 < sb.datastart <= Edge(l) < Beyond(l) < sb.size
            && Edge(l) % BPB == BPB - 1 && forall b: nat | b < sb.size :: InBitmap(sb, b)
  {
    var q := Disk(l).datastart / BPB;
    assert q <= l - 4;
    forall b: nat | b < Disk(l).size
      ensures InBitmap(Disk(l), b)
    {
      Quotient(b, l);
    }
  }

  lemma Quotient(b: nat, l: nat)
    requires b < BPB * l
    ensures b / BPB < l
  {
  }

  predicate Taken(l: nat, b: nat)
    requires l > 0
  {
    Disk(l).datastart <= b < Beyond(l) && b != Edge(l) && b != Edge(l) + BPB && b != Edge(l) + 2 * BPB
  }

  /** The twelve direct blocks of the file that is written. */
  predicate OfFile(l: nat, b: nat)
    requires l > 0
  {
    Edge(l) < b <= Edge(l) + NDIRECT
  }

  /** Every other block taken is the only one of an inode of the same number. */
  predicate HasInode(l: nat, j: nat)
    requires l > 0
  {
    j == Edge(l) || (Taken(l, j) && !OfFile(l, j))
  }

  function FileOf(l: nat, j: nat): (ip: Inode)
    requires l > 0
    ensures |ip.addrs| == NDIRECT + 1
  {
    if j == Edge(l) then Inode(NDIRECT * BSIZE - 1, seq(NDIRECT, k requires 0 <= k < NDIRECT => j + 1 + k) + [0])
    else Inode(BSIZE, [j] + seq(NDIRECT, _ => 0))
  }

  function Files(l: nat): map<nat, Inode>
    requires l > 0
  {
    map j: nat | j < Beyond(l) && HasInode(l, j) :: FileOf(l, j)
  }

  function Owner(l: nat): map<nat, Slot>
    requires l > 0
  {
    map b: nat | b < Beyond(l) && Taken(l, b) :: if OfFile(l, b) then Slot(Edge(l), b - Edge(l) - 1) else Slot(b, 0)
  }

  /** The disk with the bits set of the blocks below n that are in use. */
  function Blocks(l: nat, n: nat): (r: seq<Block>)
    requires 4 <= l <= MAPS && n <= Disk(l).size
    ensures |r| == Disk(l).size
  {
    DiskOk(l);
    if n == 0 then seq(Disk(l).size, _ => ZeroBlock)
    else if n - 1 < Disk(l).datastart || Taken(l, n - 1) then Marked(Disk(l), Blocks(l, n - 1), n - 1, true)
    else Blocks(l, n - 1)
  }

  ghost predicate InUse(l: nat, n: nat, b: nat)
    requires l > 0
  {
    b < n && (b < Disk(l).datastart || Taken(l, b))
  }

  lemma {:induction false} BlocksUsed(l: nat, n: nat)
    requires 4 <= l <= MAPS && n <= Disk(l).size
    ensures Geometry(Disk(l), Blocks(l, n))
    ensures forall b: nat :: b in UsedSet(Disk(l), Blocks(l, n)) <==> InUse(l, n, b)
  {
    DiskOk(l);
    if n > 0 {
      BlocksUsed(l, n - 1);
      UsedMarked(Disk(l), Blocks(l, n - 1), n - 1, true);
      assert forall b: nat :: InUse(l, n, b) <==> InUse(l, n - 1, b) || (b == n - 1 && InUse(l, n, b));
    } else {
      NoneUsed(l);
    }
  }

  lemma NoneUsed(l: nat)
    requires 4 <= l <= MAPS
    ensures Geometry(Disk(l), Blocks(l, 0)) && UsedSet(Disk(l), Blocks(l, 0)) == {}
  {
    DiskOk(l);
    forall b: nat | b < Disk(l).size
      ensures InBitmap(Disk(l), b) && !Used(Disk(l), Blocks(l, 0), b)
    {
      NoBit(b % BPB % 8);
    }
  }

  lemma {:induction false} NoBit(k: nat)
    ensures !Bit(0, k)
  {
    if k > 0 {
      NoBit(k - 1);
    }
  }

  function Witness(l: nat): State
    requires 4 <= l <= MAPS
  {
    DiskOk(l);
    State(Blocks(l, Disk(l).size), Files(l), Owner(l))
  }

  /** The block numbers of these files. */
  lemma WitnessSlots(l: nat, blocks: seq<Block>, s: Slot)
    requires l > 0
    ensures SlotRef(blocks, Files(l), s)
         == if s.inum == Edge(l) then (if s.k < NDIRECT then Edge(l) + 1 + s.k else 0)
            else if HasInode(l, s.inum) && s.k == 0 then s.inum else 0
  {
    if HasInode(l, s.inum) {
      assert s.inum in Files(l) && Files(l)[s.inum] == FileOf(l, s.inum);
      assert FileOf(l, s.inum).addrs[NDIRECT] == 0;
    }
  }

  lemma WitnessOwned(l: nat, blocks: seq<Block>)
    requires 4 <= l <= MAPS
    ensures Owned(Disk(l), blocks, Files(l), Owner(l))
  {
    DiskOk(l);
    forall s | SlotRef(blocks, Files(l), s) != 0
      ensures var b := SlotRef(blocks, Files(l), s); Taken(l, b) && b in Owner(l) && Owner(l)[b] == s
    {
      WitnessSlots(l, blocks, s);
    }
    forall b | b in Owner(l)
      ensures b != 0 && SlotRef(blocks, Files(l), Owner(l)[b]) == b
    {
      WitnessSlots(l, blocks, Owner(l)[b]);
    }
  }

  lemma WitnessHoles(l: nat, blocks: seq<Block>, j: nat)
    requires 4 <= l <= MAPS && j in Files(l)
    ensures NoHoles(blocks, Files(l)[j])
  {
    DiskOk(l);
    forall n | 0 <= n && n * BSIZE < Files(l)[j].size
      ensures Ref(blocks, Files(l)[j], SlotOf(n)) != 0
    {
      assert n < NDIRECT;
      WitnessSlots(l, blocks, Slot(j, n));
    }
  }

  lemma WitnessSound(l: nat)
    requires 4 <= l <= MAPS
    ensures Sound(Disk(l), Witness(l))
  {
    var sb, s := Disk(l), Witness(l);
    DiskOk(l);
    BlocksUsed(l, sb.size);
    WitnessOwned(l, s.blocks);
    forall j | j in s.inodes
      ensures NoHoles(s.blocks, s.inodes[j])
    {
      WitnessHoles(l, s.blocks, j);
    }
    assert UsedSet(sb, s.blocks) == Metadata(sb) + s.owner.Keys;
  }

  const OFF: nat := NDIRECT * BSIZE - 1

  lemma WitnessLacks(l: nat)
    requires 4 <= l <= MAPS
    ensures OFF / BSIZE == 11 && BlockEnd(OFF, CHUNK) == 15
    ensures Lacking(Witness(l), Edge(l), 11, 15) == {12, 13, 14, 15}
  {
    var s := Witness(l);
    forall k: nat
      ensures Lacks(s, Edge(l), 11, 15, k) <==> k == 12 || k == 13 || k == 14 || k == 15
    {
      WitnessSlots(l, s.blocks, Slot(Edge(l), k));
    }
  }

  lemma WitnessFree(l: nat)
    requires 4 <= l <= MAPS
    ensures Sound(Disk(l), Witness(l))
    ensures forall b: nat :: b in FreeBlocks(Disk(l), Witness(l).blocks) <==>
                               b < Disk(l).size && b >= Disk(l).datastart && !Taken(l, b)
  {
    WitnessSound(l);
    BlocksUsed(l, Disk(l).size);
  }

  /** The four lowest free blocks. */
  lemma WitnessLowest(l: nat, b: nat, c: nat, d: nat)
    requires 4 <= l <= MAPS && b == Edge(l) + BPB && c == b + BPB && d == c + 1
    ensures var sb, s, a := Disk(l), Witness(l), Edge(l);
            && Sound(sb, s) && IsFree(sb, s, a) && IsFree(sb, s, b) && IsFree(sb, s, c) && IsFree(sb, s, d)
            && forall x: nat | x < d && IsFree(sb, s, x) :: x == a || x == b || x == c
  {
    WitnessFree(l);
    DiskOk(l);
    assert d == Beyond(l) && !Taken(l, Edge(l)) && !Taken(l, b) && !Taken(l, c) && !Taken(l, d);
    forall x: nat | x < d && IsFree(Disk(l), Witness(l), x)
      ensures x == Edge(l) || x == b || x == c
    {
      assert !Taken(l, x);
    }
  }

  lemma WitnessApart(l: nat)
    requires 4 <= l <= MAPS
    ensures Sound(Disk(l), Witness(l)) && FourApart(Disk(l), Witness(l))
    ensures |FreeBlocks(Disk(l), Witness(l).blocks)| >= 4
  {
    var a := Edge(l);
    var b := a + BPB;
    var c := b + BPB;
    WitnessLowest(l, b, c, c + 1);
    DiskOk(l);
    EdgeQuotients(a, b, c, c + 1);
    assert Apart(Disk(l), Witness(l), a, b, c, c + 1);
    SubsetSize({a, b, c, c + 1}, FreeBlocks(Disk(l), Witness(l).blocks));
  }

  lemma EdgeQuotients(a: nat, b: nat, c: nat, d: nat)
    requires a % BPB == BPB - 1 && b == a + BPB && c == b + BPB && d == c + 1
    ensures a / BPB < b / BPB < c / BPB < d / BPB
  {
  }

  /** A file system, and a piece of a write to it that succeeds and spends its whole budget. */
  ghost predicate Spent(sb: Super, s: State, i: nat, off: nat, n: nat) {
    && Sound(sb, s) && i in s.inodes && (forall j | j in s.inodes :: InodeBlock(sb, j) < sb.bmapstart)
    && n <= CHUNK && !Refused(s, i, off, n) && Enough(sb, s, i, off / BSIZE, BlockEnd(off, n))
    && Spends(sb, s, i, off, n)
  }

  lemma WitnessInodes(l: nat)
    requires 4 <= l <= MAPS
    ensures var s := Witness(l);
            && Edge(l) in s.inodes && s.inodes[Edge(l)].size == OFF
            && forall j | j in s.inodes :: InodeBlock(Disk(l), j) < Disk(l).bmapstart
  {
    DiskOk(l);
  }

  lemma WitnessSpends(l: nat)
    requires 4 <= l <= MAPS
    ensures var sb, s, e, lo, hi := Disk(l), Witness(l), Edge(l), OFF / BSIZE, BlockEnd(OFF, CHUNK);
            && Sound(sb, s) && Enough(sb, s, e, lo, hi) && Spends(sb, s, e, OFF, CHUNK)
  {
    WitnessLacks(l);
    WitnessApart(l);
    FourSize(Lacking(Witness(l), Edge(l), 11, 15));
    assert Span(OFF, CHUNK) == 4;
  }

  lemma FourSize(x: set<nat>)
    requires x == {12, 13, 14, 15}
    ensures |x| == 4
  {
  }

  lemma WitnessSpent(l: nat)
    requires 4 <= l <= MAPS
    ensures Spent(Disk(l), Witness(l), Edge(l), OFF, CHUNK) && BitmapLength(Disk(l)) == l
  {
    WitnessInodes(l);
    WitnessSpends(l);
    DiskOk(l);
  }

  lemma SpentLong(sb: Super, s: State, i: nat, off: nat, n: nat)
    requires Spent(sb, s, i, off, n)
    ensures 4 <= BitmapLength(sb) <= MAPS
  {
    var a, b, c, d :| Apart(sb, s, a, b, c, d);
    assert IsFree(sb, s, d);
    FourMaps(a, b, c, d, sb.size);
  }

  lemma FourMaps(a: nat, b: nat, c: nat, d: nat, size: nat)
    requires a / BPB < b / BPB < c / BPB < d / BPB && d < size < UINT
    ensures 4 <= (size + BPB - 1) / BPB <= MAPS
  {
  }

  /** The lengths of bitmaps with which a piece can log all of MAXOPBLOCKS blocks. */
  lemma SpentDisks(l: nat)
    ensures (exists sb, s, i, off, n :: BitmapLength(sb) == l && Spent(sb, s, i, off, n)) <==> 4 <= l <= MAPS
  {
    if 4 <= l <= MAPS {
      WitnessSpent(l);
    }
    forall sb, s, i, off, n | BitmapLength(sb) == l && Spent(sb, s, i, off, n)
      ensures 4 <= l <= MAPS
    {
      SpentLong(sb, s, i, off, n);
    }
  }

  method Mount(l: nat) returns (fs: Fs)
    requires 4 <= l <= MAPS
    ensures fresh(fs) && fs.Valid() && fs.sb == Disk(l) && fs.Now() == Witness(l)
  {
    WitnessSound(l);
    DiskOk(l);
    fs := new Fs(Disk(l), Blocks(l, Disk(l).size), Files(l), Owner(l));
  }

  method SpendPiece(fs: Fs, f: File, src: seq<Byte>) returns (ok: bool, r: int)
    requires fs.Valid() && f.off < UINT && src != [] && Spent(fs.sb, fs.Now(), f.ip, f.off, |src|)
    modifies f`off, fs`blocks, fs`inodes, fs`dinodes, fs`owner, fs`logged
    ensures ok && r == |src| && |BlocksOf(fs.sb, fs.logged)| == LogDisk.MAXOPBLOCKS
  {
    ghost var s, off := fs.Now(), f.off;
    ok, r := f.WriteChunk(fs, src, f.off / BSIZE, BlockEnd(f.off, |src|));
    PieceSpent(fs.sb, s, fs.At(), f.ip, off, src);
  }

  /** Such a piece, run: filewrite on that disk logs all of MAXOPBLOCKS blocks in one operation. */
  method SpendAll(l: nat, src: seq<Byte>) returns (fs: Fs, ok: bool, r: int)
    requires 4 <= l <= MAPS && |src| == CHUNK
    ensures ok && r == CHUNK && |BlocksOf(fs.sb, fs.logged)| == LogDisk.MAXOPBLOCKS
  {
    fs := Mount(l);
    var f := new File(Edge(l), true, OFF);
    WitnessSpent(l);
    ok, r := SpendPiece(fs, f, src);
  }

  lemma PieceSpent(sb: Super, s: State, t: Moment, i: nat, off: nat, src: seq<Byte>)
    requires Spent(sb, s, i, off, |src|) && t in AfterWrite(sb, Moment(s, []), i, off, src)
    ensures |BlocksOf(sb, t.log)| == LogDisk.MAXOPBLOCKS
  {
    FullPiece(sb, Moment(s, []), t, i, off, |src|);
    assert Since([], t.log) == t.log;
  }
}
