/** Files over the log: the disk that holds a file system, what a file operation logs, what is left
    of it after a crash, and filewrite (file.c), which cuts a write into such operations. */
module FsLog {
  import opened Common
  import Blocks
  import opened FsBlocks
  import opened Fs
  import opened FsBudget
  import opened LogDisk
  import L = Log

  // ---------------------------------------------------------------- the file system on the disk

  const DINODE: nat := 16              // words of a struct dinode: types, links, size, addrs

  /** A block's bytes as little-endian words. */
  function AsWords(b: Block): Blocks.Block {
    seq(Blocks.BWORDS, k requires 0 <= k < Blocks.BWORDS => Word(b, k))
  }

  /** The words determine the bytes. */
  lemma WordsFix(b: Block, c: Block)
    requires AsWords(b) == AsWords(c)
    ensures b == c
  {
    forall j | 0 <= j < BSIZE
      ensures b[j] == c[j]
    {
      var k := j / 4;
      assert Word(b, k) == AsWords(b)[k] == AsWords(c)[k] == Word(c, k);
      WordFixes(b[4 * k], b[4 * k + 1], b[4 * k + 2], b[4 * k + 3], c[4 * k], c[4 * k + 1], c[4 * k + 2], c[4 * k + 3]);
      assert j == 4 * k || j == 4 * k + 1 || j == 4 * k + 2 || j == 4 * k + 3;
    }
  }

  lemma WordFixes(b0: Byte, b1: Byte, b2: Byte, b3: Byte, c0: Byte, c1: Byte, c2: Byte, c3: Byte)
    requires b0 + 0x100 * b1 + 0x1_0000 * b2 + 0x100_0000 * b3 == c0 + 0x100 * c1 + 0x1_0000 * c2 + 0x100_0000 * c3
    ensures b0 == c0 && b1 == c1 && b2 == c2 && b3 == c3
  {
    LowByte(b0, b1 + 0x100 * b2 + 0x1_0000 * b3, c0, c1 + 0x100 * c2 + 0x1_0000 * c3);
    LowByte(b1, b2 + 0x100 * b3, c1, c2 + 0x100 * c3);
    LowByte(b2, b3, c2, c3);
  }

  lemma LowByte(b: Byte, x: int, c: Byte, y: int)
    requires b + 0x100 * x == c + 0x100 * y
    ensures b == c && x == y
  {
  }

  /** The k-th dinode of an inode block is ip's. */
  predicate DinodeIs(w: Blocks.Block, k: nat, ip: Inode) {
    && k < IPB && |ip.addrs| == NDIRECT + 1 && w[DINODE * k + 2] == ip.size
    && forall n | 0 <= n <= NDIRECT :: w[DINODE * k + 3 + n] == ip.addrs[n]
  }

  predicate InodeStored(sb: Super, d: Disk, inodes: map<nat, Inode>, i: nat) {
    i in inodes && InodeBlock(sb, i) < sb.bmapstart && InodeBlock(sb, i) < |d|
    && DinodeIs(d[InodeBlock(sb, i)], i % IPB, inodes[i])
  }

  /** The disk holds the state: bitmap and data blocks byte for byte, and every inode. */
  ghost predicate Stores(sb: Super, d: Disk, s: State) {
    && |d| == |s.blocks| == sb.size
    && (forall b | sb.bmapstart <= b < sb.size :: d[b] == AsWords(s.blocks[b]))
    && forall i | i in s.inodes :: InodeStored(sb, d, s.inodes, i)
  }

  /** The log lies before the inode blocks, and these before the bitmap. */
  predicate Layout(sb: Super, a: Area) {
    a.start + a.size <= sb.inodestart <= sb.bmapstart
  }

  /** Only what lies outside the log matters. */
  lemma StoresHome(sb: Super, a: Area, d: Disk, e: Disk, s: State)
    requires Layout(sb, a) && SameHome(a, d, e) && Stores(sb, d, s)
    ensures Stores(sb, e, s)
  {
    forall b | sb.bmapstart <= b < sb.size
      ensures e[b] == AsWords(s.blocks[b])
    {
      assert !a.In(b);
    }
    forall i | i in s.inodes
      ensures InodeStored(sb, e, s.inodes, i)
    {
      assert InodeStored(sb, d, s.inodes, i) && !a.In(InodeBlock(sb, i));
    }
  }

  /** A disk holds one set of files: two states that it stores have the same contents. */
  lemma StoresOne(sb: Super, d: Disk, s: State, t: State)
    requires Stores(sb, d, s) && Stores(sb, d, t) && s.inodes.Keys == t.inodes.Keys
    requires Sound(sb, s) && sb.bmapstart <= sb.datastart
    ensures s.inodes == t.inodes && forall i | i in s.inodes :: SameFile(s, t, i)
  {
    forall i | i in s.inodes
      ensures s.inodes[i] == t.inodes[i]
    {
      assert InodeStored(sb, d, s.inodes, i) && InodeStored(sb, d, t.inodes, i);
      assert s.inodes[i].addrs == t.inodes[i].addrs;
    }
    forall b | sb.datastart <= b < sb.size
      ensures s.blocks[b] == t.blocks[b]
    {
      WordsFix(s.blocks[b], t.blocks[b]);
    }
    forall i | i in s.inodes
      ensures SameFile(s, t, i)
    {
      SameBytes(sb, s, t, i);
    }
  }

  /** File i has the same contents. */
  ghost predicate SameFile(s: State, t: State, i: nat) {
    && i in s.inodes && i in t.inodes && |s.inodes[i].addrs| == |t.inodes[i].addrs| == NDIRECT + 1
    && Content(t.blocks, t.inodes[i]) == Content(s.blocks, s.inodes[i])
  }

  lemma SameBytes(sb: Super, s: State, t: State, i: nat)
    requires Sound(sb, s) && i in s.inodes && s.inodes == t.inodes && |t.blocks| == sb.size
    requires forall b | sb.datastart <= b < sb.size :: s.blocks[b] == t.blocks[b]
    ensures SameFile(s, t, i)
  {
    var ip := s.inodes[i];
    assert SlotRef(s.blocks, s.inodes, Slot(i, NDIRECT)) == ip.addrs[NDIRECT];
    forall p: nat | p < ip.size
      ensures ByteAt(t.blocks, ip, p) == ByteAt(s.blocks, ip, p)
    {
      SizesMapped(sb, s, i, p);
      assert SlotRef(s.blocks, s.inodes, Slot(i, SlotOf(p / BSIZE))) == Ref(s.blocks, ip, SlotOf(p / BSIZE));
    }
  }

  // ---------------------------------------------------------------- what the stores of an operation leave

  /** An inode block with its k-th dinode's size and addrs set to ip's. */
  function WithDinode(w: Blocks.Block, k: nat, ip: Inode): (r: Blocks.Block)
    requires k < IPB && |ip.addrs| == NDIRECT + 1
    ensures DinodeIs(r, k, ip)
    ensures forall n | 0 <= n < Blocks.BWORDS && !(16 * k + 2 <= n < 16 * k + 16) :: r[n] == w[n]
  {
    seq(Blocks.BWORDS, n requires 0 <= n < Blocks.BWORDS =>
          if n == DINODE * k + 2 then ip.size
          else if DINODE * k + 3 <= n <= DINODE * k + 3 + NDIRECT then ip.addrs[n - DINODE * k - 3] else w[n])
  }

  /** The blocks of the disk that a store may be to. */
  predicate Proper(sb: Super, disksize: nat, inodes: map<nat, Inode>, st: Store) {
    match st
    case Data(b, _) => sb.bmapstart <= b < sb.size == disksize
    case Dinode(i, ip) =>
      && i in inodes && InodeBlock(sb, i) < sb.bmapstart && InodeBlock(sb, i) < disksize
      && |ip.addrs| == NDIRECT + 1
  }

  /** What a store makes of its block. */
  function Stored(w: Blocks.Block, st: Store): Blocks.Block
    requires st.Dinode? ==> |st.ip.addrs| == NDIRECT + 1
  {
    match st
    case Data(_, x) => AsWords(x)
    case Dinode(i, ip) => WithDinode(w, i % IPB, ip)
  }

  /** The disk after one store, and after all of them. */
  function Laid(sb: Super, d: Disk, st: Store): (r: Disk)
    requires BlockOf(sb, st) < |d| && (st.Dinode? ==> |st.ip.addrs| == NDIRECT + 1)
    ensures |r| == |d|
  {
    d[BlockOf(sb, st) := Stored(d[BlockOf(sb, st)], st)]
  }

  predicate AllProper(sb: Super, disksize: nat, inodes: map<nat, Inode>, log: seq<Store>) {
    forall st | st in log :: Proper(sb, disksize, inodes, st)
  }

  function LaidAll(sb: Super, d: Disk, inodes: map<nat, Inode>, log: seq<Store>): (r: Disk)
    requires AllProper(sb, |d|, inodes, log)
    ensures |r| == |d|
  {
    if log == [] then d
    else
      assert Proper(sb, |d|, inodes, log[|log| - 1]);
      Laid(sb, LaidAll(sb, d, inodes, log[..|log| - 1]), log[|log| - 1])
  }

  /** A disk that holds these blocks and inodes holds them after the stores too. */
  lemma {:induction false} LaidStores(sb: Super, d: Disk, blocks: seq<Block>, inodes: map<nat, Inode>, log: seq<Store>)
    requires Stores(sb, d, State(blocks, inodes, map[])) && AllProper(sb, |d|, inodes, log)
    ensures Reinoded(inodes, log).Keys == inodes.Keys
    ensures Stores(sb, LaidAll(sb, d, inodes, log), State(Replayed(blocks, log), Reinoded(inodes, log), map[]))
    decreases |log|
  {
    if log != [] {
      var most, st := log[..|log| - 1], log[|log| - 1];
      assert Proper(sb, |d|, inodes, st);
      LaidStores(sb, d, blocks, inodes, most);
      LaidOne(sb, LaidAll(sb, d, inodes, most), Replayed(blocks, most), Reinoded(inodes, most), inodes, st);
    }
  }

  lemma LaidOne(sb: Super, d: Disk, blocks: seq<Block>, inodes: map<nat, Inode>, first: map<nat, Inode>, st: Store)
    requires Stores(sb, d, State(blocks, inodes, map[])) && inodes.Keys == first.Keys && Proper(sb, |d|, first, st)
    ensures var b := match st case Data(b, x) => (if b < |blocks| then blocks[b := x] else blocks)
                              case Dinode(_, _) => blocks;
            var m := match st case Data(_, _) => inodes case Dinode(i, ip) => inodes[i := ip];
            m.Keys == first.Keys && Stores(sb, Laid(sb, d, st), State(b, m, map[]))
  {
    match st
    case Data(b, x) =>
      forall j | j in inodes
        ensures InodeStored(sb, Laid(sb, d, st), inodes, j)
      {
        assert InodeStored(sb, d, inodes, j);
      }
    case Dinode(i, ip) =>
      var after := inodes[i := ip];
      forall j | j in after
        ensures InodeStored(sb, Laid(sb, d, st), after, j)
      {
        assert InodeStored(sb, d, inodes, j);
        if InodeBlock(sb, j) == InodeBlock(sb, i) && j != i {
          OtherDinode(d[InodeBlock(sb, i)], i % IPB, ip, j % IPB, inodes[j]);
        }
      }
  }

  lemma OtherDinode(w: Blocks.Block, k: nat, ip: Inode, l: nat, jp: Inode)
    requires k < IPB && l < IPB && k != l && |ip.addrs| == NDIRECT + 1 && DinodeIs(w, l, jp)
    ensures DinodeIs(WithDinode(w, k, ip), l, jp)
  {
  }

  /** Only blocks and inodes matter. */
  predicate SameWord(d: Disk, e: Disk, b: nat, n: nat) {
    b < |d| && b < |e| && n < Blocks.BWORDS && e[b][n] == d[b][n]
  }

  /** Outside the log, the bitmap and the data blocks, nothing differs but the sizes and the addresses of inodes:
      no inode's type, device numbers or link count. */
  ghost predicate KeepsRest(sb: Super, a: Area, d: Disk, e: Disk) {
    && |e| == |d|
    && forall b: nat, n: nat | b < |d| && b < sb.bmapstart && !a.In(b) && n < Blocks.BWORDS
                               && (b < sb.inodestart || n % 16 < 2) :: SameWord(d, e, b, n)
  }

  lemma RestTwice(sb: Super, a: Area, d: Disk, e: Disk, f: Disk)
    requires KeepsRest(sb, a, d, e) && KeepsRest(sb, a, e, f)
    ensures KeepsRest(sb, a, d, f)
  {
    forall b: nat, n: nat | b < |d| && b < sb.bmapstart && !a.In(b) && n < Blocks.BWORDS
                            && (b < sb.inodestart || n % 16 < 2)
      ensures SameWord(d, f, b, n)
    {
      assert SameWord(d, e, b, n) && SameWord(e, f, b, n);
    }
  }

  lemma RestHome(sb: Super, a: Area, d: Disk, e: Disk)
    requires SameHome(a, d, e)
    ensures KeepsRest(sb, a, d, e)
  {
  }

  lemma RestLaid(sb: Super, a: Area, d: Disk, inodes: map<nat, Inode>, st: Store)
    requires Proper(sb, |d|, inodes, st)
    ensures KeepsRest(sb, a, d, Laid(sb, d, st))
  {
    forall b: nat, n: nat | b < |d| && b < sb.bmapstart && n < Blocks.BWORDS && (b < sb.inodestart || n % 16 < 2)
      ensures SameWord(d, Laid(sb, d, st), b, n)
    {
      if st.Dinode? && b == InodeBlock(sb, st.i) {
        assert !(16 * (st.i % IPB) + 2 <= n < 16 * (st.i % IPB) + 16);
      }
    }
  }

  /** An operation's stores change nothing else. */
  lemma {:induction false} RestLaidAll(sb: Super, a: Area, d: Disk, inodes: map<nat, Inode>, log: seq<Store>)
    requires AllProper(sb, |d|, inodes, log)
    ensures KeepsRest(sb, a, d, LaidAll(sb, d, inodes, log))
  {
    if log != [] {
      var last := |log| - 1;
      RestLaidAll(sb, a, d, inodes, log[..last]);
      assert Proper(sb, |d|, inodes, log[last]);
      var e := LaidAll(sb, d, inodes, log[..last]);
      RestLaid(sb, a, e, inodes, log[last]);
      RestTwice(sb, a, d, e, Laid(sb, e, log[last]));
    }
  }

  lemma StoresOwner(sb: Super, d: Disk, s: State, t: State)
    requires Stores(sb, d, s) && t.blocks == s.blocks && t.inodes == s.inodes
    ensures Stores(sb, d, t)
  {
  }

  /** The stores of an operation that leads from s to t make of a disk that holds s one that holds t. */
  lemma OperationStores(sb: Super, d: Disk, s: Moment, t: Moment, count: nat)
    requires Stores(sb, d, s.now) && Logged(sb, s, t, count)
    ensures AllProper(sb, |d|, s.now.inodes, Since(s.log, t.log))
    ensures Stores(sb, LaidAll(sb, d, s.now.inodes, Since(s.log, t.log)), t.now)
  {
    var log := Since(s.log, t.log);
    forall st | st in log
      ensures Proper(sb, |d|, s.now.inodes, st)
    {
      if st.Dinode? {
        assert InodeStored(sb, d, s.now.inodes, st.i);
      }
    }
    StoresOwner(sb, d, s.now, State(s.now.blocks, s.now.inodes, map[]));
    LaidStores(sb, d, s.now.blocks, s.now.inodes, log);
    StoresOwner(sb, LaidAll(sb, d, s.now.inodes, log), State(t.now.blocks, t.now.inodes, map[]), t.now);
  }

  // ---------------------------------------------------------------- one operation and a crash

  /** A transaction that leads from a disk that holds s to newest contents that hold t is atomic: whichever of
      the disk states that its commit passes through is the last before a crash, and however often recovery
      crashes too, the disk that recovery completes to holds s, or t from the header write on. */
  lemma OperationAtomic(sb: Super, a: Area, d: Disk, view: Disk, s: State, t: State, start: nat, hist: seq<Disk>,
                        n: nat, j: nat, ds: seq<Disk>)
    requires Layout(sb, a) && Stores(sb, d, s) && Stores(sb, view, t)
    requires L.Recoverable(a, start, hist, n, d, view) && start <= j < |hist|
    requires CrashedRecoveries(a, ds) && ds[0] == hist[j]
    ensures HeadOk(a, ds[|ds| - 1])
    ensures Stores(sb, Recovered(a, ds[|ds| - 1]), if j - start < n then s else t)
  {
    RecoveryConverges(a, ds);
    StoresHome(sb, a, if j - start < n then d else view, Recovered(a, hist[j]), if j - start < n then s else t);
  }

  /** For a write: whatever files the recovered disk holds, file i has its old contents or those with
      all of src spliced in, and every other file is as it was. */
  lemma WriteAtomic(sb: Super, a: Area, d: Disk, view: Disk, s: State, t: State, i: nat, off: nat, src: seq<Byte>,
                    start: nat, hist: seq<Disk>, n: nat, j: nat, ds: seq<Disk>, u: State)
    requires Layout(sb, a) && sb.bmapstart <= sb.datastart && Stores(sb, d, s) && Sound(sb, s) && Sound(sb, t)
    requires Wrote(s, i, off, src, t) && Stores(sb, view, t)
    requires L.Recoverable(a, start, hist, n, d, view) && start <= j < |hist|
    requires CrashedRecoveries(a, ds) && ds[0] == hist[j] && HeadOk(a, ds[|ds| - 1])
    requires Stores(sb, Recovered(a, ds[|ds| - 1]), u) && u.inodes.Keys == s.inodes.Keys
    ensures OldOrNew(s, i, off, src, u, j - start >= n)
  {
    var x := if j - start < n then s else t;
    OperationAtomic(sb, a, d, view, s, t, start, hist, n, j, ds);
    StoresOne(sb, Recovered(a, ds[|ds| - 1]), x, u);
    AsWritten(s, i, off, src, t, x, u, j - start >= n);
  }

  /** In u file i has all of src spliced in, or none of it; every other file is as in s. */
  ghost predicate OldOrNew(s: State, i: nat, off: nat, src: seq<Byte>, u: State, complete: bool) {
    && i in s.inodes && i in u.inodes && |s.inodes[i].addrs| == |u.inodes[i].addrs| == NDIRECT + 1
    && off <= s.inodes[i].size
    && (var c := Content(s.blocks, s.inodes[i]);
        Content(u.blocks, u.inodes[i]) == if complete then Splice(c, off, src) else c)
    && forall k | k in s.inodes && k != i :: SameFile(s, u, k)
  }

  lemma AsWritten(s: State, i: nat, off: nat, src: seq<Byte>, t: State, x: State, u: State, complete: bool)
    requires Wrote(s, i, off, src, t) && x == (if complete then t else s) && x.inodes == u.inodes
    requires forall k | k in x.inodes :: SameFile(x, u, k)
    ensures OldOrNew(s, i, off, src, u, complete)
  {
    forall k | k in s.inodes && k != i
      ensures SameFile(s, u, k)
    {
      assert SameFile(x, u, k);
    }
    assert SameFile(x, u, i);
  }

  // ---------------------------------------------------------------- filewrite

  lemma SpliceTwice(c: seq<Byte>, off: nat, a: seq<Byte>, b: seq<Byte>)
    requires off <= |c|
    ensures Splice(Splice(c, off, a), off + |a|, b) == Splice(c, off, a + b)
  {
  }

  lemma WroteNothing(s: State, i: nat, off: nat)
    requires InodesOk(s.inodes) && i in s.inodes && off <= s.inodes[i].size
    ensures Wrote(s, i, off, [], s)
  {
    assert Splice(Content(s.blocks, s.inodes[i]), off, []) == Content(s.blocks, s.inodes[i]);
  }

  /** Two writes, the second behind the first, are one. */
  lemma WroteTwice(s: State, t: State, u: State, i: nat, off: nat, a: seq<Byte>, b: seq<Byte>)
    requires Wrote(s, i, off, a, t) && Wrote(t, i, off + |a|, b, u)
    ensures Wrote(s, i, off, a + b, u)
  {
    SpliceTwice(Content(s.blocks, s.inodes[i]), off, a, b);
  }

  /** How much of the rest n - k of a write goes into one piece. */
  function Piece(n: nat, k: nat): nat
    requires k <= n
  {
    if n - k > CHUNK then CHUNK else n - k
  }

  /** How much of src filewrite writes: all of it, or the chunks before the one that does not fit. */
  function Fitting(off: nat, n: nat, done: nat): (k: nat)
    requires done <= n
    ensures done <= k <= n
    decreases n - done
  {
    var n1 := Piece(n, done);
    if done == n || off + done + n1 > MAXFILE * BSIZE then done else Fitting(off, n, done + n1)
  }

  lemma {:induction false} FittingAll(off: nat, n: nat, done: nat)
    requires done <= n && off + done <= MAXFILE * BSIZE
    ensures Fitting(off, n, done) == n <==> off + n <= MAXFILE * BSIZE
    decreases n - done
  {
    var n1 := Piece(n, done);
    if done < n && off + done + n1 <= MAXFILE * BSIZE {
      FittingAll(off, n, done + n1);
    }
  }

  /** struct file, open on an inode. */
  class File {
    const ip: nat
    const writable: bool
    var off: nat

    constructor (ip: nat, writable: bool, off: nat)
      ensures this.ip == ip && this.writable == writable && this.off == off
    {
      this.ip, this.writable, this.off := ip, writable, off;
    }

    /** One turn of filewrite's loop, between begin_op and end_op, over the file's blocks lo to hi - 1. */
    method WriteChunk(fs: Fs, src: seq<Byte>, ghost lo: nat, ghost hi: nat) returns (ok: bool, r: int)
      requires fs.Valid() && ip in fs.inodes && off < UINT && 0 < |src| <= CHUNK
      requires lo == off / BSIZE && hi == BlockEnd(off, |src|)
      modifies this`off, fs`blocks, fs`inodes, fs`dinodes, fs`owner, fs`logged
      ensures ok <==> Refused(old(fs.Now()), ip, old(off), |src|) || Enough(fs.sb, old(fs.Now()), ip, lo, hi)
      ensures !ok ==> fs.At() in AfterRunningOut(fs.sb, Moment(old(fs.Now()), []), ip, lo, hi)
      ensures ok ==> fs.Valid() && ip in fs.inodes && |BlocksOf(fs.sb, fs.logged)| <= Budget(fs.sb) && off < UINT
      ensures ok ==> (r == -1 <==> Refused(old(fs.Now()), ip, old(off), |src|))
      ensures ok && r == -1 ==> fs.Now() == old(fs.Now()) && fs.logged == [] && off == old(off)
      ensures ok && r != -1 ==>
                && r == |src| && off == old(off) + |src|
                && fs.At() in AfterWrite(fs.sb, Moment(old(fs.Now()), []), ip, old(off), src)
    {
      ghost var s := fs.Now();
      fs.logged := [];                 // begin_op
      ok, r := fs.Writei(ip, src, off);
      if ok && r > 0 {
        PieceBudget(fs.sb, Moment(s, []), fs.At(), ip, off, src);
        off := off + r;
      }
    }
  }

  /** What one piece logs at most. */
  function Budget(sb: Super): nat {
    Least(BitmapLength(sb), 4) + 6
  }

  lemma PieceBudget(sb: Super, s: Moment, t: Moment, i: nat, off: nat, src: seq<Byte>)
    requires Sound(sb, s.now) && t in AfterWrite(sb, s, i, off, src) && |src| <= CHUNK && s.log == []
    ensures |BlocksOf(sb, t.log)| <= Budget(sb)
  {
    ChunkBudget(sb, s.now, i, off, |src|);
    assert Since(s.log, t.log) == t.log;
  }

  /** The states in which file i has got every block that it lacked for the k bytes at off. */
  ghost function AfterFilled(sb: Super, s: State, i: nat, off: nat, k: nat): iset<State> {
    iset t: State |
      Grown(sb, s, t, i, off / BSIZE, BlockEnd(off, k)) && Filled(t, i, off / BSIZE, BlockEnd(off, k))
  }

  /** filewrite after k bytes: they are all written, in blocks that the file lacked or had, if the offset was
      not past the end. */
  ghost predicate Filling(sb: Super, s: State, now: State, i: nat, off: nat, src: seq<Byte>, k: nat) {
    && k <= |src| && i in s.inodes && i in now.inodes && Sound(sb, now)
    && if off <= s.inodes[i].size
       then Wrote(s, i, off, src[..k], now) && Fitting(off, |src|, k) == Fitting(off, |src|, 0)
            && now in AfterFilled(sb, s, i, off, k)
       else k == 0 && now == s
  }

  /** These states. */
  ghost function AfterFilling(sb: Super, s: State, i: nat, off: nat, src: seq<Byte>, k: nat): iset<State> {
    iset t: State | Filling(sb, s, t, i, off, src, k)
  }

  /** filewrite of n bytes ended where every block was in use and one that it needed was missing. */
  ghost function AfterFailing(sb: Super, s: State, i: nat, off: nat, n: nat): iset<State> {
    iset t: State |
      && i in s.inodes && off <= s.inodes[i].size
      && t in AfterStuck(sb, s, i, off / BSIZE, BlockEnd(off, Fitting(off, n, 0)))
  }

  ghost function AfterStuck(sb: Super, s: State, i: nat, lo: nat, hi: nat): iset<State> {
    iset t: State |
      Sound(sb, t) && Grown(sb, s, t, i, lo, hi) && !Filled(t, i, lo, hi) && FreeBlocks(sb, t.blocks) == {}
  }

  /** The piece from k on is refused. */
  ghost predicate Stops(s: State, i: nat, off: nat, n: nat, k: nat) {
    && i in s.inodes && k < n
    && (off <= s.inodes[i].size ==> off + k + Piece(n, k) > MAXFILE * BSIZE)
  }

  lemma FillingNothing(sb: Super, s: State, i: nat, off: nat, src: seq<Byte>)
    requires Sound(sb, s) && i in s.inodes
    ensures s in AfterFilling(sb, s, i, off, src, 0)
  {
    if off <= s.inodes[i].size {
      WroteNothing(s, i, off);
      assert src[..0] == [];
    }
  }

  lemma FillingInode(sb: Super, s: State, t: State, i: nat, off: nat, src: seq<Byte>, k: nat)
    requires t in AfterFilling(sb, s, i, off, src, k)
    ensures i in t.inodes
  {
  }

  /** What a state during filewrite says of a piece at k. */
  lemma FillingSize(sb: Super, s: State, t: State, i: nat, off: nat, at: nat, src: seq<Byte>, k: nat)
    requires t in AfterFilling(sb, s, i, off, src, k) && at == off + k
    ensures i in s.inodes && i in t.inodes && k <= |src|
    ensures at > t.inodes[i].size <==> off > s.inodes[i].size
    ensures off <= s.inodes[i].size ==> Fitting(off, |src|, k) == Fitting(off, |src|, 0)
  {
    if off <= s.inodes[i].size {
      WroteSize(s, t, i, off, src[..k]);
    }
  }

  lemma FillingStops(sb: Super, s: State, t: State, i: nat, off: nat, at: nat, src: seq<Byte>, k: nat, n1: nat)
    requires t in AfterFilling(sb, s, i, off, src, k) && at == off + k && k < |src| && n1 == Piece(|src|, k)
    requires i in t.inodes && Refused(t, i, at, n1)
    ensures Stops(s, i, off, |src|, k)
  {
    FillingSize(sb, s, t, i, off, at, src, k);
  }

  /** The blocks of the next piece follow on those of the pieces before it. */
  lemma PieceBlocks(off: nat, k: nat, at: nat, n1: nat, end: nat, lo: nat, hi: nat)
    requires at == off + k && end == k + n1 && n1 > 0 && lo == at / BSIZE && hi == BlockEnd(at, n1)
    ensures off / BSIZE <= lo <= BlockEnd(off, k) <= hi == BlockEnd(off, end)
  {
  }

  lemma EndMore(off: nat, n: nat, m: nat)
    requires n <= m
    ensures BlockEnd(off, n) <= BlockEnd(off, m)
  {
  }

  lemma FillingFails(sb: Super, s: State, t: State, u: Moment, i: nat, off: nat, at: nat, src: seq<Byte>, k: nat,
                     n1: nat, end: nat, lo: nat, hi: nat)
    requires t in AfterFilling(sb, s, i, off, src, k) && at == off + k && k < |src| && n1 == Piece(|src|, k)
    requires i in t.inodes && !Refused(t, i, at, n1) && end == k + n1 && lo == at / BSIZE && hi == BlockEnd(at, n1)
    requires u in AfterRunningOut(sb, Moment(t, []), i, lo, hi)
    ensures u.now in AfterFailing(sb, s, i, off, |src|)
  {
    FillingSize(sb, s, t, i, off, at, src, k);
    PieceBlocks(off, k, at, n1, end, lo, hi);
    FittingNext(off, |src|, k, n1, end);
    EndMore(off, end, Fitting(off, |src|, 0));
    StuckThere(sb, s, t, u, i, off / BSIZE, BlockEnd(off, k), lo, hi, BlockEnd(off, Fitting(off, |src|, 0)));
  }

  lemma StuckThere(sb: Super, s: State, t: State, u: Moment, i: nat, lo: nat, hi: nat, lo2: nat, hi2: nat, end: nat)
    requires Grown(sb, s, t, i, lo, hi) && u in AfterRunningOut(sb, Moment(t, []), i, lo2, hi2)
    requires lo <= lo2 && hi <= hi2 <= end
    ensures u.now in AfterStuck(sb, s, i, lo, end)
  {
    GrownTwice(sb, s, t, u.now, i, lo, hi, lo2, hi2);
    GrownTwice(sb, s, u.now, u.now, i, lo, hi2, end, end);
    var k: nat :| Takes(lo2, hi2, k) && SlotRef(u.now.blocks, u.now.inodes, Slot(i, k)) == 0;
    assert Takes(lo, end, k);
  }

  lemma FillingMore(sb: Super, s: State, t: State, u: Moment, i: nat, off: nat, at: nat, src: seq<Byte>, k: nat,
                    n1: nat, end: nat, part: seq<Byte>)
    requires t in AfterFilling(sb, s, i, off, src, k) && at == off + k && k < |src| && n1 == Piece(|src|, k)
    requires i in t.inodes && !Refused(t, i, at, n1) && end == k + n1 && part == src[k..k + n1]
    requires u in AfterWrite(sb, Moment(t, []), i, at, part)
    ensures u.now in AfterFilling(sb, s, i, off, src, end)
  {
    FillingSize(sb, s, t, i, off, at, src, k);
    FittingNext(off, |src|, k, n1, end);
    SamePart(src, k, n1, end, part);
    FillingBytes(sb, s, t, u, i, off, at, src, k, end, part);
    FillingBlocks(sb, s, t, u, i, off, at, src, k, n1, end, part);
  }

  lemma SamePart(src: seq<Byte>, k: nat, n1: nat, end: nat, part: seq<Byte>)
    requires end == k + n1 <= |src| && part == src[k..k + n1]
    ensures part == src[k..end] && |part| == n1
  {
  }

  lemma FillingBytes(sb: Super, s: State, t: State, u: Moment, i: nat, off: nat, at: nat, src: seq<Byte>, k: nat,
                     end: nat, part: seq<Byte>)
    requires t in AfterFilling(sb, s, i, off, src, k) && at == off + k && k <= end <= |src| && part == src[k..end]
    requires i in s.inodes && off <= s.inodes[i].size && u in AfterWrite(sb, Moment(t, []), i, at, part)
    ensures Wrote(s, i, off, src[..end], u.now)
  {
    ChunkWritten(s, t, u.now, i, off, at, src, k, end);
  }

  lemma FillingBlocks(sb: Super, s: State, t: State, u: Moment, i: nat, off: nat, at: nat, src: seq<Byte>, k: nat,
                      n1: nat, end: nat, part: seq<Byte>)
    requires t in AfterFilling(sb, s, i, off, src, k) && i in s.inodes && off <= s.inodes[i].size
    requires at == off + k && end == k + n1 && n1 == |part| > 0 && u in AfterWrite(sb, Moment(t, []), i, at, part)
    ensures Sound(sb, u.now) && u.now in AfterFilled(sb, s, i, off, end)
  {
    var first, mid, lo, hi := off / BSIZE, BlockEnd(off, k), at / BSIZE, BlockEnd(at, n1);
    PieceBlocks(off, k, at, n1, end, lo, hi);
    WrittenBlocks(sb, Moment(t, []), u, i, at, part, lo, hi);
    GrownTwice(sb, s, t, u.now, i, first, mid, lo, hi);
    FilledMore(sb, t, u.now, i, first, mid, lo, hi);
  }

  lemma WrittenBlocks(sb: Super, t: Moment, u: Moment, i: nat, at: nat, src: seq<Byte>, lo: nat, hi: nat)
    requires u in AfterWrite(sb, t, i, at, src) && lo == at / BSIZE && hi == BlockEnd(at, |src|)
    ensures Sound(sb, u.now) && Grown(sb, t.now, u.now, i, lo, hi) && Filled(u.now, i, lo, hi)
    ensures Wrote(t.now, i, at, src, u.now)
  {
  }

  lemma WroteSize(s: State, t: State, i: nat, off: nat, src: seq<Byte>)
    requires Wrote(s, i, off, src, t)
    ensures t.inodes[i].size >= off + |src|
  {
    assert |Content(t.blocks, t.inodes[i])| == |Splice(Content(s.blocks, s.inodes[i]), off, src)|;
  }

  lemma FittingNext(off: nat, n: nat, k: nat, n1: nat, end: nat)
    requires k < n && n1 == Piece(n, k) && end == k + n1 && off + end <= MAXFILE * BSIZE
    ensures end <= n && Fitting(off, n, end) == Fitting(off, n, k) >= end
  {
  }

  lemma FillingEnds(sb: Super, s: State, now: State, i: nat, off: nat, src: seq<Byte>, k: nat, ok: bool)
    requires Sound(sb, s) && i in s.inodes
    requires !ok ==> now in AfterFailing(sb, s, i, off, |src|)
    requires ok ==> now in AfterFilling(sb, s, i, off, src, k) && (k == |src| || Stops(s, i, off, |src|, k))
    ensures ok <==> off > s.inodes[i].size || Enough(sb, s, i, off / BSIZE, BlockEnd(off, Fitting(off, |src|, 0)))
    ensures ok && off <= s.inodes[i].size ==>
              && k == Fitting(off, |src|, 0) && (k == |src| <==> off + |src| <= MAXFILE * BSIZE)
              && Wrote(s, i, off, src[..k], now)
    ensures ok && off > s.inodes[i].size ==> k == 0 && now == s
  {
    if off <= s.inodes[i].size {
      FittingAll(off, |src|, 0);
      EnoughOrNot(sb, s, now, i, off / BSIZE, BlockEnd(off, Fitting(off, |src|, 0)));
    }
  }

  lemma ChunkWritten(s: State, t: State, u: State, i: nat, off: nat, at: nat, src: seq<Byte>, k: nat, end: nat)
    requires at == off + k && k <= end <= |src| && Wrote(s, i, off, src[..k], t) && Wrote(t, i, at, src[k..end], u)
    ensures Wrote(s, i, off, src[..end], u)
  {
    assert src[..k] + src[k..end] == src[..end];
    WroteTwice(s, t, u, i, off, src[..k], src[k..end]);
  }
}
