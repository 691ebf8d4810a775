/** log.c over the buffer cache: group commit, absorption, and recovery, with every disk
    state they pass through tied to LogDisk. */
module Log {
  import opened Blocks
  import opened Bcache
  import opened LogDisk

  /** The buffers in held are those that somebody holds, and the dirty ones, none of them held, are
      exactly those of the blocks in dirty. */
  ghost predicate Quiet(buf: seq<Buf>, dirty: set<int>, held: set<nat>) {
    && |buf| == NBUF && (forall i | i in held :: i < NBUF)
    && (forall i | 0 <= i < NBUF ::
      (i in held <==> buf[i].refcnt > 0) && (buf[i].dirty ==> buf[i].blockno in dirty && i !in held))
    && forall b | b in dirty :: Pinned(buf, b)
  }

  ghost predicate Pinned(buf: seq<Buf>, b: int) {
    exists i | 0 <= i < |buf| :: buf[i].dev == ROOTDEV && buf[i].blockno == b && buf[i].dirty
  }

  /** Those who hold the buffers in held only read, and none of the blocks in avoid. */
  ghost predicate Readers(buf: seq<Buf>, disk: Disk, held: set<nat>, avoid: set<int>) {
    forall i | i in held && i < |buf| :: Reader(buf[i], disk, avoid)
  }

  ghost predicate Reader(b: Buf, disk: Disk, avoid: set<int>) {
    b.dev == ROOTDEV && b.blockno !in avoid && (b.valid ==> b.blockno < |disk| && b.data == disk[b.blockno])
  }

  ghost function HeldSet(buf: seq<Buf>): set<nat> {
    set i: nat | i < |buf| && buf[i].refcnt > 0
  }

  /** There is a buffer for bget to recycle if and only if the dirty blocks and the buffers held leave
      one. */
  lemma HasRoom(buf: seq<Buf>, disk: Disk, view: Disk, dirty: set<int>, held: set<nat>)
    requires Coherent(buf, disk, view) && Quiet(buf, dirty, held)
    ensures (exists i | 0 <= i < NBUF :: Recyclable(buf[i])) <==> |dirty| + |held| < NBUF
  {
    var taken := DirtyOnes(buf) + held;
    DirtyAll(buf, disk, view, dirty, held);
    if i :| 0 <= i < NBUF && Recyclable(buf[i]) {
      Smaller(taken, NBUF, i);
    } else {
      Full(taken, NBUF);
    }
  }

  lemma {:induction false} Full(s: set<nat>, n: nat)
    requires forall i: nat | i < n :: i in s
    ensures |s| >= n
  {
    SubsetSize(UpTo(n), s);
  }

  lemma {:induction false} Smaller(s: set<nat>, n: nat, i: nat)
    requires (forall j | j in s :: j < n) && i < n && i !in s
    ensures |s| < n
  {
    SubsetSize(s, UpTo(n) - {i});
  }

  lemma DirtyAll(buf: seq<Buf>, disk: Disk, view: Disk, dirty: set<int>, held: set<nat>)
    requires Coherent(buf, disk, view) && Quiet(buf, dirty, held)
    ensures |DirtyOnes(buf) + held| == |dirty| + |held|
  {
    var d := DirtyOnes(buf);
    forall b | b in dirty
      ensures exists i :: i in d && i < |buf| && buf[i].blockno == b
    {
      assert Pinned(buf, b);
      var i :| 0 <= i < NBUF && buf[i].dev == ROOTDEV && buf[i].blockno == b && buf[i].dirty;
      assert i in d;
    }
    DirtySize(buf, d, dirty);
    assert d !! held;
  }

  ghost function UpTo(n: nat): (r: set<nat>)
    ensures |r| == n && forall i: nat :: i in r <==> i < n
  {
    if n == 0 then {} else UpTo(n - 1) + {n - 1}
  }

  ghost function DirtyOnes(buf: seq<Buf>): set<nat> {
    set i: nat | i < |buf| && buf[i].dirty
  }

  /** As many dirty buffers as dirty blocks. */
  lemma {:induction false} DirtySize(buf: seq<Buf>, d: set<nat>, dirty: set<int>)
    requires forall i | i in d :: i < |buf| && buf[i].dev == ROOTDEV && buf[i].blockno in dirty
    requires forall i, j | i in d && j in d && i != j :: buf[i].blockno != buf[j].blockno
    requires forall b | b in dirty :: exists i :: i in d && i < |buf| && buf[i].blockno == b
    ensures |d| == |dirty|
  {
    if d != {} {
      var i :| i in d;
      var b := buf[i].blockno;
      forall c | c in dirty - {b}
        ensures exists j :: j in d - {i} && j < |buf| && buf[j].blockno == c
      {
        var j :| j in d && j < |buf| && buf[j].blockno == c;
        assert j in d - {i};
      }
      DirtySize(buf, d - {i}, dirty - {b});
    } else {
      forall b
        ensures b !in dirty
      {
        if b in dirty {
          assert false;
        }
      }
    }
  }

  lemma {:induction false} SubsetSize<T>(a: set<T>, b: set<T>)
    requires a <= b
    ensures |a| <= |b|
  {
    if a != {} {
      var x :| x in a;
      SubsetSize(a - {x}, b - {x});
    }
  }

  ghost predicate Held(b: Buf, blockno: nat, data: Block) {
    Holds(b, blockno) && b.valid && b.locked && b.refcnt == 1 && b.data == data
  }

  /** Nothing but a dirty block is ahead of the disk when all others only read. */
  lemma QuietClean(buf: seq<Buf>, dirty: set<int>, held: set<nat>, avoid: set<int>, disk: Disk, view: Disk, b: nat)
    requires Coherent(buf, disk, view) && Quiet(buf, dirty, held) && Readers(buf, disk, held, avoid)
    requires b !in dirty && b < |disk|
    ensures view[b] == disk[b]
  {
    forall i | 0 <= i < NBUF && Holds(buf[i], b) && Busy(buf[i])
      ensures view[b] == disk[b]
    {
      assert i in held && Reader(buf[i], disk, avoid);
    }
  }

  /** A finished commit has brought the newest contents of every block home: the logged blocks
      by installing them, the others because they were there. */
  lemma Durable(a: Area, buf: seq<Buf>, d: Disk, view: Disk, blocks: seq<int>, held: set<nat>, after: Disk)
    requires Coherent(buf, d, view) && Quiet(buf, Rest(blocks, 0), held) && Readers(buf, d, held, Touched(a, blocks))
    requires AllHome(a, d, blocks, view, after)
    ensures SameHome(a, view, after)
  {
    forall b | 0 <= b < |d| && b !in blocks
      ensures view[b] == d[b]
    {
      QuietClean(buf, Rest(blocks, 0), held, Touched(a, blocks), d, view, b);
    }
  }

  /** The blocks that a commit reads and writes. */
  ghost function Touched(a: Area, blocks: seq<int>): set<int> {
    (set b | a.start <= b < a.start + a.size && a.In(b)) + (set b | b in blocks)
  }

  /** Reading blocks logno and home into buffers lb and hb, writing one of the two, dst, and
      releasing both leaves the cache quiet, with dst no longer dirty. */
  lemma QuietAfter(was: seq<Buf>, now: seq<Buf>, lb: nat, hb: nat, dirty: set<int>, held: set<nat>, disk: Disk,
                   view: Disk, dst: nat)
    requires Quiet(was, dirty, held) && Coherent(now, disk, view) && lb < NBUF && hb < NBUF && lb !in held
             && hb !in held
    requires forall i | 0 <= i < NBUF && i != lb && i != hb :: now[i] == was[i]
    requires now[lb].refcnt == 0 && now[hb].refcnt == 0 && !now[lb].dirty
    requires was[lb].dirty ==> was[lb].blockno == now[lb].blockno
    requires now[lb].blockno !in dirty && (now[hb].dirty ==> now[hb].blockno in dirty)
    requires was[hb].dirty ==> was[hb].blockno == now[hb].blockno && (now[hb].dirty || dst == now[hb].blockno)
    requires if now[hb].dirty then dst == now[lb].blockno else dst == now[hb].blockno
    requires now[lb].dev == ROOTDEV == now[hb].dev
    ensures Quiet(now, dirty - {dst}, held)
  {
    forall b | b in dirty - {dst}
      ensures Pinned(now, b)
    {
      assert Pinned(was, b);
      var i :| 0 <= i < NBUF && was[i].dev == ROOTDEV && was[i].blockno == b && was[i].dirty;
      assert now[i].dev == ROOTDEV && now[i].blockno == b && now[i].dirty;
    }
  }

  /** Readers read on while other blocks are written. */
  lemma StillReading(was: seq<Buf>, now: seq<Buf>, disk: Disk, disk': Disk, held: set<nat>, avoid: set<int>)
    requires Readers(was, disk, held, avoid) && |now| == |was| && |disk'| == |disk|
    requires forall i | i in held && i < |was| :: now[i] == was[i]
    requires forall b | 0 <= b < |disk| && b !in avoid :: disk'[b] == disk[b]
    ensures Readers(now, disk', held, avoid)
  {
    forall i | i in held && i < |now|
      ensures Reader(now[i], disk', avoid)
    {
      assert Reader(was[i], disk, avoid);
    }
  }

  /** The blocks of the log slots from tail on. */
  ghost function Rest(blocks: seq<int>, tail: nat): set<int>
    requires tail <= |blocks|
  {
    set t | tail <= t < |blocks| :: blocks[t]
  }

  lemma {:induction false} RestSize(blocks: seq<int>, tail: nat)
    requires tail <= |blocks|
    ensures |Rest(blocks, tail)| <= |blocks| - tail
    decreases |blocks| - tail
  {
    if tail < |blocks| {
      RestSize(blocks, tail + 1);
      assert Rest(blocks, tail) == Rest(blocks, tail + 1) + {blocks[tail]};
    }
  }

  /** The home blocks still pinned when slot tail is installed: at commit the slots from tail on,
      at recovery none. */
  ghost function Pins(blocks: seq<int>, tail: nat, pinned: bool): set<int>
    requires tail <= |blocks|
  {
    if pinned then Rest(blocks, tail) else {}
  }

  lemma PinsStep(blocks: seq<int>, tail: nat, pinned: bool)
    requires tail < |blocks| && (pinned ==> NoRepeats(blocks))
    ensures |Pins(blocks, tail, pinned)| + (if blocks[tail] in Pins(blocks, tail, pinned) then 0 else 1) <= |blocks|
    ensures Pins(blocks, tail, pinned) - {blocks[tail]} == Pins(blocks, tail + 1, pinned)
  {
    RestSize(blocks, tail);
  }

  /** Slot tail's log block and home block are different blocks of the disk, the first of them not
      pinned, and the cache has room for both beside h buffers that others hold. */
  lemma TurnBlocks(a: Area, blocks: seq<int>, tail: nat, next: nat, pinned: bool, size: nat, h: nat)
    requires next == tail + 1 && a.Loggable(blocks, size) && a.size <= NBUF && tail < |blocks|
             && (pinned ==> NoRepeats(blocks))
    requires if pinned then |blocks| + h < NBUF else h == 0
    ensures 0 <= blocks[tail] < size && a.start + tail + 1 < size && a.start + tail + 1 != blocks[tail]
    ensures a.start + tail + 1 in Touched(a, blocks) && blocks[tail] in Touched(a, blocks)
    ensures var pins := Pins(blocks, tail, pinned);
            && |pins| + h + (if blocks[tail] in pins then 0 else 1) < NBUF && a.start + tail + 1 !in pins
            && pins - {blocks[tail]} == Pins(blocks, next, pinned)
  {
    PinsStep(blocks, tail, pinned);
    assert blocks[tail] in blocks;
    assert a.In(a.start + tail + 1);
  }

  /** Slot tail's log block and home block as write_log finds them. */
  lemma LogBlocks(a: Area, blocks: seq<int>, tail: nat, size: nat)
    requires a.Loggable(blocks, size) && tail < |blocks| && NoRepeats(blocks)
    ensures 0 <= blocks[tail] < size && a.start + tail + 1 < size && a.start + tail + 1 != blocks[tail]
    ensures !a.In(blocks[tail]) && a.In(a.start + tail + 1)
    ensures a.start + tail + 1 in Touched(a, blocks) && blocks[tail] in Touched(a, blocks)
    ensures |Rest(blocks, 0)| == |blocks| && a.start + tail + 1 !in Rest(blocks, 0) && blocks[tail] in Rest(blocks, 0)
  {
    RestExact(blocks, 0);
    assert blocks[tail] in blocks;
  }

  lemma {:induction false} RestExact(blocks: seq<int>, tail: nat)
    requires tail <= |blocks| && NoRepeats(blocks)
    ensures |Rest(blocks, tail)| == |blocks| - tail
    decreases |blocks| - tail
  {
    if tail < |blocks| {
      RestExact(blocks, tail + 1);
      assert Rest(blocks, tail) == Rest(blocks, tail + 1) + {blocks[tail]};
      assert blocks[tail] !in Rest(blocks, tail + 1);
    }
  }

  /** One more block in the log, and one more state in the history. */
  lemma LoggedMore(a: Area, d: Disk, blocks: seq<int>, view: Disk, k: nat, was: Disk, now: Disk, start: seq<Disk>,
                   hist: seq<Disk>)
    requires a.Loggable(blocks, |d|) && |view| == |d| && k < |blocks| && was == CommitState(a, d, blocks, view, k)
    requires now == was[a.start + k + 1 := view[blocks[k]]]
    requires hist == start + CommitTrace(a, d, blocks, view, k) + [now]
    ensures now == CommitState(a, d, blocks, view, k + 1) && hist == start + CommitTrace(a, d, blocks, view, k + 1)
  {
    CommitTraceGrows(a, d, blocks, view, k);
    assert hist == start + (CommitTrace(a, d, blocks, view, k) + [now]);
  }

  /** One more block installed, and one more state in the history. */
  lemma InstalledMore(a: Area, d: Disk, blocks: seq<int>, k: nat, next: nat, was: Disk, now: Disk, start: seq<Disk>,
                      hist: seq<Disk>)
    requires next == k + 1 && a.Loggable(blocks, |d|) && k < |blocks| && was == Installed(a, d, blocks, k)
    requires now == was[blocks[k] := was[a.start + k + 1]]
    requires hist == start + InstallTrace(a, d, blocks, k) + [now]
    ensures now == Installed(a, d, blocks, next) && hist == start + InstallTrace(a, d, blocks, next)
  {
    InstallTraceGrows(a, d, blocks, k);
    assert hist == start + (InstallTrace(a, d, blocks, k) + [now]);
  }

  ghost predicate NoRepeats(blocks: seq<int>) {
    forall i, j | 0 <= i < j < |blocks| :: blocks[i] != blocks[j]
  }

  ghost function Recorded(blocks: seq<int>, b: int): seq<int> {
    if b in blocks then blocks else blocks + [b]
  }

  lemma LoggableGrows(a: Area, blocks: seq<int>, b: nat, disksize: nat)
    requires a.Loggable(blocks, disksize) && |blocks| < LOGSIZE && |blocks| < a.size - 1
    requires b < disksize && !a.In(b)
    ensures a.Loggable(Recorded(blocks, b), disksize)
  {
  }

  /** The dirty buffers are the logged blocks'. */
  ghost predicate DirtyIsLogged(buf: seq<Buf>, blocks: seq<int>) {
    && |buf| == NBUF
    && (forall i | 0 <= i < NBUF && buf[i].dirty :: buf[i].blockno in blocks)
    && forall b | b in blocks :: Pinned(buf, b)
  }

  /** Pinning one more buffer and recording its block keeps them so. */
  lemma StillLogged(was: seq<Buf>, now: seq<Buf>, b: nat, blocks: seq<int>)
    requires DirtyIsLogged(was, blocks) && |now| == NBUF && b < NBUF
    requires was[b].dev == ROOTDEV && now[b] == was[b].(dirty := true)
    requires forall i | 0 <= i < NBUF && i != b :: now[i] == was[i]
    ensures DirtyIsLogged(now, Recorded(blocks, now[b].blockno))
  {
    forall c | c in blocks
      ensures Pinned(now, c)
    {
      assert Pinned(was, c);
      var i :| 0 <= i < NBUF && was[i].dev == ROOTDEV && was[i].blockno == c && was[i].dirty;
      assert now[i].dev == ROOTDEV && now[i].blockno == c && now[i].dirty;
    }
    assert now[b].dev == ROOTDEV && now[b].dirty;
  }

  /** Reading a clean block, writing it and releasing it leaves the cache as quiet. */
  lemma QuietSame(was: seq<Buf>, now: seq<Buf>, b: nat, dirty: set<int>, held: set<nat>)
    requires Quiet(was, dirty, held) && |now| == NBUF && b < NBUF && b !in held
    requires forall i | 0 <= i < NBUF && i != b :: now[i] == was[i]
    requires now[b].refcnt == 0 && !now[b].dirty && !was[b].dirty
    ensures Quiet(now, dirty, held)
  {
    forall c | c in dirty
      ensures Pinned(now, c)
    {
      assert Pinned(was, c);
      var i :| 0 <= i < NBUF && was[i].dev == ROOTDEV && was[i].blockno == c && was[i].dirty;
      assert now[i] == was[i];
    }
  }

  /** While all others only read other blocks, the cache is quiet but for the logged blocks. */
  lemma LoggedQuiet(a: Area, buf: seq<Buf>, disk: Disk, blocks: seq<int>)
    requires DirtyIsLogged(buf, blocks) && Readers(buf, disk, HeldSet(buf), Touched(a, blocks))
    ensures Quiet(buf, Rest(blocks, 0), HeldSet(buf))
  {
    forall i | i in HeldSet(buf)
      ensures !buf[i].dirty
    {
      assert Reader(buf[i], disk, Touched(a, blocks));
    }
  }

  /** After a commit nothing is logged, and the disk holds the newest contents of every block. */
  lemma QuietLogged(buf: seq<Buf>, held: set<nat>, avoid: set<int>, disk: Disk, view: Disk)
    requires Coherent(buf, disk, view) && Quiet(buf, {}, held) && Readers(buf, disk, held, avoid)
    ensures DirtyIsLogged(buf, []) && view == disk
  {
    forall b | 0 <= b < |disk|
      ensures view[b] == disk[b]
    {
      QuietClean(buf, {}, held, avoid, disk, view, b);
    }
  }

  /** Every disk from position start of the history on recovers: the first n to the home blocks of
      before, the others to those of view. */
  ghost predicate Recoverable(a: Area, start: nat, hist: seq<Disk>, n: nat, before: Disk, view: Disk) {
    forall j | start <= j < |hist| ::
      HeadOk(a, hist[j]) && SameHome(a, if j - start < n then before else view, Recovered(a, hist[j]))
  }

  /** Every disk state of a commit recovers to the contents before it or to the newest contents. */
  lemma EveryState(a: Area, buf: seq<Buf>, d: Disk, view: Disk, blocks: seq<int>, held: set<nat>, start: seq<Disk>,
                   hist: seq<Disk>)
    requires Coherent(buf, d, view) && Quiet(buf, Rest(blocks, 0), held) && Readers(buf, d, held, Touched(a, blocks))
    requires a.Loggable(blocks, |d|) && d[a.start][0] == 0
    requires hist == start + CommitTrace(a, d, blocks, view, 2 * |blocks| + 2)
    ensures Recoverable(a, |start|, hist, |blocks|, d, view)
  {
    forall j | |start| <= j < |hist|
      ensures HeadOk(a, hist[j]) && SameHome(a, if j - |start| < |blocks| then d else view, Recovered(a, hist[j]))
    {
      assert hist[j] == CommitState(a, d, blocks, view, j - |start| + 1);
      CommitCrash(a, d, blocks, view, j - |start| + 1);
      if j - |start| >= |blocks| {
        Durable(a, buf, d, view, blocks, held, Recovered(a, hist[j]));
      }
    }
  }

  /** The disk states that a commit's two halves pass through, put together. */
  lemma CommitHistory(a: Area, d: Disk, blocks: seq<int>, view: Disk, c: Disk, e: Disk, h: seq<Disk>, hist: seq<Disk>)
    requires a.Loggable(blocks, |d|) && |view| == |d| && c == CommitState(a, d, blocks, view, |blocks| + 1)
    requires e == HeadWritten(a, Installed(a, c, blocks, |blocks|), [])
    requires hist == h + CommitTrace(a, d, blocks, view, |blocks| + 1) + InstallTrace(a, c, blocks, |blocks|) + [e]
    ensures hist == h + CommitTrace(a, d, blocks, view, 2 * |blocks| + 2)
            && e == CommitState(a, d, blocks, view, 2 * |blocks| + 2)
  {
    var t, u := CommitTrace(a, d, blocks, view, |blocks| + 1), InstallTrace(a, c, blocks, |blocks|);
    CommitTraceInstalls(a, d, blocks, view);
    CommitTraceGrows(a, d, blocks, view, 2 * |blocks| + 1);
    assert hist == h + (t + u + [e]);
  }

  /** ... and those of recovery. */
  lemma RecoveryHistory(a: Area, d: Disk, e: Disk, h: seq<Disk>, hist: seq<Disk>)
    requires HeadOk(a, d) && e == HeadWritten(a, Installed(a, d, HeadBlocks(a, d), |HeadBlocks(a, d)|), [])
    requires hist == h + InstallTrace(a, d, HeadBlocks(a, d), |HeadBlocks(a, d)|) + [e]
    ensures hist == h + RecoveryTrace(a, d, |HeadBlocks(a, d)| + 1) && e == Recovered(a, d)
  {
    var t := InstallTrace(a, d, HeadBlocks(a, d), |HeadBlocks(a, d)|);
    assert hist == h + (t + [e]);
    assert t + [e] == RecoveryTrace(a, d, |HeadBlocks(a, d)| + 1);
  }

  class Log {
    const bc: Cache
    const area: Area
    const block: array<int>    // lh.block
    var n: nat                 // lh.n
    var outstanding: int
    var committing: bool

    /** The cache is sound and the header's entries fit the log area, which mkfs makes no larger
        than the cache. */
    ghost predicate Wired()
      reads this, bc, bc.buf, bc.link, block
    {
      && bc.Valid() && block.Length == LOGSIZE && n <= LOGSIZE
      && 0 < area.size <= NBUF
      && area.Loggable(block[..n], |bc.disk|)
    }

    /** The log between any two steps of the system calls in progress: the dirty buffers are the
        logged blocks', and the header on the disk is clear. */
    ghost predicate Pending()
      reads this, bc, bc.buf, bc.link, block
    {
      && Wired() && NoRepeats(block[..n])
      && DirtyIsLogged(bc.buf[..], block[..n])
      && bc.disk[area.start][0] == 0
    }

    /** initlog: attach to a cache just after boot and recover. The header on the disk is one
        that this code wrote. */
    constructor (bc: Cache, area: Area)
      requires bc.Valid() && Quiet(bc.buf[..], {}, {}) && HeadOk(area, bc.disk) && area.size <= NBUF
      modifies bc, bc.buf, bc.link
      ensures this.bc == bc && this.area == area && fresh(block) && n == 0 && outstanding == 0 && !committing
      ensures Pending() && Quiet(bc.buf[..], {}, {}) && bc.disk == Recovered(area, old(bc.disk))
      ensures bc.hist == old(bc.hist) + RecoveryTrace(area, old(bc.disk), |HeadBlocks(area, old(bc.disk))| + 1)
    {
      this.bc, this.area := bc, area;
      block := new int[LOGSIZE](_ => 0);
      n, outstanding, committing := 0, 0, false;
      new;
      RecoverFromLog();
    }

    /** Both loops of the log read a log block and its home block; ok is false where bget panics. */
    method ReadPair(logno: nat, home: nat, ghost dirty: set<int>, ghost held: set<nat>, ghost avoid: set<int>)
        returns (ok: bool, lb: nat, hb: nat)
      requires bc.Valid() && logno < |bc.disk| && home < |bc.disk| && logno != home && logno in avoid && home in avoid
      requires Quiet(bc.buf[..], dirty, held) && Readers(bc.buf[..], bc.disk, held, avoid) && logno !in dirty
      requires home in dirty || |dirty| + |held| + 1 < NBUF
      modifies bc.buf
      ensures bc.Valid() && (ok <==> |dirty| + |held| < NBUF)
      ensures !ok ==> bc.buf[..] == old(bc.buf[..])
      ensures ok ==>
                && lb < NBUF && hb < NBUF && lb != hb && lb !in held && hb !in held
                && (forall i | 0 <= i < NBUF && i != lb && i != hb :: bc.buf[i] == old(bc.buf[i]))
                && Held(bc.buf[lb], logno, bc.view[logno]) && Held(bc.buf[hb], home, bc.view[home])
                && (old(bc.buf[lb]).dirty ==> old(bc.buf[lb]).blockno == logno)
                && (old(bc.buf[hb]).dirty ==> old(bc.buf[hb]).blockno == home)
                && !bc.buf[lb].dirty && bc.buf[hb].dirty == old(bc.buf[hb]).dirty
    {
      ghost var was := bc.buf[..];
      HasRoom(was, bc.disk, bc.view, dirty, held);
      NotCached(was, bc.disk, dirty, held, avoid, logno);
      ok, lb := bc.Bread(logno);
      hb := 0;
      if !ok {
        return;
      }
      assert lb !in held;
      if home in dirty {
        assert Pinned(was, home);
      } else {
        OneMoreHeld(was, bc.buf[..], lb, dirty, held);
        HasRoom(bc.buf[..], bc.disk, bc.view, dirty, held + {lb});
      }
      NotHeld(was, bc.disk, held, avoid, home);
      ok, hb := bc.Bread(home);
    }

    /** ... copy one over the other, write it to the disk and release both. */
    method CopyOut(src: nat, dst: nat)
      requires bc.Valid() && src < NBUF && dst < NBUF && src != dst
      requires bc.buf[src].refcnt == 1 && bc.buf[src].locked && bc.buf[src].valid
      requires bc.buf[src].dirty || bc.view[bc.buf[src].blockno] == bc.disk[bc.buf[src].blockno]
      requires bc.buf[dst].refcnt == 1 && bc.buf[dst].locked && bc.buf[dst].valid
      modifies bc, bc.buf, bc.link
      ensures bc.Valid()
      ensures bc.buf[src] == old(bc.buf[src]).(refcnt := 0, locked := false)
      ensures bc.buf[dst] == old(bc.buf[dst]).(refcnt := 0, locked := false, dirty := false,
                                               data := old(bc.buf[src]).data)
      ensures forall i | 0 <= i < NBUF && i != src && i != dst :: bc.buf[i] == old(bc.buf[i])
      ensures var b := old(bc.buf[dst]).blockno;
              && bc.disk == old(bc.disk)[b := old(bc.buf[src]).data]
              && bc.view == old(bc.view)[b := old(bc.buf[src]).data]
              && bc.hist == old(bc.hist) + [bc.disk]
    {
      bc.Modify(dst, bc.buf[src].data);
      bc.Bwrite(dst);
      bc.Brelse(src);
      bc.Brelse(dst);
    }

    /** The loop body of write_log: the home block's newest contents go to its log block. */
    method ToLog(logno: nat, home: nat, ghost dirty: set<int>, ghost held: set<nat>, ghost avoid: set<int>)
        returns (ok: bool)
      requires bc.Valid() && logno < |bc.disk| && home < |bc.disk| && logno != home && logno in avoid && home in avoid
      requires Quiet(bc.buf[..], dirty, held) && Readers(bc.buf[..], bc.disk, held, avoid) && logno !in dirty
               && home in dirty
      modifies bc, bc.buf, bc.link
      ensures bc.Valid() && Quiet(bc.buf[..], dirty, held) && Readers(bc.buf[..], bc.disk, held, avoid)
      ensures forall i | i in held :: bc.buf[i] == old(bc.buf[i])
      ensures ok <==> |dirty| + |held| < NBUF
      ensures !ok ==> bc.disk == old(bc.disk) && bc.view == old(bc.view) && bc.hist == old(bc.hist)
      ensures ok ==>
                && bc.disk == old(bc.disk)[logno := old(bc.view)[home]]
                && bc.view == old(bc.view)[logno := old(bc.view)[home]] && bc.hist == old(bc.hist) + [bc.disk]
    {
      ghost var was, disk := bc.buf[..], bc.disk;
      var to, from;
      ok, to, from := ReadPair(logno, home, dirty, held, avoid);
      if !ok {
        return;
      }
      assert bc.buf[from].dirty by {
        assert Pinned(was, home);
        var i :| 0 <= i < NBUF && Holds(was[i], home) && was[i].dirty;
        assert i == from || i == to || was[i] == bc.buf[i];
      }
      CopyOut(from, to);
      QuietAfter(was, bc.buf[..], to, from, dirty, held, bc.disk, bc.view, logno);
      StillReading(was, bc.buf[..], disk, bc.disk, held, avoid);
      assert dirty - {logno} == dirty;
    }

    /** The loop body of install_trans: a log block goes home, and the home block is unpinned. */
    method ToHome(logno: nat, home: nat, ghost dirty: set<int>, ghost held: set<nat>, ghost avoid: set<int>)
      requires bc.Valid() && logno < |bc.disk| && home < |bc.disk| && logno != home && logno in avoid && home in avoid
      requires Quiet(bc.buf[..], dirty, held) && Readers(bc.buf[..], bc.disk, held, avoid) && logno !in dirty
      requires |dirty| + |held| + (if home in dirty then 0 else 1) < NBUF
      modifies bc, bc.buf, bc.link
      ensures bc.Valid() && Quiet(bc.buf[..], dirty - {home}, held) && Readers(bc.buf[..], bc.disk, held, avoid)
      ensures forall i | i in held :: bc.buf[i] == old(bc.buf[i])
      ensures bc.disk == old(bc.disk)[home := old(bc.disk)[logno]]
      ensures bc.view == old(bc.view)[home := old(bc.disk)[logno]] && bc.hist == old(bc.hist) + [bc.disk]
    {
      ghost var was, disk := bc.buf[..], bc.disk;
      QuietClean(was, dirty, held, avoid, bc.disk, bc.view, logno);
      var ok, lbuf, dbuf := ReadPair(logno, home, dirty, held, avoid);
      assert ok;
      CopyOut(lbuf, dbuf);
      QuietAfter(was, bc.buf[..], lbuf, dbuf, dirty, held, bc.disk, bc.view, home);
      StillReading(was, bc.buf[..], disk, bc.disk, held, avoid);
    }

    method FillHead(old_: Block) returns (data: Block)
      requires block.Length == LOGSIZE && n <= LOGSIZE
      ensures data == WithHead(old_, block[..n])
    {
      data := old_[0 := n];
      var i := 0;
      while i < n
        invariant 0 <= i <= n
        invariant data == [n] + block[..i] + old_[i + 1..]
      {
        data := data[i + 1 := block[i]];
        i := i + 1;
      }
    }

    /** Write a buffer that has been read, with new contents, and release it. */
    method PutBack(b: nat, data: Block)
      requires bc.Valid() && b < NBUF && bc.buf[b].locked && bc.buf[b].valid && bc.buf[b].refcnt == 1
      modifies bc, bc.buf, bc.link
      ensures bc.Valid() && bc.buf[b].refcnt == 0 && !bc.buf[b].dirty
      ensures forall i | 0 <= i < NBUF && i != b :: bc.buf[i] == old(bc.buf[i])
      ensures bc.disk == old(bc.disk)[old(bc.buf[b]).blockno := data]
              && bc.view == old(bc.view)[old(bc.buf[b]).blockno := data]
      ensures bc.hist == old(bc.hist) + [bc.disk]
    {
      bc.Modify(b, data);
      bc.Bwrite(b);
      bc.Brelse(b);
    }

    /** write_head: the single block write that commits, or that erases the transaction. */
    method WriteHead(ghost dirty: set<int>, ghost held: set<nat>, ghost avoid: set<int>)
      requires Wired() && Quiet(bc.buf[..], dirty, held) && Readers(bc.buf[..], bc.disk, held, avoid)
      requires area.start !in dirty && area.start in avoid && |dirty| + |held| < NBUF
      modifies bc, bc.buf, bc.link
      ensures Wired() && Quiet(bc.buf[..], dirty, held) && Readers(bc.buf[..], bc.disk, held, avoid)
      ensures forall i | i in held :: bc.buf[i] == old(bc.buf[i])
      ensures bc.disk == HeadWritten(area, old(bc.disk), block[..n])
      ensures bc.view == old(bc.view)[area.start := bc.disk[area.start]] && bc.hist == old(bc.hist) + [bc.disk]
    {
      ghost var was, disk := bc.buf[..], bc.disk;
      HasRoom(was, bc.disk, bc.view, dirty, held);
      NotHeld(was, bc.disk, held, avoid, area.start);
      var ok, b := bc.Bread(area.start);
      assert ok && b !in held;
      var data := FillHead(bc.buf[b].data);
      PutBack(b, data);
      QuietSame(was, bc.buf[..], b, dirty, held);
      StillReading(was, bc.buf[..], disk, bc.disk, held, avoid);
    }

    /** One turn of write_log's loop. */
    method LogTurn(tail: nat, ghost held: set<nat>, ghost d: Disk, ghost v: Disk, ghost start: seq<Disk>)
        returns (ok: bool)
      requires Wired() && tail < n && NoRepeats(block[..n]) && Quiet(bc.buf[..], Rest(block[..n], 0), held)
      requires Readers(bc.buf[..], bc.disk, held, Touched(area, block[..n]))
      requires |bc.disk| == |d| == |v| && bc.disk == CommitState(area, d, block[..n], v, tail)
      requires bc.hist == start + CommitTrace(area, d, block[..n], v, tail) && SameHome(area, v, bc.view)
      modifies bc, bc.buf, bc.link
      ensures Wired() && Quiet(bc.buf[..], Rest(block[..n], 0), held)
      ensures Readers(bc.buf[..], bc.disk, held, Touched(area, block[..n]))
      ensures forall i | i in held :: bc.buf[i] == old(bc.buf[i])
      ensures ok <==> n + |held| < NBUF
      ensures !ok ==> bc.disk == old(bc.disk) && bc.view == old(bc.view) && bc.hist == old(bc.hist)
      ensures ok ==>
                && |bc.disk| == |d| && bc.disk == CommitState(area, d, block[..n], v, tail + 1)
                && bc.hist == start + CommitTrace(area, d, block[..n], v, tail + 1) && SameHome(area, v, bc.view)
    {
      ghost var blocks, disk := block[..n], bc.disk;
      LogBlocks(area, blocks, tail, |disk|);
      ok := ToLog(area.start + tail + 1, block[tail], Rest(blocks, 0), held, Touched(area, blocks));
      if ok {
        LoggedMore(area, d, blocks, v, tail, disk, bc.disk, start, bc.hist);
      }
    }

    /** write_log: every logged block's newest contents go to its log block; ok is false where bget
        panics, which is before the first write. */
    method WriteLog(ghost held: set<nat>) returns (ok: bool)
      requires Wired() && NoRepeats(block[..n]) && Quiet(bc.buf[..], Rest(block[..n], 0), held)
      requires Readers(bc.buf[..], bc.disk, held, Touched(area, block[..n]))
      modifies bc, bc.buf, bc.link
      ensures Wired() && Quiet(bc.buf[..], Rest(block[..n], 0), held)
      ensures Readers(bc.buf[..], bc.disk, held, Touched(area, block[..n]))
      ensures forall i | i in held :: bc.buf[i] == old(bc.buf[i])
      ensures ok <==> n == 0 || n + |held| < NBUF
      ensures !ok ==> bc.disk == old(bc.disk) && bc.view == old(bc.view) && bc.hist == old(bc.hist)
      ensures ok ==>
                && bc.disk == CommitState(area, old(bc.disk), block[..n], old(bc.view), n)
                && bc.hist == old(bc.hist) + CommitTrace(area, old(bc.disk), block[..n], old(bc.view), n)
                && SameHome(area, old(bc.view), bc.view)
    {
      ghost var d, v := bc.disk, bc.view;
      ok := true;
      var tail := 0;
      while tail < n
        invariant 0 <= tail <= n && Wired() && ok && (tail > 0 ==> n + |held| < NBUF)
        invariant Quiet(bc.buf[..], Rest(block[..n], 0), held)
        invariant Readers(bc.buf[..], bc.disk, held, Touched(area, block[..n]))
        invariant forall i | i in held :: bc.buf[i] == old(bc.buf[i])
        invariant |bc.disk| == |d| && bc.disk == CommitState(area, d, block[..n], v, tail)
        invariant tail == 0 ==> bc.disk == old(bc.disk) && bc.view == old(bc.view) && bc.hist == old(bc.hist)
        invariant bc.hist == old(bc.hist) + CommitTrace(area, d, block[..n], v, tail)
        invariant SameHome(area, v, bc.view)
      {
        ok := LogTurn(tail, held, d, v, old(bc.hist));
        if !ok {
          return;
        }
        tail := tail + 1;
      }
    }

    /** One turn of install_trans's loop, for the log's list blocks; next is the next tail. */
    method InstallTurn(tail: nat, ghost next: nat, ghost blocks: seq<int>, ghost pinned: bool, ghost held: set<nat>,
                       ghost d: Disk, ghost start: seq<Disk>)
      requires Wired() && tail < n && next == tail + 1 && blocks == block[..n]
      requires (pinned ==> NoRepeats(blocks)) && if pinned then n + |held| < NBUF else held == {}
      requires Quiet(bc.buf[..], Pins(blocks, tail, pinned), held)
      requires Readers(bc.buf[..], bc.disk, held, Touched(area, blocks))
      requires |bc.disk| == |d| && bc.disk == Installed(area, d, blocks, tail)
      requires bc.hist == start + InstallTrace(area, d, blocks, tail)
      modifies bc, bc.buf, bc.link
      ensures Wired() && Quiet(bc.buf[..], Pins(blocks, next, pinned), held)
      ensures Readers(bc.buf[..], bc.disk, held, Touched(area, blocks))
      ensures forall i | i in held :: bc.buf[i] == old(bc.buf[i])
      ensures |bc.disk| == |d| && bc.disk == Installed(area, d, blocks, next)
      ensures bc.hist == start + InstallTrace(area, d, blocks, next)
    {
      ghost var disk := bc.disk;
      TurnBlocks(area, blocks, tail, next, pinned, |disk|, |held|);
      ToHome(area.start + tail + 1, block[tail], Pins(blocks, tail, pinned), held, Touched(area, blocks));
      InstalledMore(area, d, blocks, tail, next, disk, bc.disk, start, bc.hist);
    }

    /** install_trans: every log block goes home. At commit the home blocks are pinned and are
        unpinned here one by one; at recovery none is. */
    method InstallTrans(ghost pinned: bool, ghost held: set<nat>)
      requires Wired() && (pinned ==> NoRepeats(block[..n])) && if pinned then n + |held| < NBUF else held == {}
      requires Quiet(bc.buf[..], Pins(block[..n], 0, pinned), held)
      requires Readers(bc.buf[..], bc.disk, held, Touched(area, block[..n]))
      modifies bc, bc.buf, bc.link
      ensures Wired() && Quiet(bc.buf[..], {}, held) && Readers(bc.buf[..], bc.disk, held, Touched(area, block[..n]))
      ensures forall i | i in held :: bc.buf[i] == old(bc.buf[i])
      ensures bc.disk == Installed(area, old(bc.disk), block[..n], n)
      ensures bc.hist == old(bc.hist) + InstallTrace(area, old(bc.disk), block[..n], n)
    {
      ghost var d, blocks := bc.disk, block[..n];
      var tail := 0;
      while tail < n
        invariant 0 <= tail <= n && Wired() && block[..n] == blocks
        invariant Quiet(bc.buf[..], Pins(blocks, tail, pinned), held)
        invariant Readers(bc.buf[..], bc.disk, held, Touched(area, blocks))
        invariant forall i | i in held :: bc.buf[i] == old(bc.buf[i])
        invariant |bc.disk| == |d| && bc.disk == Installed(area, d, blocks, tail)
        invariant bc.hist == old(bc.hist) + InstallTrace(area, d, blocks, tail)
      {
        ghost var next := tail + 1;
        InstallTurn(tail, next, blocks, pinned, held, d, old(bc.hist));
        tail := tail + 1;
      }
    }

    method TakeHead(data: Block)
      requires block.Length == LOGSIZE && 0 <= data[0] <= LOGSIZE
      modifies this`n, block
      ensures n == data[0] && block[..n] == data[1..n + 1]
    {
      n := data[0];
      var i := 0;
      while i < n
        modifies block
        invariant 0 <= i <= n
        invariant block[..i] == data[1..i + 1]
      {
        block[i] := data[i + 1];
        i := i + 1;
      }
    }

    /** read_head. */
    method ReadHead()
      requires bc.Valid() && Quiet(bc.buf[..], {}, {}) && HeadOk(area, bc.disk) && area.size <= NBUF
      requires block.Length == LOGSIZE
      modifies this`n, block, bc, bc.buf, bc.link
      ensures bc.disk == old(bc.disk) && Wired() && Quiet(bc.buf[..], {}, {}) && block[..n] == HeadBlocks(area, bc.disk)
      ensures bc.hist == old(bc.hist) && bc.view == old(bc.view)
    {
      HasRoom(bc.buf[..], bc.disk, bc.view, {}, {});
      var ok, b := bc.Bread(area.start);
      assert ok;
      TakeHead(bc.buf[b].data);
      bc.Brelse(b);
    }

    /** recover_from_log. */
    method RecoverFromLog()
      requires bc.Valid() && Quiet(bc.buf[..], {}, {}) && HeadOk(area, bc.disk) && area.size <= NBUF
      requires block.Length == LOGSIZE
      modifies this`n, block, bc, bc.buf, bc.link
      ensures Pending() && n == 0 && Quiet(bc.buf[..], {}, {}) && bc.disk == Recovered(area, old(bc.disk))
      ensures bc.hist == old(bc.hist) + RecoveryTrace(area, old(bc.disk), |HeadBlocks(area, old(bc.disk))| + 1)
    {
      ghost var d, h := bc.disk, bc.hist;
      ReadHead();
      InstallTrans(false, {});
      n := 0;
      assert block[..0] == [];
      WriteHead({}, {}, {area.start});
      RecoveryHistory(area, d, bc.disk, h, bc.hist);
    }

    /** commit with something to write: its block writes are exactly those of CommitState, in order. */
    method CommitLogged(ghost held: set<nat>) returns (ok: bool)
      requires Wired() && n > 0 && NoRepeats(block[..n]) && Quiet(bc.buf[..], Rest(block[..n], 0), held)
      requires Readers(bc.buf[..], bc.disk, held, Touched(area, block[..n]))
      modifies this`n, bc, bc.buf, bc.link
      ensures forall i | i in held :: bc.buf[i] == old(bc.buf[i])
      ensures ok <==> old(n) + |held| < NBUF
      ensures !ok ==> n == old(n) && bc.disk == old(bc.disk) && bc.view == old(bc.view) && bc.hist == old(bc.hist)
      ensures ok ==>
                && n == 0 && Wired() && Quiet(bc.buf[..], {}, held)
                && Readers(bc.buf[..], bc.disk, held, Touched(area, old(block[..n])))
                && var m := old(n);
                && bc.disk == CommitState(area, old(bc.disk), old(block[..n]), old(bc.view), 2 * m + 2)
                && bc.hist == old(bc.hist) + CommitTrace(area, old(bc.disk), old(block[..n]), old(bc.view), 2 * m + 2)
    {
      ghost var d, v, h, blocks, m := bc.disk, bc.view, bc.hist, block[..n], n;
      ok := CommitPoint(held);
      if !ok {
        return;
      }
      ghost var c := bc.disk;
      Erase(blocks, held);
      CommitHistory(area, d, blocks, v, c, bc.disk, h, bc.hist);
    }

    /** write_log and the header write that commits. */
    method CommitPoint(ghost held: set<nat>) returns (ok: bool)
      requires Wired() && n > 0 && NoRepeats(block[..n]) && Quiet(bc.buf[..], Rest(block[..n], 0), held)
      requires Readers(bc.buf[..], bc.disk, held, Touched(area, block[..n]))
      modifies bc, bc.buf, bc.link
      ensures Wired() && Quiet(bc.buf[..], Rest(block[..n], 0), held)
      ensures Readers(bc.buf[..], bc.disk, held, Touched(area, block[..n]))
      ensures forall i | i in held :: bc.buf[i] == old(bc.buf[i])
      ensures ok <==> n + |held| < NBUF
      ensures !ok ==> bc.disk == old(bc.disk) && bc.view == old(bc.view) && bc.hist == old(bc.hist)
      ensures ok ==>
                && bc.disk == CommitState(area, old(bc.disk), block[..n], old(bc.view), n + 1)
                && bc.hist == old(bc.hist) + CommitTrace(area, old(bc.disk), block[..n], old(bc.view), n + 1)
    {
      ghost var d, v, h := bc.disk, bc.view, bc.hist;
      RestExact(block[..n], 0);
      ok := WriteLog(held);
      if !ok {
        return;
      }
      WriteHead(Rest(block[..n], 0), held, Touched(area, block[..n]));
      CommitTraceGrows(area, d, block[..n], v, n);
      assert bc.hist == h + (CommitTrace(area, d, block[..n], v, n) + [bc.disk]);
    }

    /** install_trans and the header write that erases the transaction. */
    method Erase(ghost blocks: seq<int>, ghost held: set<nat>)
      requires Wired() && NoRepeats(block[..n]) && Quiet(bc.buf[..], Rest(block[..n], 0), held) && blocks == block[..n]
      requires Readers(bc.buf[..], bc.disk, held, Touched(area, blocks)) && n + |held| < NBUF
      modifies this`n, bc, bc.buf, bc.link
      ensures n == 0 && Wired() && Quiet(bc.buf[..], {}, held)
              && Readers(bc.buf[..], bc.disk, held, Touched(area, blocks))
      ensures forall i | i in held :: bc.buf[i] == old(bc.buf[i])
      ensures bc.disk == HeadWritten(area, Installed(area, old(bc.disk), blocks, |blocks|), [])
      ensures bc.hist == old(bc.hist) + InstallTrace(area, old(bc.disk), blocks, |blocks|) + [bc.disk]
    {
      InstallTrans(true, held);
      n := 0;
      assert block[..n] == [];
      WriteHead({}, held, Touched(area, blocks));
    }

    /** commit, while others may hold buffers to read blocks that it does not touch. It panics, before
        writing anything, if and only if they leave no buffer beside those of the logged blocks.
        Otherwise it leaves the newest contents of every block outside the log at home, and whatever
        disk a crash on the way leaves recovers to the contents before it, or to the newest
        contents if the header write, write number n, is done. */
    method Commit() returns (ok: bool)
      requires Pending() && Readers(bc.buf[..], bc.disk, HeldSet(bc.buf[..]), Touched(area, block[..n]))
      modifies this`n, bc, bc.buf, bc.link
      ensures forall i | 0 <= i < NBUF && old(bc.buf[i]).refcnt > 0 :: bc.buf[i] == old(bc.buf[i])
      ensures ok <==> old(n) == 0 || old(n) + |HeldSet(old(bc.buf[..]))| < NBUF
      ensures !ok ==> n == old(n) && bc.disk == old(bc.disk) && bc.view == old(bc.view) && bc.hist == old(bc.hist)
      ensures ok ==>
                && Pending() && n == 0 && Quiet(bc.buf[..], {}, HeldSet(old(bc.buf[..])))
                && bc.hist == old(bc.hist) + (if old(n) == 0 then [] else
                     CommitTrace(area, old(bc.disk), old(block[..n]), old(bc.view), 2 * old(n) + 2))
                && SameHome(area, old(bc.view), bc.disk) && bc.view == bc.disk
                && Recoverable(area, |old(bc.hist)|, bc.hist, old(n), old(bc.disk), old(bc.view))
    {
      ghost var d, v, blocks, hist, was := bc.disk, bc.view, block[..n], bc.hist, bc.buf[..];
      ghost var held := HeldSet(was);
      LoggedQuiet(area, was, d, blocks);
      ok := true;
      if n > 0 {
        ok := CommitLogged(held);
        if !ok {
          return;
        }
        CommitComplete(area, d, blocks, v);
        EveryState(area, was, d, v, blocks, held, hist, bc.hist);
        assert block[..n] == [];
      }
      Durable(area, was, d, v, blocks, held, bc.disk);
      QuietLogged(bc.buf[..], held, Touched(area, blocks), bc.disk, bc.view);
    }

    /** One pass of begin_op's loop under the lock: admitted, or the caller sleeps and tries again. */
    method BeginOp() returns (admitted: bool)
      requires Pending()
      modifies this`outstanding
      ensures Pending()
      ensures admitted <==> !committing && n + (old(outstanding) + 1) * MAXOPBLOCKS <= LOGSIZE
      ensures outstanding == old(outstanding) + if admitted then 1 else 0
    {
      if committing {
        admitted := false;
      } else if n + (outstanding + 1) * MAXOPBLOCKS > LOGSIZE {
        admitted := false;
      } else {
        outstanding := outstanding + 1;
        admitted := true;
      }
    }

    /** log_write's search: the block's slot, or the first free one. */
    method FindSlot(blockno: nat) returns (i: nat)
      requires n <= block.Length
      ensures i <= n && (i < n ==> block[i] == blockno)
      ensures i == n <==> blockno !in block[..n]
    {
      i := 0;
      while i < n && block[i] != blockno
        invariant 0 <= i <= n
        invariant blockno !in block[..i]
      {
        i := i + 1;
      }
    }

    /** Enter the block in the header, absorbing a repeat. */
    method Record(blockno: nat)
      requires n < block.Length && NoRepeats(block[..n])
      modifies this`n, block
      ensures n <= block.Length && NoRepeats(block[..n])
      ensures block[..n] == Recorded(old(block[..n]), blockno)
    {
      ghost var before := block[..n];
      var i := FindSlot(blockno);
      block[i] := blockno;
      if i == n {
        n := n + 1;
      }
      assert block[..n] == if i < |before| then before else before + [blockno];
    }

    /** log_write: record and pin the block, absorbing a repeat; ok is false where it panics. */
    method LogWrite(b: nat) returns (ok: bool)
      requires Pending() && b < NBUF && bc.buf[b].locked && bc.buf[b].valid && !area.In(bc.buf[b].blockno)
      modifies this`n, block, bc.buf
      ensures Pending()
      ensures ok <==> old(n) < LOGSIZE && old(n) < area.size - 1 && outstanding >= 1
      ensures !ok ==> bc.buf[b] == old(bc.buf[b])
      ensures ok ==> bc.buf[b] == old(bc.buf[b]).(dirty := true)
      ensures forall i | 0 <= i < NBUF && i != b :: bc.buf[i] == old(bc.buf[i])
      ensures block[..n] == if ok then Recorded(old(block[..n]), bc.buf[b].blockno) else old(block[..n])
      ensures ok && bc.buf[b].blockno in old(block[..n]) ==> block[..n] == old(block[..n])
      ensures ok && bc.buf[b].blockno !in old(block[..n]) ==> block[..n] == old(block[..n]) + [bc.buf[b].blockno]
    {
      if n >= LOGSIZE || n >= area.size - 1 || outstanding < 1 {
        return false;
      }
      ghost var was, before := bc.buf[..], block[..n];
      LoggableGrows(area, before, bc.buf[b].blockno, |bc.disk|);
      Record(bc.buf[b].blockno);
      bc.Pin(b);
      StillLogged(was, bc.buf[..], b, before);
      ok := true;
    }

    /** end_op: the last operation out commits for all of them; ok is false where it panics. */
    method EndOp() returns (ok: bool)
      requires Pending()
      requires outstanding == 1 ==> Readers(bc.buf[..], bc.disk, HeldSet(bc.buf[..]), Touched(area, block[..n]))
      modifies this`n, this`outstanding, this`committing, bc, bc.buf, bc.link
      ensures outstanding == old(outstanding) - 1
      ensures ok <==>
                !old(committing) && (outstanding == 0 && old(n) > 0 ==> old(n) + |HeldSet(old(bc.buf[..]))| < NBUF)
      ensures ok ==> Pending() && !committing
      ensures !ok || outstanding != 0 ==>
                n == old(n) && bc.disk == old(bc.disk) && bc.view == old(bc.view) && bc.hist == old(bc.hist)
      ensures ok && outstanding == 0 ==>
                && n == 0 && SameHome(area, old(bc.view), bc.disk) && bc.view == bc.disk
                && Quiet(bc.buf[..], {}, HeldSet(old(bc.buf[..])))
                && |bc.hist| >= |old(bc.hist)| && bc.hist[..|old(bc.hist)|] == old(bc.hist)
                && Recoverable(area, |old(bc.hist)|, bc.hist, old(n), old(bc.disk), old(bc.view))
    {
      outstanding := outstanding - 1;
      if committing {
        return false;
      }
      ok := true;
      if outstanding == 0 {
        committing := true;
        ok := Commit();
        if !ok {
          return;
        }
        committing := false;
      }
    }
  }

  // ---------------------------------------------------------------- readers beside a commit

  /** A block held by a reader is none of those the commit asks for. */
  lemma NotHeld(buf: seq<Buf>, disk: Disk, held: set<nat>, avoid: set<int>, b: nat)
    requires |buf| == NBUF && (forall i | 0 <= i < NBUF :: i in held <==> buf[i].refcnt > 0)
    requires Readers(buf, disk, held, avoid) && b in avoid
    ensures forall i | 0 <= i < NBUF && Holds(buf[i], b) :: buf[i].refcnt == 0
  {
    forall i | 0 <= i < NBUF && i in held
      ensures !Holds(buf[i], b)
    {
      assert Reader(buf[i], disk, avoid);
    }
  }

  /** If no buffer can be recycled, a block that is neither dirty nor read is not cached. */
  lemma NotCached(buf: seq<Buf>, disk: Disk, dirty: set<int>, held: set<nat>, avoid: set<int>, b: nat)
    requires Quiet(buf, dirty, held) && Readers(buf, disk, held, avoid) && b in avoid && b !in dirty
    ensures forall i | 0 <= i < NBUF && Holds(buf[i], b) :: Recyclable(buf[i])
  {
    NotHeld(buf, disk, held, avoid, b);
  }

  lemma OneMoreHeld(was: seq<Buf>, now: seq<Buf>, b: nat, dirty: set<int>, held: set<nat>)
    requires Quiet(was, dirty, held) && |now| == NBUF && b < NBUF && b !in held
    requires forall i | 0 <= i < NBUF && i != b :: now[i] == was[i]
    requires now[b].refcnt > 0 && !now[b].dirty && !was[b].dirty
    ensures Quiet(now, dirty, held + {b})
  {
    forall c | c in dirty
      ensures Pinned(now, c)
    {
      assert Pinned(was, c);
      var i :| 0 <= i < NBUF && was[i].dev == ROOTDEV && was[i].blockno == c && was[i].dirty;
      assert now[i] == was[i];
    }
  }

  /** A cache that holds n logged blocks, and a block each for readers in all its other buffers. */
  function Crowded(disk: Disk, first: nat, n: nat): seq<Buf>
    requires first + NBUF <= |disk|
  {
    seq(NBUF, i requires 0 <= i < NBUF =>
          Buf(true, i < n, ROOTDEV, first + i, i >= n, if i < n then 0 else 1, disk[first + i]))
  }

  function Consecutive(first: nat, n: nat): seq<int> {
    seq(n, i requires 0 <= i < n => first + i)
  }

  /** Such a cache is sound, and a commit in it finds no buffer: with 28 logged blocks, as many as
      operations within their budget can log, two readers suffice. */
  lemma {:induction false} ReadersStarve(a: Area, disk: Disk, first: nat, n: nat)
    requires first + NBUF <= |disk| && a.start + a.size <= first && 0 < n < a.size && n <= LOGSIZE && n <= NBUF
    ensures var buf, blocks := Crowded(disk, first, n), Consecutive(first, n);
            && Coherent(buf, disk, disk) && a.Loggable(blocks, |disk|) && NoRepeats(blocks)
            && DirtyIsLogged(buf, blocks)
            && Readers(buf, disk, HeldSet(buf), Touched(a, blocks)) && |HeldSet(buf)| == NBUF - n
            && forall i | 0 <= i < NBUF :: !Recyclable(buf[i])
  {
    var buf, blocks := Crowded(disk, first, n), Consecutive(first, n);
    forall b | b in blocks
      ensures Pinned(buf, b)
    {
      var i :| 0 <= i < n && blocks[i] == b;
      assert buf[i].blockno == b && buf[i].dirty;
    }
    forall i | 0 <= i < NBUF && buf[i].dirty
      ensures buf[i].blockno in blocks
    {
      assert blocks[i] == buf[i].blockno;
    }
    CrowdHeld(buf, n, NBUF);
    forall i | i in HeldSet(buf)
      ensures Reader(buf[i], disk, Touched(a, blocks))
    {
      assert buf[i].blockno == first + i && buf[i].blockno !in blocks && !a.In(buf[i].blockno);
    }
  }

  lemma {:induction false} CrowdHeld(buf: seq<Buf>, n: nat, all: nat)
    requires n <= all == |buf| && forall i | 0 <= i < all :: buf[i].refcnt > 0 <==> i >= n
    ensures |HeldSet(buf)| == all - n
  {
    assert HeldSet(buf) == UpTo(all) - UpTo(n);
    assert UpTo(n) <= UpTo(all);
  }
}
