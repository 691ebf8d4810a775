/** A file operation all the way down: the stores that fs.c makes, each by bread, log_write and brelse,
    between begin_op and end_op, over the log and the buffer cache, and what a crash leaves of it. */
module FsThrough {
  import opened Common
  import Blocks
  import opened Bcache
  import opened FsBlocks
  import opened Fs
  import opened FsBudget
  import opened FsLog
  import opened LogDisk
  import L = Log

  // ---------------------------------------------------------------- one store

  /** Nobody holds a buffer. */
  ghost predicate Idle(buf: seq<Buf>) {
    |buf| == NBUF && forall i | 0 <= i < NBUF :: buf[i].refcnt == 0
  }

  /** One operation is in progress, between two of its stores. */
  ghost predicate Open(log: L.Log)
    reads log, log.bc, log.bc.buf, log.bc.link, log.block
  {
    log.Pending() && Idle(log.bc.buf[..]) && log.outstanding == 1 && !log.committing
  }

  predicate Storable(sb: Super, a: Area, disksize: nat, st: Store) {
    BlockOf(sb, st) < disksize && !a.In(BlockOf(sb, st)) && (st.Dinode? ==> |st.ip.addrs| == NDIRECT + 1)
  }

  /** bread finds a buffer, and no lock to wait for. */
  lemma ReadReady(buf: seq<Buf>, disk: Disk, view: Disk, blocks: seq<int>, b: nat)
    requires Coherent(buf, disk, view) && Idle(buf) && L.DirtyIsLogged(buf, blocks) && L.NoRepeats(blocks)
    requires |blocks| < NBUF
    ensures forall i | 0 <= i < NBUF && Holds(buf[i], b) :: !buf[i].locked
    ensures exists i | 0 <= i < NBUF :: Recyclable(buf[i])
  {
    assert L.Quiet(buf, L.Rest(blocks, 0), {});
    L.RestExact(blocks, 0);
    L.HasRoom(buf, disk, view, L.Rest(blocks, 0), {});
  }

  /** Between bread and brelse of an operation's store: buffer k alone is held. */
  ghost predicate HoldsOne(buf: seq<Buf>, k: nat, b: nat) {
    && |buf| == NBUF && k < NBUF && Holds(buf[k], b) && buf[k].valid && buf[k].locked && buf[k].refcnt == 1
    && forall i | 0 <= i < NBUF && i != k :: buf[i].refcnt == 0
  }

  /** bread changes no buffer of a logged block. */
  lemma StillDirty(was: seq<Buf>, now: seq<Buf>, k: nat, blocks: seq<int>)
    requires L.DirtyIsLogged(was, blocks) && |now| == NBUF && k < NBUF
    requires forall i | 0 <= i < NBUF && i != k :: now[i] == was[i]
    requires now[k].dirty == was[k].dirty
    requires now[k].dirty ==> now[k].dev == was[k].dev && now[k].blockno == was[k].blockno
    ensures L.DirtyIsLogged(now, blocks)
  {
    forall c | c in blocks
      ensures L.Pinned(now, c)
    {
      assert L.Pinned(was, c);
      var i :| 0 <= i < NBUF && was[i].dev == ROOTDEV && was[i].blockno == c && was[i].dirty;
      assert now[i].dev == ROOTDEV && now[i].blockno == c && now[i].dirty;
    }
  }

  /** bread of an operation. */
  method Read(log: L.Log, b: nat) returns (k: nat)
    requires Open(log) && b < |log.bc.disk| && log.n < LOGSIZE
    modifies log.bc.buf
    ensures log.Pending() && HoldsOne(log.bc.buf[..], k, b) && log.bc.buf[k].data == log.bc.view[b]
  {
    ghost var was, blocks := log.bc.buf[..], log.block[..log.n];
    ReadReady(was, log.bc.disk, log.bc.view, blocks, b);
    var ok;
    ok, k := log.bc.Bread(b);
    StillDirty(was, log.bc.buf[..], k, blocks);
  }

  /** The change of its data, and log_write. */
  method Change(log: L.Log, k: nat, b: nat, data: Blocks.Block) returns (ok: bool)
    requires log.Pending() && HoldsOne(log.bc.buf[..], k, b) && log.outstanding == 1 && !log.area.In(b)
    requires b < |log.bc.disk|
    modifies log`n, log.block, log.bc`view, log.bc.buf
    ensures log.Pending() && HoldsOne(log.bc.buf[..], k, b) && log.bc.view == old(log.bc.view)[b := data]
    ensures ok <==> old(log.n) < LOGSIZE && old(log.n) < log.area.size - 1
    ensures ok ==> log.bc.buf[k].dirty && log.block[..log.n] == L.Recorded(old(log.block[..log.n]), b)
  {
    ghost var was, blocks := log.bc.buf[..], log.block[..log.n];
    log.bc.Modify(k, data);
    StillDirty(was, log.bc.buf[..], k, blocks);
    assert log.block[..log.n] == blocks;
    ok := log.LogWrite(k);
  }

  /** brelse. */
  method Release(log: L.Log, k: nat, b: nat)
    requires log.Pending() && HoldsOne(log.bc.buf[..], k, b) && log.bc.buf[k].dirty
    modifies log.bc.buf, log.bc.link, log.bc`ring, log.bc`stamp, log.bc`clock
    ensures log.Pending() && Idle(log.bc.buf[..])
  {
    ghost var was, blocks := log.bc.buf[..], log.block[..log.n];
    log.bc.Brelse(k);
    StillDirty(was, log.bc.buf[..], k, blocks);
    assert log.block[..log.n] == blocks;
  }

  /** One store of an operation: ok is false where log_write panics. */
  method StoreOne(log: L.Log, sb: Super, st: Store) returns (ok: bool)
    requires Open(log) && Storable(sb, log.area, |log.bc.disk|, st) && log.n < LOGSIZE && log.n < log.area.size - 1
    modifies log`n, log.block, log.bc, log.bc.buf, log.bc.link
    ensures ok && Open(log) && log.bc.disk == old(log.bc.disk) && log.bc.hist == old(log.bc.hist)
    ensures log.bc.view == Laid(sb, old(log.bc.view), st)
    ensures log.block[..log.n] == L.Recorded(old(log.block[..log.n]), BlockOf(sb, st))
  {
    var b := BlockOf(sb, st);
    var k := Read(log, b);
    ok := Change(log, k, b, Stored(log.bc.buf[k].data, st));
    Release(log, k, b);
  }

  // ---------------------------------------------------------------- all stores of an operation

  lemma {:induction false} DistinctFew(blocks: seq<int>, x: set<nat>)
    requires L.NoRepeats(blocks) && forall b | b in blocks :: b >= 0 && b in x
    ensures |blocks| <= |x|
    decreases |blocks|
  {
    if blocks != [] {
      var most, b := blocks[..|blocks| - 1], blocks[|blocks| - 1];
      assert forall c | c in most :: c in blocks && c != b;
      DistinctFew(most, x - {b});
    }
  }

  /** The stores so far are recorded and in the cache. */
  ghost predicate Laying(sb: Super, v0: Disk, inodes: map<nat, Inode>, stores: seq<Store>, k: nat, blocks: seq<int>,
                         view: Disk) {
    && k <= |stores| && AllProper(sb, |v0|, inodes, stores[..k]) && view == LaidAll(sb, v0, inodes, stores[..k])
    && forall b | b in blocks :: b >= 0 && b in BlocksOf(sb, stores[..k])
  }

  lemma LayingNothing(sb: Super, v0: Disk, inodes: map<nat, Inode>, stores: seq<Store>)
    ensures Laying(sb, v0, inodes, stores, 0, [], v0)
  {
    assert stores[..0] == [];
  }

  lemma LayingMore(sb: Super, v0: Disk, inodes: map<nat, Inode>, stores: seq<Store>, k: nat, blocks: seq<int>,
                   view: Disk, next: nat, blocks': seq<int>, view': Disk)
    requires Laying(sb, v0, inodes, stores, k, blocks, view) && k < |stores| && next == k + 1
    requires AllProper(sb, |v0|, inodes, stores) && Proper(sb, |v0|, inodes, stores[k])
    requires blocks' == L.Recorded(blocks, BlockOf(sb, stores[k])) && view' == Laid(sb, view, stores[k])
    ensures Laying(sb, v0, inodes, stores, next, blocks', view')
  {
    var most, all := stores[..k], stores[..next];
    assert all == most + [stores[k]] && all[..|all| - 1] == most;
    BlocksOfSum(sb, most, [stores[k]]);
    BlocksOfOne(sb, stores[k]);
  }

  lemma LayingFew(sb: Super, v0: Disk, inodes: map<nat, Inode>, stores: seq<Store>, k: nat, blocks: seq<int>,
                  view: Disk)
    requires Laying(sb, v0, inodes, stores, k, blocks, view) && L.NoRepeats(blocks)
    ensures |blocks| <= |BlocksOf(sb, stores)|
  {
    assert stores == stores[..k] + stores[k..];
    BlocksOfSum(sb, stores[..k], stores[k..]);
    DistinctFew(blocks, BlocksOf(sb, stores));
  }

  lemma ProperStorable(sb: Super, a: Area, disksize: nat, inodes: map<nat, Inode>, st: Store)
    requires Layout(sb, a) && Proper(sb, disksize, inodes, st)
    ensures Storable(sb, a, disksize, st)
  {
  }

  /** One after k others. */
  method StoreTurn(log: L.Log, sb: Super, stores: seq<Store>, k: nat, ghost next: nat, ghost inodes: map<nat, Inode>,
                   ghost v0: Disk) returns (ok: bool)
    requires Open(log) && k < |stores| && next == k + 1 && |v0| == |log.bc.disk|
    requires Layout(sb, log.area) && AllProper(sb, |v0|, inodes, stores)
    requires |BlocksOf(sb, stores)| < LOGSIZE && |BlocksOf(sb, stores)| < log.area.size - 1
    requires Laying(sb, v0, inodes, stores, k, log.block[..log.n], log.bc.view)
    modifies log`n, log.block, log.bc, log.bc.buf, log.bc.link
    ensures ok && Open(log) && log.bc.disk == old(log.bc.disk) && log.bc.hist == old(log.bc.hist)
    ensures Laying(sb, v0, inodes, stores, next, log.block[..log.n], log.bc.view)
  {
    ghost var blocks, view := log.block[..log.n], log.bc.view;
    LayingFew(sb, v0, inodes, stores, k, blocks, view);
    assert Proper(sb, |v0|, inodes, stores[k]);
    ProperStorable(sb, log.area, |v0|, inodes, stores[k]);
    ok := StoreOne(log, sb, stores[k]);
    LayingMore(sb, v0, inodes, stores, k, blocks, view, next, log.block[..log.n], log.bc.view);
  }

  /** They fit the log where it has room for one more block than they touch. */
  method StoreAll(log: L.Log, sb: Super, stores: seq<Store>, ghost inodes: map<nat, Inode>) returns (ok: bool)
    requires Open(log) && log.n == 0 && Layout(sb, log.area) && AllProper(sb, |log.bc.disk|, inodes, stores)
    requires |BlocksOf(sb, stores)| < LOGSIZE && |BlocksOf(sb, stores)| < log.area.size - 1
    modifies log`n, log.block, log.bc, log.bc.buf, log.bc.link
    ensures ok && Open(log) && log.bc.disk == old(log.bc.disk) && log.bc.hist == old(log.bc.hist)
    ensures log.bc.view == LaidAll(sb, old(log.bc.view), inodes, stores) && log.n <= |BlocksOf(sb, stores)|
  {
    ghost var v0, d0, h0 := log.bc.view, log.bc.disk, log.bc.hist;
    LayingNothing(sb, v0, inodes, stores);
    assert log.block[..log.n] == [];
    var k := 0;
    ok := true;
    while k < |stores|
      invariant ok && Open(log) && log.bc.disk == d0 && log.bc.hist == h0
      invariant Laying(sb, v0, inodes, stores, k, log.block[..log.n], log.bc.view)
    {
      ghost var next := k + 1;
      ok := StoreTurn(log, sb, stores, k, next, inodes, v0);
      k := k + 1;
    }
    LayingFew(sb, v0, inodes, stores, k, log.block[..log.n], log.bc.view);
    assert stores[..k] == stores;
  }

  // ---------------------------------------------------------------- a write from begin_op to the disk

  /** No operation is in progress, and nobody holds a buffer. */
  ghost predicate AtRest(log: L.Log)
    reads log, log.bc, log.bc.buf, log.bc.link, log.block
  {
    log.Pending() && Idle(log.bc.buf[..]) && log.n == 0 && log.outstanding == 0 && !log.committing
  }

  lemma RestView(buf: seq<Buf>, disk: Disk, view: Disk)
    requires Coherent(buf, disk, view) && Idle(buf) && L.DirtyIsLogged(buf, [])
    ensures view == disk
  {
    assert L.Quiet(buf, {}, {});
    L.QuietLogged(buf, {}, {}, disk, view);
  }

  /** The log and the disk that make up a mounted file system; the log is larger than an operation by two. */
  ghost predicate Mounted(log: L.Log, sb: Super, s: State)
    reads log, log.bc, log.bc.buf, log.bc.link, log.block
  {
    && AtRest(log) && Layout(sb, log.area) && sb.bmapstart <= sb.datastart && MAXOPBLOCKS + 1 < log.area.size
    && Stores(sb, log.bc.disk, s)
  }

  /** Whichever of the disk's states from start on is the last before a crash, and however often recovery
      crashes too, the disk that recovery completes to holds s, or t from the state after the first n on. */
  ghost predicate Survives(sb: Super, a: Area, base: Disk, hist: seq<Disk>, start: nat, n: nat, s: State, t: State) {
    forall j: nat, ds: seq<Disk> | start <= j < |hist| && CrashedRecoveries(a, ds) && ds[0] == hist[j] ::
      && HeadOk(a, ds[|ds| - 1]) && KeepsRest(sb, a, base, Recovered(a, ds[|ds| - 1]))
      && Stores(sb, Recovered(a, ds[|ds| - 1]), if j - start < n then s else t)
  }

  lemma CommitSurvives(sb: Super, a: Area, base: Disk, d: Disk, view: Disk, s: State, t: State, start: nat,
                       hist: seq<Disk>, n: nat)
    requires Layout(sb, a) && Stores(sb, d, s) && Stores(sb, view, t) && L.Recoverable(a, start, hist, n, d, view)
    requires KeepsRest(sb, a, base, d) && KeepsRest(sb, a, base, view)
    ensures Survives(sb, a, base, hist, start, n, s, t)
  {
    forall j: nat, ds: seq<Disk> | start <= j < |hist| && CrashedRecoveries(a, ds) && ds[0] == hist[j]
      ensures HeadOk(a, ds[|ds| - 1]) && Stores(sb, Recovered(a, ds[|ds| - 1]), if j - start < n then s else t)
      ensures KeepsRest(sb, a, base, Recovered(a, ds[|ds| - 1]))
    {
      RecoveryConverges(a, ds);
      RestHome(sb, a, if j - start < n then d else view, Recovered(a, hist[j]));
      RestTwice(sb, a, base, if j - start < n then d else view, Recovered(a, ds[|ds| - 1]));
      OperationAtomic(sb, a, d, view, s, t, start, hist, n, j, ds);
    }
  }

  /** The stores of an operation that leads from s to t, and end_op. */
  method Finish(log: L.Log, sb: Super, stores: seq<Store>, ghost base: Disk, ghost s: State, ghost t: State)
      returns (ok: bool, ghost n: nat)
    requires Open(log) && log.n == 0 && Layout(sb, log.area) && MAXOPBLOCKS + 1 < log.area.size
    requires Stores(sb, log.bc.disk, s) && Logged(sb, Moment(s, []), Moment(t, stores), MAXOPBLOCKS)
    requires KeepsRest(sb, log.area, base, log.bc.disk)
    modifies log, log.block, log.bc, log.bc.buf, log.bc.link
    ensures ok && AtRest(log) && |log.bc.disk| == |old(log.bc.disk)|
    ensures Stores(sb, log.bc.disk, t) && n <= |BlocksOf(sb, stores)|
    ensures old(log.bc.hist) <= log.bc.hist && Survives(sb, log.area, base, log.bc.hist, |old(log.bc.hist)|, n, s, t)
    ensures KeepsRest(sb, log.area, base, log.bc.disk)
  {
    ghost var d, start := log.bc.disk, |log.bc.hist|;
    RestView(log.bc.buf[..], d, log.bc.view);
    assert Since([], stores) == stores;
    OperationStores(sb, d, Moment(s, []), Moment(t, stores), MAXOPBLOCKS);
    ok := StoreAll(log, sb, stores, s.inodes);
    ghost var view := log.bc.view;
    n := log.n;
    ok := log.EndOp();
    RestLaidAll(sb, log.area, d, s.inodes, stores);
    RestTwice(sb, log.area, base, d, view);
    CommitSurvives(sb, log.area, base, d, view, s, t, start, log.bc.hist, n);
    StoresHome(sb, log.area, view, log.bc.disk, t);
    RestHome(sb, log.area, view, log.bc.disk);
    RestTwice(sb, log.area, base, view, log.bc.disk);
  }

  /** filewrite's piece, from begin_op to end_op: the file system that the disk holds gets the piece, all of it
      or, where the machine stops on the way, perhaps none. ok is false, with the disk as it was, exactly where
      balloc panics. */
  method WriteThrough(log: L.Log, fs: Fs, f: File, src: seq<Byte>, ghost base: Disk, ghost lo: nat, ghost hi: nat)
      returns (ok: bool, r: int, ghost n: nat)
    requires Mounted(log, fs.sb, fs.Now()) && fs.Valid() && f.ip in fs.inodes && f.off < UINT && 0 < |src| <= CHUNK
    requires lo == f.off / BSIZE && hi == BlockEnd(f.off, |src|) && KeepsRest(fs.sb, log.area, base, log.bc.disk)
    modifies log, log.block, log.bc, log.bc.buf, log.bc.link
    modifies f`off, fs`blocks, fs`inodes, fs`dinodes, fs`owner, fs`logged
    ensures ok <==> Refused(old(fs.Now()), f.ip, old(f.off), |src|) || Enough(fs.sb, old(fs.Now()), f.ip, lo, hi)
    ensures !ok ==> log.bc.disk == old(log.bc.disk) && log.bc.hist == old(log.bc.hist)
    ensures !ok ==> fs.At() in AfterRunningOut(fs.sb, Moment(old(fs.Now()), []), f.ip, lo, hi)
    ensures ok ==> fs.Valid() && f.ip in fs.inodes && f.off < UINT && Mounted(log, fs.sb, fs.Now())
    ensures ok ==> (r == -1 <==> Refused(old(fs.Now()), f.ip, old(f.off), |src|))
    ensures ok && r == -1 ==> fs.Now() == old(fs.Now()) && f.off == old(f.off)
    ensures ok && r != -1 ==>
              && r == |src| && f.off == old(f.off) + |src|
              && fs.At() in AfterWrite(fs.sb, Moment(old(fs.Now()), []), f.ip, old(f.off), src)
    ensures ok ==> && old(log.bc.hist) <= log.bc.hist && n <= Budget(fs.sb)
                   && Survives(fs.sb, log.area, base, log.bc.hist, |old(log.bc.hist)|, n, old(fs.Now()), fs.Now())
    ensures KeepsRest(fs.sb, log.area, base, log.bc.disk)
  {
    ghost var s := fs.Now();
    n := 0;
    var admitted := log.BeginOp();
    ok, r := f.WriteChunk(fs, src, lo, hi);
    if !ok {
      return;
    }
    PieceLogged(fs.sb, s, fs.At(), f.ip, old(f.off), src, r);
    ok, n := Finish(log, fs.sb, fs.logged, base, s, fs.Now());
  }

  lemma PieceLogged(sb: Super, s: State, t: Moment, i: nat, off: nat, src: seq<Byte>, r: int)
    requires Sound(sb, s) && |src| <= CHUNK
    requires if r == -1 then t == Moment(s, []) else t in AfterWrite(sb, Moment(s, []), i, off, src)
    ensures Logged(sb, Moment(s, []), t, MAXOPBLOCKS) && |BlocksOf(sb, t.log)| <= Budget(sb)
  {
    assert Since([], t.log) == t.log;
    if r == -1 {
      assert BlocksOf(sb, []) == {};
    } else {
      ChunkBudget(sb, s, i, off, |src|);
    }
  }

  // ---------------------------------------------------------------- filewrite

  /** The disk holds s, or what becomes of it after some pieces of the write of src. */
  ghost predicate HoldsPrefix(sb: Super, d: Disk, s: State, i: nat, off: nat, src: seq<Byte>) {
    exists u: State, k: nat :: u in AfterFilling(sb, s, i, off, src, k) && Stores(sb, d, u)
  }

  lemma HeldPrefix(sb: Super, d: Disk, s: State, u: State, i: nat, off: nat, src: seq<Byte>, k: nat)
    requires u in AfterFilling(sb, s, i, off, src, k) && Stores(sb, d, u)
    ensures HoldsPrefix(sb, d, s, i, off, src)
  {
  }

  /** ... after a crash in any disk state from start on, and crashes in recovery; and but for its files the disk is
      as base. */
  ghost predicate PrefixSurvives(sb: Super, a: Area, base: Disk, hist: seq<Disk>, start: nat, s: State, i: nat,
                                 off: nat, src: seq<Byte>) {
    forall j: nat, ds: seq<Disk> | start <= j < |hist| && CrashedRecoveries(a, ds) && ds[0] == hist[j] ::
      && HeadOk(a, ds[|ds| - 1]) && KeepsRest(sb, a, base, Recovered(a, ds[|ds| - 1]))
      && HoldsPrefix(sb, Recovered(a, ds[|ds| - 1]), s, i, off, src)
  }

  lemma SurvivesMore(sb: Super, a: Area, base: Disk, hist: seq<Disk>, hist': seq<Disk>, start: nat, n: nat, s: State,
                     t: State, u: State, i: nat, off: nat, src: seq<Byte>, k: nat, l: nat)
    requires PrefixSurvives(sb, a, base, hist, start, s, i, off, src) && hist <= hist'
    requires t in AfterFilling(sb, s, i, off, src, k) && u in AfterFilling(sb, s, i, off, src, l)
    requires Survives(sb, a, base, hist', |hist|, n, t, u)
    ensures PrefixSurvives(sb, a, base, hist', start, s, i, off, src)
  {
    forall j: nat, ds: seq<Disk> | start <= j < |hist'| && CrashedRecoveries(a, ds) && ds[0] == hist'[j]
      ensures HeadOk(a, ds[|ds| - 1]) && HoldsPrefix(sb, Recovered(a, ds[|ds| - 1]), s, i, off, src)
      ensures KeepsRest(sb, a, base, Recovered(a, ds[|ds| - 1]))
    {
      if j < |hist| {
        assert ds[0] == hist[j];
      } else {
        assert Stores(sb, Recovered(a, ds[|ds| - 1]), if j - |hist| < n then t else u);
      }
    }
  }

  /** filewrite, one operation a piece. ok is false, where a balloc panics, exactly when the free blocks are too
      few for all that is to be written; whatever happens, the disk holds, and would hold after a crash at any
      time, the old files with some first pieces written. */
  method Write(log: L.Log, fs: Fs, f: File, src: seq<Byte>) returns (ok: bool, r: int)
    requires Mounted(log, fs.sb, fs.Now()) && fs.Valid() && f.ip in fs.inodes && f.off < UINT
    modifies log, log.block, log.bc, log.bc.buf, log.bc.link
    modifies f`off, fs`blocks, fs`inodes, fs`dinodes, fs`owner, fs`logged
    ensures ok <==>
              || !f.writable || old(f.off) > old(fs.inodes[f.ip].size)
              || Enough(fs.sb, old(fs.Now()), f.ip, old(f.off) / BSIZE,
                        BlockEnd(old(f.off), Fitting(old(f.off), |src|, 0)))
    ensures ok ==> fs.Valid() && Mounted(log, fs.sb, fs.Now())
    ensures ok && !(f.writable && (src == [] || old(f.off) <= old(fs.inodes[f.ip].size))) ==>
              r == -1 && fs.Now() == old(fs.Now()) && f.off == old(f.off)
    ensures ok && f.writable && old(f.off) <= old(fs.inodes[f.ip].size) ==>
              && (r == if old(f.off) + |src| <= MAXFILE * BSIZE then |src| else -1)
              && f.off == old(f.off) + Fitting(old(f.off), |src|, 0)
              && Wrote(old(fs.Now()), f.ip, old(f.off), src[..Fitting(old(f.off), |src|, 0)], fs.Now())
    ensures old(log.bc.hist) <= log.bc.hist
    ensures HoldsPrefix(fs.sb, log.bc.disk, old(fs.Now()), f.ip, old(f.off), src)
    ensures PrefixSurvives(fs.sb, log.area, old(log.bc.disk), log.bc.hist, |old(log.bc.hist)|, old(fs.Now()), f.ip,
                           old(f.off), src)
    ensures KeepsRest(fs.sb, log.area, old(log.bc.disk), log.bc.disk)
  {
    ghost var s, off0 := fs.Now(), f.off;
    FillingNothing(fs.sb, s, f.ip, off0, src);
    if !f.writable {
      RestHome(fs.sb, log.area, log.bc.disk, log.bc.disk);
      return true, -1;
    }
    var i;
    RestHome(fs.sb, log.area, log.bc.disk, log.bc.disk);
    ok, i := WriteLoop(log, fs, f, src, log.bc.disk, s, off0, |log.bc.hist|);
    r := if i == |src| then |src| else -1;
    FillingEnds(fs.sb, s, fs.Now(), f.ip, off0, src, i, ok);
  }

  /** Its loop, which ends with all of src written or with a piece refused. */
  method WriteLoop(log: L.Log, fs: Fs, f: File, src: seq<Byte>, ghost base: Disk, ghost s: State, ghost off0: nat,
                   ghost start: nat)
      returns (ok: bool, i: nat)
    requires Mounted(log, fs.sb, fs.Now()) && fs.Valid() && f.ip in fs.inodes && f.off < UINT
    requires s == fs.Now() && off0 == f.off && start == |log.bc.hist|
    requires KeepsRest(fs.sb, log.area, base, log.bc.disk)
    modifies log, log.block, log.bc, log.bc.buf, log.bc.link
    modifies f`off, fs`blocks, fs`inodes, fs`dinodes, fs`owner, fs`logged
    ensures !ok ==> fs.Now() in AfterFailing(fs.sb, s, f.ip, off0, |src|)
    ensures ok ==> fs.Valid() && f.off == off0 + i && Mounted(log, fs.sb, fs.Now())
    ensures ok ==> fs.Now() in AfterFilling(fs.sb, s, f.ip, off0, src, i)
    ensures ok ==> i == |src| || Stops(s, f.ip, off0, |src|, i)
    ensures old(log.bc.hist) <= log.bc.hist && HoldsPrefix(fs.sb, log.bc.disk, s, f.ip, off0, src)
    ensures PrefixSurvives(fs.sb, log.area, base, log.bc.hist, start, s, f.ip, off0, src)
    ensures KeepsRest(fs.sb, log.area, base, log.bc.disk)
  {
    FillingNothing(fs.sb, s, f.ip, off0, src);
    i := 0;
    while i < |src|
      invariant i <= |src| && fs.Valid() && f.off == off0 + i < UINT && Mounted(log, fs.sb, fs.Now())
      invariant fs.Now() in AfterFilling(fs.sb, s, f.ip, off0, src, i)
      invariant old(log.bc.hist) <= log.bc.hist
      invariant PrefixSurvives(fs.sb, log.area, base, log.bc.hist, start, s, f.ip, off0, src)
      invariant KeepsRest(fs.sb, log.area, base, log.bc.disk)
    {
      var r;
      ghost var end;
      ok, r, end := WriteTurn(log, fs, f, src, i, base, s, off0, start);
      if !ok {
        return;
      }
      if r < 0 {
        break;
      }
      i := i + r;
      assert i == end;
    }
    HeldPrefix(fs.sb, log.bc.disk, s, fs.Now(), f.ip, off0, src, i);
    ok := true;
  }

  /** ... with the piece chosen; s, off0 and start are from before the loop. */
  method WriteTurn(log: L.Log, fs: Fs, f: File, src: seq<Byte>, i: nat, ghost base: Disk, ghost s: State,
                   ghost off0: nat, ghost start: nat) returns (ok: bool, r: int, ghost end: nat)
    requires Mounted(log, fs.sb, fs.Now()) && fs.Valid() && f.off == off0 + i < UINT && i < |src|
    requires fs.Now() in AfterFilling(fs.sb, s, f.ip, off0, src, i) && Sound(fs.sb, s)
    requires PrefixSurvives(fs.sb, log.area, base, log.bc.hist, start, s, f.ip, off0, src)
    requires KeepsRest(fs.sb, log.area, base, log.bc.disk)
    modifies log, log.block, log.bc, log.bc.buf, log.bc.link
    modifies f`off, fs`blocks, fs`inodes, fs`dinodes, fs`owner, fs`logged
    ensures !ok ==> fs.Now() in AfterFailing(fs.sb, s, f.ip, off0, |src|)
    ensures ok ==> fs.Valid() && Mounted(log, fs.sb, fs.Now())
    ensures ok ==> f.off == off0 + end < UINT && fs.Now() in AfterFilling(fs.sb, s, f.ip, off0, src, end)
    ensures ok && r < 0 ==> end == i && Stops(s, f.ip, off0, |src|, i)
    ensures ok && r >= 0 ==> 0 < r <= |src| - i && end == i + r
    ensures old(log.bc.hist) <= log.bc.hist && (!ok ==> HoldsPrefix(fs.sb, log.bc.disk, s, f.ip, off0, src))
    ensures PrefixSurvives(fs.sb, log.area, base, log.bc.hist, start, s, f.ip, off0, src)
    ensures KeepsRest(fs.sb, log.area, base, log.bc.disk)
  {
    var n1 := |src| - i;
    if n1 > CHUNK {
      n1 := CHUNK;
    }
    ghost var t, at, lo, hi, hist := fs.Now(), f.off, f.off / BSIZE, BlockEnd(f.off, n1), log.bc.hist;
    FillingInode(fs.sb, s, t, f.ip, off0, src, i);
    ghost var n;
    var part := src[i..i + n1];
    ok, r, n := WriteThrough(log, fs, f, part, base, lo, hi);
    end := if ok && r == -1 then i else i + n1;
    TurnEnds(fs.sb, log.area, base, s, t, fs.At(), f.ip, off0, at, src, i, n1, end, lo, hi, part, ok, r,
             hist, log.bc.hist, log.bc.disk, start, n);
  }

  /** What becomes of the files, and what a crash leaves. */
  lemma TurnEnds(sb: Super, a: Area, base: Disk, s: State, t: State, u: Moment, i: nat, off: nat, at: nat,
                 src: seq<Byte>, k: nat, n1: nat, end: nat, lo: nat, hi: nat, part: seq<Byte>, ok: bool, r: int,
                 hist: seq<Disk>, hist': seq<Disk>, d: Disk, start: nat, n: nat)
    requires t in AfterFilling(sb, s, i, off, src, k) && at == off + k && k < |src| && n1 == Piece(|src|, k)
    requires i in t.inodes && lo == at / BSIZE && hi == BlockEnd(at, n1) && part == src[k..k + n1]
    requires end == if ok && r == -1 then k else k + n1
    requires !ok ==> u in AfterRunningOut(sb, Moment(t, []), i, lo, hi) && !Refused(t, i, at, n1)
    requires ok ==> (r == -1 <==> Refused(t, i, at, n1))
    requires ok && r == -1 ==> u.now == t
    requires ok && r != -1 ==> u in AfterWrite(sb, Moment(t, []), i, at, part)
    requires PrefixSurvives(sb, a, base, hist, start, s, i, off, src)
    requires if ok then hist <= hist' && Survives(sb, a, base, hist', |hist|, n, t, u.now)
               else hist' == hist && Stores(sb, d, t)
    ensures !ok ==> u.now in AfterFailing(sb, s, i, off, |src|) && HoldsPrefix(sb, d, s, i, off, src)
    ensures ok ==> u.now in AfterFilling(sb, s, i, off, src, end)
    ensures ok && r == -1 ==> Stops(s, i, off, |src|, k)
    ensures PrefixSurvives(sb, a, base, hist', start, s, i, off, src)
  {
    TurnOutcome(sb, s, t, u, i, off, at, src, k, n1, k + n1, end, lo, hi, part, ok, r);
    TurnSurvives(sb, a, base, hist, hist', d, start, n, s, t, u.now, i, off, src, k, end, ok);
  }

  lemma TurnSurvives(sb: Super, a: Area, base: Disk, hist: seq<Disk>, hist': seq<Disk>, d: Disk, start: nat, n: nat,
                     s: State, t: State, u: State, i: nat, off: nat, src: seq<Byte>, k: nat, l: nat, ok: bool)
    requires PrefixSurvives(sb, a, base, hist, start, s, i, off, src) && t in AfterFilling(sb, s, i, off, src, k)
    requires !ok ==> hist' == hist && Stores(sb, d, t)
    requires ok ==>
               && hist <= hist' && u in AfterFilling(sb, s, i, off, src, l)
               && Survives(sb, a, base, hist', |hist|, n, t, u)
    ensures PrefixSurvives(sb, a, base, hist', start, s, i, off, src) && (!ok ==> HoldsPrefix(sb, d, s, i, off, src))
  {
    if ok {
      SurvivesMore(sb, a, base, hist, hist', start, n, s, t, u, i, off, src, k, l);
    }
  }

  /** The three outcomes. */
  lemma TurnOutcome(sb: Super, s: State, t: State, u: Moment, i: nat, off: nat, at: nat, src: seq<Byte>, k: nat,
                    n1: nat,
                 next: nat, end: nat, lo: nat, hi: nat, part: seq<Byte>, ok: bool, r: int)
    requires t in AfterFilling(sb, s, i, off, src, k) && at == off + k && k < |src| && n1 == Piece(|src|, k)
    requires i in t.inodes && next == k + n1 && lo == at / BSIZE && hi == BlockEnd(at, n1) && part == src[k..k + n1]
    requires end == if ok && r == -1 then k else next
    requires !ok ==> u in AfterRunningOut(sb, Moment(t, []), i, lo, hi) && !Refused(t, i, at, n1)
    requires ok ==> (r == -1 <==> Refused(t, i, at, n1))
    requires ok && r == -1 ==> u.now == t
    requires ok && r != -1 ==> u in AfterWrite(sb, Moment(t, []), i, at, part)
    ensures !ok ==> u.now in AfterFailing(sb, s, i, off, |src|)
    ensures ok ==> u.now in AfterFilling(sb, s, i, off, src, end)
    ensures ok && r == -1 ==> Stops(s, i, off, |src|, k)
  {
    if !ok {
      FillingFails(sb, s, t, u, i, off, at, src, k, n1, next, lo, hi);
    } else if r == -1 {
      FillingStops(sb, s, t, i, off, at, src, k, n1);
    } else {
      FillingMore(sb, s, t, u, i, off, at, src, k, n1, next, part);
    }
  }
}
