/** The on-disk redo log of log.c as pure functions on disk states: what commit and recovery
    write, block by block, and what a crash between any two of those writes leads to. */
module LogDisk {
  import opened Blocks

  const MAXOPBLOCKS: nat := 10
  const LOGSIZE: nat := MAXOPBLOCKS * 3

  type Disk = seq<Block>

  /** The log area: a header block at start, then the log blocks. */
  datatype Area = Area(start: nat, size: nat) {
    predicate In(b: int) {
      start <= b < start + size
    }

    /** Block numbers a transaction may log: on the disk, outside the log area, and no more of
        them than the header and the area can hold. */
    predicate Loggable(blocks: seq<int>, disksize: nat) {
      && start + size <= disksize && |blocks| <= LOGSIZE && |blocks| < size
      && forall t | 0 <= t < |blocks| :: 0 <= blocks[t] < disksize && !In(blocks[t])
    }
  }

  /** The header block: word 0 is n, words 1..n the block numbers; later words are stale. */
  function WithHead(b: Block, blocks: seq<int>): Block
    requires |blocks| <= LOGSIZE
  {
    [|blocks|] + blocks + b[|blocks| + 1..]
  }

  predicate HeadOk(a: Area, d: Disk) {
    && a.start + a.size <= |d| && a.size > 0
    && 0 <= d[a.start][0] <= LOGSIZE
    && a.Loggable(d[a.start][1..d[a.start][0] + 1], |d|)
  }

  function HeadBlocks(a: Area, d: Disk): seq<int>
    requires HeadOk(a, d)
  {
    d[a.start][1..d[a.start][0] + 1]
  }

  /** write_log after k of its writes: block k of view goes to log block k. */
  function Copied(a: Area, d: Disk, blocks: seq<int>, view: Disk, k: nat): (r: Disk)
    requires a.Loggable(blocks, |d|) && |view| == |d| && k <= |blocks|
    ensures |r| == |d|
  {
    if k == 0 then d else Copied(a, d, blocks, view, k - 1)[a.start + k := view[blocks[k - 1]]]
  }

  /** install_trans after k of its writes: log block k goes to its home block. */
  function Installed(a: Area, d: Disk, blocks: seq<int>, k: nat): (r: Disk)
    requires a.Loggable(blocks, |d|) && k <= |blocks|
    ensures |r| == |d|
  {
    if k == 0 then d else
    var p := Installed(a, d, blocks, k - 1);
    p[blocks[k - 1] := p[a.start + k]]
  }

  function HeadWritten(a: Area, d: Disk, blocks: seq<int>): (r: Disk)
    requires a.start < |d| && |blocks| <= LOGSIZE
    ensures |r| == |d|
  {
    d[a.start := WithHead(d[a.start], blocks)]
  }

  /** The disk after the first j of commit's 2n+2 block writes. */
  function CommitState(a: Area, d: Disk, blocks: seq<int>, view: Disk, j: nat): (r: Disk)
    requires a.Loggable(blocks, |d|) && |view| == |d| && j <= 2 * |blocks| + 2
    ensures |r| == |d|
  {
    var n := |blocks|;
    if j <= n then Copied(a, d, blocks, view, j) else
    var committed := HeadWritten(a, Copied(a, d, blocks, view, n), blocks);
    if j <= 2 * n + 1 then Installed(a, committed, blocks, j - n - 1)
    else HeadWritten(a, Installed(a, committed, blocks, n), [])
  }

  /** The disk after the first j of recovery's n+1 block writes. */
  function RecoveryState(a: Area, d: Disk, j: nat): (r: Disk)
    requires HeadOk(a, d) && j <= |HeadBlocks(a, d)| + 1
    ensures |r| == |d|
  {
    var n := |HeadBlocks(a, d)|;
    if j <= n then Installed(a, d, HeadBlocks(a, d), j)
    else HeadWritten(a, Installed(a, d, HeadBlocks(a, d), n), [])
  }

  function Recovered(a: Area, d: Disk): (r: Disk)
    requires HeadOk(a, d)
    ensures |r| == |d|
  {
    RecoveryState(a, d, |HeadBlocks(a, d)| + 1)
  }

  /** The disk states that the first m writes of a commit, of an installation and of a recovery
      leave, in order. */
  ghost function CommitTrace(a: Area, d: Disk, blocks: seq<int>, view: Disk, m: nat): (r: seq<Disk>)
    requires a.Loggable(blocks, |d|) && |view| == |d| && m <= 2 * |blocks| + 2
  {
    seq(m, j requires 0 <= j < m => CommitState(a, d, blocks, view, j + 1))
  }

  ghost function InstallTrace(a: Area, d: Disk, blocks: seq<int>, m: nat): (r: seq<Disk>)
    requires a.Loggable(blocks, |d|) && m <= |blocks|
  {
    seq(m, j requires 0 <= j < m => Installed(a, d, blocks, j + 1))
  }

  ghost function RecoveryTrace(a: Area, d: Disk, m: nat): (r: seq<Disk>)
    requires HeadOk(a, d) && m <= |HeadBlocks(a, d)| + 1
  {
    seq(m, j requires 0 <= j < m => RecoveryState(a, d, j + 1))
  }

  lemma CommitTraceGrows(a: Area, d: Disk, blocks: seq<int>, view: Disk, m: nat)
    requires a.Loggable(blocks, |d|) && |view| == |d| && m < 2 * |blocks| + 2
    ensures CommitTrace(a, d, blocks, view, m) + [CommitState(a, d, blocks, view, m + 1)]
         == CommitTrace(a, d, blocks, view, m + 1)
  {
  }

  lemma InstallTraceGrows(a: Area, d: Disk, blocks: seq<int>, m: nat)
    requires a.Loggable(blocks, |d|) && m < |blocks|
    ensures InstallTrace(a, d, blocks, m) + [Installed(a, d, blocks, m + 1)] == InstallTrace(a, d, blocks, m + 1)
  {
  }

  lemma CommitTraceInstalls(a: Area, d: Disk, blocks: seq<int>, view: Disk)
    requires a.Loggable(blocks, |d|) && |view| == |d|
    ensures var n, c := |blocks|, CommitState(a, d, blocks, view, |blocks| + 1);
            CommitTrace(a, d, blocks, view, n + 1) + InstallTrace(a, c, blocks, n)
              == CommitTrace(a, d, blocks, view, 2 * n + 1)
  {
  }

  /** The same contents in every block outside the log area. */
  ghost predicate SameHome(a: Area, d: Disk, e: Disk) {
    |d| == |e| && forall b | 0 <= b < |d| && !a.In(b) :: d[b] == e[b]
  }

  /** The transaction's effect: every logged block at home, every other block untouched. */
  ghost predicate AllHome(a: Area, before: Disk, blocks: seq<int>, view: Disk, after: Disk) {
    && |before| == |view| == |after|
    && forall b | 0 <= b < |after| && !a.In(b) :: after[b] == if b in blocks then view[b] else before[b]
  }

  // ---------------------------------------------------------------- what the writes do

  lemma {:induction false} CopiedAt(a: Area, d: Disk, blocks: seq<int>, view: Disk, k: nat, b: nat)
    requires a.Loggable(blocks, |d|) && |view| == |d| && k <= |blocks| && b < |d|
    ensures Copied(a, d, blocks, view, k)[b] ==
            if a.start < b <= a.start + k then view[blocks[b - a.start - 1]] else d[b]
  {
    if k > 0 {
      CopiedAt(a, d, blocks, view, k - 1, b);
    }
  }

  /** The last of the first k log slots that belongs to block b, or -1. */
  function LastSlot(blocks: seq<int>, k: nat, b: int): (t: int)
    requires k <= |blocks|
    ensures -1 <= t < k && (t >= 0 ==> blocks[t] == b)
    ensures t < 0 ==> b !in blocks[..k]
  {
    if k == 0 then -1 else if blocks[k - 1] == b then k - 1 else LastSlot(blocks, k - 1, b)
  }

  lemma {:induction false} InstalledAt(a: Area, d: Disk, blocks: seq<int>, k: nat, b: nat)
    requires a.Loggable(blocks, |d|) && k <= |blocks| && b < |d|
    ensures Installed(a, d, blocks, k)[b] ==
            var t := LastSlot(blocks, k, b); if t < 0 then d[b] else d[a.start + t + 1]
  {
    if k > 0 {
      InstalledAt(a, d, blocks, k - 1, b);
      InstalledAt(a, d, blocks, k - 1, a.start + k);
      assert LastSlot(blocks, k - 1, a.start + k) < 0;
    }
  }

  lemma {:induction false} LastSlotGrows(blocks: seq<int>, k: nat, m: nat, b: int)
    requires k <= m <= |blocks|
    ensures LastSlot(blocks, m, b) < 0 ==> LastSlot(blocks, k, b) < 0
  {
    if k < m {
      LastSlotGrows(blocks, k, m - 1, b);
    }
  }

  /** Installing from the start again after stopping anywhere is as good as never stopping. */
  lemma InstallAgain(a: Area, d: Disk, blocks: seq<int>, k: nat)
    requires a.Loggable(blocks, |d|) && k <= |blocks|
    ensures Installed(a, Installed(a, d, blocks, k), blocks, |blocks|) == Installed(a, d, blocks, |blocks|)
  {
    var p := Installed(a, d, blocks, k);
    forall b | 0 <= b < |d|
      ensures Installed(a, p, blocks, |blocks|)[b] == Installed(a, d, blocks, |blocks|)[b]
    {
      InstalledAt(a, p, blocks, |blocks|, b);
      InstalledAt(a, d, blocks, |blocks|, b);
      InstalledAt(a, d, blocks, k, b);
      var t := LastSlot(blocks, |blocks|, b);
      if t < 0 {
        LastSlotGrows(blocks, k, |blocks|, b);
      } else {
        InstalledAt(a, d, blocks, k, a.start + t + 1);
      }
    }
  }

  // ---------------------------------------------------------------- crashes in recovery

  /** A crash after any number of recovery's writes leaves a disk that recovers to the same
      state, and a finished recovery has nothing left to do. */
  lemma RecoveryRestarts(a: Area, d: Disk, j: nat)
    requires HeadOk(a, d) && j <= |HeadBlocks(a, d)| + 1
    ensures HeadOk(a, RecoveryState(a, d, j))
    ensures Recovered(a, RecoveryState(a, d, j)) == Recovered(a, d)
  {
    var blocks := HeadBlocks(a, d);
    var n := |blocks|;
    InstalledAt(a, d, blocks, if j <= n then j else n, a.start);
    if j <= n {
      InstallAgain(a, d, blocks, j);
    } else {
      var r := RecoveryState(a, d, j);
      assert HeadBlocks(a, r) == [];
      assert WithHead(r[a.start], []) == r[a.start];
      assert Recovered(a, r) == r;
    }
  }

  /** Recovery started on d and crashed after some of its writes, leaving e. */
  ghost predicate CrashedRecovery(a: Area, d: Disk, e: Disk) {
    HeadOk(a, d) && exists j: nat | j <= |HeadBlocks(a, d)| + 1 :: e == RecoveryState(a, d, j)
  }

  /** A chain of recoveries, each but the last stopped by a crash. */
  ghost predicate CrashedRecoveries(a: Area, ds: seq<Disk>) {
    |ds| > 0 && forall i | 0 < i < |ds| :: CrashedRecovery(a, ds[i - 1], ds[i])
  }

  /** However often recovery itself crashes, the recovery that completes gives what an
      undisturbed one would have given. */
  lemma {:induction false} RecoveryConverges(a: Area, ds: seq<Disk>)
    requires CrashedRecoveries(a, ds) && HeadOk(a, ds[0])
    ensures HeadOk(a, ds[|ds| - 1]) && Recovered(a, ds[|ds| - 1]) == Recovered(a, ds[0])
  {
    if |ds| > 1 {
      var last := |ds| - 1;
      var init := ds[..last];
      RecoveryConverges(a, init);
      assert CrashedRecovery(a, ds[last - 1], ds[last]);
      var j: nat :| j <= |HeadBlocks(a, ds[last - 1])| + 1 && ds[last] == RecoveryState(a, ds[last - 1], j);
      RecoveryRestarts(a, ds[last - 1], j);
    }
  }

  // ---------------------------------------------------------------- crashes in commit

  lemma ClearedHead(a: Area, d: Disk)
    requires a.start + a.size <= |d| && a.size > 0 && d[a.start][0] == 0
    ensures HeadOk(a, d) && Recovered(a, d) == d
  {
    assert HeadBlocks(a, d) == [];
    assert WithHead(d[a.start], []) == d[a.start];
  }

  /** Once the header is on the disk, recovery finds the whole transaction. */
  lemma Committed(a: Area, d: Disk, blocks: seq<int>, view: Disk)
    requires a.Loggable(blocks, |d|) && |view| == |d|
    ensures var c := CommitState(a, d, blocks, view, |blocks| + 1);
            && HeadOk(a, c) && HeadBlocks(a, c) == blocks
            && AllHome(a, d, blocks, view, Recovered(a, c))
  {
    var c := CommitState(a, d, blocks, view, |blocks| + 1);
    assert c[a.start][1..c[a.start][0] + 1] == blocks;
    forall b | 0 <= b < |d| && !a.In(b)
      ensures Recovered(a, c)[b] == if b in blocks then view[b] else d[b]
    {
      CommittedAt(a, d, blocks, view, c, b);
    }
  }

  lemma CommittedAt(a: Area, d: Disk, blocks: seq<int>, view: Disk, c: Disk, b: int)
    requires a.Loggable(blocks, |d|) && |view| == |d| && c == CommitState(a, d, blocks, view, |blocks| + 1)
    requires HeadOk(a, c) && HeadBlocks(a, c) == blocks && 0 <= b < |d| && !a.In(b)
    ensures Recovered(a, c)[b] == if b in blocks then view[b] else d[b]
  {
    InstalledAt(a, c, blocks, |blocks|, b);
    var t := LastSlot(blocks, |blocks|, b);
    assert blocks[..|blocks|] == blocks;
    CopiedAt(a, d, blocks, view, |blocks|, if t < 0 then b else a.start + t + 1);
  }

  /** Crash atomicity: a crash after any j of commit's writes recovers to the home blocks of
      before the transaction if the header write was not among them, and to the transaction
      complete if it was. */
  lemma CommitCrash(a: Area, d: Disk, blocks: seq<int>, view: Disk, j: nat)
    requires a.Loggable(blocks, |d|) && |view| == |d| && d[a.start][0] == 0
    requires j <= 2 * |blocks| + 2
    ensures var c := CommitState(a, d, blocks, view, j);
            && HeadOk(a, c)
            && if j <= |blocks| then SameHome(a, d, Recovered(a, c))
               else AllHome(a, d, blocks, view, Recovered(a, c))
  {
    var c := CommitState(a, d, blocks, view, j);
    var n := |blocks|;
    if j <= n {
      CopiedAt(a, d, blocks, view, j, a.start);
      ClearedHead(a, c);
      forall b | 0 <= b < |d| && !a.In(b)
        ensures d[b] == c[b]
      {
        CopiedAt(a, d, blocks, view, j, b);
      }
    } else {
      Committed(a, d, blocks, view);
      var h := CommitState(a, d, blocks, view, n + 1);
      assert c == RecoveryState(a, h, j - n - 1);
      RecoveryRestarts(a, h, j - n - 1);
    }
  }

  /** A commit that is not interrupted leaves the transaction at home and the header clear. */
  lemma CommitComplete(a: Area, d: Disk, blocks: seq<int>, view: Disk)
    requires a.Loggable(blocks, |d|) && |view| == |d| && d[a.start][0] == 0
    ensures var c := CommitState(a, d, blocks, view, 2 * |blocks| + 2);
            c[a.start][0] == 0 && AllHome(a, d, blocks, view, c)
  {
    var c := CommitState(a, d, blocks, view, 2 * |blocks| + 2);
    CommitCrash(a, d, blocks, view, 2 * |blocks| + 2);
    ClearedHead(a, c);
  }

  /** The whole story: a crash anywhere in commit, then any number of crashes in recovery,
      then a recovery that completes. */
  lemma CrashAtomicity(a: Area, d: Disk, blocks: seq<int>, view: Disk, j: nat, ds: seq<Disk>)
    requires a.Loggable(blocks, |d|) && |view| == |d| && d[a.start][0] == 0
    requires j <= 2 * |blocks| + 2
    requires CrashedRecoveries(a, ds) && ds[0] == CommitState(a, d, blocks, view, j)
    ensures HeadOk(a, ds[|ds| - 1])
    ensures var r := Recovered(a, ds[|ds| - 1]);
            if j <= |blocks| then SameHome(a, d, r) else AllHome(a, d, blocks, view, r)
  {
    CommitCrash(a, d, blocks, view, j);
    RecoveryConverges(a, ds);
  }
}
