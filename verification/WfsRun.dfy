/** Runs of the operations of mount.wfs.c and of fsck.wfs.c, and when they keep the directory tree. */
module WfsRun {
  import opened Common
  import opened WfsLog
  import opened WfsImage
  import opened WfsPath
  import opened Wfs
  import Fsck

  // ---------------------------------------------------------------- what an image represents

  /** The root, inode 0, is a live directory. */
  predicate RootOk(es: seq<Entry>) {
    Current(es, 0) >= 0 && IsDir(es[Current(es, 0)])
  }

  /** The image represents a log whose directories are a tree. */
  ghost predicate SoundDisk(d: seq<Byte>) {
    exists es :: Rep(d, es) && TreeOk(es) && RootOk(es)
  }

  lemma {:induction false} SameStart(d: seq<Byte>, es: seq<Entry>, es': seq<Entry>, k: nat)
    requires EntriesAt(d, es) && EntriesAt(d, es') && k <= |es| && k <= |es'|
    requires (forall e | e in es :: EntryOk(e)) && forall e | e in es' :: EntryOk(e)
    ensures Start(es, k) == Start(es', k)
  {
    if k > 0 {
      SameStart(d, es, es', k - 1);
      SizeRead(d, es, k - 1);
      SizeRead(d, es', k - 1);
    }
  }

  /** The size field of an entry is where a walk reads it. */
  lemma {:induction false} SizeRead(d: seq<Byte>, es: seq<Entry>, k: nat)
    requires EntriesAt(d, es) && k < |es| && forall e | e in es :: EntryOk(e)
    ensures Start(es, k) + INODE <= |d| && Word4(d, Start(es, k) + SIZE) == |es[k].data|
  {
    assert EntryThere(d, es, k) && es[k] in es;
    FieldAt(d, Start(es, k), es[k], 6);
  }

  /** The entry at an offset is determined by the bytes. */
  lemma SameEntry(d: seq<Byte>, off: nat, e: Entry, e': Entry)
    requires EntryAt(d, off, e) && EntryAt(d, off, e') && |e.data| == |e'.data|
    ensures e == e'
  {
    forall i | 0 <= i < 11
      ensures Fields(e.inode)[i] == Fields(e'.inode)[i]
    {
      FieldAt(d, off, e, i);
      FieldAt(d, off, e', i);
    }
    FieldsFix(e.inode, e'.inode);
    DataAt(d, off, e, 0, |e.data|);
    DataAt(d, off, e', 0, |e.data|);
  }

  lemma FieldsFix(i: Inode, i': Inode)
    requires forall k | 0 <= k < 11 :: Fields(i)[k] == Fields(i')[k]
    ensures i == i'
  {
    var a, b := Fields(i), Fields(i');
    assert a[0] == b[0] && a[1] == b[1] && a[2] == b[2] && a[3] == b[3] && a[4] == b[4] && a[5] == b[5];
    assert a[6] == b[6] && a[7] == b[7] && a[8] == b[8] && a[9] == b[9] && a[10] == b[10];
  }

  /** An image represents one log at most. */
  lemma {:induction false} SameLog(d: seq<Byte>, es: seq<Entry>, es': seq<Entry>)
    requires LogAt(d, es) && LogAt(d, es')
    ensures es == es'
  {
    SameLength(d, es, es');
    SameLength(d, es', es);
    forall k | 0 <= k < |es|
      ensures es[k] == es'[k]
    {
      SameStart(d, es, es', k);
      SizeRead(d, es, k);
      SizeRead(d, es', k);
      assert EntryThere(d, es, k) && EntryThere(d, es', k);
      SameEntry(d, Start(es, k), es[k], es'[k]);
    }
  }

  lemma {:induction false} SameLength(d: seq<Byte>, es: seq<Entry>, es': seq<Entry>)
    requires LogAt(d, es) && LogAt(d, es')
    ensures |es| <= |es'|
  {
    if |es'| < |es| {
      SameStart(d, es, es', |es'|);
      AtEnd(es, |es'|);
      assert false;
    }
  }

  /** Once the head has lost the end of the log, no log is represented. */
  lemma {:induction false} LostIsNoLog(d: seq<Byte>, es: seq<Entry>, es': seq<Entry>)
    requires Lost(d, es)
    ensures !LogAt(d, es')
  {
    if LogAt(d, es') {
      if |es'| <= |es| {
        SameStart(d, es, es', |es'|);
        AtEnd(es, |es'|);
      } else {
        SameStart(d, es, es', |es|);
        StartOrder(es', |es|, |es'|);
      }
      assert false;
    }
  }

  lemma OnlyLog(d: seq<Byte>, es: seq<Entry>)
    requires Rep(d, es)
    ensures SoundDisk(d) <==> TreeOk(es) && RootOk(es)
  {
    if SoundDisk(d) {
      var es' :| Rep(d, es') && TreeOk(es') && RootOk(es');
      SameLog(d, es, es');
    }
  }

  lemma NoSoundLog(d: seq<Byte>, es: seq<Entry>)
    requires Lost(d, es)
    ensures !SoundDisk(d)
  {
    if SoundDisk(d) {
      var es' :| Rep(d, es') && TreeOk(es') && RootOk(es');
      LostIsNoLog(d, es, es');
    }
  }

  // ---------------------------------------------------------------- unlink and the tree

  /** What the scan finds is listed by some directory's latest version. */
  lemma {:induction false} ScanListed(es: seq<Entry>, k: nat, toks: seq<seq<Byte>>)
    requires TreeOk(es) && toks != [] && Scan(es, k, toks) >= 0
    ensures exists m: nat, i: nat :: Lists(es, m, i, es[Scan(es, k, toks)].inode.number)
    decreases |toks|
  {
    ScanFirst(es, k, toks);
    var n := FirstNamed(es, toks[0], k);
    if |toks| == 1 {
      var j :| k <= j < |es| && Child(es, es[j], toks[0]) == n;
      ListedIsCurrent(es, j, toks[0]);
      var i: nat :| ListedAt(es, es[j].inode.number, i, toks[0], n);
      assert Lists(es, es[j].inode.number, i, n);
    } else {
      ScanListed(es, Current(es, n), toks[1..]);
    }
  }

  /** A file that unlink finds is listed somewhere: an empty path would name its parent. */
  lemma {:induction false} FoundListed(es: seq<Entry>, path: seq<Byte>)
    requires TreeOk(es) && es != [] && Lookup(es, Tokens(path)) >= 0 && !IsDir(es[Lookup(es, Tokens(path))])
    requires var p := Lookup(es, Tokens(Parent(path))); p >= 0 && IsDir(es[p])
    ensures exists m: nat, i: nat :: Lists(es, m, i, es[Lookup(es, Tokens(path))].inode.number)
  {
    ParentAndFile(path);
    assert |Tokens(Parent(path))| <= |Tokens(path)|;
    if Tokens(path) == [] {
      assert false;
    }
    ScanListed(es, 0, Tokens(path));
  }

  /** A directory that goes on listing a deleted inode spoils the tree. */
  lemma Dangling(es: seq<Entry>, es': seq<Entry>, m: nat, i: nat, n: nat)
    requires Lists(es, m, i, n) && Listing(es', m) == Listing(es, m) && Current(es', n) == -1
    ensures !TreeOk(es')
  {
    assert Lists(es', m, i, n);
  }

  lemma {:induction false} DeletedListing(es: seq<Entry>, n: nat, m: nat)
    requires Current(es, n) >= 0 && !IsDir(es[Current(es, n)])
    ensures Listing(Deleted(es, n), m) == Listing(es, m) && Current(Deleted(es, n), n) == -1
  {
    CurrentDeleted(es, n, n);
    CurrentDeleted(es, n, m);
    if m != n && Current(es, m) >= 0 {
      assert Deletes(es[Current(es, m)], n, Deleted(es, n)[Current(es, m)]);
    }
  }

  lemma ListedLength(es: seq<Entry>, d: nat, n: nat)
    requires ListedOnce(es, d, n)
    ensures |Without(Listing(es, d), n)| == |Listing(es, d)| - 1
  {
    var ds := Listing(es, d);
    var i: nat :| Lists(es, d, i, n);
    assert ds[i].number == n;
    forall i, j | 0 <= i < j < |ds|
      ensures ds[i].number != n || ds[j].number != n
    {
      if ds[i].number == n && ds[j].number == n {
        assert Lists(es, d, i, n) && Lists(es, d, j, n);
      }
    }
    WithoutLength(ds, n);
  }

  /** If the directory lists the file once, the new version is that without the file ... */
  lemma {:induction false} RefilledOnce(es: seq<Entry>, p: nat, n: nat, d0: seq<Byte>, es': seq<Entry>, e: Entry)
    requires p < |es| && EntryOk(es[p]) && IsDir(es[p]) && Current(es, es[p].inode.number) == p
    requires ListedOnce(es, es[p].inode.number, n) && RefilledBy(es, p, n, d0, es', e)
    ensures RemovedBy(es, p, n, es', e)
  {
    ListedLength(es, es[p].inode.number, n);
    var w := Without(Dentries(es[p].data), n);
    assert w[..|w|] == w;
    forall d | d in Dentries(e.data)
      ensures DentryOk(d)
    {
      WithoutIn(Dentries(es[p].data), n, d);
    }
  }

  /** ... and if it does not list it, that without its own last dentry. */
  lemma {:induction false} RefilledStray(es: seq<Entry>, p: nat, n: nat, d0: seq<Byte>, es': seq<Entry>, e: Entry)
    requires p < |es| && EntryOk(es[p]) && IsDir(es[p]) && RefilledBy(es, p, n, d0, es', e)
    requires forall i | 0 <= i < |Dentries(es[p].data)| :: Dentries(es[p].data)[i].number != n
    ensures EntryOk(e) && Dentries(e.data) == Dentries(es[p].data)[..|Dentries(es[p].data)| - 1]
  {
    WithoutAll(Dentries(es[p].data), n);
    assert forall d | d in Dentries(e.data) :: d in Dentries(es[p].data);
  }

  /** Whether unlink finds a file whose directory, as it finds that, lists it. */
  ghost predicate UnlinkSafe(es: seq<Entry>, path: seq<Byte>, length: nat)
    requires es != []
  {
    var l, p := Lookup(es, Tokens(path)), Lookup(es, Tokens(Parent(path)));
    l == -1 || IsDir(es[l]) || p == -1
    || (HasRoom(es, p, length) && ListedOnce(es, es[p].inode.number, es[l].inode.number))
  }

  /** Unlink keeps the tree if and only if the directory that it finds lists the file that it finds,
      exactly once, and there is room for the directory's new version. */
  lemma {:induction false} UnlinkKeepsTree(es: seq<Entry>, d: seq<Byte>, path: seq<Byte>, ok: bool, r: int,
                                           es': seq<Entry>, d': seq<Byte>)
    requires Rep(d, es) && TreeOk(es) && RootOk(es)
    requires var p := Lookup(es, Tokens(Parent(path))); p >= 0 ==> IsDir(es[p])
    requires Unlinked(es, d, path, ok, r, es', d')
    ensures SoundDisk(d') <==> UnlinkSafe(es, path, |d|)
  {
    var l, p := Lookup(es, Tokens(path)), Lookup(es, Tokens(Parent(path)));
    if l == -1 || IsDir(es[l]) || p == -1 {
      OnlyLog(d, es);
    } else {
      FoundListed(es, path);
      var m: nat, i: nat :| Lists(es, m, i, es[l].inode.number);
      UnlinkedTree(es, d, p, es[l].inode.number, ok, r, es', d', m, i);
    }
  }

  lemma {:induction false} UnlinkedTree(es: seq<Entry>, d: seq<Byte>, p: nat, n: nat, ok: bool, r: int,
                                        es': seq<Entry>, d': seq<Byte>,
                                        m: nat, i: nat)
    requires TreeOk(es) && RootOk(es) && p < |es| && IsDir(es[p]) && Current(es, es[p].inode.number) == p
    requires Current(es, n) >= 0 && !IsDir(es[Current(es, n)]) && Lists(es, m, i, n)
    requires UnlinkedIn(es, d, p, n, ok, r, es', d')
    ensures SoundDisk(d') <==> HasRoom(es, p, |d|) && ListedOnce(es, es[p].inode.number, n)
  {
    var ds, dir := Dentries(es[p].data), es[p].inode.number;
    DeletedListing(es, n, m);
    if es' == Deleted(es, n) {
      Dangling(es, es', m, i, n);
      WithoutAtMost(ds, n);
      if ds == [] && ok && r == 0 {
        NoSoundLog(d', es');
      } else {
        OnlyLog(d', es');
        if ListedOnce(es, dir, n) {
          ListedLength(es, dir, n);
        }
      }
    } else {
      var e :| RefilledBy(es, p, n, d, es', e);
      assert EntryOk(es[p]);
      if ListedOnce(es, dir, n) {
        RefilledOnce(es, p, n, d, es', e);
        UnlinkedOnce(es, p, n, es', e);
        AllOk(d', es');
        OnlyLog(d', es');
      } else {
        StrayTree(es, p, n, d, es', e, m, i);
        AllOk(d', es');
        OnlyLog(d', es');
      }
    }
  }

  lemma AllOk(d: seq<Byte>, es: seq<Entry>)
    requires AllButLast(d, es) && EntryOk(es[|es| - 1])
    ensures Rep(d, es)
  {
    assert forall j | 0 <= j < |es| :: EntryOk(es[j]);
  }

  lemma {:induction false} UnlinkedOnce(es: seq<Entry>, p: nat, n: nat, es': seq<Entry>, e: Entry)
    requires TreeOk(es) && RootOk(es) && p < |es| && IsDir(es[p]) && Current(es, es[p].inode.number) == p
    requires Current(es, n) >= 0 && !IsDir(es[Current(es, n)]) && ListedOnce(es, es[p].inode.number, n)
    requires RemovedBy(es, p, n, es', e)
    ensures TreeOk(es') && RootOk(es')
  {
    var d := es[p].inode.number;
    var i: nat :| Lists(es, d, i, n);
    RemovedEffect(es, p, i, n, es');
    RemovedCurrent(es, p, n, e, 0);
    RemovedCurrent(es, p, n, e, d);
    assert d != 0 ==> SameCurrent(es, es', 0);
  }

  lemma NotListed(es: seq<Entry>, d: nat, j: nat, n: nat)
    requires ListsOnce(es) && !ListedOnce(es, d, n)
    ensures !Lists(es, d, j, n)
  {
  }

  lemma {:induction false} StrayTree(es: seq<Entry>, p: nat, n: nat, d0: seq<Byte>, es': seq<Entry>, e: Entry, m: nat,
                                     i: nat)
    requires TreeOk(es) && p < |es| && IsDir(es[p]) && Current(es, es[p].inode.number) == p
    requires Current(es, n) >= 0 && !IsDir(es[Current(es, n)]) && Lists(es, m, i, n)
    requires !ListedOnce(es, es[p].inode.number, n) && RefilledBy(es, p, n, d0, es', e)
    ensures EntryOk(e) && !TreeOk(es')
  {
    var ds, dir := Dentries(es[p].data), es[p].inode.number;
    forall j | 0 <= j < |ds|
      ensures ds[j].number != n
    {
      NotListed(es, dir, j, n);
    }
    assert EntryOk(es[p]);
    RefilledStray(es, p, n, d0, es', e);
    assert m != dir;
    DeletedListing(es, n, m);
    CurrentAdded(Deleted(es, n), e, m);
    CurrentAdded(Deleted(es, n), e, n);
    Dangling(es, es', m, i, n);
  }

  // ---------------------------------------------------------------- the other operations

  lemma {:induction false} WriteKeepsTree(es: seq<Entry>, d: seq<Byte>, path: seq<Byte>, buffer: seq<Byte>, off: nat,
                                          r: int, es': seq<Entry>)
    requires es != [] && TreeOk(es) && RootOk(es) && Written(es, d, path, buffer, off, r, es')
    requires var l := Lookup(es, Tokens(path)); l >= 0 ==> !IsDir(es[l])
    ensures TreeOk(es') && RootOk(es')
  {
    var l := Lookup(es, Tokens(path));
    if es' != es {
      var n, data: seq<Byte> := es[l].inode.number, es'[|es|].data;
      assert Wrote(es, n, data, es') by {
        var e :| es' == es + [e] && WroteBy(es, n, e.data, es', e);
      }
      WroteEffect(es, n, data, es');
      assert SameCurrent(es, es', 0);
    }
  }

  /** Whether create does not run out of room between its two entries. */
  predicate CreateSafe(es: seq<Entry>, path: seq<Byte>, length: nat)
    requires es != []
  {
    var l, p := Lookup(es, Tokens(path)), Lookup(es, Tokens(Parent(path)));
    l >= 0 || p == -1 || !(End(es) + Size(es[p]) + DENTRY <= length < End(es) + Size(es[p]) + DENTRY + INODE)
  }

  lemma {:induction false} CreateKeeps(es: seq<Entry>, path: seq<Byte>, mode: Uint, length: nat, r: int,
                                       es': seq<Entry>)
    requires es != [] && TreeOk(es) && RootOk(es) && MaxNumber(es, |es|) + 1 < INT
    requires var p := Lookup(es, Tokens(Parent(path))); p >= 0 ==> IsDir(es[p])
    requires Created(es, path, mode, length, r, es')
    ensures TreeOk(es') && RootOk(es') <==> CreateSafe(es, path, length)
  {
    var l, p := Lookup(es, Tokens(path)), Lookup(es, Tokens(Parent(path)));
    if l == -1 && p >= 0 {
      CreateKeepsTree(es, p, FileName(File(path)), mode, length, r, es');
      if r == 0 {
        CreatedRoot(es, p, FileName(File(path)), mode, es');
      }
    }
  }

  lemma {:induction false} CreatedRoot(es: seq<Entry>, p: nat, name: seq<Byte>, mode: Uint, es': seq<Entry>)
    requires TreeOk(es) && RootOk(es) && p < |es| && IsDir(es[p]) && Current(es, es[p].inode.number) == p
    requires Made(es, p, name, mode, es')
    ensures RootOk(es')
  {
    var e, f :| MadeBy(es, p, name, mode, es', e, f);
    MadeCurrent(es, p, name, e, f, 0);
  }

  lemma {:induction false} CompactKeeps(es: seq<Entry>)
    requires TreeOk(es) && RootOk(es)
    ensures Fsck.Compacted(es) != [] && TreeOk(Fsck.Compacted(es)) && RootOk(Fsck.Compacted(es))
  {
    Fsck.CompactTree(es);
    Fsck.CompactionPreserves(es);
    assert SameCurrent(es, Fsck.Compacted(es), 0);
  }

  // ---------------------------------------------------------------- whole runs

  datatype Op =
    | Write(path: seq<Byte>, buffer: seq<Byte>, off: nat)
    | Create(path: seq<Byte>, mode: Uint)
    | Unlink(path: seq<Byte>)
    | Compact

  /** What the kernel lets through: paths that fit the buffers; it looks a path's parent up first,
      and finds a directory, and it opens no directory for writing. */
  predicate Admitted(es: seq<Entry>, op: Op)
    requires es != []
  {
    match op
    case Write(path, buffer, off) =>
      var l := Lookup(es, Tokens(path));
      CPath(path) && off + |buffer| < INT && (l >= 0 ==> !IsDir(es[l]))
    case Create(path, _) =>
      var p := Lookup(es, Tokens(Parent(path)));
      CPath(path) && MaxNumber(es, |es|) + 1 < INT && (p >= 0 ==> IsDir(es[p]))
    case Unlink(path) =>
      var p := Lookup(es, Tokens(Parent(path)));
      CPath(path) && (p >= 0 ==> IsDir(es[p]))
    case Compact => true
  }

  /** What the operation, failing or not, does to the image d of the log es. */
  ghost predicate Does(es: seq<Entry>, d: seq<Byte>, op: Op, d': seq<Byte>)
    requires es != []
  {
    match op
    case Write(path, buffer, off) => exists r, es' :: Rep(d', es') && Written(es, d, path, buffer, off, r, es')
    case Create(path, mode) => exists r, es' :: Rep(d', es') && Created(es, path, mode, |d|, r, es')
    case Unlink(path) => exists ok, r, es' :: Unlinked(es, d, path, ok, r, es', d')
    case Compact => LogAt(d', Fsck.Compacted(es))
  }

  ghost predicate Step(d: seq<Byte>, op: Op, d': seq<Byte>) {
    exists es :: Rep(d, es) && Admitted(es, op) && Does(es, d, op, d')
  }

  ghost predicate SafeOn(es: seq<Entry>, op: Op, length: nat)
    requires es != []
  {
    match op
    case Write(_, _, _) => true
    case Create(path, _) => CreateSafe(es, path, length)
    case Unlink(path) => UnlinkSafe(es, path, length)
    case Compact => true
  }

  /** The condition, on the image before the operation, for it to keep the tree. */
  ghost predicate Safe(d: seq<Byte>, op: Op) {
    forall es | Rep(d, es) :: SafeOn(es, op, |d|)
  }

  /** Every operation keeps the tree if and only if it is safe. */
  lemma {:induction false} StepKeepsTree(d: seq<Byte>, op: Op, d': seq<Byte>)
    requires SoundDisk(d) && Step(d, op, d')
    ensures SoundDisk(d') <==> Safe(d, op)
  {
    var es :| Rep(d, es) && Admitted(es, op) && Does(es, d, op, d');
    OnlyLog(d, es);
    OneLog(d, es);
    match op {
      case Write(path, buffer, off) =>
        var r, es' :| Rep(d', es') && Written(es, d, path, buffer, off, r, es');
        WriteKeepsTree(es, d, path, buffer, off, r, es');
        OnlyLog(d', es');
      case Create(path, mode) =>
        var r, es' :| Rep(d', es') && Created(es, path, mode, |d|, r, es');
        CreateKeeps(es, path, mode, |d|, r, es');
        OnlyLog(d', es');
      case Unlink(path) =>
        var ok, r, es' :| Unlinked(es, d, path, ok, r, es', d');
        UnlinkKeepsTree(es, d, path, ok, r, es', d');
      case Compact =>
        CompactKeeps(es);
        OnlyLog(d', Fsck.Compacted(es));
    }
  }

  lemma OneLog(d: seq<Byte>, es: seq<Entry>)
    requires Rep(d, es)
    ensures forall es' | Rep(d, es') :: es' == es
  {
    forall es' | Rep(d, es')
      ensures es' == es
    {
      SameLog(d, es, es');
    }
  }

  ghost predicate StepAt(run: seq<seq<Byte>>, ops: seq<Op>, k: int) {
    0 <= k < |ops| && k + 1 < |run| ==> Step(run[k], ops[k], run[k + 1])
  }

  ghost predicate SafeAt(run: seq<seq<Byte>>, ops: seq<Op>, k: int) {
    0 <= k < |ops| && k < |run| ==> Safe(run[k], ops[k])
  }

  /** From a new file system on, every run of writes, creates, unlinks and compactions, failing ones
      included, keeps the directories a tree of live inodes throughout if and only if each create and
      each unlink is safe when it is called. */
  lemma {:induction false} RunKeepsTree(run: seq<seq<Byte>>, ops: seq<Op>)
    requires |run| == |ops| + 1 && FreshDisk(run[0]) && forall k :: StepAt(run, ops, k)
    ensures (forall k | 0 <= k < |run| :: SoundDisk(run[k])) <==> forall k :: SafeAt(run, ops, k)
  {
    FreshSound(run[0]);
    if forall k | 0 <= k < |run| :: SoundDisk(run[k]) {
      forall k
        ensures SafeAt(run, ops, k)
      {
        if 0 <= k < |ops| {
          assert StepAt(run, ops, k) && SoundDisk(run[k]) && SoundDisk(run[k + 1]);
          StepKeepsTree(run[k], ops[k], run[k + 1]);
        }
      }
    }
    if forall k :: SafeAt(run, ops, k) {
      forall k: nat | k < |run|
        ensures SoundDisk(run[k])
      {
        SafeRun(run, ops, k);
      }
    }
  }

  lemma {:induction false} SafeRun(run: seq<seq<Byte>>, ops: seq<Op>, k: nat)
    requires k < |run| == |ops| + 1 && SoundDisk(run[0])
    requires forall j :: StepAt(run, ops, j)
    requires forall j :: SafeAt(run, ops, j)
    ensures SoundDisk(run[k])
  {
    if k > 0 {
      SafeRun(run, ops, k - 1);
      SafeTurn(run, ops, k - 1);
    }
  }

  lemma {:induction false} SafeTurn(run: seq<seq<Byte>>, ops: seq<Op>, k: nat)
    requires k < |ops| && |run| == |ops| + 1 && SoundDisk(run[k]) && StepAt(run, ops, k) && SafeAt(run, ops, k)
    ensures SoundDisk(run[k + 1])
  {
    StepKeepsTree(run[k], ops[k], run[k + 1]);
  }

  /** What mkfs writes: the empty root directory, inode 0. */
  ghost predicate FreshLog(es: seq<Entry>) {
    |es| == 1 && Live(es[0], 0) && es[0].data == [] && es[0].inode.size == 0 && es[0].inode.mode == S_IFDIR
  }

  ghost predicate FreshDisk(d: seq<Byte>) {
    exists es :: Rep(d, es) && FreshLog(es)
  }

  lemma FreshSound(d: seq<Byte>)
    requires FreshDisk(d)
    ensures SoundDisk(d)
  {
    var es :| Rep(d, es) && FreshLog(es);
    FreshTree(es);
  }

  lemma {:induction false} FreshTree(es: seq<Entry>)
    requires FreshLog(es)
    ensures TreeOk(es) && RootOk(es)
  {
    assert Dentries(es[0].data) == [];
    forall m
      ensures Listing(es, m) == []
    {
      assert Current(es, m) <= 0;
    }
    assert EntryOk(es[0]) && Kept(es, 0);
    assert Latest(es, 0, 1) == 0;
  }

  // ---------------------------------------------------------------- an unsafe unlink

  /** The log of a new file system, of that with the directory d, and of that with the file x in d. */
  function NewLog(): seq<Entry> {
    [Plain(0, S_IFDIR, [])]
  }

  function WithDirectory(d: seq<Byte>): seq<Entry> {
    NewLog() + [Plain(0, S_IFDIR, DentryBytes(Dentry(FileName(d), 1))), Plain(1, S_IFDIR, [])]
  }

  function WithFile(d: seq<Byte>, x: seq<Byte>): seq<Entry> {
    WithDirectory(d) + [Plain(1, S_IFDIR, DentryBytes(Dentry(FileName(x), 2))), Plain(2, S_IFREG, [])]
  }

  predicate Name(f: seq<Byte>) {
    0 !in f && SLASH !in f && 0 < |f| < NAME
  }

  lemma {:induction false} ChildOfOne(es: seq<Entry>, e: Entry, f: seq<Byte>, num: nat, tok: seq<Byte>)
    requires IsDir(e) && Name(f) && num < UINT && e.data == DentryBytes(Dentry(FileName(f), num))
    ensures Child(es, e, tok) == if tok == f && Current(es, num) >= 0 then num else -1
  {
    NameKept(f);
    OneDentry(Dentry(FileName(f), num));
    OneName(es, f, num, tok);
  }

  lemma {:induction false} OneDentry(d: Dentry)
    requires |d.name| == NAME && d.number < UINT
    ensures Dentries(DentryBytes(d)) == [d]
  {
    assert [] + DentryBytes(d) == DentryBytes(d) && Dentries([]) == [];
    DentryAdded([], d);
  }

  lemma {:induction false} OneName(es: seq<Entry>, f: seq<Byte>, num: nat, tok: seq<Byte>)
    requires Name(f) && num < UINT
    ensures Names(es, Dentry(FileName(f), num), tok) <==> tok == f && Current(es, num) >= 0
  {
    NameKept(f);
  }

  lemma {:induction false} ChildOfNone(es: seq<Entry>, e: Entry, tok: seq<Byte>)
    requires e.data == []
    ensures Child(es, e, tok) == -1
  {
    assert Dentries(e.data) == [];
  }

  /** The components of /f, and what create makes of it. */
  lemma {:induction false} RootPath(f: seq<Byte>)
    requires Name(f)
    ensures var path := [SLASH] + f; Tokens(path) == [f] && Tokens(Parent(path)) == [] && File(path) == f
  {
    var path := [SLASH] + f;
    TokensJoin([], f);
    assert [] + [SLASH] + f == path;
    TokensOfName(f);
    LastSlashAt(path, 0);
    assert path[..0] == [] && path[1..] == f;
  }

  lemma {:induction false} LastSlashAt(path: seq<Byte>, k: nat)
    requires k < |path| && path[k] == SLASH && forall j | k < j < |path| :: path[j] != SLASH
    ensures LastSlash(path) == k
  {
    assert LastSlash(path) >= k;
  }

  lemma {:induction false} InnerPath(d: seq<Byte>, x: seq<Byte>)
    requires Name(d) && Name(x)
    ensures var path := [SLASH] + d + [SLASH] + x;
            Tokens(path) == [d, x] && Tokens(Parent(path)) == [d] && File(path) == x
  {
    var path := [SLASH] + d + [SLASH] + x;
    TokensJoin([SLASH] + d, x);
    RootPath(d);
    TokensOfName(x);
    LastSlashAt(path, 1 + |d|);
    assert path[..1 + |d|] == [SLASH] + d && path[2 + |d|..] == x;
  }

  /** The current entries of the three logs. */
  lemma {:induction false} NewCurrent(d: seq<Byte>, x: seq<Byte>)
    requires Name(d) && Name(x)
    ensures var a, b, c := NewLog(), WithDirectory(d), WithFile(d, x);
            && Current(a, 0) == 0 && Current(b, 0) == 1 && Current(b, 1) == 2
            && Current(c, 0) == 1 && Current(c, 1) == 3 && Current(c, 2) == 4
            && MaxNumber(a, 1) == 0 && MaxNumber(b, 3) == 1
  {
    var a, b, c := NewLog(), WithDirectory(d), WithFile(d, x);
    assert Latest(a, 0, 1) == 0 && Latest(b, 0, 2) == 1;
    assert c[..3] == b && c[1] == b[1] && c[2] == b[2];
    assert Latest(c, 0, 2) == 1 && Latest(c, 0, 3) == 1 && Latest(c, 0, 4) == 1;
    assert Latest(c, 1, 4) == 3;
    assert MaxNumber(b, 1) == 0 && MaxNumber(b, 2) == 0;
  }

  /** A create in an empty directory. */
  lemma {:induction false} FirstMade(es: seq<Entry>, p: nat, f: seq<Byte>, mode: Uint, es': seq<Entry>)
    requires p < |es| && es[p].data == [] && Name(f) && MaxNumber(es, |es|) + 1 < INT && es[p].inode.number < INT
    requires mode == S_IFREG || mode == S_IFDIR
    requires var num := MaxNumber(es, |es|) + 1;
             es' == es + [Plain(es[p].inode.number, S_IFDIR, DentryBytes(Dentry(FileName(f), num))),
                          Plain(num, mode, [])]
    ensures Made(es, p, FileName(f), mode, es')
  {
    var e, g, dentry := es'[|es|], es'[|es| + 1], Dentry(FileName(f), MaxNumber(es, |es|) + 1);
    assert [] + DentryBytes(dentry) == e.data && Dentries([]) == [];
    DentryAdded([], dentry);
    assert es' == es + [e, g];
    assert MadeBy(es, p, FileName(f), mode, es', e, g);
  }

  lemma {:induction false} DirectoryMade(d: seq<Byte>, length: nat)
    requires Name(d) && length >= 180
    ensures Created(NewLog(), [SLASH] + d, S_IFDIR, length, 0, WithDirectory(d))
  {
    var es, es' := NewLog(), WithDirectory(d);
    NewCurrent(d, d);
    RootPath(d);
    ChildOfNone(es, es[0], d);
    assert Scan(es, 0, [d]) == -1;
    FirstMade(es, 0, d, S_IFDIR, es');
  }

  lemma {:induction false} FileMade(d: seq<Byte>, x: seq<Byte>, length: nat)
    requires Name(d) && Name(x) && length >= 308
    ensures Created(WithDirectory(d), [SLASH] + d + [SLASH] + x, S_IFREG, length, 0, WithFile(d, x))
  {
    var es, es' := WithDirectory(d), WithFile(d, x);
    NewCurrent(d, x);
    InnerPath(d, x);
    ChildOfNone(es, es[0], d);
    ChildOfOne(es, es[1], d, 1, d);
    ChildOfNone(es, es[2], x);
    assert Scan(es, 2, [x]) == -1;
    assert [d, x][1..] == [x];
    assert Scan(es, 1, [d, x]) == -1 && Scan(es, 1, [d]) == 2;
    assert Start(es, 1) == 52 && Start(es, 2) == 136 && End(es) == 180;
    FirstMade(es, 2, x, S_IFREG, es');
  }

  /** After mkdir /d and mknod /d/x on a new file system the path /x does not exist, but is found, and
      unlinking it is not safe. */
  lemma {:induction false} StrayUnlink(d: seq<Byte>, x: seq<Byte>, length: nat)
    requires Name(d) && Name(x) && d != x && length >= 308
    ensures FreshLog(NewLog())
    ensures Created(NewLog(), [SLASH] + d, S_IFDIR, length, 0, WithDirectory(d))
    ensures Created(WithDirectory(d), [SLASH] + d + [SLASH] + x, S_IFREG, length, 0, WithFile(d, x))
    ensures Resolve(WithFile(d, x), 0, [x]) == -1 && !UnlinkSafe(WithFile(d, x), [SLASH] + x, length)
  {
    DirectoryMade(d, length);
    FileMade(d, x, length);
    RootPath(x);
    StrayFound(d, x);
    RootLists(d, x);
  }

  lemma {:induction false} StrayFound(d: seq<Byte>, x: seq<Byte>)
    requires Name(d) && Name(x) && d != x
    ensures var es := WithFile(d, x);
            && Lookup(es, [x]) == 4 && Lookup(es, []) == 1 && !IsDir(es[4]) && Resolve(es, 0, [x]) == -1
            && es[4].inode.number == 2 && es[1].inode.number == 0
  {
    NewCurrent(d, x);
    var es := WithFile(d, x);
    ChildOfNone(es, es[0], x);
    ChildOfOne(es, es[1], d, 1, x);
    ChildOfNone(es, es[2], x);
    ChildOfOne(es, es[3], x, 2, x);
    assert Scan(es, 3, [x]) == 4 && Scan(es, 2, [x]) == 4 && Scan(es, 1, [x]) == 4;
  }

  lemma {:induction false} RootLists(d: seq<Byte>, x: seq<Byte>)
    requires Name(d) && Name(x)
    ensures !ListedOnce(WithFile(d, x), 0, 2)
  {
    var es := WithFile(d, x);
    NewCurrent(d, x);
    assert [] + DentryBytes(Dentry(FileName(d), 1)) == es[1].data && Dentries([]) == [];
    DentryAdded([], Dentry(FileName(d), 1));
    assert Listing(es, 0) == [Dentry(FileName(d), 1)];
  }
}
