/** Runs of mmap, munmap, growth faults, fork, exit and wait by all processes. */
module MmapRun {
  import opened Common
  import opened Mmap

  /** A call by the process in slot i that succeeds, or the one that fails with a loss, and what else happens
      to a slot. */
  datatype Call =
    | MmapCall(i: nat, e: Entry)        // e is the entry it records
    | MmapFails(i: nat, addr: int, n: nat, flags: Flags)   // after it got its n pages
    | MunmapCall(i: nat, k: nat)        // of entry k
    | GrowCall(i: nat, k: nat)          // a fault in the guard page of entry k
    | ForkCall(i: nat, c: nat)          // into slot c
    | ExitCall(i: nat)
    | ReapCall(i: nat)                  // by wait
    | StartCall(i: nat)                 // the first process, by userinit
    | SchedCall(i: nat, state: ProcState)

  ghost predicate Ok(s: Moment) {
    KernelOk(s.procs, s.free)
  }

  ghost predicate Enabled(s: Moment, call: Call) {
    && |s.procs| == NPROC && call.i < NPROC && |s.procs[call.i].entries| == NENTRIES
    && match call
       case MmapCall(i, e) =>
         && s.procs[i].state == Running && s.procs[i].next + 1 < NENTRIES && Live(e) && EntryOk(e)
         && e.numPages <= |s.free|
         && Allocatable(s.procs[i], e.start, e.numPages) && (e.flags.growsup ==> Allocatable(s.procs[i], e.guard, 1))
       case MmapFails(i, addr, n, flags) =>
         s.procs[i].state == Running && 1 <= n <= |s.free| && !HasPlace(s.procs[i], addr, n, flags)
       case MunmapCall(i, k) => s.procs[i].state == Running && k < NENTRIES && Live(s.procs[i].entries[k])
       case GrowCall(i, k) =>
         && s.procs[i].state == Running && k < NENTRIES && s.free != []
         && GrowsAt(s.procs[i], k, s.procs[i].entries[k].start + s.procs[i].entries[k].numPages)
       case ForkCall(i, c) =>
         && s.procs[i].state == Running && s.procs[i].next < NENTRIES && c < NPROC && c != i
         && s.procs[c].state == Unused
         && Forked(s, i, c).Some?
       case ExitCall(i) => s.procs[i].state == Running
       case ReapCall(i) => s.procs[i].state == Zombie
       case StartCall(i) => s.procs[i].state == Unused
       case SchedCall(i, state) => Alive(s.procs[i]) && (state == Running || state == Runnable || state == Sleeping)
  }

  ghost function After(s: Moment, call: Call): Moment
    requires Enabled(s, call)
  {
    match call
    case MmapCall(i, e) =>
      Moment(s.procs[i := Extended(s.procs[i], e, s.free[..e.numPages])], s.free[e.numPages..])
    case MmapFails(i, addr, n, flags) => s.(free := s.free[n..])
    case MunmapCall(i, k) => UnmapEntry(s, i, k)
    case GrowCall(i, k) => Moment(s.procs[i := GrownProc(s.procs[i], k, s.free[0])], s.free[1..])
    case ForkCall(i, c) => Forked(s, i, c).value
    case ExitCall(i) => Exited(s, i)
    case ReapCall(i) => s.(procs := s.procs[i := s.procs[i].(state := Unused)])
    case StartCall(i) => s.(procs := s.procs[i := Blank()])
    case SchedCall(i, state) => s.(procs := s.procs[i := s.procs[i].(state := state)])
  }

  ghost predicate Kept(s: Moment, t: Moment) {
    Ok(t) && Conserved(s.procs, s.free, t.procs, t.free)
  }

  /** A call loses page f. */
  predicate Loses(s: Moment, call: Call, f: int) {
    call.MmapFails? && call.n <= |s.free| && f in s.free[..call.n]
  }

  /** The tables stay sound, and exactly the pages that the call loses are neither free nor mapped any more. */
  ghost predicate KeptBut(s: Moment, t: Moment, call: Call) {
    && Ok(t)
    && (forall f :: f in s.free || Mapped(s.procs, f) <==> f in t.free || Mapped(t.procs, f) || Loses(s, call, f))
    && forall f | Loses(s, call, f) :: f !in t.free && !Mapped(t.procs, f)
  }

  lemma FailKeeps(s: Moment, call: Call)
    requires Ok(s) && call.MmapFails? && call.n <= |s.free|
    ensures KeptBut(s, s.(free := s.free[call.n..]), call)
  {
    var t := s.(free := s.free[call.n..]);
    assert s.free == s.free[..call.n] + t.free;
    StillOk(s.procs, s.free, t.free);
    assert forall f | f in s.free :: forall i: nat, v :: !Maps(t.procs, i, v, f);
  }

  /** What mmap chooses is what a call may record. */
  lemma MmapEnabled(p: Proc, addr: int, length: int, prot: int, flags: Flags, offset: int, v: int)
    requires ProcOk(p) && length > 0 && !BadMmap(addr, prot, flags, offset)
    requires Chosen(p, addr, RoundUp(length), flags, v) && (flags.growsup ==> Allocatable(p, v + RoundUp(length), 1))
    ensures var n := RoundUp(length);
            var e := Entry(true, v, n, flags, if flags.growsup then v + n else 0);
            Live(e) && EntryOk(e)
  {
    AllocatableApart(p, v, RoundUp(length));
    assert flags.growsup ==> !Present(p, v + RoundUp(length));
  }

  // ---------------------------------------------------------------- each call keeps the pages

  lemma {:induction false} ClearAllKeeps(s: Moment, i: nat, v: int, n: nat)
    requires FramesOk(s.procs, s.free) && InWindow(s.procs) && i < |s.procs|
    ensures var r := ClearAll(s, i, v, n);
            && r.procs == s.procs[i := s.procs[i].(pt := r.procs[i].pt)]
            && (forall w :: w in r.procs[i].pt <==> w in s.procs[i].pt && !(v <= w < v + n))
            && (forall w | w in r.procs[i].pt :: r.procs[i].pt[w] == s.procs[i].pt[w])
            && FramesOk(r.procs, r.free) && InWindow(r.procs) && Conserved(s.procs, s.free, r.procs, r.free)
  {
    if n == 0 {
      assert s.procs[i := s.procs[i].(pt := s.procs[i].pt)] == s.procs;
    } else {
      ClearAllKeeps(s, i, v, n - 1);
      var t := ClearAll(s, i, v, n - 1);
      ClearAtKeeps(t, i, v + n - 1);
      var r := ClearAt(t, i, v + n - 1);
      ConservedTwice(s.procs, s.free, t.procs, t.free, r.procs, r.free);
    }
  }

  lemma {:induction false} ClearAtKeeps(s: Moment, i: nat, v: int)
    requires FramesOk(s.procs, s.free) && InWindow(s.procs) && i < |s.procs|
    ensures var r := ClearAt(s, i, v);
            && r.procs == s.procs[i := s.procs[i].(pt := s.procs[i].pt - {v})]
            && FramesOk(r.procs, r.free) && InWindow(r.procs) && Conserved(s.procs, s.free, r.procs, r.free)
  {
    var r := ClearAt(s, i, v);
    if v in s.procs[i].pt {
      assert Maps(s.procs, i, v, s.procs[i].pt[v]);
      ClearedFrames(s.procs, s.free, i, v, s.procs[i].pt[v]);
      forall j: nat, w, g | Maps(r.procs, j, w, g)
        ensures WINDOW <= w < KERNBASE && r.procs[j].state != Unused
      {
        assert Maps(s.procs, j, w, g);
      }
    } else {
      assert s.procs[i].pt - {v} == s.procs[i].pt;
      SameMaps(s.procs, r.procs, s.free);
    }
  }

  lemma {:induction false} UnmapKeeps(s: Moment, i: nat, k: nat)
    requires Ok(s) && Enabled(s, MunmapCall(i, k))
    ensures Kept(s, UnmapEntry(s, i, k)) && UnmapEntry(s, i, k).procs == s.procs[i := Removed(s.procs[i], k)]
  {
    var p, e := s.procs[i], s.procs[i].entries[k];
    KernelWindow(s.procs, s.free);
    ClearAllKeeps(s, i, e.start, e.numPages);
    var c, r := ClearAll(s, i, e.start, e.numPages), UnmapEntry(s, i, k);
    RangeGone(p.pt, e, c.procs[i].pt);
    assert r.procs == s.procs[i := Removed(p, k)];
    EntryRemoved(p, k);
    TableOnly(s.procs, s.free, r.procs, c.free, i, p, k);
  }

  lemma RangeGone(pt: map<int, int>, e: Entry, pt': map<int, int>)
    requires Live(e) && forall w :: w in pt' <==> w in pt && !(e.start <= w < e.start + e.numPages)
    requires forall w | w in pt' :: pt'[w] == pt[w]
    ensures pt' == pt - Range(e)
  {
    forall w
      ensures w in pt' <==> w in pt - Range(e)
    {
      assert Covers(e, w) <==> e.start <= w < e.start + e.numPages;
      assert w in Range(e) <==> Covers(e, w);
      assert w in pt' <==> w in pt && !(e.start <= w < e.start + e.numPages);
    }
  }

  lemma {:induction false} ExitKeeps(s: Moment, i: nat)
    requires Ok(s) && Enabled(s, ExitCall(i))
    ensures Kept(s, Exited(s, i)) && Exited(s, i).procs == s.procs[i := s.procs[i].(pt := map[], state := Zombie)]
  {
    KernelWindow(s.procs, s.free);
    ClearAllKeeps(s, i, WINDOW, KERNBASE - WINDOW);
    var c, r := ClearAll(s, i, WINDOW, KERNBASE - WINDOW), Exited(s, i);
    forall w
      ensures w !in c.procs[i].pt
    {
      assert w in s.procs[i].pt ==> Maps(s.procs, i, w, s.procs[i].pt[w]);
    }
    assert c.procs[i].pt == map[];
    assert forall j: nat, w, f :: Maps(r.procs, j, w, f) <==> Maps(c.procs, j, w, f);
    SameMaps(c.procs, r.procs, c.free);
    ConservedTwice(s.procs, s.free, c.procs, c.free, r.procs, r.free);
  }

  lemma {:induction false} GrowKeeps(s: Moment, i: nat, k: nat)
    requires Ok(s) && Enabled(s, GrowCall(i, k))
    ensures Kept(s, After(s, GrowCall(i, k)))
  {
    var p := s.procs[i];
    forall w | w in p.pt
      ensures p.pt[w] !in s.free
    {
      assert Maps(s.procs, i, w, p.pt[w]);
    }
    assert EntryOk(p.entries[k]);
    EntryGrown(p, k, s.free[0]);
    GrownFrames(s.procs, s.free, i, k);
  }

  /** A slot whose pages stay as they are. */
  lemma {:induction false} SlotKeeps(s: Moment, i: nat, p: Proc)
    requires Ok(s) && i < NPROC && p.pt == s.procs[i].pt && if Alive(p) then ProcOk(p) else p.pt == map[]
    ensures Kept(s, s.(procs := s.procs[i := p]))
  {
    TableMaps(s.procs, s.procs[i := p], s.free);
    SameMaps(s.procs, s.procs[i := p], s.free);
  }

  lemma BlankOk()
    ensures ProcOk(Blank()) && Alive(Blank()) && Blank().pt == map[] && Blank().next == 0
  {
    assert forall i, v | 0 <= i < NENTRIES :: !Covers(Blank().entries[i], v);
  }

  /** What fork leaves, with every page's contents left out. */
  lemma {:induction false} CopyAllKeeps(s: Moment, i: nat, c: nat, x: nat)
    requires Ok(s) && i < NPROC && c < NPROC && i != c && Alive(s.procs[i]) && Alive(s.procs[c])
    requires s.procs[c].next == 0 && s.procs[c].pt == map[] && x <= NENTRIES && CopyAll(s, i, c, x).Some?
    ensures CopiedSo(s, CopyAll(s, i, c, x).value, i, c, x)
  {
    if x > 0 {
      CopyAllKeeps(s, i, c, x - 1);
      var t := CopyAll(s, i, c, x - 1).value;
      CopyAllTurn(s, t, CopyAll(s, i, c, x).value, i, c, x - 1);
    }
  }

  /** Process c has got the first x of process i's mappings. */
  ghost predicate CopiedSo(s: Moment, t: Moment, i: nat, c: nat, x: nat) {
    && |s.procs| == NPROC && |t.procs| == NPROC && i < NPROC && c < NPROC && x <= |t.procs[i].entries|
    && Kept(s, t) && t.procs == s.procs[c := t.procs[c]] && Alive(t.procs[c])
    && (forall f | f in t.free :: f in s.free) && Copied(t.procs[i], t.procs[c], map[], map[], s.free, x)
  }

  lemma {:induction false} CopyAllTurn(s: Moment, t: Moment, r: Moment, i: nat, c: nat, x: nat)
    requires Ok(s) && CopiedSo(s, t, i, c, x) && i != c && x < NENTRIES && Alive(s.procs[i])
    requires EntryFits(t, i, c, s.procs[i].entries[x]) && r == CopyEntry(t, i, c, s.procs[i].entries[x])
    ensures CopiedSo(s, r, i, c, x + 1)
  {
    CopyEntryKeeps(s, t, i, c, x);
    ConservedTwice(s.procs, s.free, t.procs, t.free, r.procs, r.free);
  }

  lemma {:induction false} CopyEntryKeeps(s: Moment, t: Moment, i: nat, c: nat, x: nat)
    requires Ok(s) && Ok(t) && i < NPROC && c < NPROC && i != c && x < NENTRIES && Alive(s.procs[i])
    requires t.procs == s.procs[c := t.procs[c]] && Alive(t.procs[c]) && EntryFits(t, i, c, s.procs[i].entries[x])
    requires (forall f | f in t.free :: f in s.free) && Copied(t.procs[i], t.procs[c], map[], map[], s.free, x)
    ensures var r := CopyEntry(t, i, c, s.procs[i].entries[x]);
            && Kept(t, r) && r.procs == t.procs[c := r.procs[c]] && Alive(r.procs[c])
            && (forall f | f in r.free :: f in t.free) && Copied(r.procs[i], r.procs[c], map[], map[], s.free, x + 1)
  {
    var e, r := s.procs[i].entries[x], CopyEntry(t, i, c, s.procs[i].entries[x]);
    if Live(e) {
      assert EntryOk(e) && t.procs[i] == s.procs[i];
      forall v | v in s.procs[i].pt
        ensures s.procs[i].pt[v] !in s.free
      {
        assert Maps(s.procs, i, v, s.procs[i].pt[v]);
      }
      LiveEntryKeeps(t, i, c, x, s.free);
    } else {
      SameMaps(t.procs, r.procs, t.free);
    }
  }

  lemma {:induction false} LiveEntryKeeps(t: Moment, i: nat, c: nat, x: nat, fs: seq<int>)
    requires CanCopy(t.procs, t.free, i, c, x, fs) && EntryFits(t, i, c, t.procs[i].entries[x])
    requires Copied(t.procs[i], t.procs[c], map[], map[], fs, x)
    ensures var r := CopyEntry(t, i, c, t.procs[i].entries[x]);
            && Kept(t, r) && r.procs == t.procs[c := r.procs[c]] && Alive(r.procs[c])
            && (forall f | f in r.free :: f in t.free) && Copied(r.procs[i], r.procs[c], map[], map[], fs, x + 1)
  {
    if t.procs[i].entries[x].flags.private_ {
      PrivateKeeps(t, i, c, x, fs);
    } else {
      SharedKeeps(t, i, c, x, fs);
    }
  }

  lemma {:induction false} PrivateKeeps(t: Moment, i: nat, c: nat, x: nat, fs: seq<int>)
    requires CanCopy(t.procs, t.free, i, c, x, fs) && t.procs[i].entries[x].flags.private_
    requires t.procs[i].entries[x].numPages <= |t.free| && Copied(t.procs[i], t.procs[c], map[], map[], fs, x)
    ensures t.procs[c].next < |t.procs[c].entries|
    ensures var e := t.procs[i].entries[x];
            var r := Moment(t.procs[c := Extended(t.procs[c], e, t.free[..e.numPages])], t.free[e.numPages..]);
            && Kept(t, r) && Alive(r.procs[c]) && Copied(r.procs[i], r.procs[c], map[], map[], fs, x + 1)
  {
    var e := t.procs[i].entries[x];
    ClonesNothing(t.procs[i], e, t.free);
    PrivateTurn(t.procs, t.free, i, c, x, map[], map[], map[], fs);
  }

  lemma ClonesNothing(p: Proc, e: Entry, free: seq<int>)
    requires ProcOk(p) && e in p.entries && e.numPages <= |free|
    ensures Clones(p, e, free[..e.numPages], map[], map[], free)
  {
    var k :| 0 <= k < NENTRIES && p.entries[k] == e;
    forall v | Covers(e, v)
      ensures v in p.pt && free[..e.numPages][v - e.start] in free
    {
      assert Covers(p.entries[k], v);
    }
  }

  lemma {:induction false} SharedKeeps(t: Moment, i: nat, c: nat, x: nat, fs: seq<int>)
    requires CanCopy(t.procs, t.free, i, c, x, fs) && !t.procs[i].entries[x].flags.private_
    requires t.procs[c].next < |t.procs[c].entries| && Copied(t.procs[i], t.procs[c], map[], map[], fs, x)
    ensures var e := t.procs[i].entries[x];
            var r := Moment(t.procs[c := Extended(t.procs[c], e, PagesOf(t.procs[i].pt, e))], t.free);
            && Kept(t, r) && Alive(r.procs[c]) && Copied(r.procs[i], r.procs[c], map[], map[], fs, x + 1)
  {
    var e := t.procs[i].entries[x];
    var pages := PagesOf(t.procs[i].pt, e);
    SharesOwn(t.procs[i], e);
    EntryThenPages(t.procs, c, e, pages);
    var after := WithTable(WithEntry(t.procs, c, e), c, MapRun(t.procs[c].pt, e.start, pages));
    SharedTurn(t.procs, t.free, i, c, x, map[], map[], fs, pages, after);
  }

  lemma SharesOwn(p: Proc, e: Entry)
    requires ProcOk(p) && e in p.entries
    ensures Shares(p, e, PagesOf(p.pt, e))
  {
    var k :| 0 <= k < NENTRIES && p.entries[k] == e;
    forall v | Covers(e, v)
      ensures v in p.pt
    {
      assert Covers(p.entries[k], v);
    }
  }

  lemma {:induction false} ForkKeeps(s: Moment, i: nat, c: nat)
    requires Ok(s) && Enabled(s, ForkCall(i, c))
    ensures Kept(s, After(s, ForkCall(i, c)))
  {
    BlankOk();
    assert s.procs[c].pt == map[];
    SlotKeeps(s, c, Blank());
    var t, r := Moment(s.procs[c := Blank()], s.free), After(s, ForkCall(i, c));
    CopyAllKeeps(t, i, c, s.procs[i].next + 1);
    ConservedTwice(s.procs, s.free, t.procs, t.free, r.procs, r.free);
  }

  /** Every call keeps the mapping tables of all processes, and the physical pages but those that it loses. */
  lemma {:induction false} CallKeeps(s: Moment, call: Call)
    requires Ok(s) && Enabled(s, call)
    ensures KeptBut(s, After(s, call), call)
  {
    if call.MmapFails? {
      FailKeeps(s, call);
    } else {
      SuccessKeeps(s, call);
    }
  }

  lemma {:induction false} SuccessKeeps(s: Moment, call: Call)
    requires Ok(s) && Enabled(s, call) && !call.MmapFails?
    ensures Kept(s, After(s, call))
  {
    match call {
      case MmapCall(i, e) => FreshMapping(s.procs, s.free, i, e);
      case MunmapCall(i, k) => UnmapKeeps(s, i, k);
      case GrowCall(i, k) => GrowKeeps(s, i, k);
      case ForkCall(i, c) => ForkKeeps(s, i, c);
      case ExitCall(i) => ExitKeeps(s, i);
      case ReapCall(i) => SlotKeeps(s, i, s.procs[i].(state := Unused));
      case StartCall(i) =>
        BlankOk();
        SlotKeeps(s, i, Blank());
      case SchedCall(i, state) =>
        assert ProcOk(s.procs[i]) && ProcOk(s.procs[i].(state := state));
        SlotKeeps(s, i, s.procs[i].(state := state));
    }
  }

  // ---------------------------------------------------------------- whole runs

  ghost predicate Follows(run: seq<Moment>, calls: seq<Call>, k: int) {
    0 <= k < |calls| && k + 1 < |run| ==> Enabled(run[k], calls[k]) && run[k + 1] == After(run[k], calls[k])
  }

  /** Nothing is mapped yet. */
  ghost predicate Booted(s: Moment) {
    && |s.procs| == NPROC && NoDup(s.free)
    && forall i | 0 <= i < NPROC :: s.procs[i].state == Unused && s.procs[i].pt == map[]
  }

  /** One of the first k calls loses page f. */
  ghost predicate LostIn(run: seq<Moment>, calls: seq<Call>, k: nat, f: int)
    requires k <= |calls| && k <= |run|
  {
    exists j | 0 <= j < k :: Loses(run[j], calls[j], f)
  }

  /** Last unmap frees, over every run: the mapping tables stay sound; a page of the pool is on the
      free list, once, exactly while no process maps it and no failing mmap has lost it, and no other page
      is ever freed or mapped. */
  lemma {:induction false} FreeUnlessMapped(run: seq<Moment>, calls: seq<Call>, k: nat, f: int)
    requires k < |run| == |calls| + 1 && Booted(run[0]) && forall j :: Follows(run, calls, j)
    ensures Ok(run[k])
    ensures f in run[k].free <==> f in run[0].free && !Mapped(run[k].procs, f) && !LostIn(run, calls, k, f)
    ensures Mapped(run[k].procs, f) ==> f in run[0].free && !LostIn(run, calls, k, f)
    ensures LostIn(run, calls, k, f) ==> f in run[0].free
  {
    if k == 0 {
      assert forall i: nat, v, g :: !Maps(run[0].procs, i, v, g);
    } else {
      FreeUnlessMapped(run, calls, k - 1, f);
      assert Follows(run, calls, k - 1);
      CallKeeps(run[k - 1], calls[k - 1]);
    }
    if Mapped(run[k].procs, f) {
      var i: nat, v :| Maps(run[k].procs, i, v, f);
    }
  }

  /** ... and a call puts a page on the free list exactly if it takes its last mapping away. */
  lemma {:induction false} LastUnmapFrees(run: seq<Moment>, calls: seq<Call>, k: nat, f: int)
    requires k + 1 < |run| == |calls| + 1 && Booted(run[0]) && forall j :: Follows(run, calls, j)
    ensures f !in run[k].free && f in run[k + 1].free <==> Mapped(run[k].procs, f) && !Mapped(run[k + 1].procs, f)
  {
    FreeUnlessMapped(run, calls, k, f);
    FreeUnlessMapped(run, calls, k + 1, f);
    assert Follows(run, calls, k);
    CallKeeps(run[k], calls[k]);
  }

  lemma {:induction false} CopyAllState(s: Moment, i: nat, c: nat, x: nat)
    requires i < |s.procs| && c < |s.procs| && x <= |s.procs[i].entries| && CopyAll(s, i, c, x).Some?
    ensures var t := CopyAll(s, i, c, x).value; |t.procs| == |s.procs| && t.procs[c].state == s.procs[c].state
  {
    if x > 0 {
      CopyAllState(s, i, c, x - 1);
    }
  }

  /** fork leaves its child runnable. */
  lemma {:induction false} ForkFills(s: Moment, i: nat, c: nat)
    requires Ok(s) && Enabled(s, ForkCall(i, c))
    ensures |After(s, ForkCall(i, c)).procs| == NPROC && After(s, ForkCall(i, c)).procs[c].state == Runnable
  {
    CopyAllState(Moment(s.procs[c := Blank()], s.free), i, c, s.procs[i].next + 1);
  }

  /** No call changes the mappings or the state of a process but the caller's and, for fork, the child's. */
  lemma {:induction false} OthersKept(s: Moment, call: Call, j: nat)
    requires Ok(s) && Enabled(s, call) && j < NPROC && j != call.i && (call.ForkCall? ==> j != call.c)
    ensures |After(s, call).procs| == NPROC && After(s, call).procs[j] == s.procs[j]
  {
    match call {
      case MunmapCall(i, k) => UnmapKeeps(s, i, k);
      case ExitCall(i) => ExitKeeps(s, i);
      case ForkCall(i, c) =>
        BlankOk();
        assert s.procs[c].pt == map[];
        SlotKeeps(s, c, Blank());
        CopyAllKeeps(Moment(s.procs[c := Blank()], s.free), i, c, s.procs[i].next + 1);
      case _ =>
    }
  }

  /** Over every run: the child of a fork is runnable, with the mappings that fork gave it, until it calls
      something itself or is scheduled, whatever the others do. */
  lemma {:induction false} ForkedStays(run: seq<Moment>, calls: seq<Call>, k: nat, m: nat)
    requires k < m < |run| == |calls| + 1 && Booted(run[0]) && forall j :: Follows(run, calls, j)
    requires calls[k].ForkCall? && forall j | k < j < m :: calls[j].i != calls[k].c
    ensures var c := calls[k].c;
            && |run[m].procs| == NPROC == |run[k + 1].procs| && c < NPROC
            && run[m].procs[c].state == Runnable && run[m].procs[c] == run[k + 1].procs[c]
    decreases m
  {
    FreeUnlessMapped(run, calls, m - 1, 0);
    assert Follows(run, calls, m - 1);
    if m == k + 1 {
      ForkFills(run[k], calls[k].i, calls[k].c);
    } else {
      ForkedStays(run, calls, k, m - 1);
      OthersKept(run[m - 1], calls[m - 1], calls[k].c);
    }
  }

  /** No page is lost, whatever a run does, if and only if no mmap of it fails for want of a place. */
  lemma {:induction false} NothingLost(run: seq<Moment>, calls: seq<Call>, k: nat)
    requires k < |run| == |calls| + 1 && Booted(run[0]) && forall j :: Follows(run, calls, j)
    ensures (forall f | f in run[0].free :: f in run[k].free || Mapped(run[k].procs, f))
       <==> forall j | 0 <= j < k :: !calls[j].MmapFails?
  {
    forall f
      ensures f in run[0].free && !(f in run[k].free || Mapped(run[k].procs, f)) <==> LostIn(run, calls, k, f)
    {
      FreeUnlessMapped(run, calls, k, f);
    }
    if j :| 0 <= j < k && calls[j].MmapFails? {
      assert Follows(run, calls, j);
      assert Loses(run[j], calls[j], run[j].free[0]);
      assert LostIn(run, calls, k, run[j].free[0]);
    }
  }
}
