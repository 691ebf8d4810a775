/** The mmap subsystem (sysproc.c, proc.c, vm.c): page mappings, the per-process mapping table
    with guard pages, and physical pages that are freed with their last mapping. Virtual
    addresses count pages. */
module Mmap {
  import opened Common

  const PGSIZE: nat := 4096
  const NPROC: nat := 64
  const NENTRIES: nat := 100
  const WINDOW: int := 0x60000          // first page of the mmap window
  const KERNBASE: int := 0x80000        // first kernel page
  const KERNPAGES: int := 0xE000        // kernel pages mapped from KERNBASE on, up to PHYSTOP

  datatype ProcState = Unused | Embryo | Sleeping | Runnable | Running | Zombie

  datatype Flags = Flags(private_: bool, shared: bool, anonymous: bool, fixed: bool, growsup: bool)

  const NoFlags := Flags(false, false, false, false, false)

  /** struct mappingEntry; guard is 0 for a mapping that does not grow. */
  datatype Entry = Entry(valid: bool, start: int, numPages: nat, flags: Flags, guard: int)

  const NoEntry := Entry(false, 0, 0, NoFlags, 0)

  /** pt holds the present pages of the window with their physical pages. */
  datatype Proc = Proc(state: ProcState, pt: map<int, int>, entries: seq<Entry>, next: nat)

  type Page = seq<int>

  // ---------------------------------------------------------------- the mapping table

  /** The entries that isguardpage, cangrowup and copymemorymappings do not skip. */
  predicate Live(e: Entry) {
    e.valid && WINDOW <= e.start < KERNBASE
  }

  predicate Covers(e: Entry, v: int) {
    Live(e) && e.start <= v < e.start + e.numPages
  }

  /** The pages an entry keeps to itself: its range and its guard page. */
  predicate Reserves(e: Entry, v: int) {
    Covers(e, v) || (Live(e) && e.flags.growsup && v == e.start + e.numPages)
  }

  predicate EntryOk(e: Entry) {
    && e.numPages >= 1 && e.start + e.numPages <= KERNBASE
    && e.flags.private_ != e.flags.shared
    && (if e.flags.growsup then e.guard == e.start + e.numPages < KERNBASE else e.guard == 0)
  }

  ghost predicate Apart(e: Entry, f: Entry) {
    forall v :: !(Reserves(e, v) && Reserves(f, v))
  }

  ghost predicate Present(p: Proc, v: int) {
    v in p.pt || KERNBASE <= v < KERNBASE + KERNPAGES
  }

  ghost predicate TableOk(entries: seq<Entry>) {
    && (forall i | 0 <= i < |entries| && entries[i].valid :: Live(entries[i]))
    && (forall i | 0 <= i < |entries| && Live(entries[i]) :: EntryOk(entries[i]))
    && (forall i, j | 0 <= i < j < |entries| :: Apart(entries[i], entries[j]))
  }

  /** The mapping-table invariant: ranges and guard pages are disjoint inside the window, the
      present pages are exactly the ranges, and no page is mapped twice. */
  ghost predicate ProcOk(p: Proc) {
    && |p.entries| == NENTRIES && p.next < NENTRIES
    && (forall i | p.next <= i < NENTRIES :: !Live(p.entries[i]))
    && TableOk(p.entries)
    && (forall v :: v in p.pt <==> exists i | 0 <= i < NENTRIES :: Covers(p.entries[i], v))
    && Injective(p.pt)
  }

  ghost predicate Injective(pt: map<int, int>) {
    forall v, w | v in pt && w in pt && v != w :: pt[v] != pt[w]
  }

  ghost predicate Alive(p: Proc) {
    p.state == Sleeping || p.state == Runnable || p.state == Running
  }

  // ---------------------------------------------------------------- physical pages

  /** Process i maps page v to physical page f. */
  predicate Maps(procs: seq<Proc>, i: nat, v: int, f: int) {
    i < |procs| && v in procs[i].pt && procs[i].pt[v] == f
  }

  ghost predicate Mapped(procs: seq<Proc>, f: int) {
    exists i: nat, v :: Maps(procs, i, v, f)
  }

  /** A physical page is on the free list at most once and never while some process maps it. */
  ghost predicate FramesOk(procs: seq<Proc>, free: seq<int>) {
    && NoDup(free)
    && (forall i: nat, v, f :: Maps(procs, i, v, f) ==> f !in free)
  }

  /** The same physical pages are free or mapped: none is lost. */
  ghost predicate Conserved(procs: seq<Proc>, free: seq<int>, procs': seq<Proc>, free': seq<int>) {
    forall f :: f in free || Mapped(procs, f) <==> f in free' || Mapped(procs', f)
  }

  /** Mappings lie in the window, and only a process in use has any. */
  ghost predicate InWindow(procs: seq<Proc>) {
    forall i: nat, v, f :: Maps(procs, i, v, f) ==> WINDOW <= v < KERNBASE && procs[i].state != Unused
  }

  /** What every system call keeps. Only a process that is running, or able to, has mappings. */
  ghost predicate KernelOk(procs: seq<Proc>, free: seq<int>) {
    && |procs| == NPROC
    && FramesOk(procs, free)
    && forall i | 0 <= i < NPROC :: if Alive(procs[i]) then ProcOk(procs[i]) else procs[i].pt == map[]
  }

  lemma KernelWindow(procs: seq<Proc>, free: seq<int>)
    requires KernelOk(procs, free)
    ensures InWindow(procs)
  {
    forall i: nat, v, f | Maps(procs, i, v, f)
      ensures WINDOW <= v < KERNBASE && procs[i].state != Unused
    {
      assert Alive(procs[i]) && ProcOk(procs[i]);
      var k :| 0 <= k < NENTRIES && Covers(procs[i].entries[k], v);
      assert EntryOk(procs[i].entries[k]);
    }
  }

  /** Whether n pages from v on hold neither a mapping nor a guard page. */
  ghost predicate Allocatable(p: Proc, v: int, n: nat) {
    forall k | v <= k < v + n :: !Present(p, k) && !Guarded(p, k)
  }

  /** There is a place in the window for n pages. */
  ghost predicate HasRoom(p: Proc, n: nat) {
    exists v :: WINDOW <= v < KERNBASE && Allocatable(p, v, n)
  }

  ghost predicate Guarded(p: Proc, v: int) {
    exists i | 0 <= i < |p.entries| && i <= p.next :: Live(p.entries[i]) && p.entries[i].guard == v
  }

  /** Page w is not the kernel's, not mapped, and no entry's guard page. */
  ghost predicate FreePage(p: Proc, w: int)
    requires |p.entries| == NENTRIES && p.next < NENTRIES
  {
    && w !in p.pt && !(KERNBASE <= w < KERNBASE + KERNPAGES)
    && forall k | 0 <= k <= p.next ::
         !(p.entries[k].valid && WINDOW <= p.entries[k].start < KERNBASE && p.entries[k].guard == w)
  }

  lemma AllocatableIs(p: Proc, v: int, n: nat)
    requires |p.entries| == NENTRIES && p.next < NENTRIES
    ensures Allocatable(p, v, n) <==> forall w | v <= w < v + n :: FreePage(p, w)
  {
    forall w
      ensures FreePage(p, w) <==> !Present(p, w) && !Guarded(p, w)
    {
    }
  }

  /** Pages of the window that may be allocated are reserved by no entry, and no range of them
      reaches the kernel's pages. */
  lemma AllocatableApart(p: Proc, v: int, n: nat)
    requires ProcOk(p) && Allocatable(p, v, n) && WINDOW <= v < KERNBASE && n >= 1
    ensures v + n <= KERNBASE
    ensures forall i, k | 0 <= i < NENTRIES && v <= k < v + n :: !Reserves(p.entries[i], k)
  {
    if v + n > KERNBASE {
      assert Present(p, KERNBASE);
    }
    forall i, k | 0 <= i < NENTRIES && v <= k < v + n
      ensures !Reserves(p.entries[i], k)
    {
      if Live(p.entries[i]) {
        assert EntryOk(p.entries[i]) && i < p.next;
        assert !Present(p, k) && !Guarded(p, k);
      }
    }
  }

  // ---------------------------------------------------------------- mmap

  /** Pages v, v+1, ... mapped to the given physical pages. */
  function MapRun(pt: map<int, int>, v: int, pages: seq<int>): (r: map<int, int>)
    ensures forall w :: w in r <==> w in pt || v <= w < v + |pages|
    ensures forall w | w in r :: r[w] == if v <= w < v + |pages| then pages[w - v] else pt[w]
  {
    if pages == [] then pt
    else MapRun(pt, v, pages[..|pages| - 1])[v + |pages| - 1 := pages[|pages| - 1]]
  }

  /** The process with one more entry, its range mapped. */
  function Extended(p: Proc, e: Entry, pages: seq<int>): Proc
    requires p.next < |p.entries|
  {
    p.(pt := MapRun(p.pt, e.start, pages), entries := p.entries[p.next := e], next := p.next + 1)
  }

  lemma ApartSwap(e: Entry, f: Entry)
    requires Apart(e, f)
    ensures Apart(f, e)
  {
  }

  lemma TableAdded(entries: seq<Entry>, n: nat, e: Entry)
    requires TableOk(entries) && n < |entries| && Live(e) && EntryOk(e)
    requires forall i | 0 <= i < |entries| :: Apart(entries[i], e)
    ensures TableOk(entries[n := e])
  {
    var es := entries[n := e];
    forall i, j | 0 <= i < j < |es|
      ensures Apart(es[i], es[j])
    {
      if i == n {
        ApartSwap(entries[j], e);
      }
    }
  }

  lemma InjectiveAdded(pt: map<int, int>, v: int, pages: seq<int>)
    requires Injective(pt) && NoDup(pages) && forall w | w in pt :: pt[w] !in pages
    ensures Injective(MapRun(pt, v, pages))
  {
  }

  lemma EntryAdded(p: Proc, e: Entry, pages: seq<int>)
    requires ProcOk(p) && p.next + 1 < NENTRIES && Live(e) && EntryOk(e) && |pages| == e.numPages
    requires forall i | 0 <= i < NENTRIES :: Apart(p.entries[i], e)
    requires NoDup(pages) && forall v | v in p.pt :: p.pt[v] !in pages
    ensures ProcOk(Extended(p, e, pages))
  {
    var q := Extended(p, e, pages);
    TableAdded(p.entries, p.next, e);
    InjectiveAdded(p.pt, e.start, pages);
    forall v
      ensures v in q.pt <==> exists i | 0 <= i < NENTRIES :: Covers(q.entries[i], v)
    {
      CoverAdded(p, e, pages, v);
    }
  }

  lemma CoverAdded(p: Proc, e: Entry, pages: seq<int>, v: int)
    requires ProcOk(p) && p.next + 1 < NENTRIES && Live(e) && |pages| == e.numPages
    ensures v in Extended(p, e, pages).pt <==> exists i | 0 <= i < NENTRIES ::
              Covers(Extended(p, e, pages).entries[i], v)
  {
    var q := Extended(p, e, pages);
    if v in p.pt {
      var i :| 0 <= i < NENTRIES && Covers(p.entries[i], v);
      assert Covers(q.entries[i], v);
    }
    if Covers(e, v) {
      assert Covers(q.entries[p.next], v);
    }
    if exists i | 0 <= i < NENTRIES :: Covers(q.entries[i], v) {
      var i :| 0 <= i < NENTRIES && Covers(q.entries[i], v);
      assert i != p.next ==> Covers(p.entries[i], v);
    }
  }

  lemma MmapApart(p: Proc, e: Entry)
    requires ProcOk(p) && Live(e) && EntryOk(e)
    requires Allocatable(p, e.start, e.numPages) && (e.flags.growsup ==> Allocatable(p, e.guard, 1))
    ensures forall i | 0 <= i < NENTRIES :: Apart(p.entries[i], e)
  {
    AllocatableApart(p, e.start, e.numPages);
    if e.flags.growsup {
      AllocatableApart(p, e.guard, 1);
    }
    forall i | 0 <= i < NENTRIES
      ensures Apart(p.entries[i], e)
    {
      assert forall v :: Reserves(e, v) ==> !Reserves(p.entries[i], v);
    }
  }

  /** Nothing is unmapped, and exactly pages are mapped besides. */
  ghost predicate MapsMore(pt: map<int, int>, pt': map<int, int>, pages: seq<int>) {
    && (forall v | v in pt' :: (v in pt && pt'[v] == pt[v]) || pt'[v] in pages)
    && (forall v | v in pt :: v in pt' && pt'[v] == pt[v])
    && (forall f | f in pages :: exists v :: v in pt' && pt'[v] == f)
  }

  /** Mapping fresh pages in process i, the first of the free list, keeps the physical pages. */
  lemma FreshFrames(procs: seq<Proc>, free: seq<int>, i: nat, q: Proc, n: nat)
    requires FramesOk(procs, free) && i < |procs| && n <= |free|
    requires MapsMore(procs[i].pt, q.pt, free[..n])
    ensures FramesOk(procs[i := q], free[n..]) && Conserved(procs, free, procs[i := q], free[n..])
  {
    var after := procs[i := q];
    forall j: nat, v, f | Maps(after, j, v, f)
      ensures f !in free[n..] && (Maps(procs, j, v, f) || f in free[..n])
    {
      assert Maps(procs, j, v, f) || f in free[..n];
    }
    forall f
      ensures f in free || Mapped(procs, f) <==> f in free[n..] || Mapped(after, f)
    {
      assert free == free[..n] + free[n..];
      if Mapped(procs, f) {
        var j: nat, v :| Maps(procs, j, v, f);
        assert Maps(after, j, v, f);
      }
      if f in free[..n] {
        var v :| v in q.pt && q.pt[v] == f;
        assert Maps(after, i, v, f);
      }
      if Mapped(after, f) {
        var j: nat, v :| Maps(after, j, v, f);
      }
    }
  }

  // ---------------------------------------------------------------- clearpte

  /** Removing the mapping of page v and, if it was the last of its physical page, freeing that. */
  ghost function Cleared(procs: seq<Proc>, i: nat, v: int): seq<Proc>
    requires i < |procs|
  {
    procs[i := procs[i].(pt := procs[i].pt - {v})]
  }

  lemma ClearedFrames(procs: seq<Proc>, free: seq<int>, i: nat, v: int, f: int)
    requires FramesOk(procs, free) && Maps(procs, i, v, f)
    ensures var procs' := Cleared(procs, i, v);
            var free' := if Mapped(procs', f) then free else [f] + free;
            FramesOk(procs', free') && Conserved(procs, free, procs', free')
  {
    var procs' := Cleared(procs, i, v);
    var free' := if Mapped(procs', f) then free else [f] + free;
    forall j: nat, w, g | Maps(procs', j, w, g)
      ensures Maps(procs, j, w, g) && g !in free'
    {
      assert Maps(procs, j, w, g);
    }
    forall g
      ensures g in free || Mapped(procs, g) <==> g in free' || Mapped(procs', g)
    {
      if Mapped(procs, g) {
        var j: nat, w :| Maps(procs, j, w, g);
        assert Maps(procs', j, w, g) || g == f;
      }
      if Mapped(procs', g) {
        var j: nat, w :| Maps(procs', j, w, g);
        assert Maps(procs, j, w, g);
      }
    }
  }

  lemma ConservedTwice(p0: seq<Proc>, f0: seq<int>, p1: seq<Proc>, f1: seq<int>, p2: seq<Proc>, f2: seq<int>)
    requires Conserved(p0, f0, p1, f1) && Conserved(p1, f1, p2, f2)
    ensures Conserved(p0, f0, p2, f2)
  {
    forall f
      ensures f in f0 || Mapped(p0, f) <==> f in f2 || Mapped(p2, f)
    {
      assert f in f1 || Mapped(p1, f) <==> f in f2 || Mapped(p2, f);
    }
  }

  /** The process table and the free list between two system calls. */
  datatype Moment = Moment(procs: seq<Proc>, free: seq<int>)

  /** clearpte of page v, if it is present ... */
  ghost function ClearAt(s: Moment, i: nat, v: int): (r: Moment)
    requires i < |s.procs|
    ensures |r.procs| == |s.procs|
  {
    if v !in s.procs[i].pt then s
    else
      var procs, f := Cleared(s.procs, i, v), s.procs[i].pt[v];
      Moment(procs, if Mapped(procs, f) then s.free else [f] + s.free)
  }

  /** ... and of n pages from v on. */
  ghost function ClearAll(s: Moment, i: nat, v: int, n: nat): (r: Moment)
    requires i < |s.procs|
    ensures |r.procs| == |s.procs|
  {
    if n == 0 then s else ClearAt(ClearAll(s, i, v, n - 1), i, v + n - 1)
  }

  /** Progress of unmapping process i's pages from lo on: those below v are gone. */
  ghost predicate Clearing(ps0: seq<Proc>, fs0: seq<int>, procs: seq<Proc>, free: seq<int>, i: nat, lo: int, v: int)
    requires i < |ps0|
  {
    && |procs| == |ps0| && procs == ps0[i := ps0[i].(pt := procs[i].pt)] && lo <= v
    && (forall w :: w in procs[i].pt <==> w in ps0[i].pt && !(lo <= w < v))
    && (forall w | w in procs[i].pt :: procs[i].pt[w] == ps0[i].pt[w])
    && Moment(procs, free) == ClearAll(Moment(ps0, fs0), i, lo, v - lo)
    && FramesOk(procs, free) && InWindow(procs) && Conserved(ps0, fs0, procs, free)
  }

  /** Page v is unmapped, if it was present. */
  lemma ClearingNext(ps0: seq<Proc>, fs0: seq<int>, ps: seq<Proc>, fs: seq<int>, procs: seq<Proc>, free: seq<int>,
                     i: nat, lo: int, v: int, next: int)
    requires i < |ps0| && i < |ps| && next == v + 1 && Clearing(ps0, fs0, ps, fs, i, lo, v)
    requires if v in ps[i].pt then procs == Cleared(ps, i, v) && Conserved(ps, fs, procs, free)
               else procs == ps && free == fs
    requires Moment(procs, free) == ClearAt(Moment(ps, fs), i, v) && FramesOk(procs, free) && InWindow(procs)
    ensures Clearing(ps0, fs0, procs, free, i, lo, next)
  {
    if v in ps[i].pt {
      ConservedTwice(ps0, fs0, ps, fs, procs, free);
    }
    assert next - lo - 1 == v - lo;
  }

  /** The states that Clearing describes. */
  ghost function AfterClearing(ps0: seq<Proc>, fs0: seq<int>, i: nat, lo: int, v: int): iset<Moment>
    requires i < |ps0|
  {
    iset t: Moment | Clearing(ps0, fs0, t.procs, t.free, i, lo, v)
  }

  lemma ClearingStarts(ps: seq<Proc>, fs: seq<int>, i: nat, v: int)
    requires i < |ps| && FramesOk(ps, fs) && InWindow(ps)
    ensures Moment(ps, fs) in AfterClearing(ps, fs, i, v, v)
  {
  }

  lemma ClearingHolds(ps0: seq<Proc>, fs0: seq<int>, t: Moment, i: nat, lo: int, v: int)
    requires i < |ps0| && t in AfterClearing(ps0, fs0, i, lo, v)
    ensures |t.procs| == |ps0| && FramesOk(t.procs, t.free) && InWindow(t.procs)
    ensures forall w :: w in t.procs[i].pt <==> w in ps0[i].pt && !(lo <= w < v)
  {
  }

  lemma ClearingTurn(ps0: seq<Proc>, fs0: seq<int>, t: Moment, u: Moment, i: nat, lo: int, v: int, next: int)
    requires i < |ps0| && i < |t.procs| && next == v + 1 && t in AfterClearing(ps0, fs0, i, lo, v)
    requires if v in t.procs[i].pt then u.procs == Cleared(t.procs, i, v) && Conserved(t.procs, t.free, u.procs, u.free)
               else u == t
    requires u == ClearAt(t, i, v) && FramesOk(u.procs, u.free) && InWindow(u.procs)
    ensures u in AfterClearing(ps0, fs0, i, lo, next)
  {
    ClearingNext(ps0, fs0, t.procs, t.free, u.procs, u.free, i, lo, v, next);
  }

  /** The slot becomes a zombie's once the whole window is unmapped. */
  lemma ExitDone(ps: seq<Proc>, fs: seq<int>, procs: seq<Proc>, free: seq<int>, i: nat)
    requires KernelOk(ps, fs) && i < NPROC && Clearing(ps, fs, procs, free, i, WINDOW, KERNBASE)
    ensures var after := procs[i := procs[i].(state := Zombie)];
            && after == ps[i := ps[i].(pt := map[], state := Zombie)] && KernelOk(after, free)
            && Moment(after, free) == Exited(Moment(ps, fs), i) && Conserved(ps, fs, after, free)
  {
    var after := procs[i := procs[i].(state := Zombie)];
    KernelWindow(ps, fs);
    forall w
      ensures w !in procs[i].pt
    {
      assert w in ps[i].pt ==> Maps(ps, i, w, ps[i].pt[w]);
    }
    assert procs[i].pt == map[];
    assert forall j: nat, w, f :: Maps(after, j, w, f) <==> Maps(procs, j, w, f);
    SameMaps(procs, after, free);
    ConservedTwice(ps, fs, procs, free, after, free);
  }

  /** Entry k is erased once its range is unmapped. */
  lemma UnmapDone(ps: seq<Proc>, fs: seq<int>, procs: seq<Proc>, free: seq<int>, i: nat, k: nat)
    requires KernelOk(ps, fs) && i < NPROC && Alive(ps[i]) && k < NENTRIES && Live(ps[i].entries[k])
    requires var e := ps[i].entries[k]; Clearing(ps, fs, procs, free, i, e.start, e.start + e.numPages)
    ensures var after := procs[i := procs[i].(entries := procs[i].entries[k := NoEntry])];
            && after == ps[i := Removed(ps[i], k)] && KernelOk(after, free)
            && Moment(after, free) == UnmapEntry(Moment(ps, fs), i, k) && Conserved(ps, fs, after, free)
  {
    var p, after := ps[i], procs[i := procs[i].(entries := procs[i].entries[k := NoEntry])];
    forall w
      ensures w in procs[i].pt <==> w in p.pt - Range(p.entries[k])
    {
      assert Covers(p.entries[k], w) ==> w in Range(p.entries[k]);
    }
    assert procs[i].pt == p.pt - Range(p.entries[k]);
    assert after == ps[i := Removed(p, k)];
    EntryRemoved(p, k);
    TableOnly(ps, fs, after, free, i, p, k);
  }

  function Range(e: Entry): set<int> {
    set v | e.start <= v < e.start + e.numPages && Covers(e, v)
  }

  /** The process with entry k and its range gone. */
  function Removed(p: Proc, k: nat): Proc
    requires k < |p.entries|
  {
    p.(pt := p.pt - Range(p.entries[k]), entries := p.entries[k := NoEntry])
  }

  /** Different entries reserve different pages. */
  lemma ReservedOnce(entries: seq<Entry>, i: nat, j: nat, v: int)
    requires TableOk(entries) && i < |entries| && j < |entries| && i != j && Reserves(entries[i], v)
    ensures !Reserves(entries[j], v)
  {
    assert if i < j then Apart(entries[i], entries[j]) else Apart(entries[j], entries[i]);
  }

  /** Replacing entry k by one that reserves no page of another's keeps the table. */
  lemma TableReplaced(entries: seq<Entry>, k: nat, e: Entry)
    requires TableOk(entries) && k < |entries| && (e.valid ==> Live(e) && EntryOk(e))
    requires forall i, v | 0 <= i < |entries| && i != k && Reserves(e, v) :: !Reserves(entries[i], v)
    ensures TableOk(entries[k := e])
  {
    var es := entries[k := e];
    forall i, j | 0 <= i < j < |es|
      ensures Apart(es[i], es[j])
    {
      assert Apart(entries[i], entries[j]);
    }
  }

  /** sys_munmap of entry k. */
  ghost function UnmapEntry(s: Moment, i: nat, k: nat): Moment
    requires i < |s.procs| && k < |s.procs[i].entries|
  {
    var e := s.procs[i].entries[k];
    var c := ClearAll(s, i, e.start, e.numPages);
    Moment(c.procs[i := c.procs[i].(entries := s.procs[i].entries[k := NoEntry])], c.free)
  }

  /** The mmap part of exit. */
  ghost function Exited(s: Moment, i: nat): Moment
    requires i < |s.procs|
  {
    var c := ClearAll(s, i, WINDOW, KERNBASE - WINDOW);
    Moment(c.procs[i := c.procs[i].(state := Zombie)], c.free)
  }

  lemma CoverRemoved(p: Proc, k: nat, v: int)
    requires ProcOk(p) && k < NENTRIES
    ensures v in Removed(p, k).pt <==> exists i | 0 <= i < NENTRIES :: Covers(Removed(p, k).entries[i], v)
  {
    var q := Removed(p, k);
    if v in q.pt {
      var i :| 0 <= i < NENTRIES && Covers(p.entries[i], v);
      assert Covers(q.entries[i], v);
    }
    if exists i | 0 <= i < NENTRIES :: Covers(q.entries[i], v) {
      var i :| 0 <= i < NENTRIES && Covers(q.entries[i], v);
      assert i != k && Covers(p.entries[i], v);
      ReservedOnce(p.entries, i, k, v);
    }
  }

  lemma EntryRemoved(p: Proc, k: nat)
    requires ProcOk(p) && k < NENTRIES
    ensures ProcOk(Removed(p, k))
  {
    TableReplaced(p.entries, k, NoEntry);
    RemovedCovered(p, k);
    RemovedInjective(p, k);
  }

  lemma RemovedInjective(p: Proc, k: nat)
    requires Injective(p.pt) && k < |p.entries|
    ensures Injective(Removed(p, k).pt)
  {
  }

  lemma RemovedCovered(p: Proc, k: nat)
    requires ProcOk(p) && k < NENTRIES
    ensures forall v :: v in Removed(p, k).pt <==> exists i | 0 <= i < NENTRIES :: Covers(Removed(p, k).entries[i], v)
  {
    forall v
      ensures v in Removed(p, k).pt <==> exists i | 0 <= i < NENTRIES :: Covers(Removed(p, k).entries[i], v)
    {
      CoverRemoved(p, k, v);
    }
  }

  /** What munmap makes of entry k and n pages from its start on. */
  ghost function Unmapped(p: Proc, k: nat, n: int): Proc
    requires k < |p.entries|
  {
    var e := p.entries[k];
    p.(pt := map v | v in p.pt && !(e.start <= v < e.start + n) :: p.pt[v], entries := p.entries[k := NoEntry])
  }

  /** Page v is present behind entry k, and within n pages of its start. */
  predicate Behind(p: Proc, k: nat, n: int, v: int)
    requires k < |p.entries|
  {
    p.entries[k].start + p.entries[k].numPages <= v < p.entries[k].start + n && v in p.pt
  }

  /** munmap keeps the table if and only if its length reaches the mapping's end and no present page behind. */
  lemma {:induction false} UnmapWhole(p: Proc, k: nat, n: int)
    requires ProcOk(p) && k < NENTRIES && Live(p.entries[k])
    ensures ProcOk(Unmapped(p, k, n)) <==> n >= p.entries[k].numPages && forall v :: !Behind(p, k, n, v)
  {
    var e, q := p.entries[k], Unmapped(p, k, n);
    assert EntryOk(e);
    if n < e.numPages {
      var v := if n < 0 then e.start else e.start + n;
      UnmapShort(p, q.entries, k, v);
      assert v in q.pt;
    } else if v :| Behind(p, k, n, v) {
      UnmapLong(p, q.entries, k, v);
      assert v !in q.pt;
    } else {
      forall v
        ensures v in q.pt <==> v in Removed(p, k).pt
      {
        assert !Behind(p, k, n, v);
      }
      assert q == Removed(p, k);
      EntryRemoved(p, k);
    }
  }

  /** A page that stays present is covered no more ... */
  lemma UnmapShort(p: Proc, es: seq<Entry>, k: nat, v: int)
    requires ProcOk(p) && k < NENTRIES && Covers(p.entries[k], v) && es == p.entries[k := NoEntry]
    ensures v in p.pt && forall i | 0 <= i < NENTRIES :: !Covers(es[i], v)
  {
    forall i | 0 <= i < NENTRIES
      ensures !Covers(es[i], v)
    {
      if i != k {
        ReservedOnce(p.entries, k, i, v);
      }
    }
  }

  /** ... or one that is cleared is still covered. */
  lemma UnmapLong(p: Proc, es: seq<Entry>, k: nat, v: int)
    requires ProcOk(p) && k < NENTRIES && v in p.pt && !Covers(p.entries[k], v) && es == p.entries[k := NoEntry]
    ensures exists i | 0 <= i < NENTRIES :: Covers(es[i], v)
  {
    var i :| 0 <= i < NENTRIES && Covers(p.entries[i], v);
    assert Covers(es[i], v);
  }

  /** Growing entry k over its guard page. */
  function Grown(e: Entry): Entry {
    e.(numPages := e.numPages + 1, guard := e.guard + 1)
  }

  lemma EntryGrown(p: Proc, k: nat, f: int)
    requires ProcOk(p) && k < NENTRIES && Live(p.entries[k]) && p.entries[k].flags.growsup
    requires Allocatable(p, p.entries[k].start + p.entries[k].numPages + 1, 1)
    requires forall v | v in p.pt :: p.pt[v] != f
    ensures p.entries[k].guard !in p.pt && !Present(p, p.entries[k].guard)
    ensures ProcOk(p.(pt := p.pt[p.entries[k].guard := f], entries := p.entries[k := Grown(p.entries[k])]))
  {
    var e, g := p.entries[k], p.entries[k].guard;
    assert EntryOk(e) && Reserves(e, g);
    AllocatableElsewhere(p, g + 1);
    var q := p.(pt := p.pt[g := f], entries := p.entries[k := Grown(e)]);
    forall i | 0 <= i < NENTRIES && i != k
      ensures !Reserves(p.entries[i], g)
    {
      ReservedOnce(p.entries, k, i, g);
    }
    forall i, v | 0 <= i < NENTRIES && i != k && Reserves(Grown(e), v)
      ensures !Reserves(p.entries[i], v)
    {
      if v != g + 1 {
        ReservedOnce(p.entries, k, i, v);
      }
    }
    TableReplaced(p.entries, k, Grown(e));
    forall v
      ensures v in q.pt <==> exists i | 0 <= i < NENTRIES :: Covers(q.entries[i], v)
    {
      GrownCovers(p, q, k, g, v);
    }
    GrownInjective(p.pt, g, f);
  }

  lemma GrownCovers(p: Proc, q: Proc, k: nat, g: int, v: int)
    requires ProcOk(p) && k < NENTRIES && Live(p.entries[k]) && g == p.entries[k].start + p.entries[k].numPages
    requires |q.entries| == NENTRIES && q.entries == p.entries[k := Grown(p.entries[k])]
    requires q.pt.Keys == p.pt.Keys + {g}
    ensures v in q.pt <==> exists i | 0 <= i < NENTRIES :: Covers(q.entries[i], v)
  {
    forall i | 0 <= i < NENTRIES
      ensures Covers(q.entries[i], v) <==> Covers(p.entries[i], v) || (i == k && v == g)
    {
    }
    if v == g {
      assert Covers(q.entries[k], v);
    }
  }

  lemma GrownInjective(pt: map<int, int>, g: int, f: int)
    requires Injective(pt) && forall v | v in pt :: pt[v] != f
    ensures Injective(pt[g := f])
  {
  }

  /** A page that may be allocated is reserved by no entry, wherever it lies. */
  lemma AllocatableElsewhere(p: Proc, v: int)
    requires ProcOk(p) && !Present(p, v) && !Guarded(p, v)
    ensures forall i | 0 <= i < NENTRIES :: !Reserves(p.entries[i], v)
  {
    forall i | 0 <= i < NENTRIES
      ensures !Reserves(p.entries[i], v)
    {
      if Live(p.entries[i]) {
        assert EntryOk(p.entries[i]) && i < p.next;
      }
    }
  }

  // ---------------------------------------------------------------- fork

  /** The valid entries among the first n, in order. */
  function LiveOnes(entries: seq<Entry>, n: nat): (r: seq<Entry>)
    requires n <= |entries|
    ensures |r| <= n && forall e | e in r :: Live(e)
  {
    if n == 0 then []
    else LiveOnes(entries, n - 1) + if Live(entries[n - 1]) then [entries[n - 1]] else []
  }

  lemma {:induction false} LiveOnesFrom(entries: seq<Entry>, n: nat, e: Entry)
    requires n <= |entries|
    ensures e in LiveOnes(entries, n) <==> exists l | 0 <= l < n :: entries[l] == e && Live(e)
  {
    if n > 0 {
      LiveOnesFrom(entries, n - 1, e);
      if entries[n - 1] == e && Live(e) {
        assert e in LiveOnes(entries, n);
      }
    }
  }

  /** Page v of the process belongs to a shared mapping. */
  ghost predicate SharedAt(p: Proc, v: int) {
    exists k | 0 <= k < |p.entries| :: Covers(p.entries[k], v) && p.entries[k].flags.shared
  }

  lemma SharedIn(p: Proc, k: nat, v: int)
    requires ProcOk(p) && k < NENTRIES && Covers(p.entries[k], v)
    ensures SharedAt(p, v) <==> p.entries[k].flags.shared
  {
    if SharedAt(p, v) {
      var l :| 0 <= l < NENTRIES && Covers(p.entries[l], v) && p.entries[l].flags.shared;
      if l != k {
        ReservedOnce(p.entries, k, l, v);
      }
    }
  }

  /** What the child has of its parent p: the same physical page where the mapping is shared, and
      elsewhere a page that was free, with the contents the parent's page had. */
  ghost predicate CopiedPages(p: Proc, child: Proc, mem: map<int, Page>, mem': map<int, Page>, free: seq<int>) {
    forall v | v in child.pt ::
      && v in p.pt
      && if SharedAt(p, v) then child.pt[v] == p.pt[v]
         else child.pt[v] in free && Contents(mem', child.pt[v]) == Contents(mem, p.pt[v])
  }

  /** The child after the first x entries of its parent. */
  ghost predicate Copied(p: Proc, child: Proc, mem: map<int, Page>, mem': map<int, Page>, free: seq<int>, x: nat)
    requires x <= |p.entries|
  {
    && child.next <= |child.entries| && child.entries[..child.next] == LiveOnes(p.entries, x)
    && CopiedPages(p, child, mem, mem', free)
    && forall f | f !in free :: Contents(mem', f) == Contents(mem, f)
  }

  /** The parent's entry x is apart from what the child has so far. */
  lemma ChildApart(p: Proc, child: Proc, x: nat)
    requires ProcOk(p) && ProcOk(child) && x < NENTRIES && Live(p.entries[x])
    requires child.entries[..child.next] == LiveOnes(p.entries, x)
    ensures forall k | 0 <= k < NENTRIES :: Apart(child.entries[k], p.entries[x])
    ensures forall v | Covers(p.entries[x], v) :: v !in child.pt && v in p.pt
  {
    forall k | 0 <= k < NENTRIES
      ensures Apart(child.entries[k], p.entries[x])
    {
      if k < child.next {
        assert child.entries[k] == child.entries[..child.next][k];
        LiveOnesFrom(p.entries, x, child.entries[k]);
        var l :| 0 <= l < x && p.entries[l] == child.entries[k];
        assert Apart(p.entries[l], p.entries[x]);
      }
    }
    forall v | Covers(p.entries[x], v)
      ensures v !in child.pt
    {
      assert Reserves(p.entries[x], v);
      assert forall k | 0 <= k < NENTRIES :: Apart(child.entries[k], p.entries[x]);
      assert forall k | 0 <= k < NENTRIES :: !Reserves(child.entries[k], v);
    }
  }

  /** pages are the parent's own under entry e ... */
  ghost predicate Shares(p: Proc, e: Entry, pages: seq<int>) {
    |pages| == e.numPages && forall v | Covers(e, v) :: v in p.pt && pages[v - e.start] == p.pt[v]
  }

  /** ... or pages that were free, now with the contents of the parent's. */
  ghost predicate Clones(p: Proc, e: Entry, pages: seq<int>, mem: map<int, Page>, mem': map<int, Page>,
                         free: seq<int>) {
    && |pages| == e.numPages
    && (forall v | Covers(e, v) :: v in p.pt && pages[v - e.start] in free
          && Contents(mem', pages[v - e.start]) == Contents(mem, p.pt[v]))
    && forall f | f !in pages :: Contents(mem', f) == Contents(mem, f)
  }

  /** The first k of the pages hold what the pages from v on held, and no other page changed. */
  ghost predicate ClonedTo(pt: map<int, int>, v: int, pages: seq<int>, k: nat, mem: map<int, Page>,
                           mem': map<int, Page>)
    requires k <= |pages| && forall w | v <= w < v + |pages| :: w in pt
  {
    && (forall j | 0 <= j < k :: Contents(mem', pages[j]) == Contents(mem, pt[v + j]))
    && forall f | f !in pages[..k] :: Contents(mem', f) == Contents(mem, f)
  }

  lemma CloneNext(pt: map<int, int>, v: int, pages: seq<int>, k: nat, mem: map<int, Page>, mem': map<int, Page>)
    requires k < |pages| && NoDup(pages) && forall w | v <= w < v + |pages| :: w in pt && pt[w] !in pages
    requires ClonedTo(pt, v, pages, k, mem, mem')
    ensures ClonedTo(pt, v, pages, k + 1, mem, mem'[pages[k] := Contents(mem', pt[v + k])])
  {
    var after := mem'[pages[k] := Contents(mem', pt[v + k])];
    assert pages[..k + 1] == pages[..k] + [pages[k]];
    assert pt[v + k] !in pages[..k];
    forall j | 0 <= j < k + 1
      ensures Contents(after, pages[j]) == Contents(mem, pt[v + j])
    {
    }
  }

  lemma ClonesMade(p: Proc, e: Entry, pages: seq<int>, mem: map<int, Page>, mem': map<int, Page>, free: seq<int>)
    requires Live(e) && |pages| == e.numPages && forall f | f in pages :: f in free
    requires forall v | e.start <= v < e.start + |pages| :: v in p.pt
    requires ClonedTo(p.pt, e.start, pages, |pages|, mem, mem')
    ensures Clones(p, e, pages, mem, mem', free)
  {
    assert pages[..|pages|] == pages;
    forall v | Covers(e, v)
      ensures Contents(mem', pages[v - e.start]) == Contents(mem, p.pt[v])
    {
      assert e.start + (v - e.start) == v;
    }
  }

  /** Free pages taken for entry e of process i are new to it. */
  lemma TakenPages(procs: seq<Proc>, free: seq<int>, i: nat, e: Entry, n: nat)
    requires FramesOk(procs, free) && i < |procs| && n == e.numPages <= |free| && EntryOk(e) && Live(e)
    requires forall v | Covers(e, v) :: v in procs[i].pt
    ensures NoDup(free[..n]) && NoDup(free[n..])
    ensures (forall f | f in free[..n] :: f in free) && forall f | f in free[n..] :: f in free
    ensures forall w | e.start <= w < e.start + n :: w in procs[i].pt && procs[i].pt[w] !in free[..n]
  {
    forall w | e.start <= w < e.start + n
      ensures w in procs[i].pt && procs[i].pt[w] !in free[..n]
    {
      assert Covers(e, w) && Maps(procs, i, w, procs[i].pt[w]);
    }
  }

  /** The kernel's processes with process c's page table replaced. */
  function WithTable(procs: seq<Proc>, c: nat, pt: map<int, int>): seq<Proc>
    requires c < |procs|
  {
    procs[c := procs[c].(pt := pt)]
  }

  lemma RunNext(pt: map<int, int>, v: int, pages: seq<int>, k: nat)
    requires k < |pages|
    ensures MapRun(pt, v, pages[..k + 1]) == MapRun(pt, v, pages[..k])[v + k := pages[k]]
  {
    assert pages[..k + 1][..k] == pages[..k];
  }

  /** ... and with one more entry in its mapping table. */
  function WithEntry(procs: seq<Proc>, c: nat, e: Entry): seq<Proc>
    requires c < |procs| && procs[c].next < |procs[c].entries|
  {
    procs[c := procs[c].(entries := procs[c].entries[procs[c].next := e], next := procs[c].next + 1)]
  }

  lemma EntryThenPages(procs: seq<Proc>, c: nat, e: Entry, pages: seq<int>)
    requires c < |procs| && procs[c].next < |procs[c].entries|
    ensures WithEntry(procs, c, e)[c].pt == procs[c].pt
    ensures forall j | 0 <= j < |procs| && j != c :: WithEntry(procs, c, e)[j] == procs[j]
    ensures WithTable(WithEntry(procs, c, e), c, MapRun(procs[c].pt, e.start, pages))
              == procs[c := Extended(procs[c], e, pages)]
  {
  }

  /** What the copying loop starts from. */
  ghost predicate CanClone(procs: seq<Proc>, i: nat, c: nat, v: int, temp: int, pages: seq<int>) {
    && i < |procs| && c < |procs| && i != c && NoDup(pages)
    && (forall w | v <= w < v + |pages| :: w in procs[i].pt && procs[i].pt[w] !in pages && !Present(procs[c], w))
    && forall w | temp <= w < temp + |pages| :: !Present(procs[i], w)
  }

  lemma CloneFirst(ps: seq<Proc>, c: nat, v: int, pages: seq<int>)
    requires c < |ps|
    ensures WithTable(ps, c, MapRun(ps[c].pt, v, pages[..0])) == ps
  {
  }

  lemma CloneTurn(ps: seq<Proc>, i: nat, c: nat, v: int, temp: int, pages: seq<int>, k: nat, mem: map<int, Page>,
                  mem': map<int, Page>)
    requires CanClone(ps, i, c, v, temp, pages) && k < |pages| && ClonedTo(ps[i].pt, v, pages, k, mem, mem')
    ensures var before, after := MapRun(ps[c].pt, v, pages[..k]), MapRun(ps[c].pt, v, pages[..k + 1]);
            var procs := WithTable(ps, c, before);
            && procs[i] == ps[i] && v + k in ps[i].pt
            && !Present(procs[c], v + k) && !Present(procs[i], temp + k)
            && WithTable(procs, c, procs[c].pt[v + k := pages[k]]) == WithTable(ps, c, after)
            && ClonedTo(ps[i].pt, v, pages, k + 1, mem, mem'[pages[k] := Contents(mem', ps[i].pt[v + k])])
  {
    assert !Present(ps[c], v + k);
    RunNext(ps[c].pt, v, pages, k);
    CloneNext(ps[i].pt, v, pages, k, mem, mem');
  }

  /** One entry more for the child: shared ... */
  lemma CopiedShared(p: Proc, child: Proc, mem: map<int, Page>, mem': map<int, Page>, free: seq<int>, x: nat,
                     pages: seq<int>)
    requires ProcOk(p) && ProcOk(child) && x < p.next && Live(p.entries[x]) && child.next + 1 < NENTRIES
    requires Copied(p, child, mem, mem', free, x)
    requires p.entries[x].flags.shared && Shares(p, p.entries[x], pages)
    ensures Copied(p, Extended(child, p.entries[x], pages), mem, mem', free, x + 1)
  {
    var e, q := p.entries[x], Extended(child, p.entries[x], pages);
    forall v | v in q.pt
      ensures v in p.pt && if SharedAt(p, v) then q.pt[v] == p.pt[v]
                           else q.pt[v] in free && Contents(mem', q.pt[v]) == Contents(mem, p.pt[v])
    {
      if e.start <= v < e.start + |pages| {
        assert EntryOk(e) && Covers(e, v);
        SharedIn(p, x, v);
      }
    }
    assert q.entries[..q.next] == child.entries[..child.next] + [e];
  }

  /** ... or private. */
  lemma CopiedPrivate(p: Proc, child: Proc, mem: map<int, Page>, mem1: map<int, Page>, mem2: map<int, Page>,
                      free: seq<int>, x: nat, pages: seq<int>)
    requires ProcOk(p) && ProcOk(child) && x < p.next && Live(p.entries[x]) && child.next + 1 < NENTRIES
    requires Copied(p, child, mem, mem1, free, x)
    requires forall v | v in child.pt :: child.pt[v] !in pages
    requires forall f | f in pages :: f in free
    requires forall v | v in p.pt :: p.pt[v] !in free
    requires !p.entries[x].flags.shared && Clones(p, p.entries[x], pages, mem1, mem2, free)
    ensures Copied(p, Extended(child, p.entries[x], pages), mem, mem2, free, x + 1)
  {
    var e, q := p.entries[x], Extended(child, p.entries[x], pages);
    forall v | v in q.pt
      ensures v in p.pt && if SharedAt(p, v) then q.pt[v] == p.pt[v]
                           else q.pt[v] in free && Contents(mem2, q.pt[v]) == Contents(mem, p.pt[v])
    {
      if e.start <= v < e.start + |pages| {
        assert EntryOk(e) && Covers(e, v);
        SharedIn(p, x, v);
      }
    }
    assert q.entries[..q.next] == child.entries[..child.next] + [e];
  }

  /** Sharing the parent's pages with the child keeps the physical pages. */
  lemma SharedFrames(procs: seq<Proc>, free: seq<int>, i: nat, c: nat, q: Proc)
    requires FramesOk(procs, free) && i < |procs| && c < |procs| && i != c
    requires forall v | v in q.pt ::
               (v in procs[c].pt && q.pt[v] == procs[c].pt[v]) || (v in procs[i].pt && q.pt[v] == procs[i].pt[v])
    requires forall v | v in procs[c].pt :: v in q.pt && q.pt[v] == procs[c].pt[v]
    ensures FramesOk(procs[c := q], free) && Conserved(procs, free, procs[c := q], free)
  {
    var after := procs[c := q];
    forall j: nat, v, f | Maps(after, j, v, f)
      ensures Maps(procs, j, v, f) || Maps(procs, i, v, f)
    {
    }
    forall f
      ensures Mapped(procs, f) <==> Mapped(after, f)
    {
      if Mapped(procs, f) {
        var j: nat, v :| Maps(procs, j, v, f);
        assert Maps(after, j, v, f);
      }
      if Mapped(after, f) {
        var j: nat, v :| Maps(after, j, v, f);
      }
    }
  }

  // ---------------------------------------------------------------- the kernel

  class Kernel {
    var procs: seq<Proc>
    var free: seq<int>                 // kmem.freelist, head first
    var mem: map<int, Page>            // the contents of physical pages

    ghost predicate Valid()
      reads this
    {
      KernelOk(procs, free)
    }

    constructor (free: seq<int>, mem: map<int, Page>)
      requires NoDup(free)
      ensures Valid() && this.free == free && this.mem == mem
    {
      procs := seq(NPROC, _ => Proc(Unused, map[], seq(NENTRIES, _ => NoEntry), 0));
      this.free, this.mem := free, mem;
    }

    /** kalloc: the head of the free list, or -1. */
    method Kalloc() returns (ok: bool, f: int)
      modifies this`free
      ensures ok <==> old(free) != []
      ensures if ok then f == old(free)[0] && free == old(free)[1..] else free == old(free)
    {
      if free == [] {
        return false, -1;
      }
      ok, f, free := true, free[0], free[1..];
    }

    /** kfree: onto the head of the free list, filled with junk. */
    method Kfree(f: int)
      modifies this`free, this`mem
      ensures free == [f] + old(free) && mem == old(mem)[f := Junk()]
    {
      free, mem := [f] + free, mem[f := Junk()];
    }

    /** ispamapped: scan the window of every process in use. */
    method IsMapped(f: int) returns (r: bool)
      requires forall i, v | 0 <= i < |procs| && v in procs[i].pt :: WINDOW <= v < KERNBASE && procs[i].state != Unused
      ensures r <==> Mapped(procs, f)
      ensures r <==> exists i, v | 0 <= i < |procs| && v in procs[i].pt :: procs[i].pt[v] == f
    {
      ghost var g := f;
      assert Mapped(procs, g) <==> exists i, v | 0 <= i < |procs| && v in procs[i].pt :: procs[i].pt[v] == g by {
        assert forall i, v | 0 <= i < |procs| && v in procs[i].pt :: procs[i].pt[v] == g <==> Maps(procs, i, v, g);
      }
      var i := 0;
      while i < |procs|
        invariant 0 <= i <= |procs|
        invariant forall j: nat, v | j < i :: !Maps(procs, j, v, f)
      {
        if procs[i].state != Unused {
          var v := WINDOW;
          while v < KERNBASE
            invariant WINDOW <= v <= KERNBASE
            invariant forall w | w < v :: !Maps(procs, i, w, f)
          {
            if v in procs[i].pt && procs[i].pt[v] == f {
              assert Maps(procs, i, v, f);
              return true;
            }
            v := v + 1;
          }
        }
        i := i + 1;
      }
      r := false;
    }

    /** isguardpage, for process i. */
    method IsGuardPage(i: nat, v: int) returns (r: bool)
      requires i < |procs| && |procs[i].entries| == NENTRIES && procs[i].next < NENTRIES
      ensures r <==> Guarded(procs[i], v)
      ensures r <==> exists k | 0 <= k <= procs[i].next ::
                && procs[i].entries[k].valid && WINDOW <= procs[i].entries[k].start < KERNBASE
                && procs[i].entries[k].guard == v
    {
      var p := procs[i];
      var k := 0;
      while k < p.next + 1
        invariant 0 <= k <= p.next + 1
        invariant forall l | 0 <= l < k :: !(Live(p.entries[l]) && p.entries[l].guard == v)
      {
        if Live(p.entries[k]) && p.entries[k].guard == v {
          return true;
        }
        k := k + 1;
      }
      r := false;
    }

    /** canallocatva. */
    method CanAllocate(i: nat, v: int, n: nat) returns (r: bool)
      requires i < |procs| && |procs[i].entries| == NENTRIES && procs[i].next < NENTRIES
      ensures r <==> Allocatable(procs[i], v, n)
      ensures r <==> forall w | v <= w < v + n :: FreePage(procs[i], w)
    {
      AllocatableIs(procs[i], v, n);
      var k := 0;
      while k < n
        invariant 0 <= k <= n && Allocatable(procs[i], v, k)
      {
        var guard := IsGuardPage(i, v + k);
        if guard {
          return false;
        }
        if v + k in procs[i].pt || KERNBASE <= v + k < KERNBASE + KERNPAGES {
          assert Present(procs[i], v + k);
          return false;
        }
        k := k + 1;
      }
      r := true;
    }

    /** The loop of findfreevirtualaddress and of sys_mmap without MAP_FIXED: the lowest page of the
        window from which n pages may be allocated. */
    method FindFree(i: nat, n: nat) returns (ok: bool, v: int)
      requires i < |procs| && |procs[i].entries| == NENTRIES && procs[i].next < NENTRIES
      ensures ok ==> WINDOW <= v < KERNBASE && Allocatable(procs[i], v, n)
      ensures forall w | WINDOW <= w < (if ok then v else KERNBASE) :: !Allocatable(procs[i], w, n)
    {
      v := WINDOW;
      while v < KERNBASE
        invariant WINDOW <= v <= KERNBASE
        invariant forall w | WINDOW <= w < v :: !Allocatable(procs[i], w, n)
      {
        var can := CanAllocate(i, v, n);
        if can {
          return true, v;
        }
        v := v + 1;
      }
      ok := false;
    }

    /** The allocation loop of sys_mmap and copymemorymappings: n physical pages, or none. */
    method AllocPages(n: nat) returns (ok: bool, pages: seq<int>)
      modifies this`free, this`mem
      ensures ok <==> n <= |old(free)|
      ensures ok ==> pages == old(free)[..n] && free == old(free)[n..] && mem == old(mem)
      ensures !ok ==>
                |free| == |old(free)| && (forall f :: f in free <==> f in old(free))
                && (NoDup(old(free)) ==> NoDup(free))
      ensures forall f | f !in old(free) :: Contents(mem, f) == Contents(old(mem), f)
    {
      pages := [];
      ok := true;
      while |pages| < n && ok
        invariant |pages| <= n && |pages| <= |old(free)| && pages == old(free)[..|pages|]
                  && free == old(free)[|pages|..]
        invariant mem == old(mem) && (!ok ==> free == [] && |pages| < n)
        decreases ok, n - |pages|
      {
        var f;
        ok, f := Kalloc();
        if ok {
          pages := pages + [f];
        }
      }
      if !ok {
        var j := 0;
        while j < |pages|
          invariant 0 <= j <= |pages| && |free| == j
          invariant forall k | 0 <= k < j :: free[k] == pages[j - 1 - k]
          invariant forall f | f !in old(free) :: Contents(mem, f) == Contents(old(mem), f)
        {
          Kfree(pages[j]);
          j := j + 1;
        }
        Reversed(pages, free);
      }
    }

    /** mappages of one page; ok is false where it panics with "remap". */
    method MapPage(i: nat, v: int, f: int) returns (ok: bool)
      requires i < |procs|
      modifies this`procs
      ensures ok <==> !old(Present(procs[i], v))
      ensures procs == if ok then old(procs)[i := old(procs[i]).(pt := old(procs[i].pt)[v := f])] else old(procs)
    {
      if v in procs[i].pt || KERNBASE <= v < KERNBASE + KERNPAGES {
        return false;
      }
      procs := procs[i := procs[i].(pt := procs[i].pt[v := f])];
      ok := true;
    }

    /** Map physical pages from page v on. */
    method MapPages(i: nat, v: int, pages: seq<int>) returns (ok: bool)
      requires i < |procs|
      requires forall k | v <= k < v + |pages| :: !Present(procs[i], k)
      modifies this`procs
      ensures ok && procs == old(procs)[i := old(procs[i]).(pt := MapRun(old(procs[i].pt), v, pages))]
    {
      var k := 0;
      ok := true;
      assert procs[i].(pt := MapRun(procs[i].pt, v, [])) == procs[i];
      while k < |pages|
        invariant 0 <= k <= |pages| && ok
        invariant procs == old(procs)[i := old(procs[i]).(pt := MapRun(old(procs[i].pt), v, pages[..k]))]
      {
        assert pages[..k + 1][..k] == pages[..k];
        ok := MapPage(i, v + k, pages[k]);
        k := k + 1;
      }
      assert pages[..k] == pages;
    }

    /** sys_mmap's choice of address: the one asked for with MAP_FIXED, else the lowest that fits;
        then the guard page, which only that address is tried for. */
    method Place(i: nat, addr: int, n: nat, flags: Flags) returns (ok: bool, v: int, guard: int)
      requires i < |procs| && |procs[i].entries| == NENTRIES && procs[i].next < NENTRIES
      requires flags.fixed ==> addr % PGSIZE == 0
      ensures ok ==> WINDOW <= v < KERNBASE && Allocatable(procs[i], v, n)
      ensures ok ==> if flags.growsup then guard == v + n && Allocatable(procs[i], guard, 1) else guard == 0
      ensures ok ==> if flags.fixed then v * PGSIZE == addr else forall w | WINDOW <= w < v ::
                !Allocatable(procs[i], w, n)
      ensures !ok ==> forall w | Chosen(procs[i], addr, n, flags, w) ::
                flags.growsup && !Allocatable(procs[i], w + n, 1)
    {
      if flags.fixed {
        v := addr / PGSIZE;
        if addr < WINDOW * PGSIZE || addr >= KERNBASE * PGSIZE {
          return false, v, 0;
        }
        ok := CanAllocate(i, v, n);
      } else {
        ok, v := FindFree(i, n);
      }
      if !ok {
        return false, v, 0;
      }
      guard := 0;
      if flags.growsup {
        guard := v + n;
        ok := CanAllocate(i, guard, 1);
      }
    }

    /** sys_mmap, its file reading apart: -1 with every mapping as it was, or the address of n fresh
        pages, n being the length rounded up. A call that gets its pages and then finds no place for them
        loses all n. */
    method Mmap(i: nat, addr: int, length: int, prot: int, flags: Flags, offset: int) returns (r: int)
      requires Valid() && i < NPROC && procs[i].state == Running && procs[i].next + 1 < NENTRIES
      requires length > 0
      modifies this
      ensures Valid()
      ensures r == -1 ==> procs == old(procs)
      ensures r == -1 && !BadMmap(addr, prot, flags, offset) && RoundUp(length) <= |old(free)| ==>
                free == old(free)[RoundUp(length)..]
      ensures r == -1 && (BadMmap(addr, prot, flags, offset) || RoundUp(length) > |old(free)|) ==>
                |free| == |old(free)| && forall f :: f in free <==> f in old(free)
      ensures r != -1 <==>
                && prot == 3 && flags.shared != flags.private_ && (flags.anonymous || offset == 0)
                && (flags.fixed ==> addr % PGSIZE == 0)
                && RoundUp(length) <= |old(free)| && old(HasPlace(procs[i], addr, RoundUp(length), flags))
      ensures r != -1 && flags.fixed ==> r == addr
      ensures r != -1 ==>
                MmapDone(old(procs), old(free), i, addr, RoundUp(length), flags, r, procs, free) && mem == old(mem)
      ensures r != -1 ==> |procs| == NPROC && forall j | 0 <= j < NPROC && j != i :: procs[j] == old(procs[j])
      ensures r != -1 ==> forall b | r <= b < r + length :: PageOf(b) in procs[i].pt
      ensures r != -1 ==> Obtained(old(procs[i]), procs[i], old(free), free, length, flags, r)
    {
      if BadMmap(addr, prot, flags, offset) {
        return -1;
      }
      var n := length / PGSIZE;
      if length % PGSIZE != 0 {
        n := n + 1;
      }
      ghost var p := procs[i];
      r := MmapPages(i, addr, n, flags);
      if r != -1 {
        DoneBytes(p, procs[i], old(free), addr, n, length, flags, r);
      }
    }

    /** ... with its arguments checked. */
    method MmapPages(i: nat, addr: int, n: nat, flags: Flags) returns (r: int)
      requires Valid() && i < NPROC && procs[i].state == Running && procs[i].next + 1 < NENTRIES && n > 0
      requires flags.shared != flags.private_ && (flags.fixed ==> addr % PGSIZE == 0)
      modifies this
      ensures Valid()
      ensures r == -1 ==> procs == old(procs)
      ensures r == -1 ==> if n <= |old(free)| then free == old(free)[n..]
                          else |free| == |old(free)| && forall f :: f in free <==> f in old(free)
      ensures r != -1 <==> n <= |old(free)| && old(HasPlace(procs[i], addr, n, flags))
      ensures r != -1 ==> MmapDone(old(procs), old(free), i, addr, n, flags, r, procs, free) && mem == old(mem)
    {
      ghost var ps, fs := procs, free;
      var ok, pages := AllocPages(n);
      StillOk(ps, fs, free);
      if !ok {
        return -1;
      }
      var v, guard;
      ok, v, guard := Place(i, addr, n, flags);
      if !ok {
        return -1;
      }
      assert Chosen(ps[i], addr, n, flags, v);
      AllocatableApart(ps[i], v, n);
      assert flags.growsup ==> !Present(ps[i], guard);
      Record(i, Entry(true, v, n, flags, guard), pages, fs);
      r := v * PGSIZE;
    }

    /** The end of mmap, for an entry at a place with room: fs is the free list before its pages, the
        first of it, were taken. */
    method Record(i: nat, e: Entry, pages: seq<int>, ghost fs: seq<int>)
      requires KernelOk(procs, fs) && i < NPROC && Alive(procs[i]) && procs[i].next + 1 < NENTRIES
      requires Live(e) && EntryOk(e) && e.numPages <= |fs| && pages == fs[..e.numPages] && free == fs[e.numPages..]
      requires Allocatable(procs[i], e.start, e.numPages) && (e.flags.growsup ==> Allocatable(procs[i], e.guard, 1))
      modifies this`procs
      ensures KernelOk(procs, free) && Conserved(old(procs), fs, procs, free)
      ensures procs == old(procs)[i := Extended(old(procs[i]), e, pages)]
    {
      ghost var ps := procs;
      FreshMapping(ps, fs, i, e);
      var ok := MapPages(i, e.start, pages);
      var p := procs[i];
      procs := procs[i := p.(entries := p.entries[p.next := e], next := p.next + 1)];
      assert procs == ps[i := Extended(ps[i], e, pages)];
    }

    /** clearpte, on a present page: the mapping goes, and its physical page is freed if no process
        maps it any more. */
    method Clearpte(i: nat, v: int)
      requires i < |procs| && v in procs[i].pt && FramesOk(procs, free) && InWindow(procs)
      modifies this
      ensures procs == Cleared(old(procs), i, v)
      ensures procs == old(procs)[i := old(procs[i]).(pt := old(procs[i].pt) - {v})]
      ensures free == if Mapped(procs, old(procs[i].pt[v])) then old(free) else [old(procs[i].pt[v])] + old(free)
      ensures Moment(procs, free) == ClearAt(old(Moment(procs, free)), i, v)
      ensures FramesOk(procs, free) && InWindow(procs) && Conserved(old(procs), old(free), procs, free)
    {
      var f := procs[i].pt[v];
      ghost var ps, fs := procs, free;
      assert Maps(ps, i, v, f);
      procs := procs[i := procs[i].(pt := procs[i].pt - {v})];
      forall j: nat, w, g | Maps(procs, j, w, g)
        ensures WINDOW <= w < KERNBASE && procs[j].state != Unused
      {
        assert Maps(ps, j, w, g);
      }
      assert forall j, w | 0 <= j < |procs| && w in procs[j].pt :: Maps(procs, j, w, procs[j].pt[w]);
      var mapped := IsMapped(f);
      if !mapped {
        Kfree(f);
      }
      ClearedFrames(ps, fs, i, v, f);
    }

    /** The unmapping loop of sys_munmap. */
    method ClearRange(i: nat, v: int, n: nat)
      requires i < |procs| && FramesOk(procs, free) && InWindow(procs)
      requires forall k | v <= k < v + n :: k in procs[i].pt
      modifies this
      ensures i < |procs| && Clearing(old(procs), old(free), procs, free, i, v, v + n)
    {
      ghost var ps0, fs0, at := procs, free, v;
      ClearingStarts(procs, free, i, v);
      var k := 0;
      while k < n
        invariant 0 <= k <= n && i < |procs| && at == v + k && |procs| == |ps0|
        invariant Moment(procs, free) in AfterClearing(ps0, fs0, i, v, at)
      {
        ClearTurn(i, v + k, ps0, fs0, v, v + n);
        at := at + 1;
        k := k + 1;
      }
      assert Clearing(ps0, fs0, procs, free, i, v, at);
    }

    method ClearTurn(i: nat, v: int, ghost ps0: seq<Proc>, ghost fs0: seq<int>, ghost lo: int, ghost hi: int)
      requires i < |procs| && i < |ps0| && lo <= v < hi && forall k | lo <= k < hi :: k in ps0[i].pt
      requires Moment(procs, free) in AfterClearing(ps0, fs0, i, lo, v)
      modifies this
      ensures |procs| == |ps0| && Moment(procs, free) in AfterClearing(ps0, fs0, i, lo, v + 1)
    {
      ghost var t := Moment(procs, free);
      ClearingHolds(ps0, fs0, t, i, lo, v);
      assert v in ps0[i].pt;
      Clearpte(i, v);
      ClearingTurn(ps0, fs0, t, Moment(procs, free), i, lo, v, v + 1);
    }

    /** findmappingmetadata: the first valid entry that starts at page v. */
    method FindEntry(i: nat, v: int) returns (found: bool, k: nat)
      requires i < |procs| && |procs[i].entries| == NENTRIES
      ensures found ==> k < NENTRIES && procs[i].entries[k].valid && procs[i].entries[k].start == v
      ensures !found ==> forall l | 0 <= l < NENTRIES :: !(procs[i].entries[l].valid && procs[i].entries[l].start == v)
    {
      k := 0;
      while k < NENTRIES
        invariant 0 <= k <= NENTRIES
        invariant forall l | 0 <= l < k :: !(procs[i].entries[l].valid && procs[i].entries[l].start == v)
      {
        if procs[i].entries[k].valid && procs[i].entries[k].start == v {
          return true, k;
        }
        k := k + 1;
      }
      found, k := false, 0;
    }

    /** sys_munmap, its file writing apart, at an address in the window and with the length of the
        whole mapping: the mapping's entry and pages go, and nothing else. */
    method Munmap(i: nat, addr: int, length: int) returns (r: int)
      requires Valid() && i < NPROC && procs[i].state == Running
      requires forall e | e in procs[i].entries && Live(e) && e.start * PGSIZE == addr :: e.numPages == CPages(length)
      modifies this
      ensures Valid() && Conserved(old(procs), old(free), procs, free)
      ensures r == -1 || r == 0
      ensures r == -1 <==> forall e | e in old(procs[i].entries) :: !(Live(e) && e.start * PGSIZE == addr)
      ensures r == -1 ==> procs == old(procs) && free == old(free)
      ensures r == 0 ==> exists k | 0 <= k < NENTRIES ::
                && Live(old(procs[i].entries)[k]) && old(procs[i].entries)[k].start * PGSIZE == addr
                && procs == old(procs)[i := Removed(old(procs[i]), k)]
                && Moment(procs, free) == UnmapEntry(old(Moment(procs, free)), i, k)
                && Released(old(procs[i]), procs[i], k)
      ensures |procs| == NPROC && forall j | 0 <= j < NPROC && j != i :: procs[j] == old(procs[j])
    {
      if addr % PGSIZE != 0 {
        return -1;
      }
      var n := CPages(length);
      var v := addr / PGSIZE;
      var found, k := FindEntry(i, v);
      if !found {
        return -1;
      }
      ghost var ps, fs, e := procs, free, procs[i].entries[k];
      assert e in procs[i].entries && Live(e) && e.numPages == n;
      KernelWindow(procs, free);
      assert forall w | v <= w < v + n :: Covers(e, w);
      ClearRange(i, v, n);
      UnmapDone(ps, fs, procs, free, i, k);
      procs := procs[i := procs[i].(entries := procs[i].entries[k := NoEntry])];
      RemovedReleased(ps[i], k);
      r := 0;
    }

    /** A program that maps length bytes and unmaps them again: the process has its pages, and the free
        list its physical pages, as before. */
    method MmapMunmap(i: nat, addr: int, length: int, prot: int, flags: Flags, offset: int)
        returns (r: int, u: int)
      requires Valid() && i < NPROC && procs[i].state == Running && procs[i].next + 1 < NENTRIES
      requires length > 0
      modifies this
      ensures Valid() && |procs| == NPROC && forall j | 0 <= j < NPROC && j != i :: procs[j] == old(procs[j])
      ensures r == -1 ==> procs == old(procs)
      ensures r != -1 ==> u == 0 && procs[i].pt == old(procs[i].pt) && forall f :: f in free <==> f in old(free)
      ensures r != -1 ==>
                procs[i].entries == old(procs[i].entries)[old(procs[i].next) := NoEntry]
                && procs[i].next == old(procs[i].next) + 1
    {
      ghost var ps, fs := procs, free;
      u := 0;
      r := Mmap(i, addr, length, prot, flags, offset);
      if r == -1 {
        return;
      }
      ghost var ps1, fs1 := procs, free;
      ObtainedOnce(ps[i], ps1[i], fs, fs1, length, flags, r);
      u := Munmap(i, r, length);
      assert ps1[i].entries[ps[i].next] in ps1[i].entries;
      ghost var k: nat :| k < NENTRIES && Live(ps1[i].entries[k]) && ps1[i].entries[k].start * PGSIZE == r
                          && Released(ps1[i], procs[i], k);
      ReleasedObtained(ps[i], ps1[i], procs[i], fs, fs1, length, flags, r, k);
      ConservedTwice(ps, fs, ps1, fs1, procs, free);
      SamePools(ps, fs, procs, free);
    }

    /** The mmap part of exit: every page of the window is unmapped. */
    method Exit(i: nat)
      requires Valid() && i < NPROC && procs[i].state == Running
      modifies this
      ensures Valid() && procs == old(procs)[i := old(procs[i]).(pt := map[], state := Zombie)]
      ensures Moment(procs, free) == Exited(old(Moment(procs, free)), i)
      ensures Conserved(old(procs), old(free), procs, free)
    {
      KernelWindow(procs, free);
      ClearWindow(i);
      ExitDone(old(procs), old(free), procs, free, i);
      procs := procs[i := procs[i].(state := Zombie)];
    }

    /** ... by a scan of the whole window. */
    method ClearWindow(i: nat)
      requires i < |procs| && FramesOk(procs, free) && InWindow(procs)
      modifies this
      ensures i < |procs| && Clearing(old(procs), old(free), procs, free, i, WINDOW, KERNBASE)
    {
      var v := WINDOW;
      while v < KERNBASE
        invariant WINDOW <= v <= KERNBASE && i < |procs|
        invariant Clearing(old(procs), old(free), procs, free, i, WINDOW, v)
      {
        ghost var ps, fs := procs, free;
        if v in procs[i].pt {
          Clearpte(i, v);
        }
        ClearingNext(old(procs), old(free), ps, fs, procs, free, i, WINDOW, v, v + 1);
        v := v + 1;
      }
    }

    /** What wait does to a zombie's slot. */
    method Reap(i: nat)
      requires Valid() && i < NPROC && procs[i].state == Zombie
      modifies this`procs
      ensures Valid() && procs == old(procs)[i := old(procs[i]).(state := Unused)]
    {
      ghost var ps := procs;
      procs := procs[i := procs[i].(state := Unused)];
      assert forall j: nat, w, f :: Maps(procs, j, w, f) <==> Maps(ps, j, w, f);
    }

    /** cangrowup, called on a page fault at page v: 0 when v is the guard page of a growing mapping
        and the page after it may be allocated; the guard page then gets a fresh physical page and
        the one after it becomes the guard page. The result of kalloc is not checked: ok is false
        where there is no free page, and the source maps the null pointer. */
    method GrowUp(i: nat, v: int) returns (ok: bool, r: int)
      requires Valid() && i < NPROC && procs[i].state == Running
      modifies this`procs, this`free
      ensures Valid() && Conserved(old(procs), old(free), procs, free)
      ensures r == 0 || r == -1
      ensures r == 0 <==> exists k | 0 <= k < NENTRIES :: GrowsAt(old(procs[i]), k, v)
      ensures r == 0 <==> (exists k | 0 <= k <= old(procs[i].next) ::
                             && old(procs[i].entries)[k].valid && old(procs[i].entries)[k].flags.growsup
                             && old(procs[i].entries)[k].start + old(procs[i].entries)[k].numPages == v)
                          && old(Allocatable(procs[i], v + 1, 1))
      ensures ok && r == 0 ==> |procs| == NPROC && forall j | 0 <= j < NPROC && j != i :: procs[j] == old(procs[j])
      ensures ok && r == 0 ==> old(free) != [] && exists k :: GrownBy(old(procs[i]), procs[i], k, v, old(free)[0])
      ensures ok <==> r == -1 || old(free) != []
      ensures r == -1 || !ok ==> procs == old(procs) && free == old(free)
      ensures ok && r == 0 ==> free == old(free)[1..] && exists k | 0 <= k < NENTRIES ::
                GrowsAt(old(procs[i]), k, v) && procs == old(procs)[i := GrownProc(old(procs[i]), k, old(free)[0])]
    {
      var k := 0;
      GrowsSomewhere(procs[i], v);
      while k < procs[i].next + 1
        invariant procs == old(procs) && free == old(free) && 0 <= k <= procs[i].next + 1
        invariant forall l | 0 <= l < k :: !GrowsAt(procs[i], l, v)
      {
        var e := procs[i].entries[k];
        if Live(e) {
          var can := CanAllocate(i, e.start + e.numPages + 1, 1);
          if e.flags.growsup && v == e.start + e.numPages && can {
            assert GrowsAt(procs[i], k, v);
            if free == [] {
              return false, 0;
            }
            GrowEntry(i, v, k);
            return true, 0;
          }
        }
        k := k + 1;
      }
      ok, r := true, -1;
    }

    /** ... of entry k, with a free page. */
    method GrowEntry(i: nat, v: int, k: nat)
      requires Valid() && i < NPROC && Alive(procs[i]) && free != [] && k < NENTRIES && GrowsAt(procs[i], k, v)
      modifies this`procs, this`free
      ensures Valid() && Conserved(old(procs), old(free), procs, free) && free == old(free)[1..]
      ensures procs == old(procs)[i := GrownProc(old(procs[i]), k, old(free)[0])]
      ensures GrownBy(old(procs[i]), procs[i], k, v, old(free)[0])
    {
      ghost var ps, fs, p := procs, free, procs[i];
      ParentKept(procs, free, i);
      EntryGrown(p, k, free[0]);
      assert EntryOk(p.entries[k]);
      GrownFrames(ps, fs, i, k);
      var ok, f := Kalloc();
      ok := MapPage(i, v, f);
      procs := procs[i := procs[i].(entries := procs[i].entries[k := Grown(procs[i].entries[k])])];
      assert procs == ps[i := GrownProc(p, k, fs[0])];
    }

    /** One turn of the loop below. */
    method CopyPage(i: nat, c: nat, v: int, temp: int, f: int) returns (ok: bool)
      requires i < |procs| && c < |procs| && i != c && v in procs[i].pt
      requires !Present(procs[c], v) && !Present(procs[i], temp)
      modifies this`procs, this`mem
      ensures ok && procs == WithTable(old(procs), c, old(procs[c].pt)[v := f])
      ensures mem == old(mem)[f := Contents(old(mem), procs[i].pt[v])]
    {
      ghost var parent := procs[i];
      ok := MapPage(c, v, f);
      ok := MapPage(i, temp, f);
      var buffer := Contents(mem, procs[i].pt[v]);
      mem := mem[procs[i].pt[temp] := buffer];
      procs := procs[i := procs[i].(pt := procs[i].pt - {temp})];
      assert procs[i].pt == parent.pt;
    }

    /** The copying loop of copymemorymappings for a private mapping: the child gets fresh physical
        pages, filled through a temporary mapping in the parent that is gone afterwards. */
    method CopyPages(i: nat, c: nat, v: int, temp: int, pages: seq<int>) returns (ok: bool)
      requires CanClone(procs, i, c, v, temp, pages)
      modifies this`procs, this`mem
      ensures ok && procs == WithTable(old(procs), c, MapRun(old(procs[c].pt), v, pages))
      ensures ClonedTo(old(procs[i].pt), v, pages, |pages|, old(mem), mem)
    {
      ghost var ps := procs;
      var k := 0;
      ok := true;
      CloneFirst(ps, c, v, pages);
      while k < |pages|
        invariant 0 <= k <= |pages| && ok
        invariant procs == WithTable(ps, c, MapRun(ps[c].pt, v, pages[..k]))
        invariant ClonedTo(ps[i].pt, v, pages, k, old(mem), mem)
      {
        CloneTurn(ps, i, c, v, temp, pages, k, old(mem), mem);
        ok := CopyPage(i, c, v + k, temp + k, pages[k]);
        k := k + 1;
      }
      assert pages[..k] == pages;
    }

    /** The loop of copymemorymappings for a shared mapping: the child maps the parent's pages. */
    method SharePages(i: nat, c: nat, e: Entry) returns (ok: bool, ghost pages: seq<int>)
      requires i < |procs| && c < |procs| && i != c && EntryOk(e) && Live(e)
      requires forall w | Covers(e, w) :: w in procs[i].pt && w !in procs[c].pt
      modifies this`procs
      ensures ok && Shares(old(procs[i]), e, pages)
      ensures procs == WithTable(old(procs), c, MapRun(old(procs[c].pt), e.start, pages))
    {
      ghost var ps := procs;
      var k := 0;
      ok := true;
      pages := [];
      assert procs[c].(pt := MapRun(procs[c].pt, e.start, [])) == procs[c];
      while k < e.numPages
        invariant 0 <= k <= e.numPages && ok && Sharing(ps, i, c, e, k, pages, procs)
      {
        ghost var before := procs;
        SharingPage(ps, i, c, e, k, pages, procs);
        ok := MapPage(c, e.start + k, procs[i].pt[e.start + k]);
        SharingNext(ps, i, c, e, k, e.start + k, pages, before, procs);
        pages := pages + [procs[i].pt[e.start + k]];
        k := k + 1;
      }
    }

    /** ... for the mapping e, with the pages got for it. */
    method CopyInto(i: nat, c: nat, e: Entry, temp: int, got: seq<int>, ghost fs: seq<int>) returns (ok: bool)
      requires i < |procs| && c < |procs| && i != c && EntryOk(e) && Live(e)
      requires forall v | Covers(e, v) :: v in procs[i].pt && v !in procs[c].pt
      requires |got| == e.numPages && NoDup(got) && forall f | f in got :: f in fs
      requires forall w | e.start <= w < e.start + e.numPages :: w in procs[i].pt && procs[i].pt[w] !in got
      requires Allocatable(procs[i], temp, e.numPages)
      modifies this`procs, this`mem
      ensures ok && procs == WithTable(old(procs), c, MapRun(old(procs[c].pt), e.start, got))
      ensures Clones(old(procs[i]), e, got, old(mem), mem, fs)
    {
      assert forall w | e.start <= w < e.start + e.numPages :: Covers(e, w) && !Present(procs[c], w);
      ok := CopyPages(i, c, e.start, temp, got);
      ClonesMade(old(procs[i]), e, got, old(mem), mem, fs);
    }

    /** The private branch of copymemorymappings for the parent's entry e. */
    method CopyPrivate(i: nat, c: nat, e: Entry) returns (ok: bool, ghost pages: seq<int>)
      requires i < |procs| && c < |procs| && i != c && FramesOk(procs, free) && EntryOk(e) && Live(e)
      requires |procs[i].entries| == NENTRIES && procs[i].next < NENTRIES
      requires forall v | Covers(e, v) :: v in procs[i].pt && v !in procs[c].pt
      modifies this`procs, this`free, this`mem
      ensures NoDup(free) && forall f | f in free :: f in old(free)
      ensures forall f | f !in old(free) :: Contents(mem, f) == Contents(old(mem), f)
      ensures !ok ==> procs == old(procs)
      ensures ok <==> e.numPages <= |old(free)| && HasRoom(old(procs[i]), e.numPages)
      ensures !ok && e.numPages <= |old(free)| ==> free == old(free)[e.numPages..]
      ensures ok ==> && pages == old(free)[..e.numPages] && free == old(free)[e.numPages..]
                     && procs == WithTable(old(procs), c, MapRun(old(procs[c].pt), e.start, pages))
                     && Clones(procs[i], e, pages, old(mem), mem, old(free))
    {
      ghost var fs := free;
      ok, pages := false, [];
      var got;
      ok, got := AllocPages(e.numPages);
      if !ok {
        return;
      }
      var temp;
      ok, temp := FindFree(i, e.numPages);
      if !ok {
        return;
      }
      assert HasRoom(procs[i], e.numPages);
      TakenPages(procs, fs, i, e, e.numPages);
      ok := CopyInto(i, c, e, temp, got, fs);
      pages := got;
    }

    /** The metadata of one more mapping of the child. */
    method AddEntry(c: nat, e: Entry)
      requires c < |procs| && procs[c].next < |procs[c].entries|
      modifies this`procs
      ensures procs == WithEntry(old(procs), c, e)
    {
      procs := procs[c := procs[c].(entries := procs[c].entries[procs[c].next := e])];
      procs := procs[c := procs[c].(next := procs[c].next + 1)];
    }

    /** copymemorymappings' loop body for the parent's private entry x; m0 and fs are the memory and
        the free list at the start. */
    method PrivateEntry(i: nat, c: nat, x: nat, ghost m0: map<int, Page>, ghost fs: seq<int>) returns (ok: bool)
      requires CanCopy(procs, free, i, c, x, fs) && Copied(procs[i], procs[c], m0, mem, fs, x)
      requires procs[i].entries[x].flags.private_
      modifies this`procs, this`free, this`mem
      ensures |procs| == NPROC && procs == old(procs)[c := procs[c]] && procs[c].state == old(procs[c]).state
      ensures FramesOk(procs, free) && (forall f | f in free :: f in fs)
      ensures forall f | f !in fs :: Contents(mem, f) == Contents(old(mem), f)
      ensures ok <==> EntryFits(old(Moment(procs, free)), i, c, old(procs[i].entries)[x])
      ensures ok ==> EntryCopied(old(procs), old(free), i, c, x, m0, fs, procs, free, mem)
    {
      ghost var ps, fs1, m1, p, child := procs, free, mem, procs[i], procs[c];
      var e := procs[i].entries[x];
      ChildApart(p, child, x);
      AddEntry(c, e);
      TableMaps(ps, procs, free);
      ghost var pages;
      ok, pages := CopyPrivate(i, c, e);
      if ok {
        EntryThenPages(ps, c, e, pages);
        PrivateTurn(ps, fs1, i, c, x, m0, m1, mem, fs);
      } else {
        TableMaps(ps, procs, free);
      }
    }

    /** The metadata of a shared mapping of the child and its pages. */
    method ShareInto(i: nat, c: nat, e: Entry) returns (ok: bool, ghost pages: seq<int>)
      requires i < |procs| && c < |procs| && i != c && EntryOk(e) && Live(e) && procs[c].next < |procs[c].entries|
      requires forall w | Covers(e, w) :: w in procs[i].pt && w !in procs[c].pt
      modifies this`procs
      ensures ok && Shares(old(procs[i]), e, pages)
      ensures procs == WithTable(WithEntry(old(procs), c, e), c, MapRun(old(procs[c].pt), e.start, pages))
    {
      EntryThenPages(procs, c, e, []);
      AddEntry(c, e);
      ok, pages := SharePages(i, c, e);
    }

    /** ... and for a shared one. */
    method SharedEntry(i: nat, c: nat, x: nat, ghost m0: map<int, Page>, ghost fs: seq<int>) returns (ok: bool)
      requires CanCopy(procs, free, i, c, x, fs) && Copied(procs[i], procs[c], m0, mem, fs, x)
      requires procs[i].entries[x].flags.shared
      modifies this`procs
      ensures ok && |procs| == NPROC && procs == old(procs)[c := procs[c]]
      ensures EntryCopied(old(procs), old(free), i, c, x, m0, fs, procs, free, mem)
    {
      ghost var ps := procs;
      var e := procs[i].entries[x];
      EntryRoom(procs, free, i, c, x, m0, mem, fs);
      ghost var pages;
      ok, pages := ShareInto(i, c, e);
      SharedCopied(ps, free, i, c, x, m0, mem, fs, pages, procs);
    }

    /** copymemorymappings: on success the child has its parent's mappings in order, the same pages
        where they are shared and fresh copies where they are private, and nothing else changes. */
    method CopyMappings(i: nat, c: nat) returns (r: int)
      requires Valid() && i < NPROC && c < NPROC && i != c && Alive(procs[i]) && Alive(procs[c])
      requires procs[c].next == 0 && procs[c].pt == map[]
      modifies this`procs, this`free, this`mem
      ensures |procs| == NPROC && procs == old(procs)[c := procs[c]] && procs[c].state == old(procs[c]).state
      ensures FramesOk(procs, free) && forall f | f !in old(free) :: Contents(mem, f) == Contents(old(mem), f)
      ensures r == if CopyAll(old(Moment(procs, free)), i, c, old(procs[i]).next + 1) == None then -1 else 0
      ensures r == 0 ==> && Valid() && Alive(procs[c]) && Conserved(old(procs), old(free), procs, free)
                         && Copied(procs[i], procs[c], old(mem), mem, old(free), procs[i].next + 1)
                         && CopyAll(old(Moment(procs, free)), i, c, procs[i].next + 1) == Some(Moment(procs, free))
    {
      ghost var ps, fs, m0, p := procs, free, mem, procs[i];
      CopyingStarts(procs, free, mem, i, c);
      var x := 0;
      while x < procs[i].next + 1
        invariant |procs| == NPROC && i < NPROC && procs[i] == p && 0 <= x <= p.next + 1
        invariant (Moment(procs, free), mem) in AfterCopying(ps, fs, m0, i, c, x)
      {
        var ok := CopyTurn(i, c, x, ps, fs, m0);
        if !ok {
          CopyNone(Moment(ps, fs), i, c, x + 1, p.next + 1);
          return -1;
        }
        x := x + 1;
      }
      CopyingHolds(ps, fs, m0, i, c, x, (Moment(procs, free), mem));
      r := 0;
    }

    /** One turn of the loop above. */
    method CopyTurn(i: nat, c: nat, x: nat, ghost ps: seq<Proc>, ghost fs: seq<int>, ghost m0: map<int, Page>)
        returns (ok: bool)
      requires (Moment(procs, free), mem) in AfterCopying(ps, fs, m0, i, c, x)
      requires |procs| == NPROC && i < NPROC && x < procs[i].next + 1
      modifies this`procs, this`free, this`mem
      ensures |procs| == NPROC && procs == ps[c := procs[c]] && procs[c].state == ps[c].state
      ensures FramesOk(procs, free) && forall f | f !in fs :: Contents(mem, f) == Contents(m0, f)
      ensures if ok then (Moment(procs, free), mem) in AfterCopying(ps, fs, m0, i, c, x + 1)
              else CopyAll(Moment(ps, fs), i, c, x + 1) == None
    {
      ghost var ps1, fs1, m1 := procs, free, mem;
      CopyingHolds(ps, fs, m0, i, c, x, (Moment(procs, free), mem));
      if !Live(procs[i].entries[x]) {
        CopyingSkip(ps, fs, m0, i, c, x, procs, free, mem);
        return true;
      }
      CanCopyNow(ps, fs, m0, i, c, x, procs, free, mem);
      if procs[i].entries[x].flags.private_ {
        ok := PrivateEntry(i, c, x, m0, fs);
      } else {
        ok := SharedEntry(i, c, x, m0, fs);
      }
      if ok {
        CopyingMore(ps, fs, m0, i, c, x, ps1, fs1, m1, procs, free, mem);
      }
    }

    /** The mmap part of fork: an unused slot becomes a runnable process with an empty table, and
        the mappings are copied into it. c is -1 when the process table is full; r is what
        copymemorymappings returns, which fork only reports. */
    method Fork(i: nat) returns (c: int, r: int)
      requires Valid() && i < NPROC && procs[i].state == Running
      modifies this`procs, this`free, this`mem
      ensures c == -1 <==> forall j | 0 <= j < NPROC :: old(procs[j]).state != Unused
      ensures c == -1 ==> procs == old(procs) && free == old(free) && mem == old(mem)
      ensures c != -1 ==> 0 <= c < NPROC && old(procs[c]).state == Unused && c != i && FramesOk(procs, free)
      ensures c != -1 ==> forall j | 0 <= j < c :: old(procs[j]).state != Unused
      ensures c != -1 ==> |procs| == NPROC && procs == old(procs)[c := procs[c]]
      ensures c != -1 ==> procs[c].state == Runnable
      ensures c != -1 ==> r == if Forked(old(Moment(procs, free)), i, c) == None then -1 else 0
      ensures c != -1 && r == 0 ==> && Valid() && Conserved(old(procs), old(free), procs, free) && Alive(procs[c])
                                    && Isolated(procs[i], procs[c], old(mem), mem)
                                    && Forked(old(Moment(procs, free)), i, c) == Some(Moment(procs, free))
    {
      var k := 0;
      while k < NPROC && procs[k].state != Unused
        invariant 0 <= k <= NPROC
        invariant forall j | 0 <= j < k :: procs[j].state != Unused
      {
        k := k + 1;
      }
      if k == NPROC {
        return -1, -1;
      }
      ghost var ps, fs, m0 := procs, free, mem;
      c := k;
      procs := procs[c := Blank()];
      assert ps[c].pt == map[];
      TableMaps(ps, procs, free);
      SameMaps(ps, procs, free);
      ghost var ps1 := procs;
      r := CopyMappings(i, c);
      if r == 0 {
        ConservedTwice(ps, fs, ps1, fs, procs, free);
        ParentKept(ps, fs, i);
        ForkIsolation(procs[i], procs[c], m0, mem, fs);
      }
      assert procs == ps[c := procs[c]];
    }
  }

  /** The loop of SharePages after k pages. */
  ghost predicate Sharing(ps: seq<Proc>, i: nat, c: nat, e: Entry, k: nat, pages: seq<int>, procs: seq<Proc>) {
    && i < |ps| && c < |ps| && i != c && |pages| == k <= e.numPages && Live(e)
    && (forall w | Covers(e, w) :: w in ps[i].pt && w !in ps[c].pt)
    && (forall w | e.start <= w < e.start + k :: w in ps[i].pt && pages[w - e.start] == ps[i].pt[w])
    && procs == WithTable(ps, c, MapRun(ps[c].pt, e.start, pages))
  }

  lemma SharingPage(ps: seq<Proc>, i: nat, c: nat, e: Entry, k: nat, pages: seq<int>, procs: seq<Proc>)
    requires Sharing(ps, i, c, e, k, pages, procs) && k < e.numPages && EntryOk(e)
    ensures |procs| == |ps| && procs[i] == ps[i] && e.start + k in procs[i].pt && !Present(procs[c], e.start + k)
  {
    assert Covers(e, e.start + k);
  }

  lemma SharingNext(ps: seq<Proc>, i: nat, c: nat, e: Entry, k: nat, at: int, pages: seq<int>, procs: seq<Proc>,
                    after: seq<Proc>)
    requires Sharing(ps, i, c, e, k, pages, procs) && k < e.numPages && EntryOk(e) && at == e.start + k
    requires |procs| == |ps| && at in ps[i].pt
    requires after == WithTable(procs, c, procs[c].pt[at := ps[i].pt[at]])
    ensures Sharing(ps, i, c, e, k + 1, pages + [ps[i].pt[at]], after)
  {
    var more := pages + [ps[i].pt[at]];
    assert more[..k] == pages;
    assert MapRun(ps[c].pt, e.start, more) == MapRun(ps[c].pt, e.start, pages)[at := ps[i].pt[at]];
  }

  /** The physical pages of a mapping. */
  function PagesOf(pt: map<int, int>, e: Entry): (pages: seq<int>)
    ensures |pages| == e.numPages
  {
    seq(e.numPages, k requires 0 <= k < e.numPages => if e.start + k in pt then pt[e.start + k] else 0)
  }

  /** Whether the pages are there for what copymemorymappings does with one entry, and the room in the
      parent for their temporary mapping. */
  ghost predicate EntryFits(s: Moment, i: nat, c: nat, e: Entry)
    requires i < |s.procs| && c < |s.procs|
  {
    Live(e) ==>
      && s.procs[c].next < |s.procs[c].entries|
      && (e.flags.private_ ==> e.numPages <= |s.free| && HasRoom(s.procs[i], e.numPages))
  }

  /** What it does: a private mapping gets the first free pages, a shared one the parent's. */
  ghost function CopyEntry(s: Moment, i: nat, c: nat, e: Entry): (r: Moment)
    requires i < |s.procs| && c < |s.procs| && EntryFits(s, i, c, e)
    ensures |r.procs| == |s.procs|
  {
    if !Live(e) then s
    else if e.flags.private_ then
      Moment(s.procs[c := Extended(s.procs[c], e, s.free[..e.numPages])], s.free[e.numPages..])
    else
      Moment(s.procs[c := Extended(s.procs[c], e, PagesOf(s.procs[i].pt, e))], s.free)
  }

  /** The first x entries of process i are copied to c; None if pages or room lack. */
  ghost function CopyAll(s: Moment, i: nat, c: nat, x: nat): (r: Option<Moment>)
    requires i < |s.procs| && c < |s.procs| && x <= |s.procs[i].entries|
    ensures r.Some? ==> |r.value.procs| == |s.procs|
  {
    if x == 0 then Some(s)
    else
      match CopyAll(s, i, c, x - 1)
      case None => None
      case Some(t) =>
        var e := s.procs[i].entries[x - 1];
        if EntryFits(t, i, c, e) then Some(CopyEntry(t, i, c, e)) else None
  }

  lemma {:induction false} CopyNone(s: Moment, i: nat, c: nat, x: nat, y: nat)
    requires i < |s.procs| && c < |s.procs| && x <= y <= |s.procs[i].entries| && CopyAll(s, i, c, x) == None
    ensures CopyAll(s, i, c, y) == None
    decreases y
  {
    if x < y {
      CopyNone(s, i, c, x, y - 1);
    }
  }

  /** The process that allocproc and fork make of an unused slot. */
  function Blank(): Proc {
    Proc(Runnable, map[], seq(NENTRIES, _ => NoEntry), 0)
  }

  /** fork from process i into slot c; None if pages or room lack. */
  ghost function Forked(s: Moment, i: nat, c: nat): Option<Moment>
    requires i < |s.procs| && c < |s.procs| && i != c && s.procs[i].next < |s.procs[i].entries|
  {
    CopyAll(Moment(s.procs[c := Blank()], s.free), i, c, s.procs[i].next + 1)
  }

  lemma SharesPages(p: Proc, e: Entry, pages: seq<int>)
    requires Live(e) && Shares(p, e, pages)
    ensures pages == PagesOf(p.pt, e)
  {
    forall k | 0 <= k < |pages|
      ensures pages[k] == PagesOf(p.pt, e)[k]
    {
      assert Covers(e, e.start + k);
    }
  }

  /** The state in which copymemorymappings treats the parent's live entry x. */
  ghost predicate CanCopy(procs: seq<Proc>, free: seq<int>, i: nat, c: nat, x: nat, fs: seq<int>) {
    && KernelOk(procs, free) && i < NPROC && c < NPROC && i != c && Alive(procs[i]) && Alive(procs[c])
    && x < procs[i].next && x < |procs[i].entries| && Live(procs[i].entries[x]) && EntryOk(procs[i].entries[x])
    && (forall f | f in free :: f in fs) && forall v | v in procs[i].pt :: procs[i].pt[v] !in fs
  }

  /** What copymemorymappings does with entry x, a live one: ps and free are from before, fs and m0
      from its start. */
  ghost predicate EntryCopied(ps: seq<Proc>, free: seq<int>, i: nat, c: nat, x: nat, m0: map<int, Page>, fs: seq<int>,
                              procs: seq<Proc>, free': seq<int>, mem: map<int, Page>) {
    && i < NPROC && c < NPROC && |ps| == NPROC && |procs| == NPROC && procs == ps[c := procs[c]]
    && x < |procs[i].entries| && KernelOk(procs, free') && Conserved(ps, free, procs, free') && Alive(procs[c])
    && (forall f | f in free' :: f in fs) && Copied(procs[i], procs[c], m0, mem, fs, x + 1)
    && EntryFits(Moment(ps, free), i, c, procs[i].entries[x])
    && Moment(procs, free') == CopyEntry(Moment(ps, free), i, c, procs[i].entries[x])
  }

  /** copymemorymappings after x entries; ps, fs and m0 are what it began with. */
  ghost predicate Copying(ps: seq<Proc>, fs: seq<int>, m0: map<int, Page>, i: nat, c: nat, x: nat,
                          procs: seq<Proc>, free: seq<int>, mem: map<int, Page>) {
    && |ps| == NPROC && i < NPROC && c < NPROC && i != c && KernelOk(ps, fs) && Alive(ps[i]) && x <= NENTRIES
    && |procs| == NPROC && procs == ps[c := procs[c]] && Alive(procs[c]) && procs[c].state == ps[c].state
    && KernelOk(procs, free) && Conserved(ps, fs, procs, free) && (forall f | f in free :: f in fs)
    && |ps[i].entries| == NENTRIES && Copied(ps[i], procs[c], m0, mem, fs, x)
    && CopyAll(Moment(ps, fs), i, c, x) == Some(Moment(procs, free))
  }

  /** The states that Copying describes, with the memory. */
  ghost function AfterCopying(ps: seq<Proc>, fs: seq<int>, m0: map<int, Page>, i: nat, c: nat, x: nat)
      : iset<(Moment, map<int, Page>)> {
    iset t: (Moment, map<int, Page>) | Copying(ps, fs, m0, i, c, x, t.0.procs, t.0.free, t.1)
  }

  lemma CopyingStarts(ps: seq<Proc>, fs: seq<int>, m0: map<int, Page>, i: nat, c: nat)
    requires KernelOk(ps, fs) && i < NPROC && c < NPROC && i != c && Alive(ps[i]) && Alive(ps[c])
    requires ps[c].next == 0 && ps[c].pt == map[]
    ensures (Moment(ps, fs), m0) in AfterCopying(ps, fs, m0, i, c, 0)
  {
    assert ps[c].entries[..0] == LiveOnes(ps[i].entries, 0);
  }

  lemma CopyingHolds(ps: seq<Proc>, fs: seq<int>, m0: map<int, Page>, i: nat, c: nat, x: nat,
                     t: (Moment, map<int, Page>))
    requires t in AfterCopying(ps, fs, m0, i, c, x)
    ensures Copying(ps, fs, m0, i, c, x, t.0.procs, t.0.free, t.1)
    ensures t.0.procs == ps[c := t.0.procs[c]] && t.0.procs[c].state == ps[c].state && FramesOk(t.0.procs, t.0.free)
    ensures forall f | f !in fs :: Contents(t.1, f) == Contents(m0, f)
  {
  }

  lemma CopyingMore(ps: seq<Proc>, fs: seq<int>, m0: map<int, Page>, i: nat, c: nat, x: nat,
                    ps1: seq<Proc>, fs1: seq<int>, m1: map<int, Page>, procs: seq<Proc>, free: seq<int>, mem: map<int,
                    Page>)
    requires Copying(ps, fs, m0, i, c, x, ps1, fs1, m1) && x < NENTRIES
    requires EntryCopied(ps1, fs1, i, c, x, m0, fs, procs, free, mem)
    ensures Copying(ps, fs, m0, i, c, x + 1, procs, free, mem)
  {
    ConservedTwice(ps, fs, ps1, fs1, procs, free);
  }

  lemma CopyingSkip(ps: seq<Proc>, fs: seq<int>, m0: map<int, Page>, i: nat, c: nat, x: nat,
                    procs: seq<Proc>, free: seq<int>, mem: map<int, Page>)
    requires Copying(ps, fs, m0, i, c, x, procs, free, mem) && x < NENTRIES && !Live(ps[i].entries[x])
    ensures Copying(ps, fs, m0, i, c, x + 1, procs, free, mem)
  {
  }

  lemma CanCopyNow(ps: seq<Proc>, fs: seq<int>, m0: map<int, Page>, i: nat, c: nat, x: nat,
                   procs: seq<Proc>, free: seq<int>, mem: map<int, Page>)
    requires Copying(ps, fs, m0, i, c, x, procs, free, mem) && x < |procs[i].entries| && Live(procs[i].entries[x])
    ensures CanCopy(procs, free, i, c, x, fs) && Copied(procs[i], procs[c], m0, mem, fs, x)
    ensures procs[i].entries[x].flags.private_ != procs[i].entries[x].flags.shared
  {
    assert EntryOk(procs[i].entries[x]);
    forall v | v in procs[i].pt
      ensures procs[i].pt[v] !in fs
    {
      assert Maps(ps, i, v, procs[i].pt[v]);
    }
  }

  lemma EntryRoom(procs: seq<Proc>, free: seq<int>, i: nat, c: nat, x: nat, m0: map<int, Page>, mem: map<int, Page>,
                  fs: seq<int>)
    requires CanCopy(procs, free, i, c, x, fs) && Copied(procs[i], procs[c], m0, mem, fs, x)
    ensures procs[c].next < |procs[c].entries|
    ensures forall w | Covers(procs[i].entries[x], w) :: w in procs[i].pt && w !in procs[c].pt
  {
    ChildApart(procs[i], procs[c], x);
  }

  lemma SharedTurn(procs: seq<Proc>, free: seq<int>, i: nat, c: nat, x: nat,
                   m0: map<int, Page>, mem: map<int, Page>, fs: seq<int>, pages: seq<int>, after: seq<Proc>)
    requires CanCopy(procs, free, i, c, x, fs) && Copied(procs[i], procs[c], m0, mem, fs, x)
    requires procs[i].entries[x].flags.shared && Shares(procs[i], procs[i].entries[x], pages)
    requires procs[c].next < |procs[c].entries| && var e := procs[i].entries[x];
             after == WithTable(WithEntry(procs, c, e), c, MapRun(procs[c].pt, e.start, pages))
    ensures after == procs[c := after[c]] && Alive(after[c])
    ensures KernelOk(after, free) && Conserved(procs, free, after, free)
    ensures Copied(after[i], after[c], m0, mem, fs, x + 1)
  {
    EntryThenPages(procs, c, procs[i].entries[x], pages);
    ChildApart(procs[i], procs[c], x);
    ChildPages(procs[i], procs[c], m0, mem, fs, x, pages);
    SharedKernel(procs, free, i, c, procs[i].entries[x], pages);
    CopiedShared(procs[i], procs[c], m0, mem, fs, x, pages);
  }

  lemma SharedCopied(procs: seq<Proc>, free: seq<int>, i: nat, c: nat, x: nat,
                     m0: map<int, Page>, mem: map<int, Page>, fs: seq<int>, pages: seq<int>, after: seq<Proc>)
    requires CanCopy(procs, free, i, c, x, fs) && Copied(procs[i], procs[c], m0, mem, fs, x)
    requires procs[i].entries[x].flags.shared && Shares(procs[i], procs[i].entries[x], pages)
    requires procs[c].next < |procs[c].entries| && var e := procs[i].entries[x];
             after == WithTable(WithEntry(procs, c, e), c, MapRun(procs[c].pt, e.start, pages))
    ensures EntryCopied(procs, free, i, c, x, m0, fs, after, free, mem)
  {
    SharedTurn(procs, free, i, c, x, m0, mem, fs, pages, after);
    SharesPages(procs[i], procs[i].entries[x], pages);
    EntryThenPages(procs, c, procs[i].entries[x], pages);
  }

  lemma PrivateTurn(procs: seq<Proc>, free: seq<int>, i: nat, c: nat, x: nat,
                    m0: map<int, Page>, m1: map<int, Page>, m2: map<int, Page>, fs: seq<int>)
    requires CanCopy(procs, free, i, c, x, fs) && Copied(procs[i], procs[c], m0, m1, fs, x)
    requires procs[i].entries[x].flags.private_ && procs[i].entries[x].numPages <= |free|
    requires Clones(procs[i], procs[i].entries[x], free[..procs[i].entries[x].numPages], m1, m2, free)
    ensures procs[c].next < |procs[c].entries|
    ensures var n := procs[i].entries[x].numPages;
            var after := procs[c := Extended(procs[c], procs[i].entries[x], free[..n])];
            && KernelOk(after, free[n..]) && Conserved(procs, free, after, free[n..])
            && Copied(procs[i], after[c], m0, m2, fs, x + 1)
  {
    var e, child := procs[i].entries[x], procs[c];
    var pages := free[..e.numPages];
    ChildApart(procs[i], child, x);
    assert forall v | v in child.pt :: Maps(procs, c, v, child.pt[v]);
    FreshKernel(procs, free, c, e);
    ClonesMore(procs[i], e, pages, m1, m2, free, fs);
    CopiedPrivate(procs[i], child, m0, m1, m2, fs, x, pages);
  }

  /** Beyond its last used entry the parent has nothing to copy. */
  lemma {:induction false} LiveOnesEnd(p: Proc, n: nat)
    requires ProcOk(p) && p.next <= n <= NENTRIES
    ensures LiveOnes(p.entries, n) == LiveOnes(p.entries, p.next)
  {
    if n > p.next {
      LiveOnesEnd(p, n - 1);
    }
  }

  /** A page the parent maps in the window, the child maps too. */
  lemma CoversAll(p: Proc, child: Proc, v: int)
    requires ProcOk(p) && ProcOk(child) && child.entries[..child.next] == LiveOnes(p.entries, NENTRIES) && v in p.pt
    ensures v in child.pt
  {
    var k :| 0 <= k < NENTRIES && Covers(p.entries[k], v);
    LiveOnesFrom(p.entries, NENTRIES, p.entries[k]);
    var l :| 0 <= l < child.next && child.entries[..child.next][l] == p.entries[k];
    assert Covers(child.entries[l], v);
  }

  /** Parent and child after fork: the child has its parent's valid mappings in order and the same
      pages with the same contents, as the parent's were before, and both map the same physical page
      exactly where both map the same page of a shared mapping. */
  ghost predicate Isolated(p: Proc, child: Proc, mem: map<int, Page>, mem': map<int, Page>) {
    && child.next <= |child.entries| && |p.entries| == NENTRIES
    && child.entries[..child.next] == LiveOnes(p.entries, NENTRIES)
    && (forall v :: v in child.pt <==> v in p.pt)
    && (forall v | v in p.pt :: Contents(mem', child.pt[v]) == Contents(mem', p.pt[v]) == Contents(mem, p.pt[v]))
    && forall v, w | v in p.pt && w in child.pt :: child.pt[w] == p.pt[v] <==> v == w && SharedAt(p, v)
  }

  /** Fork isolation. */
  lemma ForkIsolation(p: Proc, child: Proc, mem: map<int, Page>, mem': map<int, Page>, free: seq<int>)
    requires ProcOk(p) && ProcOk(child) && Copied(p, child, mem, mem', free, p.next + 1)
    requires forall v | v in p.pt :: p.pt[v] !in free
    ensures Isolated(p, child, mem, mem')
  {
    LiveOnesEnd(p, NENTRIES);
    LiveOnesEnd(p, p.next + 1);
    SamePages(p, child, mem, mem', free);
  }

  lemma SamePages(p: Proc, child: Proc, mem: map<int, Page>, mem': map<int, Page>, free: seq<int>)
    requires ProcOk(p) && ProcOk(child) && Copied(p, child, mem, mem', free, p.next + 1)
    ensures forall v :: v in child.pt <==> v in p.pt
  {
    LiveOnesEnd(p, NENTRIES);
    LiveOnesEnd(p, p.next + 1);
    forall v
      ensures v in child.pt <==> v in p.pt
    {
      if v in p.pt {
        CoversAll(p, child, v);
      }
    }
  }

  lemma ParentKept(procs: seq<Proc>, free: seq<int>, i: nat)
    requires FramesOk(procs, free) && i < |procs|
    ensures forall v | v in procs[i].pt :: procs[i].pt[v] !in free
  {
    assert forall v | v in procs[i].pt :: Maps(procs, i, v, procs[i].pt[v]);
  }

  /** ... so a store by either is seen by the other exactly there, and nowhere else in it. */
  lemma StoreAfterFork(p: Proc, child: Proc, mem: map<int, Page>, mem': map<int, Page>, v: int, w: int, data: Page)
    requires Isolated(p, child, mem, mem') && v in p.pt && w in child.pt
    ensures Contents(mem'[p.pt[v] := data], child.pt[w])
              == if v == w && SharedAt(p, v) then data else Contents(mem', child.pt[w])
    ensures Contents(mem'[child.pt[w] := data], p.pt[v])
              == if v == w && SharedAt(p, v) then data else Contents(mem', p.pt[v])
  {
  }

  /** Changing a mapping table changes no page table. */
  lemma TableMaps(ps: seq<Proc>, procs: seq<Proc>, free: seq<int>)
    requires |ps| == |procs| && forall j | 0 <= j < |ps| :: procs[j].pt == ps[j].pt
    ensures forall j: nat, v, f :: Maps(procs, j, v, f) <==> Maps(ps, j, v, f)
    ensures NoDup(free) && (forall j: nat, v, f :: Maps(ps, j, v, f) ==> f !in free) ==> FramesOk(procs, free)
  {
  }

  lemma ClonesMore(p: Proc, e: Entry, pages: seq<int>, mem: map<int, Page>, mem': map<int, Page>, free: seq<int>,
                   more: seq<int>)
    requires Clones(p, e, pages, mem, mem', free) && forall f | f in free :: f in more
    ensures Clones(p, e, pages, mem, mem', more)
  {
  }

  function Contents(mem: map<int, Page>, f: int): Page {
    if f in mem then mem[f] else Junk()
  }

  /** The conditions under which a fault at page v makes entry k grow. */
  ghost predicate GrowsAt(p: Proc, k: nat, v: int) {
    && k < |p.entries| && Live(p.entries[k]) && p.entries[k].flags.growsup
    && v == p.entries[k].start + p.entries[k].numPages && Allocatable(p, v + 1, 1)
  }

  lemma GrowsSomewhere(p: Proc, v: int)
    requires ProcOk(p)
    ensures (exists k | 0 <= k < NENTRIES :: GrowsAt(p, k, v)) <==>
            && (exists k | 0 <= k <= p.next ::
                  p.entries[k].valid && p.entries[k].flags.growsup && p.entries[k].start + p.entries[k].numPages == v)
            && Allocatable(p, v + 1, 1)
  {
    if k :| 0 <= k < NENTRIES && GrowsAt(p, k, v) {
      assert k < p.next;
    }
    if Allocatable(p, v + 1, 1) {
      if k :| 0 <= k <= p.next && p.entries[k].valid && p.entries[k].flags.growsup
              && p.entries[k].start + p.entries[k].numPages == v {
        assert GrowsAt(p, k, v);
      }
    }
  }

  /** Entry k has got page v, its guard page, mapped to f, and the page after that is its guard page. */
  ghost predicate GrownBy(p: Proc, q: Proc, k: int, v: int, f: int) {
    && 0 <= k < |p.entries| == |q.entries| && q.state == p.state && q.next == p.next
    && v !in p.pt && q.pt == p.pt[v := f]
    && (forall l | 0 <= l < |p.entries| && l != k :: q.entries[l] == p.entries[l])
    && p.entries[k].start + p.entries[k].numPages == v && p.entries[k].guard == v
    && q.entries[k] == p.entries[k].(numPages := p.entries[k].numPages + 1, guard := v + 1)
  }

  function GrownProc(p: Proc, k: nat, f: int): Proc
    requires k < |p.entries|
  {
    p.(pt := p.pt[p.entries[k].start + p.entries[k].numPages := f], entries := p.entries[k := Grown(p.entries[k])])
  }

  lemma GrownFrames(procs: seq<Proc>, free: seq<int>, i: nat, k: nat)
    requires FramesOk(procs, free) && i < |procs| && free != [] && k < |procs[i].entries|
    requires procs[i].entries[k].start + procs[i].entries[k].numPages !in procs[i].pt
    ensures var after := procs[i := GrownProc(procs[i], k, free[0])];
            FramesOk(after, free[1..]) && Conserved(procs, free, after, free[1..])
  {
    var q := GrownProc(procs[i], k, free[0]);
    assert free[..1] == [free[0]];
    assert q.pt[procs[i].entries[k].start + procs[i].entries[k].numPages] == free[0];
    FreshFrames(procs, free, i, q, 1);
  }

  /** Only page tables matter to the physical pages. */
  lemma SameMaps(ps: seq<Proc>, procs: seq<Proc>, free: seq<int>)
    requires forall j: nat, v, f :: Maps(procs, j, v, f) <==> Maps(ps, j, v, f)
    ensures Conserved(ps, free, procs, free)
    ensures forall f :: Mapped(ps, f) <==> Mapped(procs, f)
  {
    forall f
      ensures Mapped(ps, f) <==> Mapped(procs, f)
    {
      assert forall j: nat, v :: Maps(procs, j, v, f) <==> Maps(ps, j, v, f);
    }
  }

  /** The table is not part of what the physical pages depend on. */
  lemma TableOnly(ps: seq<Proc>, fs: seq<int>, procs: seq<Proc>, free: seq<int>, i: nat, p: Proc, k: nat)
    requires i < |ps| && p == ps[i] && k < |p.entries| && procs == ps[i := Removed(p, k)]
    requires var cleared := ps[i := p.(pt := procs[i].pt)];
             FramesOk(cleared, free) && Conserved(ps, fs, cleared, free)
    ensures FramesOk(procs, free) && Conserved(ps, fs, procs, free)
  {
    var cleared := ps[i := p.(pt := procs[i].pt)];
    assert forall j: nat, v, f :: Maps(procs, j, v, f) <==> Maps(cleared, j, v, f);
    forall f
      ensures f in fs || Mapped(ps, f) <==> f in free || Mapped(procs, f)
    {
      assert Mapped(procs, f) <==> Mapped(cleared, f) by {
        assert forall j: nat, v :: Maps(procs, j, v, f) <==> Maps(cleared, j, v, f);
      }
    }
  }

  /** sys_mmap's checks of its arguments. */
  predicate BadMmap(addr: int, prot: int, flags: Flags, offset: int) {
    || prot != 3
    || (!flags.shared && !flags.private_)
    || (flags.shared && flags.private_)
    || (offset != 0 && !flags.anonymous)
    || (addr % PGSIZE != 0 && flags.fixed)
  }

  /** munmap's number of pages: C division truncates towards zero, and a remainder adds one. */
  function CPages(length: int): int {
    var q := if length >= 0 then length / PGSIZE else -(-length / PGSIZE);
    if length % PGSIZE != 0 then q + 1 else q
  }

  function RoundUp(length: int): nat
    requires length > 0
  {
    (length + PGSIZE - 1) / PGSIZE
  }

  /** The page that mmap settles on. */
  ghost predicate Chosen(p: Proc, addr: int, n: nat, flags: Flags, v: int) {
    && WINDOW <= v < KERNBASE && Allocatable(p, v, n)
    && if flags.fixed then v * PGSIZE == addr else forall w | WINDOW <= w < v :: !Allocatable(p, w, n)
  }

  /** There is such a page, with room for a guard page if need be. */
  ghost predicate HasPlace(p: Proc, addr: int, n: nat, flags: Flags) {
    exists w :: Chosen(p, addr, n, flags, w) && (flags.growsup ==> Allocatable(p, w + n, 1))
  }

  lemma {:induction false} LowestRoom(p: Proc, n: nat, v: int) returns (w: int)
    requires WINDOW <= v < KERNBASE && Allocatable(p, v, n)
    ensures WINDOW <= w <= v && Allocatable(p, w, n) && forall u | WINDOW <= u < w :: !Allocatable(p, u, n)
    decreases v - WINDOW
  {
    if u :| WINDOW <= u < v && Allocatable(p, u, n) {
      w := LowestRoom(p, n, u);
    } else {
      w := v;
    }
  }

  /** For a fixed address there is a place if its pages may be allocated; for any other the lowest address
      is the only one tried, so that its guard page decides. */
  lemma {:induction false} HasPlaceIs(p: Proc, addr: int, n: nat, flags: Flags)
    ensures flags.fixed ==>
              (HasPlace(p, addr, n, flags) <==>
                && addr % PGSIZE == 0 && WINDOW * PGSIZE <= addr < KERNBASE * PGSIZE
                && Allocatable(p, addr / PGSIZE, n) && (flags.growsup ==> Allocatable(p, addr / PGSIZE + n, 1)))
    ensures !flags.fixed && !flags.growsup ==>
              (HasPlace(p, addr, n, flags) <==> exists w | WINDOW <= w < KERNBASE :: Allocatable(p, w, n))
    ensures !flags.fixed && flags.growsup ==>
              (HasPlace(p, addr, n, flags) <==>
                exists w | WINDOW <= w < KERNBASE && Allocatable(p, w, n) ::
                  Allocatable(p, w + n, 1) && forall u | WINDOW <= u < w :: !Allocatable(p, u, n))
  {
    if flags.fixed {
      if w :| Chosen(p, addr, n, flags, w) {
        assert w == addr / PGSIZE;
      }
      assert addr % PGSIZE == 0 ==> addr / PGSIZE * PGSIZE == addr;
      assert Chosen(p, addr, n, flags, addr / PGSIZE) || !Chosen(p, addr, n, flags, addr / PGSIZE);
    } else if w :| WINDOW <= w < KERNBASE && Allocatable(p, w, n) {
      var u := LowestRoom(p, n, w);
      assert Chosen(p, addr, n, flags, u);
    }
  }

  /** A successful mmap by process i, of n pages at r. */
  ghost predicate MmapDone(procs: seq<Proc>, free: seq<int>, i: nat, addr: int, n: nat, flags: Flags, r: int,
                           procs': seq<Proc>, free': seq<int>)
  {
    && i < |procs| && procs[i].next < |procs[i].entries| && n <= |free| && r % PGSIZE == 0
    && var v := r / PGSIZE;
       var e := Entry(true, v, n, flags, if flags.growsup then v + n else 0);
       && Chosen(procs[i], addr, n, flags, v) && procs' == procs[i := Extended(procs[i], e, free[..n])]
       && free' == free[n..] && Conserved(procs, free, procs', free')
  }

  /** The page of a byte. */
  function PageOf(b: int): (v: int)
    ensures v * PGSIZE <= b < (v + 1) * PGSIZE
  {
    b / PGSIZE
  }

  /** What an mmap of length bytes at r gives a process: as many pages as the bytes need, none of them
      mapped before, to the first pages of the free list in order, and an entry that says so. */
  ghost predicate Obtained(p: Proc, q: Proc, free: seq<int>, free': seq<int>, length: int, flags: Flags, r: int) {
    && p.next < |p.entries| == |q.entries| && q.state == p.state && q.next == p.next + 1
    && var e := q.entries[p.next];
       && q.entries == p.entries[p.next := e] && e.valid && e.start * PGSIZE == r && e.flags == flags
       && (e.numPages - 1) * PGSIZE < length <= e.numPages * PGSIZE
       && e.guard == (if flags.growsup then e.start + e.numPages else 0)
       && (forall v :: v in q.pt <==> v in p.pt || e.start <= v < e.start + e.numPages)
       && (forall v | v in p.pt :: q.pt[v] == p.pt[v])
       && e.numPages <= |free| && free' == free[e.numPages..]
       && forall v | e.start <= v < e.start + e.numPages :: v !in p.pt && q.pt[v] == free[v - e.start]
  }

  lemma DoneBytes(p: Proc, q: Proc, free: seq<int>, addr: int, n: nat, length: int, flags: Flags, r: int)
    requires length > 0 && n == length / PGSIZE + (if length % PGSIZE != 0 then 1 else 0)
    requires |p.entries| == NENTRIES && p.next + 1 < NENTRIES && n <= |free| && r % PGSIZE == 0
    requires Chosen(p, addr, n, flags, r / PGSIZE)
    requires var v := r / PGSIZE;
             q == Extended(p, Entry(true, v, n, flags, if flags.growsup then v + n else 0), free[..n])
    ensures Obtained(p, q, free, free[n..], length, flags, r) && (flags.fixed ==> r == addr)
    ensures forall b | r <= b < r + length :: PageOf(b) in q.pt
  {
    var v := r / PGSIZE;
    forall k | v <= k < v + n
      ensures k !in p.pt && q.pt[k] == free[k - v]
    {
      assert !Present(p, k);
    }
    forall b | r <= b < r + length
      ensures PageOf(b) in q.pt
    {
      assert v <= PageOf(b) < v + n;
    }
  }

  /** What munmap of entry k leaves of a process: its mapping is gone, with its range. */
  ghost predicate Released(p: Proc, q: Proc, k: nat) {
    && k < |p.entries| == |q.entries| && q.state == p.state && q.next == p.next
    && q.entries == p.entries[k := NoEntry] && !q.entries[k].valid
    && (forall v :: v in q.pt <==>
          v in p.pt && !(p.entries[k].start <= v < p.entries[k].start + p.entries[k].numPages))
    && forall v | v in q.pt :: q.pt[v] == p.pt[v]
  }

  lemma RemovedReleased(p: Proc, k: nat)
    requires k < |p.entries| && Live(p.entries[k])
    ensures Released(p, Removed(p, k), k)
  {
    forall v
      ensures v in Range(p.entries[k]) <==> p.entries[k].start <= v < p.entries[k].start + p.entries[k].numPages
    {
      assert Covers(p.entries[k], v) <==> p.entries[k].start <= v < p.entries[k].start + p.entries[k].numPages;
    }
  }

  /** munmap with an mmap's address and length is called as it should be. */
  lemma ObtainedOnce(p: Proc, q: Proc, free: seq<int>, free': seq<int>, length: int, flags: Flags, r: int)
    requires ProcOk(q) && p.next < NENTRIES && length > 0 && Obtained(p, q, free, free', length, flags, r)
    ensures Live(q.entries[p.next]) && q.entries[p.next].numPages == CPages(length)
    ensures forall k | 0 <= k < NENTRIES && Live(q.entries[k]) && q.entries[k].start * PGSIZE == r :: k == p.next
    ensures forall e | e in q.entries && Live(e) && e.start * PGSIZE == r :: e.numPages == CPages(length)
  {
    var n := q.entries[p.next];
    assert EntryOk(n) && Reserves(n, n.start);
    forall k | 0 <= k < NENTRIES && Live(q.entries[k]) && q.entries[k].start * PGSIZE == r
      ensures k == p.next
    {
      assert EntryOk(q.entries[k]) && Reserves(q.entries[k], n.start);
    }
  }

  /** ... and takes exactly that mapping away. */
  lemma ReleasedObtained(p: Proc, q: Proc, z: Proc, free: seq<int>, free': seq<int>, length: int, flags: Flags, r: int,
                         k: nat)
    requires ProcOk(q) && p.next < NENTRIES && length > 0 && Obtained(p, q, free, free', length, flags, r)
    requires k < NENTRIES && Live(q.entries[k]) && q.entries[k].start * PGSIZE == r && Released(q, z, k)
    ensures z.pt == p.pt && z.entries == p.entries[p.next := NoEntry] && z.next == p.next + 1
  {
    ObtainedOnce(p, q, free, free', length, flags, r);
    forall v
      ensures v in z.pt <==> v in p.pt
      ensures v in p.pt ==> z.pt[v] == p.pt[v]
    {
      assert v in q.pt <==> v in p.pt || r / PGSIZE <= v < r / PGSIZE + q.entries[k].numPages;
    }
  }

  /** With the same pages mapped and none lost, the same are free. */
  lemma SamePools(ps: seq<Proc>, fs: seq<int>, procs: seq<Proc>, free: seq<int>)
    requires FramesOk(ps, fs) && FramesOk(procs, free) && Conserved(ps, fs, procs, free)
    requires |ps| == |procs| && forall j | 0 <= j < |ps| :: procs[j].pt == ps[j].pt
    ensures forall f :: f in free <==> f in fs
  {
    assert forall j: nat, v, f :: Maps(procs, j, v, f) <==> Maps(ps, j, v, f);
    SameMaps(ps, procs, free);
  }

  lemma StillOk(procs: seq<Proc>, free: seq<int>, free': seq<int>)
    requires KernelOk(procs, free) && NoDup(free') && forall f | f in free' :: f in free
    ensures KernelOk(procs, free')
  {
  }

  /** One more mapping of process i, of the first pages of the free list, on the whole kernel. */
  lemma FreshKernel(procs: seq<Proc>, free: seq<int>, i: nat, e: Entry)
    requires KernelOk(procs, free) && i < NPROC && Alive(procs[i]) && procs[i].next + 1 < NENTRIES
    requires Live(e) && EntryOk(e) && e.numPages <= |free|
    requires forall k | 0 <= k < NENTRIES :: Apart(procs[i].entries[k], e)
    requires forall v | Covers(e, v) :: v !in procs[i].pt
    ensures var after := procs[i := Extended(procs[i], e, free[..e.numPages])];
            && KernelOk(after, free[e.numPages..])
            && Conserved(procs, free, after, free[e.numPages..])
  {
    var n := e.numPages;
    ParentKept(procs, free, i);
    FreshPages(procs[i], e, free[..n]);
    EntryAdded(procs[i], e, free[..n]);
    FreshFrames(procs, free, i, Extended(procs[i], e, free[..n]), n);
  }

  lemma FreshPages(p: Proc, e: Entry, pages: seq<int>)
    requires p.next < |p.entries| && |pages| == e.numPages && forall v | Covers(e, v) :: v !in p.pt
    requires Live(e)
    ensures MapsMore(p.pt, Extended(p, e, pages).pt, pages)
  {
    var pt := MapRun(p.pt, e.start, pages);
    forall v | v in p.pt
      ensures pt[v] == p.pt[v]
    {
      assert !Covers(e, v);
    }
    forall f | f in pages
      ensures exists v :: v in pt && pt[v] == f
    {
      var k :| 0 <= k < |pages| && pages[k] == f;
      assert pt[e.start + k] == pages[k];
    }
  }

  /** A successful mmap. */
  lemma FreshMapping(procs: seq<Proc>, free: seq<int>, i: nat, e: Entry)
    requires KernelOk(procs, free) && i < NPROC && Alive(procs[i]) && procs[i].next + 1 < NENTRIES
    requires Live(e) && EntryOk(e) && e.numPages <= |free|
    requires Allocatable(procs[i], e.start, e.numPages) && (e.flags.growsup ==> Allocatable(procs[i], e.guard, 1))
    ensures var after := procs[i := Extended(procs[i], e, free[..e.numPages])];
            && KernelOk(after, free[e.numPages..])
            && Conserved(procs, free, after, free[e.numPages..])
  {
    MmapApart(procs[i], e);
    assert forall v | Covers(e, v) :: !Present(procs[i], v);
    FreshKernel(procs, free, i, e);
  }

  /** One more mapping of process c, of pages that process i maps. */
  lemma SharedKernel(procs: seq<Proc>, free: seq<int>, i: nat, c: nat, e: Entry, pages: seq<int>)
    requires KernelOk(procs, free) && i < NPROC && c < NPROC && i != c
    requires Alive(procs[i]) && Alive(procs[c]) && procs[c].next + 1 < NENTRIES
    requires Live(e) && EntryOk(e) && Shares(procs[i], e, pages)
    requires forall k | 0 <= k < NENTRIES :: Apart(procs[c].entries[k], e)
    requires forall v | Covers(e, v) :: v !in procs[c].pt
    requires forall v | v in procs[c].pt :: procs[c].pt[v] !in pages
    ensures var after := procs[c := Extended(procs[c], e, pages)];
            KernelOk(after, free) && Conserved(procs, free, after, free)
  {
    var p, child := procs[i], procs[c];
    var q := Extended(child, e, pages);
    forall a, b | 0 <= a < b < |pages|
      ensures pages[a] != pages[b]
    {
      assert Covers(e, e.start + a) && Covers(e, e.start + b);
      assert pages[e.start + a - e.start] == p.pt[e.start + a] != p.pt[e.start + b] == pages[e.start + b - e.start];
    }
    forall v | v in q.pt
      ensures (v in child.pt && q.pt[v] == child.pt[v]) || (v in p.pt && q.pt[v] == p.pt[v])
    {
      assert e.start <= v < e.start + |pages| ==> Covers(e, v);
    }
    forall v | v in child.pt
      ensures v in q.pt && q.pt[v] == child.pt[v]
    {
      assert !Covers(e, v);
    }
    EntryAdded(child, e, pages);
    SharedFrames(procs, free, i, c, q);
  }

  /** The child does not have the parent's pages under entry x yet. */
  lemma ChildPages(p: Proc, child: Proc, mem: map<int, Page>, mem': map<int, Page>, free: seq<int>, x: nat,
                   pages: seq<int>)
    requires ProcOk(p) && ProcOk(child) && x < NENTRIES && Live(p.entries[x]) && Shares(p, p.entries[x], pages)
    requires Copied(p, child, mem, mem', free, x) && forall v | v in p.pt :: p.pt[v] !in free
    ensures forall v | v in child.pt :: child.pt[v] !in pages
  {
    ChildApart(p, child, x);
    var e := p.entries[x];
    forall v, k | v in child.pt && 0 <= k < |pages|
      ensures child.pt[v] != pages[k]
    {
      assert Covers(e, e.start + k);
      assert pages[e.start + k - e.start] == p.pt[e.start + k];
    }
  }

  lemma Reversed(pages: seq<int>, free: seq<int>)
    requires |free| == |pages| && forall k | 0 <= k < |pages| :: free[k] == pages[|pages| - 1 - k]
    ensures forall f :: f in free <==> f in pages
    ensures NoDup(pages) ==> NoDup(free)
  {
    forall f | f in pages
      ensures f in free
    {
      var k :| 0 <= k < |pages| && pages[k] == f;
      assert free[|pages| - 1 - k] == f;
    }
  }

  function Junk(): Page {
    seq(PGSIZE, _ => 1)
  }
}
