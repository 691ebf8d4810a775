/** Two-level page tables (vm.c) in physical memory: growing and shrinking a process. */
module Vm {
  import opened Common

  const PGSIZE: nat := 4096
  const NENTRIES: nat := 1024           // NPDENTRIES and NPTENTRIES
  const KERNBASE: nat := 0x8000_0000
  const NFRAMES: nat := 0x10_0000       // frames of a 32-bit physical address
  const PERM: nat := 6                  // PTE_W | PTE_U

  /** A page of physical memory, as the 1024 words that a table has. */
  type Frame = s: seq<Uint> | |s| == NENTRIES witness seq(NENTRIES, _ => 0)

  const Zeroed: Frame := seq(NENTRIES, _ => 0)
  const Junk: Frame := seq(NENTRIES, _ => 0x0101_0101)

  type Memory = map<nat, Frame>

  // ---------------------------------------------------------------- the table as a map

  /** PTE_P. */
  predicate Present(w: Uint) {
    w % 2 == 1
  }

  /** PTE_ADDR, as a frame number. */
  function FrameOf(w: Uint): nat {
    w / PGSIZE
  }

  /** pa | perm | PTE_P. */
  function Entry(f: nat): (w: Uint)
    requires f < NFRAMES
    ensures Present(w) && FrameOf(w) == f
    ensures w % 8 == 7 && w / 4096 == f
  {
    EntryWord(f, f * PGSIZE + PERM + 1);
    f * PGSIZE + PERM + 1
  }

  lemma EntryWord(f: nat, w: int)
    requires w == 4096 * f + 7
    ensures w % 2 == 1 && w % 8 == 7 && w / 4096 == f
  {
    assert w == 8 * (512 * f) + 7 && w == 2 * (2048 * f + 3) + 1;
  }

  function Pdx(v: nat): nat {
    v / NENTRIES
  }

  function Ptx(v: nat): nat {
    v % NENTRIES
  }

  /** The page-table frame of the d-th directory entry, if it is present. */
  function Table(mem: Memory, pgdir: nat, d: nat): Option<nat>
    requires pgdir in mem && d < NENTRIES
  {
    if Present(mem[pgdir][d]) then Some(FrameOf(mem[pgdir][d])) else None
  }

  /** What the two levels map page v to. */
  function Walk(mem: Memory, pgdir: nat, v: nat): Option<nat>
    requires pgdir in mem && v < NENTRIES * NENTRIES
  {
    match Table(mem, pgdir, Pdx(v))
    case None => None
    case Some(t) => if t in mem && Present(mem[t][Ptx(v)]) then Some(FrameOf(mem[t][Ptx(v)])) else None
  }

  /** The frame in which the processor lets user code read and write page v: both entries must have their
      three lowest bits set, for present, writable and user. */
  function UserWalk(mem: Memory, pgdir: nat, v: nat): Option<nat>
    requires pgdir in mem && v < NENTRIES * NENTRIES
  {
    var d := mem[pgdir][v / 1024];
    if d % 8 != 7 || d / 4096 !in mem then None
    else
      var w := mem[d / 4096][v % 1024];
      if w % 8 != 7 then None else Some(w / 4096)
  }

  /** What user code may touch is mapped. */
  lemma UserMapped(mem: Memory, pgdir: nat, v: nat)
    requires pgdir in mem && v < NENTRIES * NENTRIES
    ensures UserWalk(mem, pgdir, v).Some? ==> UserWalk(mem, pgdir, v) == Walk(mem, pgdir, v)
  {
    Odd(mem[pgdir][Pdx(v)]);
    var t := FrameOf(mem[pgdir][Pdx(v)]);
    if t in mem {
      Odd(mem[t][Ptx(v)]);
    }
  }

  lemma Odd(w: Uint)
    ensures w % 8 == 7 ==> w % 2 == 1
  {
  }

  /** What a frame is used for. */
  datatype Use = Directory | TableOf(d: nat) | PageOf(v: nat)

  /** A user page: below KERNBASE. */
  predicate UserPage(v: nat) {
    v < KERNBASE / PGSIZE
  }

  /** Tables and user pages are in frames of their own, none of them free. */
  ghost predicate Wf(mem: Memory, pgdir: nat, free: seq<nat>, use: map<nat, Use>) {
    && pgdir in mem && pgdir in use && use[pgdir] == Directory
    && NoDup(free) && (forall f | f in free :: 0 < f < NFRAMES && f in mem && f !in use)
    && (forall d | 0 <= d < NENTRIES && Table(mem, pgdir, d).Some? :: TableUsed(mem, pgdir, use, d))
    && (forall v | UserPage(v) && Walk(mem, pgdir, v).Some? :: PageUsed(mem, pgdir, use, v))
    && (forall f | f in use :: UsedAs(mem, pgdir, use, f))
  }

  predicate UsedAs(mem: Memory, pgdir: nat, use: map<nat, Use>, f: nat)
    requires pgdir in mem && f in use
  {
    match use[f]
    case Directory => f == pgdir
    case TableOf(d) => d < NENTRIES && Table(mem, pgdir, d) == Some(f)
    case PageOf(v) => UserPage(v) && Walk(mem, pgdir, v) == Some(f)
  }

  predicate TableUsed(mem: Memory, pgdir: nat, use: map<nat, Use>, d: nat)
    requires pgdir in mem && d < NENTRIES && Table(mem, pgdir, d).Some?
  {
    var t := Table(mem, pgdir, d).value;
    t in mem && t in use && use[t] == TableOf(d) && mem[pgdir][d] % 8 == 7
  }

  predicate PageUsed(mem: Memory, pgdir: nat, use: map<nat, Use>, v: nat)
    requires pgdir in mem && UserPage(v) && Walk(mem, pgdir, v).Some?
  {
    var f := Walk(mem, pgdir, v).value;
    0 < f < NFRAMES && f in mem && f in use && use[f] == PageOf(v)
  }

  // ---------------------------------------------------------------- what single changes do to the map

  /** A frame that is no table changes. */
  lemma OtherFrame(mem: Memory, pgdir: nat, free: seq<nat>, use: map<nat, Use>, f: nat, data: Frame, v: nat)
    requires Wf(mem, pgdir, free, use) && f != pgdir && (f !in use || use[f].PageOf?) && v < NENTRIES * NENTRIES
    ensures Walk(mem[f := data], pgdir, v) == Walk(mem, pgdir, v)
    ensures UserWalk(mem[f := data], pgdir, v) == UserWalk(mem, pgdir, v)
  {
    if Table(mem, pgdir, Pdx(v)).Some? {
      assert TableUsed(mem, pgdir, use, Pdx(v));
    } else {
      Odd(mem[pgdir][Pdx(v)]);
    }
    WalksAlike(mem, mem[f := data], pgdir, v);
  }

  /** The walks read the page's directory entry and its table only. */
  lemma WalksAlike(mem: Memory, mem': Memory, pgdir: nat, v: nat)
    requires pgdir in mem && pgdir in mem' && v < NENTRIES * NENTRIES
    requires mem'[pgdir][Pdx(v)] == mem[pgdir][Pdx(v)]
    requires var d := mem[pgdir][Pdx(v)];
             Present(d) ==> FrameOf(d) in mem && FrameOf(d) in mem' && mem'[FrameOf(d)] == mem[FrameOf(d)]
    ensures Walk(mem', pgdir, v) == Walk(mem, pgdir, v) && UserWalk(mem', pgdir, v) == UserWalk(mem, pgdir, v)
  {
    Odd(mem[pgdir][Pdx(v)]);
  }

  /** A zeroed frame becomes the table of an absent directory entry. */
  lemma NewTable(mem: Memory, pgdir: nat, free: seq<nat>, use: map<nat, Use>, d: nat, t: nat, v: nat)
    requires Wf(mem, pgdir, free, use) && d < NENTRIES && Table(mem, pgdir, d) == None && v < NENTRIES * NENTRIES
    requires t in mem && t != pgdir && t !in use && t < NFRAMES && mem[t] == Zeroed
    ensures var mem' := mem[pgdir := mem[pgdir][d := Entry(t)]];
            Walk(mem', pgdir, v) == Walk(mem, pgdir, v) && UserWalk(mem', pgdir, v) == UserWalk(mem, pgdir, v)
  {
    var mem' := mem[pgdir := mem[pgdir][d := Entry(t)]];
    if Pdx(v) == d {
      Odd(mem[pgdir][d]);
      assert UserWalk(mem, pgdir, v) == None;
      assert mem'[t][v % 1024] == 0;
    } else {
      if Table(mem, pgdir, Pdx(v)).Some? {
        assert TableUsed(mem, pgdir, use, Pdx(v));
      }
      WalksAlike(mem, mem', pgdir, v);
    }
  }

  /** A word of an existing table changes. */
  lemma NewWord(mem: Memory, pgdir: nat, free: seq<nat>, use: map<nat, Use>, v: nat, w: Uint, u: nat)
    requires Wf(mem, pgdir, free, use) && v < NENTRIES * NENTRIES && u < NENTRIES * NENTRIES
    requires Table(mem, pgdir, Pdx(v)).Some?
    ensures var t := Table(mem, pgdir, Pdx(v)).value;
            && t in mem
            && Walk(mem[t := mem[t][Ptx(v) := w]], pgdir, u)
               == (if u == v then (if Present(w) then Some(FrameOf(w)) else None) else Walk(mem, pgdir, u))
            && UserWalk(mem[t := mem[t][Ptx(v) := w]], pgdir, u)
               == if u == v then (if w % 8 == 7 then Some(w / 4096) else None) else UserWalk(mem, pgdir, u)
  {
    assert TableUsed(mem, pgdir, use, Pdx(v));
    if Table(mem, pgdir, Pdx(u)).Some? {
      assert TableUsed(mem, pgdir, use, Pdx(u));
    }
    SameIndex(u, v);
  }

  lemma SameIndex(u: nat, v: nat)
    ensures Pdx(u) == Pdx(v) && Ptx(u) == Ptx(v) ==> u == v
  {
  }

  // ---------------------------------------------------------------- the program

  class Kernel {
    const pgdir: nat
    var mem: Memory
    var free: seq<nat>
    ghost var use: map<nat, Use>

    ghost predicate Valid()
      reads this
    {
      Wf(mem, pgdir, free, use)
    }

    function Lookup(v: nat): Option<nat>
      reads this
      requires pgdir in mem && v < NENTRIES * NENTRIES
    {
      Walk(mem, pgdir, v)
    }

    constructor (root: nat, memory: Memory, frames: seq<nat>, ghost uses: map<nat, Use>)
      requires Wf(memory, root, frames, uses)
      ensures Valid() && pgdir == root && mem == memory && free == frames && use == uses
    {
      pgdir, mem, free, use := root, memory, frames, uses;
    }

    /** kalloc, by its caller followed by memset to zero. */
    method KallocZeroed() returns (ok: bool, f: nat)
      requires Valid()
      modifies this`free, this`mem
      ensures Valid() && (ok <==> old(free) != [])
      ensures !ok ==> free == old(free) && mem == old(mem)
      ensures ok ==> f == old(free)[0] && free == old(free)[1..] && f !in free && mem == old(mem)[f := Zeroed]
      ensures ok ==> 0 < f < NFRAMES && f != pgdir && f !in use && f in old(mem)
      ensures forall v | 0 <= v < NENTRIES * NENTRIES :: Lookup(v) == old(Lookup(v))
    {
      if free == [] {
        return false, 0;
      }
      ok, f := true, free[0];
      ghost var m0, f0 := mem, free;
      free := free[1..];
      mem := mem[f := Zeroed];
      Allocated(m0, pgdir, f0, use);
    }

    /** kfree of a frame that nothing uses any more. */
    method Kfree(f: nat)
      requires Valid() && 0 < f < NFRAMES && f in mem && f !in use && f !in free
      modifies this`free, this`mem
      ensures Valid() && free == [f] + old(free) && mem == old(mem)[f := Junk]
      ensures forall v | 0 <= v < NENTRIES * NENTRIES :: Lookup(v) == old(Lookup(v))
    {
      ghost var m0, f0 := mem, free;
      mem := mem[f := Junk];
      free := [f] + free;
      FrameChanged(m0, pgdir, f0, use, f, Junk);
    }
  
    /** walkpgdir: the frame of page v's table, made if alloc is set and it is absent. */
    method WalkPgdir(v: nat, alloc: bool) returns (table: Option<nat>)
      requires Valid() && UserPage(v)
      modifies this`free, this`mem, this`use
      ensures Valid() && table == Table(mem, pgdir, Pdx(v))
      ensures !alloc ==> free == old(free) && mem == old(mem) && use == old(use)
      ensures alloc ==> (table == None <==> old(Table(mem, pgdir, Pdx(v))) == None && old(free) == [])
      ensures alloc ==> |free| == |old(free)| - (if table == None then 0 else Lacks(old(mem), pgdir, v))
      ensures OtherTables(old(mem), mem, pgdir, Pdx(v))
      ensures SameFrames(old(free), old(use), free, use) && OthersKept(old(mem), mem, pgdir, 0, 0)
      ensures FewerFree(old(free), free, old(use), use)
      ensures LooseKept(old(mem), old(free), old(use), mem, free, use)
    {
      ghost var m0, f0, u0 := mem, free, use;
      EverythingKept(m0, pgdir, f0, u0);
      var d := Pdx(v);
      if Present(mem[pgdir][d]) {
        return Some(FrameOf(mem[pgdir][d]));
      }
      if !alloc {
        return None;
      }
      var ok, t := KallocZeroed();
      if !ok {
        return None;
      }
      TableAdded(m0, pgdir, f0, u0, d);
      mem := mem[pgdir := mem[pgdir][d := Entry(t)]];
      use := use[t := TableOf(d)];
      return Some(t);
    }

    /** mappages for the one page v. */
    method MapPage(v: nat, f: nat) returns (ok: bool)
      requires Valid() && UserPage(v) && Lookup(v) == None
      requires 0 < f < NFRAMES && f in mem && f !in use && f !in free
      modifies this`free, this`mem, this`use
      ensures Valid() && OthersKept(old(mem), mem, pgdir, v, v + 1)
      ensures f in mem && mem[f] == old(mem[f]) && f !in free && FewerFree(old(free), free, old(use), use)
      ensures !ok ==> Lookup(v) == None && f !in use && SameFrames(old(free), old(use), free, use)
      ensures ok ==> Lookup(v) == Some(f) && SameFrames([f] + old(free), old(use), free, use)
      ensures ok ==> UserWalk(mem, pgdir, v) == Some(f)
      ensures ok <==> |old(free)| >= Lacks(old(mem), pgdir, v)
      ensures ok ==> |free| == |old(free)| - Lacks(old(mem), pgdir, v) && Table(mem, pgdir, Pdx(v)).Some?
      ensures OtherTables(old(mem), mem, pgdir, Pdx(v))
    {
      ghost var m0, f0, u0 := mem, free, use;
      ghost var before := mem[f];
      var table := WalkPgdir(v, true);
      assert SamePage(m0, mem, pgdir, v) && HeldBack(m0, mem, free, use, f);
      if table == None {
        return false;
      }
      var t := table.value;
      ghost var m1 := mem;
      PageAdded(m1, pgdir, free, use, v, f);
      mem := mem[t := mem[t][Ptx(v) := Entry(f)]];
      use := use[f := PageOf(v)];
      OthersTwice(m0, m1, mem, pgdir, 0, 0, v, v + 1);
      ok := true;
    }

    /** The present case of deallocuvm's loop: page v's frame is freed and its entry cleared. */
    method UnmapPage(v: nat)
      requires Valid() && UserPage(v) && Lookup(v).Some?
      modifies this`free, this`mem, this`use
      ensures Valid() && Lookup(v) == None && OthersKept(old(mem), mem, pgdir, v, v + 1)
      ensures var f := old(Lookup(v)).value; free == [f] + old(free) && use == old(use) - {f}
      ensures SameFrames(old(free), old(use), free, use)
      ensures LooseKept(old(mem), old(free), old(use), mem, free, use)
    {
      PageRemoved(mem, pgdir, free, use, v);
      var t := FrameOf(mem[pgdir][Pdx(v)]);
      var f := FrameOf(mem[t][Ptx(v)]);
      mem := mem[f := Junk];
      free := [f] + free;
      mem := mem[t := mem[t][Ptx(v) := 0]];
      use := use - {f};
    }

    /** One turn of deallocuvm's loop: skip is set if page v's table is absent. */
    method DeallocPage(v: nat) returns (skip: bool)
      requires Valid() && UserPage(v)
      modifies this`free, this`mem, this`use
      ensures Valid() && (skip <==> old(Table(mem, pgdir, Pdx(v))) == None)
      ensures if old(Lookup(v)).Some?
              then && free == [old(Lookup(v)).value] + old(free) && use == old(use) - {old(Lookup(v)).value}
                   && Lookup(v) == None && OthersKept(old(mem), mem, pgdir, v, v + 1)
                   && SameFrames(old(free), old(use), free, use)
                   && LooseKept(old(mem), old(free), old(use), mem, free, use)
              else free == old(free) && mem == old(mem) && use == old(use)
    {
      var table := WalkPgdir(v, false);
      skip := table == None;
      if table.Some? {
        assert TableUsed(mem, pgdir, use, Pdx(v));
        if Present(mem[table.value][Ptx(v)]) {
          UnmapPage(v);
        }
      }
    }

    /** ... at address a, that of page p; next is the address after it. */
    method DeallocTurn(a: nat, ghost p: nat, ghost oldsz: nat, ghost m0: Memory, ghost f0: seq<nat>,
                       ghost u0: map<nat, Use>,
                       ghost lo: nat) returns (next: nat, ghost q: nat)
      requires Valid() && a == p * PGSIZE < oldsz <= KERNBASE && lo <= p && pgdir in m0
      requires Dealloced(m0, f0, u0, mem, free, use, pgdir, lo, p, Pages(oldsz))
      modifies this`free, this`mem, this`use
      ensures Valid() && next == q * PGSIZE && p < q <= KERNBASE / PGSIZE
      ensures Dealloced(m0, f0, u0, mem, free, use, pgdir, lo, q, Pages(oldsz))
    {
      PageOfAddress(a, oldsz, p);
      ghost var m1, f1, u1 := mem, free, use;
      var skip := DeallocPage(a / PGSIZE);
      next := if skip then (Pdx(a / PGSIZE) + 1) * NENTRIES * PGSIZE - PGSIZE else a;
      next := next + PGSIZE;
      q := NextPage(p, skip);
      DeallocedNext(m0, f0, u0, m1, f1, u1, mem, free, use, pgdir, lo, p, Pages(oldsz), skip);
    }

    /** deallocuvm: the pages from newsz, rounded up, to oldsz are unmapped, and exactly the frames of
        those that were present are freed. */
    method DeallocUvm(oldsz: nat, newsz: nat) returns (r: nat)
      requires Valid() && oldsz <= KERNBASE
      modifies this`free, this`mem, this`use
      ensures Valid() && r == if newsz >= oldsz then oldsz else newsz
      ensures newsz >= oldsz ==> mem == old(mem) && free == old(free) && use == old(use)
      ensures newsz < oldsz ==> && Unmapped(mem, pgdir, Pages(newsz), Pages(oldsz))
                                && OthersKept(old(mem), mem, pgdir, Pages(newsz), Pages(oldsz))
                                && free == Frames(old(mem), pgdir, Pages(newsz), Pages(oldsz)) + old(free)
      ensures forall v: nat | newsz <= v * PGSIZE < oldsz :: Lookup(v) == None
      ensures forall v: nat | UserPage(v) && !(newsz <= v * PGSIZE < oldsz) :: SamePage(old(mem), mem, pgdir, v)
      ensures SameFrames(old(free), old(use), free, use)
      ensures LooseKept(old(mem), old(free), old(use), mem, free, use)
      ensures forall f | f in use :: f in old(use) && use[f] == old(use)[f]
    {
      PageRange(newsz, oldsz);
      EverythingKept(mem, pgdir, free, use);
      if newsz >= oldsz {
        return oldsz;
      }
      ghost var m0, f0, u0, lo, hi := mem, free, use, Pages(newsz), Pages(oldsz);
      EverythingKept(m0, pgdir, f0, u0);
      DeallocedNone(m0, f0, u0, pgdir, lo, hi);
      var a := RoundUp(newsz);
      ghost var p := lo;
      while a < oldsz
        invariant a == p * PGSIZE && lo <= p <= KERNBASE / PGSIZE
        invariant Valid() && Dealloced(m0, f0, u0, mem, free, use, pgdir, lo, p, hi)
      {
        a, p := DeallocTurn(a, p, oldsz, m0, f0, u0, lo);
      }
      PagesOf(p, oldsz);
      ShrunkAll(m0, mem, pgdir, lo, p, hi, f0, free);
      r := newsz;
    }

    /** One turn of allocuvm's loop: page v gets a zeroed frame. If there is no memory for its table,
        the frame is still held. */
    method AllocPage(v: nat) returns (ok: bool, held: Option<nat>)
      requires Valid() && UserPage(v) && Lookup(v) == None
      modifies this`free, this`mem, this`use
      ensures Valid() && OthersKept(old(mem), mem, pgdir, v, v + 1)
              && FewerOrPage(old(free), free, old(use), use, v, held)
      ensures ok ==>
                held == None && Lookup(v).Some? && Zero(mem, pgdir, v, old(free))
                && SameFrames(old(free), old(use), free, use)
      ensures !ok ==> Lookup(v) == None && SameFrames(old(free), old(use), Held(held) + free, use)
      ensures ok <==> |old(free)| >= 1 + Lacks(old(mem), pgdir, v)
      ensures ok ==> |free| == |old(free)| - 1 - Lacks(old(mem), pgdir, v) && Table(mem, pgdir, Pdx(v)).Some?
      ensures ok ==> OtherTables(old(mem), mem, pgdir, Pdx(v))
      ensures held.Some? ==> && held.value in old(free) && 0 < held.value < NFRAMES && held.value in mem
                             && held.value !in use && held.value !in free
    {
      ghost var m0, f0, u0 := mem, free, use;
      EverythingKept(m0, pgdir, f0, u0);
      var f;
      ok, f := KallocZeroed();
      if !ok {
        return false, None;
      }
      ghost var m1, f1 := mem, free;
      assert f0 == [f] + f1;
      LooseChanged(m0, pgdir, f0, u0, f, Zeroed);
      ok := MapPage(v, f);
      OthersTwice(m0, m1, mem, pgdir, 0, 0, v, v + 1);
      held := if ok then None else Some(f);
      assert SameFrames(f0, u0, [f] + f1, u0);
    }

    /** There are frames for the pages from oldsz to newsz and for the tables they lack. */
    predicate Enough(oldsz: nat, newsz: nat)
      reads this
      requires pgdir in mem && oldsz <= newsz < KERNBASE
    {
      Need(mem, pgdir, Pages(oldsz), Pages(newsz)) <= |free|
    }

    /** allocuvm: if there are enough frames, every page from oldsz, rounded up, to newsz is mapped, for user
        code to read and write, to a frame of its own that was free and is now zero; if not, the map is
        as before and every frame is free again except those that became page tables. */
    method AllocUvm(oldsz: nat, newsz: nat) returns (r: nat)
      requires Valid() && (oldsz <= newsz < KERNBASE ==> Unmapped(mem, pgdir, Pages(oldsz), Pages(newsz)))
      modifies this`free, this`mem, this`use
      ensures Valid() && SameFrames(old(free), old(use), free, use)
      ensures newsz >= KERNBASE ==> r == 0 && mem == old(mem) && free == old(free)
      ensures newsz < oldsz && newsz < KERNBASE ==> r == oldsz && mem == old(mem) && free == old(free)
      ensures oldsz <= newsz < KERNBASE && old(Enough(oldsz, newsz)) ==>
                && r == newsz && Grown(old(mem), old(free), mem, pgdir, Pages(oldsz), Pages(newsz))
                && |free| == |old(free)| - Need(old(mem), pgdir, Pages(oldsz), Pages(newsz))
      ensures oldsz <= newsz < KERNBASE && !old(Enough(oldsz, newsz)) ==>
                && r == 0 && Undone(old(mem), old(free), old(use), mem, free, use, pgdir)
      ensures r > 0 ==> forall v: nat | oldsz <= v * PGSIZE < newsz && UserPage(v) ::
                && UserWalk(mem, pgdir, v).Some? && UserWalk(mem, pgdir, v).value in old(free)
                && UserWalk(mem, pgdir, v).value in mem
                && forall i | 0 <= i < NENTRIES :: mem[UserWalk(mem, pgdir, v).value][i] == 0
      ensures forall v: nat | UserPage(v) && !(r > 0 && oldsz <= v * PGSIZE < newsz) ::
                SamePage(old(mem), mem, pgdir, v)
      ensures r == 0 || r == (if newsz < oldsz then oldsz else newsz)
    {
      PageRange(oldsz, newsz);
      EverythingKept(mem, pgdir, free, use);
      if newsz >= KERNBASE {
        return 0;
      }
      if newsz < oldsz {
        return oldsz;
      }
      var ok := AllocPages(oldsz, newsz);
      r := if ok then newsz else 0;
    }

    /** allocuvm's loop. */
    method AllocPages(oldsz: nat, newsz: nat) returns (ok: bool)
      requires Valid() && oldsz <= newsz < KERNBASE && Unmapped(mem, pgdir, Pages(oldsz), Pages(newsz))
      modifies this`free, this`mem, this`use
      ensures Valid()
      ensures ok <==> old(Enough(oldsz, newsz))
      ensures ok ==> Grown(old(mem), old(free), mem, pgdir, Pages(oldsz), Pages(newsz))
      ensures ok ==> |free| == |old(free)| - Need(old(mem), pgdir, Pages(oldsz), Pages(newsz))
      ensures ok ==> SameFrames(old(free), old(use), free, use)
      ensures !ok ==> Undone(old(mem), old(free), old(use), mem, free, use, pgdir)
    {
      ghost var m0, f0, u0, lo, hi := mem, free, use, Pages(oldsz), Pages(newsz);
      var a := RoundUp(oldsz);
      ghost var p := lo;
      RoundedPages(oldsz, newsz);
      AllocedNone(m0, f0, u0, pgdir, lo, hi);
      ghost var left, slack := Absent(m0, pgdir, lo, hi), |f0| - Need(m0, pgdir, lo, hi);
      while a < newsz
        invariant a == p * PGSIZE && lo <= p <= hi
        invariant Valid() && Alloced(m0, f0, u0, mem, free, use, pgdir, lo, p, hi, left, slack)
      {
        PageOfAddress(a, newsz, p);
        ok, left := AllocTurn(a, p, oldsz, newsz, m0, f0, u0, left, slack);
        if !ok {
          return;
        }
        a, p := a + PGSIZE, p + 1;
      }
      PagesOf(p, newsz);
      ok := true;
    }

    /** One turn of allocuvm's loop, at address a, that of page p, with its failure path. */
    method AllocTurn(a: nat, ghost p: nat, oldsz: nat, newsz: nat,
                     ghost m0: Memory, ghost f0: seq<nat>, ghost u0: map<nat, Use>, ghost left: set<nat>,
                     ghost slack: int)
      returns (ok: bool, ghost left': set<nat>)
      requires Valid() && a == p * PGSIZE < newsz < KERNBASE && oldsz <= newsz && Pages(oldsz) <= p < Pages(newsz)
      requires Wf(m0, pgdir, f0, u0) && Unmapped(m0, pgdir, Pages(oldsz), Pages(newsz))
      requires Alloced(m0, f0, u0, mem, free, use, pgdir, Pages(oldsz), p, Pages(newsz), left, slack)
      modifies this`free, this`mem, this`use
      ensures Valid()
      ensures ok ==> Alloced(m0, f0, u0, mem, free, use, pgdir, Pages(oldsz), p + 1, Pages(newsz), left', slack)
      ensures !ok ==> slack < 0 && Undone(m0, f0, u0, mem, free, use, pgdir)
    {
      ghost var m1, f1, u1, lo, hi := mem, free, use, Pages(oldsz), Pages(newsz);
      PageOfAddress(a, newsz, p);
      assert SamePage(m0, mem, pgdir, p);
      LackingFirst(m1, pgdir, p, hi, left);
      var held;
      left' := left - {Pdx(p)};
      ok, held := AllocPage(a / PGSIZE);
      GrownMore(m0, f0, m1, f1, mem, pgdir, lo, p, hi, ok);
      ChargedMore(f0, u0, f1, u1, free, use, lo, p, hi, held);
      if ok {
        LackingNext(m1, mem, pgdir, p, hi, left);
      } else {
        HeldTwice(f0, u0, f1, u1, free, use, held);
        Undo(oldsz, newsz, held, m0, f0, u0);
      }
    }

    /** The frame in hand, if there is one, is freed. */
    method GiveBack(held: Option<nat>)
      requires Valid()
      requires held.Some? ==> 0 < held.value < NFRAMES && held.value in mem && held.value !in use && held.value !in free
      modifies this`free, this`mem
      ensures Valid() && free == Held(held) + old(free) && OthersKept(old(mem), mem, pgdir, 0, 0)
    {
      EverythingKept(mem, pgdir, free, use);
      if held.Some? {
        LooseChanged(mem, pgdir, free, use, held.value, Junk);
        Kfree(held.value);
      }
    }

    /** What allocuvm does when memory runs out. */
    method Undo(oldsz: nat, newsz: nat, held: Option<nat>, ghost m0: Memory, ghost f0: seq<nat>,
                ghost u0: map<nat, Use>)
      requires Valid() && oldsz <= newsz < KERNBASE && pgdir in m0
      requires Unmapped(m0, pgdir, Pages(oldsz), Pages(newsz)) && OthersKept(m0, mem, pgdir, Pages(oldsz), Pages(newsz))
      requires Wf(m0, pgdir, f0, u0) && HeldCharged(f0, free, u0, use, Pages(oldsz), Pages(newsz), held)
      requires SameFrames(f0, u0, Held(held) + free, use)
      requires held.Some? ==> && held.value in f0 && 0 < held.value < NFRAMES && held.value in mem
                              && held.value !in use && held.value !in free
      modifies this`free, this`mem, this`use
      ensures Valid() && Undone(m0, f0, u0, mem, free, use, pgdir)
    {
      ghost var m1, f1, u1, lo, hi := mem, free, use, Pages(oldsz), Pages(newsz);
      var _ := DeallocUvm(newsz, oldsz);
      ghost var m2, f2, u2 := mem, free, use;
      if oldsz == newsz {
        EverythingKept(m1, pgdir, f1, u1);
      }
      UndoneFrames(m0, f0, u0, m1, f1, u1, m2, f2, u2, pgdir, lo, hi, held);
      assert held.Some? ==> HeldBack(m1, m2, f2, u2, held.value);
      GiveBack(held);
      UndoneMap(m0, m1, m2, mem, pgdir, lo, hi);
    }
  }

  /** PGROUNDUP. */
  function RoundUp(sz: nat): nat {
    (sz + PGSIZE - 1) / PGSIZE * PGSIZE
  }

  /** The number of pages that sz bytes take. */
  function Pages(sz: nat): nat {
    (sz + PGSIZE - 1) / PGSIZE
  }

  lemma PageOfAddress(a: nat, oldsz: nat, p: nat)
    requires a == p * PGSIZE < oldsz <= KERNBASE
    ensures a / PGSIZE == p && UserPage(p) && p < Pages(oldsz)
    ensures (Pdx(p) + 1) * NENTRIES <= KERNBASE / PGSIZE
  {
  }

  /** The pages from lo, rounded up, to hi are those that begin there. */
  lemma PageRange(lo: nat, hi: nat)
    ensures forall v: nat :: Pages(lo) <= v < Pages(hi) <==> lo <= v * PGSIZE < hi
  {
  }

  lemma RoundedPages(sz: nat, newsz: nat)
    requires sz <= newsz
    ensures RoundUp(sz) == Pages(sz) * PGSIZE && Pages(sz) <= Pages(newsz)
  {
  }

  lemma PagesOf(p: nat, oldsz: nat)
    requires p * PGSIZE >= oldsz
    ensures p >= Pages(oldsz)
  {
  }

  ghost predicate Unmapped(mem: Memory, pgdir: nat, lo: nat, hi: nat)
    requires pgdir in mem
  {
    forall v | lo <= v < hi && UserPage(v) :: Walk(mem, pgdir, v) == None
  }

  /** Page v of lo to hi was mapped to f. */
  predicate MappedIn(mem: Memory, pgdir: nat, lo: nat, hi: nat, v: nat, f: nat)
    requires pgdir in mem
  {
    lo <= v < hi && UserPage(v) && Walk(mem, pgdir, v) == Some(f)
  }

  /** The frames that the pages from lo to hi are mapped to, last page first. */
  function Frames(mem: Memory, pgdir: nat, lo: nat, hi: nat): seq<nat>
    requires pgdir in mem
    decreases hi
  {
    if hi <= lo then []
    else if UserPage(hi - 1) && Walk(mem, pgdir, hi - 1).Some?
    then [Walk(mem, pgdir, hi - 1).value] + Frames(mem, pgdir, lo, hi - 1)
    else Frames(mem, pgdir, lo, hi - 1)
  }

  lemma {:induction false} FramesHold(mem: Memory, pgdir: nat, lo: nat, hi: nat, v: nat)
    requires pgdir in mem && lo <= v < hi && UserPage(v) && Walk(mem, pgdir, v).Some?
    ensures Walk(mem, pgdir, v).value in Frames(mem, pgdir, lo, hi)
    decreases hi
  {
    if v < hi - 1 {
      FramesHold(mem, pgdir, lo, hi - 1, v);
    }
  }

  lemma {:induction false} FramesOnly(mem: Memory, pgdir: nat, lo: nat, hi: nat, f: nat)
    requires pgdir in mem && f in Frames(mem, pgdir, lo, hi)
    ensures exists v: nat :: MappedIn(mem, pgdir, lo, hi, v, f)
    decreases hi
  {
    if f in Frames(mem, pgdir, lo, hi - 1) {
      FramesOnly(mem, pgdir, lo, hi - 1, f);
      var v: nat :| MappedIn(mem, pgdir, lo, hi - 1, v, f);
      assert MappedIn(mem, pgdir, lo, hi, v, f);
    } else {
      assert MappedIn(mem, pgdir, lo, hi, hi - 1, f);
    }
  }

  lemma {:induction false} FramesNext(mem: Memory, pgdir: nat, lo: nat, p: nat, rest: seq<nat>)
    requires pgdir in mem && lo <= p && UserPage(p)
    ensures Frames(mem, pgdir, lo, p + 1) + rest
            == if Walk(mem, pgdir, p) == None then Frames(mem, pgdir, lo, p) + rest
               else [Walk(mem, pgdir, p).value] + (Frames(mem, pgdir, lo, p) + rest)
  {
    if Walk(mem, pgdir, p).Some? {
      Regrouped([Walk(mem, pgdir, p).value], Frames(mem, pgdir, lo, p), rest);
    }
  }

  lemma {:induction false} FramesSkip(mem: Memory, pgdir: nat, lo: nat, p: nat, q: nat)
    requires pgdir in mem && lo <= p <= q && Unmapped(mem, pgdir, p, q)
    ensures Frames(mem, pgdir, lo, q) == Frames(mem, pgdir, lo, p)
    decreases q
  {
    if p < q {
      FramesSkip(mem, pgdir, lo, p, q - 1);
    }
  }

  /** deallocuvm's progress up to page p: it may have jumped past hi, over pages that were absent. */
  ghost predicate Shrunk(m0: Memory, mem: Memory, pgdir: nat, lo: nat, p: nat, hi: nat)
    requires pgdir in m0 && pgdir in mem
  {
    && Unmapped(mem, pgdir, lo, p) && OthersKept(m0, mem, pgdir, lo, p) && Unmapped(m0, pgdir, hi, p)
  }

  ghost predicate Dealloced(m0: Memory, f0: seq<nat>, u0: map<nat, Use>, mem: Memory, free: seq<nat>,
                            use: map<nat, Use>,
                            pgdir: nat, lo: nat, p: nat, hi: nat)
    requires pgdir in m0 && pgdir in mem
  {
    && Shrunk(m0, mem, pgdir, lo, p, hi) && free == Frames(m0, pgdir, lo, p) + f0
    && SameFrames(f0, u0, free, use) && LooseKept(m0, f0, u0, mem, free, use)
    && forall f | f in use :: f in u0 && use[f] == u0[f]
  }

  lemma DeallocedNone(m0: Memory, f0: seq<nat>, u0: map<nat, Use>, pgdir: nat, lo: nat, hi: nat)
    requires pgdir in m0 && OthersKept(m0, m0, pgdir, 0, 0) && lo <= hi
    ensures Dealloced(m0, f0, u0, m0, f0, u0, pgdir, lo, lo, hi)
  {
    assert Frames(m0, pgdir, lo, lo) == [];
    forall v: nat | UserPage(v) && !(lo <= v < lo)
      ensures SamePage(m0, m0, pgdir, v)
    {
    }
  }

  lemma DeallocedMore(m0: Memory, f0: seq<nat>, u0: map<nat, Use>, m1: Memory, f1: seq<nat>, u1: map<nat, Use>,
                      mem: Memory, free: seq<nat>, use: map<nat, Use>, pgdir: nat, lo: nat, p: nat, hi: nat)
    requires pgdir in m0 && pgdir in m1 && pgdir in mem && lo <= p < hi && UserPage(p)
    requires Dealloced(m0, f0, u0, m1, f1, u1, pgdir, lo, p, hi)
    requires if Walk(m1, pgdir, p).Some?
             then && free == [Walk(m1, pgdir, p).value] + f1 && use == u1 - {Walk(m1, pgdir, p).value}
                  && Walk(mem, pgdir, p) == None && OthersKept(m1, mem, pgdir, p, p + 1)
                  && SameFrames(f1, u1, free, use) && LooseKept(m1, f1, u1, mem, free, use)
             else free == f1 && mem == m1 && use == u1
    ensures Dealloced(m0, f0, u0, mem, free, use, pgdir, lo, p + 1, hi)
  {
    ShrunkMore(m0, m1, mem, pgdir, lo, p, hi, f0, f1, free);
    LooseTwice(m0, f0, u0, m1, f1, u1, mem, free, use);
  }

  lemma ShrunkAll(m0: Memory, mem: Memory, pgdir: nat, lo: nat, p: nat, hi: nat, f0: seq<nat>, free: seq<nat>)
    requires pgdir in m0 && pgdir in mem && lo <= hi <= p && Shrunk(m0, mem, pgdir, lo, p, hi)
    requires free == Frames(m0, pgdir, lo, p) + f0
    ensures Unmapped(mem, pgdir, lo, hi) && OthersKept(m0, mem, pgdir, lo, hi) && free == Frames(m0, pgdir, lo, hi) + f0
  {
    forall v: nat | UserPage(v) && !(lo <= v < hi)
      ensures SamePage(m0, mem, pgdir, v)
    {
      if hi <= v < p {
        UserMapped(m0, pgdir, v);
        UserMapped(mem, pgdir, v);
      }
    }
    FramesSkip(m0, pgdir, lo, hi, p);
  }

  /** Page p is done: it was absent, although its table is not, or has been unmapped. */
  lemma ShrunkMore(m0: Memory, m1: Memory, mem: Memory, pgdir: nat, lo: nat, p: nat, hi: nat, f0: seq<nat>,
                   f1: seq<nat>, free: seq<nat>)
    requires pgdir in m0 && pgdir in m1 && pgdir in mem && lo <= p < hi && UserPage(p)
             && Shrunk(m0, m1, pgdir, lo, p, hi)
    requires f1 == Frames(m0, pgdir, lo, p) + f0
    requires if Walk(m1, pgdir, p).Some?
             then && free == [Walk(m1, pgdir, p).value] + f1 && Walk(mem, pgdir, p) == None
                  && OthersKept(m1, mem, pgdir, p, p + 1)
             else free == f1 && mem == m1
    ensures Shrunk(m0, mem, pgdir, lo, p + 1, hi) && free == Frames(m0, pgdir, lo, p + 1) + f0
  {
    assert SamePage(m0, m1, pgdir, p);
    forall v | lo <= v < p + 1 && UserPage(v)
      ensures Walk(mem, pgdir, v) == None
    {
      assert v < p && mem != m1 ==> SamePage(m1, mem, pgdir, v);
    }
    forall v: nat | UserPage(v) && !(lo <= v < p + 1)
      ensures SamePage(m0, mem, pgdir, v)
    {
      assert SamePage(m0, m1, pgdir, v) && (mem != m1 ==> SamePage(m1, mem, pgdir, v));
    }
    FramesNext(m0, pgdir, lo, p, f0);
  }

  /** No page of an absent table is present, so that the rest of the table can be skipped. */
  lemma DeallocedSkip(m0: Memory, f0: seq<nat>, u0: map<nat, Use>, mem: Memory, free: seq<nat>, use: map<nat, Use>,
                      pgdir: nat, lo: nat, p: nat, hi: nat)
    requires pgdir in m0 && pgdir in mem && lo <= p < hi && UserPage(p)
             && Dealloced(m0, f0, u0, mem, free, use, pgdir, lo, p, hi)
    requires Table(mem, pgdir, Pdx(p)) == None
    ensures var q := (Pdx(p) + 1) * NENTRIES; p < q && Dealloced(m0, f0, u0, mem, free, use, pgdir, lo, q, hi)
  {
    var q := (Pdx(p) + 1) * NENTRIES;
    forall v | p <= v < q && UserPage(v)
      ensures Walk(mem, pgdir, v) == None && Walk(m0, pgdir, v) == None
    {
      SameTable(p, v);
      assert SamePage(m0, mem, pgdir, v);
    }
    FramesSkip(m0, pgdir, lo, p, q);
  }

  function NextPage(p: nat, skip: bool): nat {
    if skip then (Pdx(p) + 1) * NENTRIES else p + 1
  }

  /** Either turn of the loop. */
  lemma DeallocedNext(m0: Memory, f0: seq<nat>, u0: map<nat, Use>, m1: Memory, f1: seq<nat>, u1: map<nat, Use>,
                      mem: Memory, free: seq<nat>, use: map<nat, Use>, pgdir: nat, lo: nat, p: nat, hi: nat, skip: bool)
    requires pgdir in m0 && pgdir in m1 && pgdir in mem && lo <= p < hi && UserPage(p)
    requires Dealloced(m0, f0, u0, m1, f1, u1, pgdir, lo, p, hi) && (skip <==> Table(m1, pgdir, Pdx(p)) == None)
    requires if Walk(m1, pgdir, p).Some?
             then && free == [Walk(m1, pgdir, p).value] + f1 && use == u1 - {Walk(m1, pgdir, p).value}
                  && Walk(mem, pgdir, p) == None && OthersKept(m1, mem, pgdir, p, p + 1)
                  && SameFrames(f1, u1, free, use) && LooseKept(m1, f1, u1, mem, free, use)
             else free == f1 && mem == m1 && use == u1
    ensures Dealloced(m0, f0, u0, mem, free, use, pgdir, lo, NextPage(p, skip), hi)
  {
    if skip {
      DeallocedSkip(m0, f0, u0, mem, free, use, pgdir, lo, p, hi);
    } else {
      DeallocedMore(m0, f0, u0, m1, f1, u1, mem, free, use, pgdir, lo, p, hi);
    }
  }

  lemma SameTable(p: nat, v: nat)
    requires p <= v < (Pdx(p) + 1) * NENTRIES
    ensures Pdx(v) == Pdx(p)
  {
  }

  /** No frame appears or is lost. */
  ghost predicate SameFrames(free: seq<nat>, use: map<nat, Use>, free': seq<nat>, use': map<nat, Use>) {
    forall f :: f in free || f in use <==> f in free' || f in use'
  }

  /** Frames are only taken from the free list, for tables. */
  ghost predicate FewerFree(free: seq<nat>, free': seq<nat>, use: map<nat, Use>, use': map<nat, Use>) {
    && (forall f | f in free' :: f in free)
    && (forall f | f in free && f !in free' :: f in use' && use'[f].TableOf?)
    && (forall f | f in use :: f in use' && use'[f] == use[f])
  }

  /** A frame that is neither free nor used, between its allocation and its mapping, is let alone. */
  predicate HeldBack(mem: Memory, mem': Memory, free': seq<nat>, use': map<nat, Use>, f: nat)
    requires f in mem
  {
    f in mem' && mem'[f] == mem[f] && f !in free' && f !in use'
  }

  ghost predicate LooseKept(mem: Memory, free: seq<nat>, use: map<nat, Use>, mem': Memory, free': seq<nat>,
                            use': map<nat, Use>) {
    forall f | f in mem && f !in free && f !in use :: HeldBack(mem, mem', free', use', f)
  }

  lemma LooseTwice(m0: Memory, f0: seq<nat>, u0: map<nat, Use>, m1: Memory, f1: seq<nat>, u1: map<nat, Use>,
                   m2: Memory, f2: seq<nat>, u2: map<nat, Use>)
    requires LooseKept(m0, f0, u0, m1, f1, u1)
    requires LooseKept(m1, f1, u1, m2, f2, u2) || (m2 == m1 && f2 == f1 && u2 == u1)
    ensures LooseKept(m0, f0, u0, m2, f2, u2)
  {
    forall f | f in m0 && f !in f0 && f !in u0
      ensures HeldBack(m0, m2, f2, u2, f)
    {
      assert HeldBack(m0, m1, f1, u1, f);
    }
  }

  predicate SamePage(mem: Memory, mem': Memory, pgdir: nat, v: nat)
    requires pgdir in mem && pgdir in mem' && v < NENTRIES * NENTRIES
  {
    && Walk(mem', pgdir, v) == Walk(mem, pgdir, v) && UserWalk(mem', pgdir, v) == UserWalk(mem, pgdir, v)
    && (Walk(mem, pgdir, v).Some? ==>
          var f := Walk(mem, pgdir, v).value; f in mem && f in mem' && mem'[f] == mem[f])
  }

  /** User pages outside lo to hi are mapped as before, with the same contents and permissions. */
  ghost predicate OthersKept(mem: Memory, mem': Memory, pgdir: nat, lo: nat, hi: nat)
    requires pgdir in mem && pgdir in mem'
  {
    forall v: nat | UserPage(v) && !(lo <= v < hi) :: SamePage(mem, mem', pgdir, v)
  }

  lemma EverythingKept(mem: Memory, pgdir: nat, free: seq<nat>, use: map<nat, Use>)
    requires Wf(mem, pgdir, free, use)
    ensures OthersKept(mem, mem, pgdir, 0, 0)
  {
    forall v: nat | UserPage(v)
      ensures SamePage(mem, mem, pgdir, v)
    {
      if Walk(mem, pgdir, v).Some? {
        assert PageUsed(mem, pgdir, use, v);
      }
    }
  }

  lemma OthersTwice(m0: Memory, m1: Memory, m2: Memory, pgdir: nat, lo: nat, hi: nat, lo': nat, hi': nat)
    requires pgdir in m0 && pgdir in m1 && pgdir in m2
    requires OthersKept(m0, m1, pgdir, lo, hi) && OthersKept(m1, m2, pgdir, lo', hi')
    requires lo == hi || (lo' <= lo && hi <= hi')
    ensures OthersKept(m0, m2, pgdir, lo', hi')
  {
    forall v: nat | UserPage(v) && !(lo' <= v < hi')
      ensures SamePage(m0, m2, pgdir, v)
    {
      assert SamePage(m0, m1, pgdir, v) && SamePage(m1, m2, pgdir, v);
    }
  }

  /** The first free frame, zeroed, becomes the table of directory entry d. */
  lemma TableAdded(mem: Memory, pgdir: nat, free: seq<nat>, use: map<nat, Use>, d: nat)
    requires Wf(mem, pgdir, free, use) && free != [] && d < NENTRIES && Table(mem, pgdir, d) == None
    ensures var t := free[0];
            var mem1 := mem[t := Zeroed];
            t != pgdir && pgdir in mem1 && t < NFRAMES &&
            var mem' := mem1[pgdir := mem1[pgdir][d := Entry(t)]];
            && Wf(mem', pgdir, free[1..], use[t := TableOf(d)])
            && OthersKept(mem, mem', pgdir, 0, 0) && Table(mem', pgdir, d) == Some(t)
            && SameFrames(free, use, free[1..], use[t := TableOf(d)])
            && FewerFree(free, free[1..], use, use[t := TableOf(d)])
  {
    var t := free[0];
    Allocated(mem, pgdir, free, use);
    var mem1 := mem[t := Zeroed];
    var mem', use' := mem1[pgdir := mem1[pgdir][d := Entry(t)]], use[t := TableOf(d)];
    forall v | 0 <= v < NENTRIES * NENTRIES
      ensures Walk(mem', pgdir, v) == Walk(mem, pgdir, v) && UserWalk(mem', pgdir, v) == UserWalk(mem, pgdir, v)
    {
      NewTable(mem1, pgdir, free[1..], use, d, t, v);
    }
    forall v: nat | UserPage(v) && Walk(mem', pgdir, v).Some?
      ensures PageUsed(mem', pgdir, use', v) && PageUsed(mem, pgdir, use, v)
    {
      assert PageUsed(mem, pgdir, use, v);
    }
    forall v: nat | UserPage(v)
      ensures SamePage(mem, mem', pgdir, v)
    {
      assert Walk(mem, pgdir, v).Some? ==> PageUsed(mem, pgdir, use, v);
    }
    forall e | 0 <= e < NENTRIES && Table(mem', pgdir, e).Some?
      ensures TableUsed(mem', pgdir, use', e)
    {
      assert e != d ==> TableUsed(mem, pgdir, use, e);
    }
    forall f | f in use'
      ensures UsedAs(mem', pgdir, use', f)
    {
      assert f != t ==> UsedAs(mem, pgdir, use, f);
    }
    assert free == [t] + free[1..];
  }

  /** Frame f becomes page v. */
  lemma PageAdded(mem: Memory, pgdir: nat, free: seq<nat>, use: map<nat, Use>, v: nat, f: nat)
    requires Wf(mem, pgdir, free, use) && UserPage(v) && Walk(mem, pgdir, v) == None && Table(mem, pgdir, Pdx(v)).Some?
    requires 0 < f < NFRAMES && f in mem && f !in use && f !in free
    ensures var t := Table(mem, pgdir, Pdx(v)).value;
            t in mem && t != pgdir && t != f &&
            var mem' := mem[t := mem[t][Ptx(v) := Entry(f)]];
            && Wf(mem', pgdir, free, use[f := PageOf(v)])
            && OthersKept(mem, mem', pgdir, v, v + 1) && Walk(mem', pgdir, v) == Some(f)
            && UserWalk(mem', pgdir, v) == Some(f)
  {
    assert TableUsed(mem, pgdir, use, Pdx(v));
    var t := Table(mem, pgdir, Pdx(v)).value;
    var mem', use' := mem[t := mem[t][Ptx(v) := Entry(f)]], use[f := PageOf(v)];
    forall u | 0 <= u < NENTRIES * NENTRIES
      ensures Walk(mem', pgdir, u) == if u == v then Some(f) else Walk(mem, pgdir, u)
      ensures UserWalk(mem', pgdir, u) == if u == v then Some(f) else UserWalk(mem, pgdir, u)
    {
      NewWord(mem, pgdir, free, use, v, Entry(f), u);
    }
    forall u: nat | UserPage(u) && Walk(mem', pgdir, u).Some?
      ensures PageUsed(mem', pgdir, use', u)
    {
      assert u != v ==> PageUsed(mem, pgdir, use, u);
    }
    forall u: nat | UserPage(u) && !(v <= u < v + 1)
      ensures SamePage(mem, mem', pgdir, u)
    {
      assert Walk(mem, pgdir, u).Some? ==> PageUsed(mem, pgdir, use, u);
    }
    forall e | 0 <= e < NENTRIES && Table(mem', pgdir, e).Some?
      ensures TableUsed(mem', pgdir, use', e)
    {
      assert TableUsed(mem, pgdir, use, e);
    }
    forall g | g in use'
      ensures UsedAs(mem', pgdir, use', g)
    {
      assert g != f ==> UsedAs(mem, pgdir, use, g);
    }
  }

  /** Page v's frame becomes junk on the free list, and its entry zero. */
  lemma PageRemoved(mem: Memory, pgdir: nat, free: seq<nat>, use: map<nat, Use>, v: nat)
    requires Wf(mem, pgdir, free, use) && UserPage(v) && Walk(mem, pgdir, v).Some?
    ensures var f := Walk(mem, pgdir, v).value;
            var t := Table(mem, pgdir, Pdx(v)).value;
            && t in mem && f in mem && t != f &&
            var m1 := mem[f := Junk];
            var mem' := m1[t := m1[t][Ptx(v) := 0]];
            && Wf(mem', pgdir, [f] + free, use - {f})
            && OthersKept(mem, mem', pgdir, v, v + 1) && Walk(mem', pgdir, v) == None
            && SameFrames(free, use, [f] + free, use - {f})
            && LooseKept(mem, free, use, mem', [f] + free, use - {f})
  {
    assert TableUsed(mem, pgdir, use, Pdx(v)) && PageUsed(mem, pgdir, use, v);
    var f, t := Walk(mem, pgdir, v).value, Table(mem, pgdir, Pdx(v)).value;
    var m1 := mem[f := Junk];
    var mem', free', use' := m1[t := m1[t][Ptx(v) := 0]], [f] + free, use - {f};
    assert mem' == (mem[t := mem[t][Ptx(v) := 0]])[f := Junk];
    var m2 := mem[t := mem[t][Ptx(v) := 0]];
    forall u | 0 <= u < NENTRIES * NENTRIES
      ensures Walk(m2, pgdir, u) == if u == v then None else Walk(mem, pgdir, u)
      ensures Walk(mem', pgdir, u) == Walk(m2, pgdir, u)
      ensures UserWalk(m2, pgdir, u) == if u == v then None else UserWalk(mem, pgdir, u)
      ensures UserWalk(mem', pgdir, u) == UserWalk(m2, pgdir, u)
    {
      NewWord(mem, pgdir, free, use, v, 0, u);
      assert Table(mem, pgdir, Pdx(u)).Some? ==> TableUsed(mem, pgdir, use, Pdx(u));
      WalksAlike(m2, mem', pgdir, u);
    }
    forall u: nat | UserPage(u) && Walk(mem', pgdir, u).Some?
      ensures PageUsed(mem', pgdir, use', u)
    {
      assert PageUsed(mem, pgdir, use, u);
    }
    forall u: nat | UserPage(u) && !(v <= u < v + 1)
      ensures SamePage(mem, mem', pgdir, u)
    {
      assert Walk(mem, pgdir, u).Some? ==> PageUsed(mem, pgdir, use, u);
    }
    forall e | 0 <= e < NENTRIES && Table(mem', pgdir, e).Some?
      ensures TableUsed(mem', pgdir, use', e)
    {
      assert TableUsed(mem, pgdir, use, e);
    }
    forall g | g in use'
      ensures UsedAs(mem', pgdir, use', g)
    {
      assert UsedAs(mem, pgdir, use, g);
    }
  }

  // ---------------------------------------------------------------- growing

  /** 1 if page v has no table. */
  function Lacks(mem: Memory, pgdir: nat, v: nat): (n: nat)
    requires pgdir in mem && UserPage(v)
    ensures n <= 1
  {
    if Table(mem, pgdir, Pdx(v)) == None then 1 else 0
  }

  predicate OtherTables(mem: Memory, mem': Memory, pgdir: nat, d: nat)
    requires pgdir in mem && pgdir in mem'
  {
    forall e | 0 <= e < NENTRIES && e != d :: Table(mem', pgdir, e) == Table(mem, pgdir, e)
  }

  /** The directory entries without a table that the pages from p to hi would use. */
  function Absent(mem: Memory, pgdir: nat, p: nat, hi: nat): set<nat>
    requires pgdir in mem
  {
    set d: nat | d < NENTRIES && p < hi && Pdx(p) <= d <= Pdx(hi - 1) && Table(mem, pgdir, d) == None
  }

  /** The frames that mapping the pages from p to hi takes: one for each, and one for each table
      they lack. */
  function Need(mem: Memory, pgdir: nat, p: nat, hi: nat): nat
    requires pgdir in mem && p <= hi
  {
    hi - p + |Absent(mem, pgdir, p, hi)|
  }

  /** The pages from p to hi lack exactly the tables in left. */
  ghost predicate Lacking(mem: Memory, pgdir: nat, p: nat, hi: nat, left: set<nat>)
    requires pgdir in mem
  {
    forall d: nat | d < NENTRIES || d in left ::
      d in left <==> d < NENTRIES && p < hi && Pdx(p) <= d <= Pdx(hi - 1) && Table(mem, pgdir, d) == None
  }

  /** Once page p is mapped, its table is no longer lacking. */
  lemma LackingNext(mem: Memory, mem': Memory, pgdir: nat, p: nat, hi: nat, left: set<nat>)
    requires pgdir in mem && pgdir in mem' && p < hi <= KERNBASE / PGSIZE && UserPage(p)
    requires OtherTables(mem, mem', pgdir, Pdx(p)) && Table(mem', pgdir, Pdx(p)).Some?
    requires Lacking(mem, pgdir, p, hi, left)
    ensures Lacking(mem', pgdir, p + 1, hi, left - {Pdx(p)})
    ensures |left| == Lacks(mem, pgdir, p) + |left - {Pdx(p)}|
  {
    assert Pdx(p) <= Pdx(p + 1) <= Pdx(p) + 1 && Pdx(p) <= Pdx(hi - 1);
    assert p + 1 < hi ==> Pdx(p + 1) <= Pdx(hi - 1);
    assert Pdx(p) in left <==> Table(mem, pgdir, Pdx(p)) == None;
  }

  lemma LackingFirst(mem: Memory, pgdir: nat, p: nat, hi: nat, left: set<nat>)
    requires pgdir in mem && p < hi <= KERNBASE / PGSIZE && UserPage(p) && Lacking(mem, pgdir, p, hi, left)
    ensures |left| >= Lacks(mem, pgdir, p)
  {
    if Table(mem, pgdir, Pdx(p)) == None {
      assert Pdx(p) in left;
    }
  }

  function Held(held: Option<nat>): seq<nat> {
    if held.Some? then [held.value] else []
  }

  /** Page v is mapped, for user code to read and write, to a frame of free that is zero. */
  predicate Zero(mem: Memory, pgdir: nat, v: nat, free: seq<nat>)
    requires pgdir in mem && v < NENTRIES * NENTRIES
  {
    Walk(mem, pgdir, v).Some? && UserWalk(mem, pgdir, v) == Walk(mem, pgdir, v)
    && IsZeroed(mem, Walk(mem, pgdir, v).value, free)
  }

  predicate IsZeroed(mem: Memory, f: nat, free: seq<nat>) {
    f in free && f in mem && forall i | 0 <= i < NENTRIES :: mem[f][i] == 0
  }

  /** The pages from lo to hi are mapped to zeroed frames that were free, and no other page changed. */
  ghost predicate Grown(m0: Memory, f0: seq<nat>, mem: Memory, pgdir: nat, lo: nat, hi: nat)
    requires pgdir in m0 && pgdir in mem
  {
    && (forall v: nat | lo <= v < hi && UserPage(v) :: Zero(mem, pgdir, v, f0))
    && OthersKept(m0, mem, pgdir, lo, hi)
  }

  /** Frames left the free list only for tables, for the pages from lo to hi, or to be held. */
  ghost predicate HeldCharged(f0: seq<nat>, free: seq<nat>, u0: map<nat, Use>, use: map<nat, Use>, lo: nat, hi: nat,
                              held: Option<nat>) {
    && (forall f | f in free :: f in f0)
    && (forall f | f in f0 && f !in free :: held == Some(f) || (f in use && ChargedTo(use[f], lo, hi)))
    && (forall f | f in u0 :: f in use && use[f] == u0[f])
  }

  lemma LooseChanged(mem: Memory, pgdir: nat, free: seq<nat>, use: map<nat, Use>, f: nat, data: Frame)
    requires Wf(mem, pgdir, free, use) && f in mem && f !in use
    ensures OthersKept(mem, mem[f := data], pgdir, 0, 0)
  {
    FrameChanged(mem, pgdir, free, use, f, data);
    forall v: nat | UserPage(v)
      ensures SamePage(mem, mem[f := data], pgdir, v)
    {
      assert Walk(mem, pgdir, v).Some? ==> PageUsed(mem, pgdir, use, v);
    }
  }

  lemma OthersNone(mem: Memory, pgdir: nat, lo: nat)
    requires pgdir in mem && OthersKept(mem, mem, pgdir, 0, 0)
    ensures OthersKept(mem, mem, pgdir, lo, lo)
  {
    forall v: nat | UserPage(v) && !(lo <= v < lo)
      ensures SamePage(mem, mem, pgdir, v)
    {
    }
  }

  /** allocuvm's progress up to page p: the frames left exceed those still needed by slack. */
  ghost predicate Alloced(m0: Memory, f0: seq<nat>, u0: map<nat, Use>, mem: Memory, free: seq<nat>, use: map<nat, Use>,
                          pgdir: nat, lo: nat, p: nat, hi: nat, left: set<nat>, slack: int)
    requires pgdir in m0 && pgdir in mem
  {
    && Grown(m0, f0, mem, pgdir, lo, p) && Charged(f0, free, u0, use, lo, p) && SameFrames(f0, u0, free, use)
    && Lacking(mem, pgdir, p, hi, left) && |free| - (hi - p) - |left| == slack
  }

  /** No page is mapped differently, and the only frames missing from the free list are those that
      became page tables. */
  ghost predicate Undone(m0: Memory, f0: seq<nat>, u0: map<nat, Use>, mem: Memory, free: seq<nat>, use: map<nat, Use>,
                         pgdir: nat)
    requires pgdir in m0 && pgdir in mem
  {
    SameFrames(f0, u0, free, use) && OthersKept(m0, mem, pgdir, 0, 0) && FewerFree(f0, free, u0, use)
  }

  lemma AllocedNone(m0: Memory, f0: seq<nat>, u0: map<nat, Use>, pgdir: nat, lo: nat, hi: nat)
    requires Wf(m0, pgdir, f0, u0) && lo <= hi
    ensures Alloced(m0, f0, u0, m0, f0, u0, pgdir, lo, lo, hi, Absent(m0, pgdir, lo, hi),
                    |f0| - Need(m0, pgdir, lo, hi))
  {
    EverythingKept(m0, pgdir, f0, u0);
    OthersNone(m0, pgdir, lo);
  }

  lemma HeldTwice(f0: seq<nat>, u0: map<nat, Use>, f1: seq<nat>, u1: map<nat, Use>, free: seq<nat>, use: map<nat, Use>,
                  held: Option<nat>)
    requires SameFrames(f0, u0, f1, u1) && SameFrames(f1, u1, Held(held) + free, use)
    ensures SameFrames(f0, u0, Held(held) + free, use)
  {
  }

  lemma GrownMore(m0: Memory, f0: seq<nat>, m1: Memory, f1: seq<nat>, mem: Memory, pgdir: nat, lo: nat, p: nat,
                  hi: nat, ok: bool)
    requires pgdir in m0 && pgdir in m1 && pgdir in mem && lo <= p < hi && UserPage(p)
    requires Grown(m0, f0, m1, pgdir, lo, p) && OthersKept(m1, mem, pgdir, p, p + 1) && (forall f | f in f1 :: f in f0)
    requires ok ==> Zero(mem, pgdir, p, f1)
    ensures ok ==> Grown(m0, f0, mem, pgdir, lo, p + 1)
    ensures OthersKept(m0, mem, pgdir, lo, hi)
  {
    forall v: nat | UserPage(v) && !(lo <= v < p + 1)
      ensures SamePage(m0, mem, pgdir, v)
    {
      assert SamePage(m0, m1, pgdir, v) && SamePage(m1, mem, pgdir, v);
    }
    if ok {
      forall v: nat | lo <= v < p + 1 && UserPage(v)
        ensures Zero(mem, pgdir, v, f0)
      {
        assert v < p ==> Zero(m1, pgdir, v, f0) && SamePage(m1, mem, pgdir, v);
      }
    }
  }

  lemma ChargedMore(f0: seq<nat>, u0: map<nat, Use>, f1: seq<nat>, u1: map<nat, Use>, free: seq<nat>,
                    use: map<nat, Use>,
                    lo: nat, p: nat, hi: nat, held: Option<nat>)
    requires lo <= p < hi && Charged(f0, f1, u0, u1, lo, p) && FewerOrPage(f1, free, u1, use, p, held)
    ensures HeldCharged(f0, free, u0, use, lo, p + 1, held) && HeldCharged(f0, free, u0, use, lo, hi, held)
  {
    forall f | f in f0 && f !in free
      ensures held == Some(f) || (f in use && ChargedTo(use[f], lo, p + 1))
    {
      assert f !in f1 ==> f in u1 && ChargedTo(u1[f], lo, p);
    }
  }

  lemma UndoneMap(m0: Memory, m1: Memory, m2: Memory, mem: Memory, pgdir: nat, lo: nat, hi: nat)
    requires pgdir in m0 && pgdir in m1 && pgdir in m2 && pgdir in mem
    requires Unmapped(m0, pgdir, lo, hi) && Unmapped(m2, pgdir, lo, hi)
    requires OthersKept(m0, m1, pgdir, lo, hi) && (OthersKept(m1, m2, pgdir, lo, hi) || OthersKept(m1, m2, pgdir, 0, 0))
    requires OthersKept(m2, mem, pgdir, 0, 0)
    ensures OthersKept(m0, mem, pgdir, 0, 0)
  {
    forall v: nat | UserPage(v)
      ensures SamePage(m0, mem, pgdir, v)
    {
      assert SamePage(m2, mem, pgdir, v);
      if lo <= v < hi {
        assert Walk(m0, pgdir, v) == None && Walk(m2, pgdir, v) == None;
      } else {
        SameTwice(m0, m1, m2, pgdir, v);
        SameTwice(m0, m2, mem, pgdir, v);
      }
    }
  }

  lemma SameTwice(m0: Memory, m1: Memory, m2: Memory, pgdir: nat, v: nat)
    requires pgdir in m0 && pgdir in m1 && pgdir in m2 && UserPage(v)
    requires SamePage(m0, m1, pgdir, v) && SamePage(m1, m2, pgdir, v)
    ensures SamePage(m0, m2, pgdir, v)
  {
  }

  /** Every frame that left the free list for a page from lo to hi is back on it. */
  lemma UndoneFrames(m0: Memory, f0: seq<nat>, u0: map<nat, Use>, m1: Memory, f1: seq<nat>, u1: map<nat, Use>,
                     m2: Memory, f2: seq<nat>, u2: map<nat, Use>, pgdir: nat, lo: nat, hi: nat, held: Option<nat>)
    requires Wf(m0, pgdir, f0, u0) && Wf(m1, pgdir, f1, u1) && Wf(m2, pgdir, f2, u2) && Unmapped(m0, pgdir, lo, hi)
    requires HeldCharged(f0, f1, u0, u1, lo, hi, held) && Unmapped(m2, pgdir, lo, hi)
    requires SameFrames(f0, u0, Held(held) + f1, u1) && SameFrames(f1, u1, f2, u2)
             && f2 == Frames(m1, pgdir, lo, hi) + f1
    requires (forall f | f in u2 :: f in u1 && u2[f] == u1[f]) && (held.Some? ==> held.value in f0)
    ensures FewerFree(f0, Held(held) + f2, u0, u2) && SameFrames(f0, u0, Held(held) + f2, u2)
  {
    forall f | f in Frames(m1, pgdir, lo, hi)
      ensures f in f0 && f !in u0
    {
      FramesOnly(m1, pgdir, lo, hi, f);
      var v: nat :| MappedIn(m1, pgdir, lo, hi, v, f);
      assert PageUsed(m1, pgdir, u1, v);
      assert f in u0 ==> UsedAs(m0, pgdir, u0, f);
    }
    forall f | f in f0 && f !in Held(held) + f2
      ensures f in u2 && u2[f].TableOf?
    {
      assert f in u1 && ChargedTo(u1[f], lo, hi);
      assert f in u2 && UsedAs(m2, pgdir, u2, f);
    }
    forall f | f in u0
      ensures f in u2 && u2[f] == u0[f]
    {
    }
  }

  ghost predicate Charged(f0: seq<nat>, free: seq<nat>, u0: map<nat, Use>, use: map<nat, Use>, lo: nat, hi: nat) {
    HeldCharged(f0, free, u0, use, lo, hi, None)
  }

  predicate ChargedTo(u: Use, lo: nat, hi: nat) {
    u.TableOf? || (u.PageOf? && lo <= u.v < hi)
  }

  ghost predicate FewerOrPage(free: seq<nat>, free': seq<nat>, use: map<nat, Use>, use': map<nat, Use>, v: nat,
                              held: Option<nat>) {
    HeldCharged(free, free', use, use', v, v + 1, held)
  }

  lemma FrameChanged(mem: Memory, pgdir: nat, free: seq<nat>, use: map<nat, Use>, f: nat, data: Frame)
    requires Wf(mem, pgdir, free, use) && f in mem && f !in use
    ensures Wf(mem[f := data], pgdir, free, use)
    ensures forall v | 0 <= v < NENTRIES * NENTRIES ::
              && Walk(mem[f := data], pgdir, v) == Walk(mem, pgdir, v)
              && UserWalk(mem[f := data], pgdir, v) == UserWalk(mem, pgdir, v)
    ensures f !in free && 0 < f < NFRAMES ==> Wf(mem[f := data], pgdir, [f] + free, use)
  {
    var after := mem[f := data];
    forall v | 0 <= v < NENTRIES * NENTRIES
      ensures Walk(after, pgdir, v) == Walk(mem, pgdir, v) && UserWalk(after, pgdir, v) == UserWalk(mem, pgdir, v)
    {
      OtherFrame(mem, pgdir, free, use, f, data, v);
    }
    forall d | 0 <= d < NENTRIES && Table(after, pgdir, d).Some?
      ensures TableUsed(after, pgdir, use, d)
    {
      assert TableUsed(mem, pgdir, use, d);
    }
    forall v | UserPage(v) && Walk(after, pgdir, v).Some?
      ensures PageUsed(after, pgdir, use, v)
    {
      assert PageUsed(mem, pgdir, use, v);
    }
    forall g | g in use
      ensures UsedAs(after, pgdir, use, g)
    {
      assert UsedAs(mem, pgdir, use, g);
    }
  }

  lemma Allocated(mem: Memory, pgdir: nat, free: seq<nat>, use: map<nat, Use>)
    requires Wf(mem, pgdir, free, use) && free != []
    ensures free[0] in mem && free[0] !in use && free[0] !in free[1..] && 0 < free[0] < NFRAMES
    ensures Wf(mem[free[0] := Zeroed], pgdir, free[1..], use)
    ensures forall v | 0 <= v < NENTRIES * NENTRIES ::
              && Walk(mem[free[0] := Zeroed], pgdir, v) == Walk(mem, pgdir, v)
              && UserWalk(mem[free[0] := Zeroed], pgdir, v) == UserWalk(mem, pgdir, v)
  {
    var rest := free[1..];
    FrameChanged(mem, pgdir, free, use, free[0], Zeroed);
    assert forall i | 0 <= i < |rest| :: rest[i] == free[i + 1];
    forall f | f in rest
      ensures f in free && f != free[0]
    {
    }
  }
}
