/** Process creation and the exit/wait protocol (proc.c): the sections that run under ptable.lock,
    and every interleaving of them. */
module ExitWait {
  import opened Common

  const NPROC: nat := 64
  const INIT: nat := 0                  // initproc's slot

  datatype ProcState = Unused | Embryo | Sleeping | Runnable | Running | Zombie

  /** What a process sleeps on: the process whose wait it is in, or anything else. */
  datatype Chan = NoChan | Waiting(proc: nat) | Other(addr: nat)

  /** Where in these system calls a process is. */
  datatype Pc = Elsewhere | InFork(child: nat) | InWait

  datatype Proc = Proc(state: ProcState, pid: nat, parent: Option<nat>, chan: Chan, killed: bool, pc: Pc)

  const Free := Proc(Unused, 0, None, NoChan, false, Elsewhere)

  predicate Alive(p: Proc) {
    p.state == Sleeping || p.state == Runnable || p.state == Running
  }

  predicate IsChild(p: Proc, i: nat) {
    p.parent == Some(i)
  }

  predicate ZombieChild(p: Proc, i: nat) {
    IsChild(p, i) && p.state == Zombie
  }

  // ---------------------------------------------------------------- the sections

  function Wake(p: Proc, c: Chan): Proc {
    if p.state == Sleeping && p.chan == c then p.(state := Runnable) else p
  }

  /** wakeup1. */
  function Woken(procs: seq<Proc>, c: Chan): (r: seq<Proc>)
    ensures |r| == |procs| && forall j | 0 <= j < |procs| :: r[j] == Wake(procs[j], c)
  {
    seq(|procs|, j requires 0 <= j < |procs| => Wake(procs[j], c))
  }

  function Adopted(p: Proc, i: nat): Proc {
    if IsChild(p, i) then p.(parent := Some(INIT)) else p
  }

  predicate HasZombie(procs: seq<Proc>, i: nat) {
    exists j | 0 <= j < |procs| :: ZombieChild(procs[j], i)
  }

  /** What exit makes of process j when process i exits: i itself a zombie, its children given to
      init, and the parent woken, and init if it inherits a zombie. */
  function AfterExit(procs: seq<Proc>, i: nat, j: nat): Proc
    requires i < |procs| && j < |procs| && procs[i].parent.Some?
  {
    var p := Adopted(Wake(procs[j], Waiting(procs[i].parent.value)), i);
    var q := if HasZombie(procs, i) then Wake(p, Waiting(INIT)) else p;
    if j == i then q.(state := Zombie) else q
  }

  function Exited(procs: seq<Proc>, i: nat): (r: seq<Proc>)
    requires i < |procs| && procs[i].parent.Some?
    ensures |r| == |procs| && forall j | 0 <= j < |procs| :: r[j] == AfterExit(procs, i, j)
  {
    seq(|procs|, j requires 0 <= j < |procs| => AfterExit(procs, i, j))
  }

  /** The first of the processes from k on with the given state and, if any, parent. */
  function FirstZombie(procs: seq<Proc>, i: nat, k: nat): (r: nat)
    requires k <= |procs|
    ensures k <= r <= |procs| && (r < |procs| ==> ZombieChild(procs[r], i))
    ensures forall j | k <= j < r :: !ZombieChild(procs[j], i)
    decreases |procs| - k
  {
    if k == |procs| || ZombieChild(procs[k], i) then k else FirstZombie(procs, i, k + 1)
  }

  predicate HasKids(procs: seq<Proc>, i: nat) {
    exists j | 0 <= j < |procs| :: IsChild(procs[j], i)
  }

  /** One turn of wait's endless loop by process i: it reaps a zombie child, gives up, or sleeps. */
  function Waited(procs: seq<Proc>, i: nat): (r: seq<Proc>)
    requires i < |procs|
    ensures |r| == |procs|
  {
    var z := FirstZombie(procs, i, 0);
    if z < |procs| then
      var after := procs[z := Reaped(procs[z])];
      after[i := after[i].(pc := Elsewhere)]
    else if !HasKids(procs, i) || procs[i].killed then procs[i := procs[i].(pc := Elsewhere)]
    else procs[i := procs[i].(state := Sleeping, chan := Waiting(i), pc := InWait)]
  }

  function Reaped(p: Proc): Proc {
    p.(pid := 0, parent := None, killed := false, state := Unused)
  }

  /** What wait returns, when it does: None for -1. */
  function WaitResult(procs: seq<Proc>, i: nat): Option<nat> {
    var z := FirstZombie(procs, i, 0);
    if z < |procs| then Some(procs[z].pid) else None
  }

  function FirstUnused(procs: seq<Proc>, k: nat): (r: nat)
    requires k <= |procs|
    ensures k <= r <= |procs| && (r < |procs| ==> procs[r].state == Unused)
    ensures forall j | k <= j < r :: procs[j].state != Unused
    decreases |procs| - k
  {
    if k == |procs| || procs[k].state == Unused then k else FirstUnused(procs, k + 1)
  }

  function FirstPid(procs: seq<Proc>, pid: nat, k: nat): (r: nat)
    requires k <= |procs|
    ensures k <= r <= |procs| && (r < |procs| ==> procs[r].pid == pid)
    ensures forall j | k <= j < r :: procs[j].pid != pid
    decreases |procs| - k
  {
    if k == |procs| || procs[k].pid == pid then k else FirstPid(procs, pid, k + 1)
  }

  function KilledProc(p: Proc): Proc {
    p.(killed := true, state := if p.state == Sleeping then Runnable else p.state)
  }

  // ---------------------------------------------------------------- the program

  class Table {
    const procs: array<Proc>
    var nextpid: nat

    constructor (table: array<Proc>, pid: nat)
      ensures procs == table && nextpid == pid
    {
      procs, nextpid := table, pid;
    }

    method Wakeup1(c: Chan)
      modifies procs
      ensures procs[..] == Woken(old(procs[..]), c)
      ensures forall j | 0 <= j < procs.Length ::
                procs[j] == if old(procs[j]).state == Sleeping && old(procs[j]).chan == c
                            then old(procs[j]).(state := Runnable) else old(procs[j])
    {
      for j := 0 to procs.Length
        invariant forall k | 0 <= k < procs.Length ::
                    procs[k] == if k < j then Wake(old(procs[k]), c) else old(procs[k])
      {
        if procs[j].state == Sleeping && procs[j].chan == c {
          procs[j] := procs[j].(state := Runnable);
        }
      }
    }

    /** allocproc's section: an unused slot becomes an embryo. */
    method AllocProc() returns (slot: nat)
      modifies this`nextpid, procs
      ensures slot == FirstUnused(old(procs[..]), 0)
      ensures slot <= procs.Length && forall j | 0 <= j < slot :: old(procs[j]).state != Unused
      ensures slot < procs.Length ==> old(procs[slot]).state == Unused
      ensures slot == procs.Length ==> procs[..] == old(procs[..]) && nextpid == old(nextpid)
      ensures slot < procs.Length ==>
                && nextpid == old(nextpid) + 1
                && procs[..] == old(procs[..])[slot := old(procs[slot]).(state := Embryo, pid := old(nextpid))]
    {
      slot := 0;
      while slot < procs.Length && procs[slot].state != Unused
        invariant 0 <= slot <= procs.Length && FirstUnused(procs[..], 0) == FirstUnused(procs[..], slot)
      {
        slot := slot + 1;
      }
      if slot < procs.Length {
        procs[slot] := procs[slot].(state := Embryo);
        procs[slot] := procs[slot].(pid := nextpid);
        nextpid := nextpid + 1;
      }
    }

    /** The section at the end of exit, up to sched. */
    method ExitSection(i: nat)
      requires i < procs.Length && procs[i].parent.Some? && procs[i].state == Running
      modifies procs
      ensures procs[..] == Exited(old(procs[..]), i)
      ensures procs[i].state == Zombie
      ensures forall j | 0 <= j < procs.Length ::
                && procs[j].parent == (if old(procs[j]).parent == Some(i) then Some(INIT) else old(procs[j]).parent)
                && procs[j] == old(procs[j]).(state := procs[j].state, parent := procs[j].parent)
      ensures forall j | 0 <= j < procs.Length && j != i ::
                procs[j].state ==
                  if old(procs[j]).state == Sleeping
                     && (old(procs[j]).chan == Waiting(old(procs[i]).parent.value)
                         || (old(procs[j]).chan == Waiting(INIT)
                             && exists k | 0 <= k < procs.Length ::
                                  old(procs[k]).parent == Some(i) && old(procs[k]).state == Zombie))
                  then Runnable else old(procs[j]).state
    {
      ghost var before := procs[..];
      Wakeup1(Waiting(procs[i].parent.value));
      ghost var a, found := procs[..], false;
      for j := 0 to procs.Length
        invariant found <==> exists k | 0 <= k < j :: ZombieChild(a[k], i)
        invariant forall k | 0 <= k < procs.Length :: procs[k] == AdoptedUpTo(a, i, found, j, k)
      {
        if procs[j].parent == Some(i) {
          procs[j] := procs[j].(parent := Some(INIT));
          if procs[j].state == Zombie {
            assert ZombieChild(a[j], i);
            Wakeup1(Waiting(INIT));
            found := true;
          }
        }
      }
      SameZombies(before, a, i, Waiting(before[i].parent.value));
      procs[i] := procs[i].(state := Zombie);
      assert forall k | 0 <= k < procs.Length :: procs[..][k] == AfterExit(before, i, k);
      assert procs[..] == Exited(before, i);
      ExitedStates(before, i);
    }

    /** wait's scan for a zombie child. */
    method ScanChildren(i: nat) returns (j: nat, havekids: bool)
      requires i < procs.Length
      ensures j == FirstZombie(procs[..], i, 0) && (j == procs.Length ==> (havekids <==> HasKids(procs[..], i)))
    {
      ghost var before := procs[..];
      havekids, j := false, 0;
      while j < procs.Length && !(procs[j].parent == Some(i) && procs[j].state == Zombie)
        invariant 0 <= j <= procs.Length && FirstZombie(before, i, 0) == FirstZombie(before, i, j)
        invariant havekids <==> exists k | 0 <= k < j :: IsChild(before[k], i)
      {
        if procs[j].parent == Some(i) {
          assert IsChild(before[j], i);
          havekids := true;
        }
        j := j + 1;
      }
    }

    /** One turn of wait's loop by the running process i; r is -1 as None, and done when wait returns. It
        returns a pid if and only if there is a zombie child, and that child's; -1 if and only if there is none
        and, besides, no child at all or i is killed; otherwise i goes to sleep on itself. */
    method WaitTurn(i: nat) returns (done: bool, r: Option<nat>)
      requires i < procs.Length && procs[i].state == Running
      modifies procs
      ensures procs[..] == Waited(old(procs[..]), i) && r == WaitResult(old(procs[..]), i)
      ensures done <==> procs[i].pc == Elsewhere
      ensures r.Some? <==> exists j | 0 <= j < procs.Length ::
                old(procs[j]).parent == Some(i) && old(procs[j]).state == Zombie
      ensures r.Some? ==> done && exists z | 0 <= z < procs.Length ::
                && old(procs[z]).parent == Some(i) && old(procs[z]).state == Zombie && r == Some(old(procs[z]).pid)
                && (forall j | 0 <= j < z :: !(old(procs[j]).parent == Some(i) && old(procs[j]).state == Zombie))
                && procs[z].state == Unused && procs[z].pid == 0 && procs[z].parent == None && !procs[z].killed
                && z != i && procs[i] == old(procs[i]).(pc := Elsewhere)
                && forall j | 0 <= j < procs.Length && j != z && j != i :: procs[j] == old(procs[j])
      ensures done && r == None <==>
                && !(exists j | 0 <= j < procs.Length ::
                       old(procs[j]).parent == Some(i) && old(procs[j]).state == Zombie)
                && (old(procs[i]).killed || !(exists j | 0 <= j < procs.Length :: old(procs[j]).parent == Some(i)))
      ensures !done <==>
                && (exists j | 0 <= j < procs.Length :: old(procs[j]).parent == Some(i))
                && !(exists j | 0 <= j < procs.Length ::
                       old(procs[j]).parent == Some(i) && old(procs[j]).state == Zombie)
                && !old(procs[i]).killed
      ensures !done ==> procs[i] == old(procs[i]).(state := Sleeping, chan := Waiting(i), pc := InWait)
      ensures r == None ==> forall j | 0 <= j < procs.Length && j != i :: procs[j] == old(procs[j])
    {
      ghost var before := procs[..];
      ZombieThere(before, i);
      KidThere(before, i);
      var j, havekids := ScanChildren(i);
      if j < procs.Length {
        r := Some(procs[j].pid);
        procs[j] := procs[j].(pid := 0);
        procs[j] := procs[j].(parent := None, killed := false);
        procs[j] := procs[j].(state := Unused);
        procs[i] := procs[i].(pc := Elsewhere);
        return true, r;
      }
      if !havekids || procs[i].killed {
        procs[i] := procs[i].(pc := Elsewhere);
        return true, None;
      }
      procs[i] := procs[i].(chan := Waiting(i), pc := InWait);
      procs[i] := procs[i].(state := Sleeping);
      return false, None;
    }

    /** kill. */
    method Kill(pid: nat) returns (ok: bool)
      modifies procs
      ensures var k := FirstPid(old(procs[..]), pid, 0);
              if k == procs.Length then !ok && procs[..] == old(procs[..])
              else ok && procs[..] == old(procs[..])[k := KilledProc(old(procs[..])[k])]
      ensures ok <==> exists k | 0 <= k < procs.Length :: old(procs[k]).pid == pid
      ensures ok ==> exists k | 0 <= k < procs.Length ::
                && old(procs[k]).pid == pid && (forall j | 0 <= j < k :: old(procs[j]).pid != pid)
                && procs[k].killed && procs[k].state != Sleeping
                && procs[k] == old(procs[k]).(killed := true, state := procs[k].state)
                && (old(procs[k]).state != Sleeping ==> procs[k].state == old(procs[k]).state)
                && (old(procs[k]).state == Sleeping ==> procs[k].state == Runnable)
    {
      var k := 0;
      while k < procs.Length && procs[k].pid != pid
        invariant 0 <= k <= procs.Length && FirstPid(procs[..], pid, 0) == FirstPid(procs[..], pid, k)
      {
        k := k + 1;
      }
      if k == procs.Length {
        return false;
      }
      procs[k] := procs[k].(killed := true);
      if procs[k].state == Sleeping {
        procs[k] := procs[k].(state := Runnable);
      }
      ok := true;
    }
  }

  lemma ZombieThere(procs: seq<Proc>, i: nat)
    ensures HasZombie(procs, i) <==>
              exists k | 0 <= k < |procs| :: procs[k].parent == Some(i) && procs[k].state == Zombie
  {
    assert forall k | 0 <= k < |procs| ::
        ZombieChild(procs[k], i) <==> procs[k].parent == Some(i) && procs[k].state == Zombie;
  }

  /** Whom exit wakes: the sleeping parent, and init if it inherits a zombie; and who is adopted. */
  lemma ExitedStates(procs: seq<Proc>, i: nat)
    requires i < |procs| && procs[i].parent.Some?
    ensures var r := Exited(procs, i);
            && r[i].state == Zombie
            && (forall j | 0 <= j < |procs| ::
                  && r[j].parent == (if procs[j].parent == Some(i) then Some(INIT) else procs[j].parent)
                  && r[j] == procs[j].(state := r[j].state, parent := r[j].parent))
            && forall j | 0 <= j < |procs| && j != i ::
                 r[j].state ==
                   if procs[j].state == Sleeping
                      && (procs[j].chan == Waiting(procs[i].parent.value)
                          || (procs[j].chan == Waiting(INIT)
                              && exists k | 0 <= k < |procs| ::
                                   procs[k].parent == Some(i) && procs[k].state == Zombie))
                   then Runnable else procs[j].state
  {
    ZombieThere(procs, i);
  }

  lemma KidThere(procs: seq<Proc>, i: nat)
    ensures HasKids(procs, i) <==> exists k | 0 <= k < |procs| :: procs[k].parent == Some(i)
  {
    assert forall k | 0 <= k < |procs| :: IsChild(procs[k], i) <==> procs[k].parent == Some(i);
  }

  /** Process k after the first j turns of exit's loop. */
  function AdoptedUpTo(a: seq<Proc>, i: nat, found: bool, j: nat, k: nat): Proc
    requires k < |a|
  {
    var p := if k < j then Adopted(a[k], i) else a[k];
    if found then Wake(p, Waiting(INIT)) else p
  }

  lemma {:induction false} SameZombies(procs: seq<Proc>, a: seq<Proc>, i: nat, c: Chan)
    requires a == Woken(procs, c)
    ensures HasZombie(procs, i) <==> exists k | 0 <= k < |a| :: ZombieChild(a[k], i)
  {
    assert forall k | 0 <= k < |a| :: ZombieChild(a[k], i) <==> ZombieChild(procs[k], i);
  }

  // ---------------------------------------------------------------- every interleaving

  /** The table, with the pids that waits have returned and those of the processes that have exited. */
  datatype System = System(procs: seq<Proc>, nextpid: nat, reaped: seq<nat>, exited: set<nat>)

  /** What process i, or the scheduler, or an interrupt, does next. A fork is four steps: only the
      first and the last hold the lock. */
  datatype Step =
    | Alloc(i: nat)                     // fork: allocproc
    | AllocFail(i: nat)                 // fork: no memory
    | Adopt(i: nat)                     // fork: np->parent = curproc
    | ForkDone(i: nat)                  // fork: np->state = RUNNABLE
    | Exit(i: nat)
    | Wait(i: nat)                      // wait: one turn of its loop
    | Run(i: nat)                       // scheduler, and sleep tidying up
    | Yield(i: nat)
    | SleepOn(i: nat, addr: nat)        // sleep, outside wait
    | Wakeup(addr: nat)
    | KillPid(pid: nat)

  predicate IsRunning(procs: seq<Proc>, i: nat) {
    i < |procs| && procs[i].state == Running
  }

  predicate Forks(procs: seq<Proc>, i: nat, c: nat) {
    i < |procs| && procs[i].pc == InFork(c)
  }

  predicate Enabled(s: System, step: Step) {
    match step
    case Alloc(i) => IsRunning(s.procs, i) && s.procs[i].pc == Elsewhere
    case AllocFail(i) => IsRunning(s.procs, i) && s.procs[i].pc.InFork? && s.procs[i].pc.child < |s.procs|
                         && s.procs[s.procs[i].pc.child].parent == None
    case Adopt(i) => IsRunning(s.procs, i) && s.procs[i].pc.InFork? && s.procs[i].pc.child < |s.procs|
    case ForkDone(i) => IsRunning(s.procs, i) && s.procs[i].pc.InFork? && s.procs[i].pc.child < |s.procs|
                        && s.procs[s.procs[i].pc.child].parent == Some(i)
    case Exit(i) => IsRunning(s.procs, i) && s.procs[i].pc == Elsewhere && i != INIT && s.procs[i].parent.Some?
    case Wait(i) => IsRunning(s.procs, i) && !s.procs[i].pc.InFork?
    case Run(i) => i < |s.procs| && s.procs[i].state == Runnable
    case Yield(i) => IsRunning(s.procs, i)
    case SleepOn(i, addr) => IsRunning(s.procs, i) && s.procs[i].pc != InWait
    case Wakeup(addr) => true
    case KillPid(pid) => true
  }

  function Set(procs: seq<Proc>, i: nat, p: Proc): seq<Proc>
    requires i < |procs|
  {
    procs[i := p]
  }

  function Apply(s: System, step: Step): System
    requires Enabled(s, step)
  {
    var ps := s.procs;
    match step
    case Alloc(i) =>
      var c := FirstUnused(ps, 0);
      if c == |ps| then s
      else s.(procs := Set(Set(ps, c, ps[c].(state := Embryo, pid := s.nextpid)), i, ps[i].(pc := InFork(c))),
              nextpid := s.nextpid + 1)
    case AllocFail(i) =>
      var c := ps[i].pc.child;
      s.(procs := Set(Set(ps, c, ps[c].(state := Unused)), i, ps[i].(pc := Elsewhere)))
    case Adopt(i) =>
      s.(procs := Set(ps, ps[i].pc.child, ps[ps[i].pc.child].(parent := Some(i))))
    case ForkDone(i) =>
      var c := ps[i].pc.child;
      s.(procs := Set(Set(ps, c, ps[c].(state := Runnable)), i, ps[i].(pc := Elsewhere)))
    case Exit(i) =>
      s.(procs := Exited(ps, i), exited := s.exited + {ps[i].pid})
    case Wait(i) =>
      s.(procs := Waited(ps, i),
         reaped := if WaitResult(ps, i).Some? then s.reaped + [WaitResult(ps, i).value] else s.reaped)
    case Run(i) => s.(procs := Set(ps, i, ps[i].(state := Running, chan := NoChan)))
    case Yield(i) => s.(procs := Set(ps, i, ps[i].(state := Runnable)))
    case SleepOn(i, addr) => s.(procs := Set(ps, i, ps[i].(state := Sleeping, chan := Other(addr))))
    case Wakeup(addr) => s.(procs := Woken(ps, Other(addr)))
    case KillPid(pid) =>
      var k := FirstPid(ps, pid, 0);
      if k == |ps| then s else s.(procs := Set(ps, k, KilledProc(ps[k])))
  }

  // ---------------------------------------------------------------- the invariant

  /** Process j's parent is another process, past EMBRYO and neither unused nor a zombie. */
  predicate ParentLives(procs: seq<Proc>, j: nat) {
    j < |procs| && procs[j].parent.Some? && procs[j].parent.value < |procs| && procs[j].parent.value != j
    && Alive(procs[procs[j].parent.value])
  }

  /** A process asleep in wait sleeps on itself, is not killed and has a child, but no zombie child. Whoever
      sleeps sleeps on something, and of the others only those just woken still name it. */
  predicate SleepsWell(procs: seq<Proc>, j: nat)
    requires j < |procs|
  {
    && (procs[j].state == Sleeping && procs[j].chan.Waiting? ==>
      && procs[j].chan.proc == j && procs[j].pc == InWait && !HasZombie(procs, j) && HasKids(procs, j)
      && !procs[j].killed)
    && (procs[j].state == Sleeping && procs[j].pc == InWait ==> procs[j].chan == Waiting(j))
    && (procs[j].state == Sleeping ==> procs[j].chan != NoChan)
    && (procs[j].state != Sleeping && procs[j].state != Runnable ==> procs[j].chan == NoChan)
  }

  /** What each state says of a process's parent, and that init is alive and has none. */
  predicate StateOk(procs: seq<Proc>, j: nat)
    requires j < |procs|
  {
    var p := procs[j];
    && (p.state == Unused ==> p.parent == None && p.pc == Elsewhere)
    && (p.state == Embryo ==>
      p.pc == Elsewhere && (p.parent.Some? ==> ParentLives(procs, j) && Forks(procs, p.parent.value, j)))
    && (p.state == Zombie ==> p.pc == Elsewhere && ParentLives(procs, j))
    && (Alive(p) && j != INIT ==> ParentLives(procs, j))
    && (j == INIT ==> Alive(p) && p.parent == None)
  }

  /** A process in fork has an embryo that is nobody else's child. */
  predicate ForkOk(procs: seq<Proc>, j: nat)
    requires j < |procs|
  {
    var p := procs[j];
    p.pc.InFork? ==> && p.pc.child < |procs| && procs[p.pc.child].state == Embryo && p.pc.child != j
                     && (procs[p.pc.child].parent == None || procs[p.pc.child].parent == Some(j))
  }

  predicate Good(procs: seq<Proc>, j: nat)
    requires j < |procs|
  {
    StateOk(procs, j) && ForkOk(procs, j) && SleepsWell(procs, j)
  }

  predicate HasPid(procs: seq<Proc>, j: nat, pid: nat) {
    j < |procs| && procs[j].state != Unused && procs[j].pid == pid
  }

  predicate ZombieWith(procs: seq<Proc>, j: nat, pid: nat) {
    HasPid(procs, j, pid) && procs[j].state == Zombie
  }

  ghost predicate PidsOk(s: System) {
    && (forall j: nat, pid: nat | HasPid(s.procs, j, pid) :: pid < s.nextpid && pid !in s.reaped)
    && (forall j: nat, k: nat, pid: nat | HasPid(s.procs, j, pid) && HasPid(s.procs, k, pid) :: j == k)
    && (forall pid | pid in s.reaped :: pid < s.nextpid)
    && (forall i, j | 0 <= i < j < |s.reaped| :: s.reaped[i] != s.reaped[j])
  }

  ghost predicate ExitsOk(s: System) {
    forall pid: nat :: pid in s.exited <==> pid in s.reaped || exists j: nat :: ZombieWith(s.procs, j, pid)
  }

  ghost predicate OneForker(procs: seq<Proc>) {
    forall i: nat, k: nat, c: nat | Forks(procs, i, c) && Forks(procs, k, c) :: i == k
  }

  ghost predicate TableOk(procs: seq<Proc>) {
    |procs| == NPROC && OneForker(procs) && forall j | 0 <= j < |procs| :: Good(procs, j)
  }

  ghost predicate Inv(s: System) {
    TableOk(s.procs) && PidsOk(s) && ExitsOk(s)
  }

  lemma {:induction false} ExitKeeps(procs: seq<Proc>, i: nat)
    requires TableOk(procs) && IsRunning(procs, i) && procs[i].pc == Elsewhere && i != INIT && procs[i].parent.Some?
    ensures TableOk(Exited(procs, i))
  {
    var after := Exited(procs, i);
    forall j | 0 <= j < |after|
      ensures Good(after, j)
    {
      ExitGood(procs, i, j);
    }
    assert forall j: nat, c: nat :: Forks(after, j, c) <==> Forks(procs, j, c);
  }

  lemma {:induction false} ExitGood(procs: seq<Proc>, i: nat, j: nat)
    requires TableOk(procs) && IsRunning(procs, i) && procs[i].pc == Elsewhere && i != INIT && procs[i].parent.Some?
             && j < |procs|
    ensures Good(Exited(procs, i), j)
  {
    ExitState(procs, i, j);
    ExitChild(procs, i, j);
    ExitSleeps(procs, i, j);
  }

  lemma {:induction false} ExitState(procs: seq<Proc>, i: nat, j: nat)
    requires TableOk(procs) && IsRunning(procs, i) && procs[i].pc == Elsewhere && i != INIT && procs[i].parent.Some?
             && j < |procs|
    ensures StateOk(Exited(procs, i), j)
  {
    var after := Exited(procs, i);
    assert Good(procs, i) && Good(procs, j) && after[j] == AfterExit(procs, i, j);
    if ParentLives(procs, j) {
      ExitParent(procs, i, j);
    }
    if procs[j].parent.Some? {
      assert after[procs[j].parent.value] == AfterExit(procs, i, procs[j].parent.value);
    }
  }

  /** A process still has a parent that is alive: its own, or init. */
  lemma {:induction false} ExitParent(procs: seq<Proc>, i: nat, j: nat)
    requires TableOk(procs) && IsRunning(procs, i) && procs[i].pc == Elsewhere && i != INIT && procs[i].parent.Some?
             && j < |procs|
    requires ParentLives(procs, j)
    ensures ParentLives(Exited(procs, i), j)
  {
    var after, p := Exited(procs, i), procs[j].parent.value;
    assert Good(procs, INIT) && Good(procs, p);
    assert after[INIT] == AfterExit(procs, i, INIT) && after[p] == AfterExit(procs, i, p)
           && after[j] == AfterExit(procs, i, j);
  }

  lemma {:induction false} ExitChild(procs: seq<Proc>, i: nat, j: nat)
    requires TableOk(procs) && IsRunning(procs, i) && procs[i].pc == Elsewhere && i != INIT && procs[i].parent.Some?
             && j < |procs|
    ensures ForkOk(Exited(procs, i), j)
  {
    var after := Exited(procs, i);
    assert Good(procs, i) && Good(procs, j) && after[j] == AfterExit(procs, i, j);
    if procs[j].pc.InFork? {
      assert Good(procs, procs[j].pc.child);
      assert after[procs[j].pc.child] == AfterExit(procs, i, procs[j].pc.child);
    }
  }

  /** No process is left asleep in wait with a zombie child: i's parent is woken, and init if it
      inherits a zombie. */
  lemma {:induction false} ExitSleeps(procs: seq<Proc>, i: nat, j: nat)
    requires TableOk(procs) && IsRunning(procs, i) && procs[i].pc == Elsewhere && i != INIT && procs[i].parent.Some?
             && j < |procs|
    ensures SleepsWell(Exited(procs, i), j)
  {
    var after := Exited(procs, i);
    assert Good(procs, i) && Good(procs, j) && after[j] == AfterExit(procs, i, j);
    if HasZombie(after, j) {
      var k :| 0 <= k < |after| && ZombieChild(after[k], j);
      assert after[k] == AfterExit(procs, i, k);
      assert k == i || ZombieChild(procs[k], i) || ZombieChild(procs[k], j);
    }
    if HasKids(procs, j) && j != i {
      var k :| 0 <= k < |procs| && IsChild(procs[k], j);
      assert after[k] == AfterExit(procs, i, k) && IsChild(after[k], j);
    }
  }

  lemma {:induction false} WaitKeeps(procs: seq<Proc>, i: nat)
    requires TableOk(procs) && IsRunning(procs, i) && !procs[i].pc.InFork?
    ensures TableOk(Waited(procs, i))
  {
    var after := Waited(procs, i);
    forall j | 0 <= j < |after|
      ensures Good(after, j)
    {
      WaitGood(procs, i, j);
    }
    assert forall j: nat, c: nat :: Forks(after, j, c) <==> Forks(procs, j, c);
  }

  lemma {:induction false} WaitGood(procs: seq<Proc>, i: nat, j: nat)
    requires TableOk(procs) && IsRunning(procs, i) && !procs[i].pc.InFork? && j < |procs|
    ensures Good(Waited(procs, i), j)
  {
    WaitState(procs, i, j);
    WaitChild(procs, i, j);
    WaitSleeps(procs, i, j);
  }

  lemma {:induction false} WaitState(procs: seq<Proc>, i: nat, j: nat)
    requires TableOk(procs) && IsRunning(procs, i) && !procs[i].pc.InFork? && j < |procs|
    ensures StateOk(Waited(procs, i), j)
  {
    var z := FirstZombie(procs, i, 0);
    assert Good(procs, i) && Good(procs, j);
    assert z < |procs| ==> Good(procs, z);
    if procs[j].parent.Some? && procs[j].parent.value < |procs| {
      assert Good(procs, procs[j].parent.value);
    }
  }

  lemma {:induction false} WaitChild(procs: seq<Proc>, i: nat, j: nat)
    requires TableOk(procs) && IsRunning(procs, i) && !procs[i].pc.InFork? && j < |procs|
    ensures ForkOk(Waited(procs, i), j)
  {
    assert Good(procs, i) && Good(procs, j);
  }

  lemma {:induction false} WaitSleeps(procs: seq<Proc>, i: nat, j: nat)
    requires TableOk(procs) && IsRunning(procs, i) && !procs[i].pc.InFork? && j < |procs|
    ensures SleepsWell(Waited(procs, i), j)
  {
    var after, z := Waited(procs, i), FirstZombie(procs, i, 0);
    assert Good(procs, i) && Good(procs, j);
    if HasKids(procs, j) {
      var k :| 0 <= k < |procs| && IsChild(procs[k], j);
      assert k != z ==> IsChild(after[k], j);
    }
    if HasZombie(after, j) {
      var k :| 0 <= k < |after| && ZombieChild(after[k], j);
      assert ZombieChild(procs[k], j);
    }
  }

  /** The steps of fork. */
  lemma {:induction false} ForkKeeps(s: System, step: Step)
    requires TableOk(s.procs) && Enabled(s, step) && (step.Alloc? || step.AllocFail? || step.Adopt? || step.ForkDone?)
    ensures TableOk(Apply(s, step).procs)
  {
    var after := Apply(s, step).procs;
    forall j | 0 <= j < |after|
      ensures Good(after, j)
    {
      ForkGood(s, step, j);
    }
    ForkUnique(s, step);
  }

  lemma {:induction false} ForkUnique(s: System, step: Step)
    requires TableOk(s.procs) && Enabled(s, step) && (step.Alloc? || step.AllocFail? || step.Adopt? || step.ForkDone?)
    ensures OneForker(Apply(s, step).procs)
  {
    var ps, after := s.procs, Apply(s, step).procs;
    forall i: nat, c: nat | Forks(after, i, c)
      ensures Forks(ps, i, c) || (step.Alloc? && i == step.i && c == FirstUnused(ps, 0))
    {
    }
    forall i: nat, c: nat | Forks(ps, i, c)
      ensures c < |ps| && ps[c].state == Embryo
    {
      assert Good(ps, i);
    }
  }

  lemma {:induction false} ForkGood(s: System, step: Step, j: nat)
    requires TableOk(s.procs) && Enabled(s, step) && (step.Alloc? || step.AllocFail? || step.Adopt? || step.ForkDone?)
    requires j < |s.procs|
    ensures Good(Apply(s, step).procs, j)
  {
    ForkState(s, step, j);
    ForkChild(s, step, j);
    ForkSleeps(s, step, j);
  }

  lemma {:induction false} ForkState(s: System, step: Step, j: nat)
    requires TableOk(s.procs) && Enabled(s, step) && (step.Alloc? || step.AllocFail? || step.Adopt? || step.ForkDone?)
    requires j < |s.procs|
    ensures StateOk(Apply(s, step).procs, j)
  {
    if step.Alloc? {
      AllocState(s, step, j);
    } else {
      ChildState(s, step, j);
    }
  }

  lemma {:induction false} AllocState(s: System, step: Step, j: nat)
    requires TableOk(s.procs) && Enabled(s, step) && step.Alloc? && j < |s.procs|
    ensures StateOk(Apply(s, step).procs, j)
  {
    assert Good(s.procs, step.i) && Good(s.procs, j);
    var c := FirstUnused(s.procs, 0);
    if c < |s.procs| {
      assert Good(s.procs, c);
    }
  }

  lemma {:induction false} ChildState(s: System, step: Step, j: nat)
    requires TableOk(s.procs) && Enabled(s, step) && (step.AllocFail? || step.Adopt? || step.ForkDone?)
    requires j < |s.procs|
    ensures StateOk(Apply(s, step).procs, j)
  {
    var ps, i := s.procs, step.i;
    assert Good(ps, i) && Good(ps, j);
    var c := ps[i].pc.child;
    if c < |ps| {
      assert Good(ps, c) && Forks(ps, i, c);
    }
  }

  lemma {:induction false} ForkChild(s: System, step: Step, j: nat)
    requires TableOk(s.procs) && Enabled(s, step) && (step.Alloc? || step.AllocFail? || step.Adopt? || step.ForkDone?)
    requires j < |s.procs|
    ensures ForkOk(Apply(s, step).procs, j)
  {
    var ps, i := s.procs, step.i;
    assert Good(ps, i) && Good(ps, j);
    var c := if step.Alloc? then FirstUnused(ps, 0) else ps[i].pc.child;
    if c < |ps| {
      assert Good(ps, c);
      if step.Alloc? {
        NotForked(ps, c);
      }
      if ps[j].pc.InFork? {
        assert Forks(ps, j, ps[j].pc.child) && Good(ps, ps[j].pc.child);
      }
      assert !step.Alloc? ==> Forks(ps, i, c);
    }
  }

  lemma {:induction false} NotForked(ps: seq<Proc>, c: nat)
    requires TableOk(ps) && c < |ps| && ps[c].state != Embryo
    ensures forall k: nat :: !Forks(ps, k, c)
  {
    forall k: nat
      ensures !Forks(ps, k, c)
    {
      assert k < |ps| ==> Good(ps, k);
    }
  }

  lemma {:induction false} ForkSleeps(s: System, step: Step, j: nat)
    requires TableOk(s.procs) && Enabled(s, step) && (step.Alloc? || step.AllocFail? || step.Adopt? || step.ForkDone?)
    requires j < |s.procs|
    ensures SleepsWell(Apply(s, step).procs, j)
  {
    assert Good(s.procs, step.i) && Good(s.procs, j);
    ForkFamily(s, step, j);
  }

  /** Forking takes no child away and adds no zombie. */
  lemma ForkFamily(s: System, step: Step, j: nat)
    requires TableOk(s.procs) && Enabled(s, step) && (step.Alloc? || step.AllocFail? || step.Adopt? || step.ForkDone?)
    requires j < |s.procs|
    ensures HasZombie(Apply(s, step).procs, j) ==> HasZombie(s.procs, j)
    ensures j != step.i && HasKids(s.procs, j) ==> HasKids(Apply(s, step).procs, j)
  {
    var ps, after := s.procs, Apply(s, step).procs;
    assert Good(ps, step.i);
    if HasKids(ps, j) && j != step.i {
      var k :| 0 <= k < |ps| && IsChild(ps[k], j);
      assert Good(ps, k);
      assert ps[step.i].pc.InFork? ==> Good(ps, ps[step.i].pc.child);
      assert IsChild(after[k], j);
    }
    if HasZombie(after, j) {
      var k :| 0 <= k < |after| && ZombieChild(after[k], j);
      assert ZombieChild(ps[k], j);
    }
  }

  /** The other steps change only which live state a process is in, what it sleeps on, and killed. */
  lemma {:induction false} OtherKeeps(s: System, step: Step)
    requires TableOk(s.procs) && Enabled(s, step)
    requires step.Run? || step.Yield? || step.SleepOn? || step.Wakeup? || step.KillPid?
    ensures TableOk(Apply(s, step).procs)
  {
    var ps, after := s.procs, Apply(s, step).procs;
    forall j | 0 <= j < |ps|
      ensures SameButAwake(ps[j], after[j])
    {
    }
    forall j | 0 <= j < |after|
      ensures Good(after, j)
    {
      OtherGood(ps, after, j);
    }
    assert forall i: nat, c: nat :: Forks(after, i, c) <==> Forks(ps, i, c);
  }

  predicate SameButAwake(p: Proc, q: Proc) {
    && q.pid == p.pid && q.parent == p.parent && q.pc == p.pc && Alive(q) == Alive(p)
    && (!Alive(p) ==> q.state == p.state)
    && (q.state == Sleeping && (q.chan.Waiting? || q.pc == InWait) ==>
      p.state == Sleeping && p.chan == q.chan && p.killed == q.killed)
    && (q.state == Sleeping && q.chan == NoChan ==> p.state == Sleeping && p.chan == NoChan)
    && (q.state != Sleeping && q.state != Runnable && q.chan != NoChan ==> p.state == q.state && p.chan == q.chan)
  }

  lemma {:induction false} OtherGood(ps: seq<Proc>, after: seq<Proc>, j: nat)
    requires TableOk(ps) && |after| == |ps| && j < |ps| && forall k | 0 <= k < |ps| :: SameButAwake(ps[k], after[k])
    ensures Good(after, j)
  {
    assert Good(ps, j) && SameButAwake(ps[j], after[j]);
    if ps[j].parent.Some? && ps[j].parent.value < |ps| {
      assert SameButAwake(ps[ps[j].parent.value], after[ps[j].parent.value]);
    }
    if ps[j].pc.InFork? {
      assert SameButAwake(ps[ps[j].pc.child], after[ps[j].pc.child]);
    }
    if HasZombie(after, j) {
      var k :| 0 <= k < |after| && ZombieChild(after[k], j);
      assert SameButAwake(ps[k], after[k]) && ZombieChild(ps[k], j);
    }
    if HasKids(ps, j) {
      var k :| 0 <= k < |ps| && IsChild(ps[k], j);
      assert SameButAwake(ps[k], after[k]) && IsChild(after[k], j);
    }
  }

  // ---------------------------------------------------------------- pids

  /** What a step does to the pids: at most one process appears, leaves or becomes a zombie. */
  lemma {:induction false} PidsKeep(s: System, step: Step)
    requires Inv(s) && Enabled(s, step)
    ensures PidsOk(Apply(s, step)) && ExitsOk(Apply(s, step))
  {
    var ps, s' := s.procs, Apply(s, step);
    var after := s'.procs;
    match step {
      case Alloc(i) =>
        var c := FirstUnused(ps, 0);
        forall j: nat, pid: nat
          ensures HasPid(after, j, pid) <==> HasPid(ps, j, pid) || (c < |ps| && j == c && pid == s.nextpid)
          ensures ZombieWith(after, j, pid) <==> ZombieWith(ps, j, pid)
        {
        }
      case AllocFail(i) =>
        var c := ps[i].pc.child;
        assert Good(ps, i) && Good(ps, c);
        forall j: nat, pid: nat
          ensures HasPid(after, j, pid) <==> HasPid(ps, j, pid) && j != c
          ensures ZombieWith(after, j, pid) <==> ZombieWith(ps, j, pid)
        {
        }
      case Exit(i) =>
        ExitPids(ps, i);
        assert HasPid(ps, i, ps[i].pid) && ZombieWith(after, i, ps[i].pid);
        forall pid: nat
          ensures pid in s'.exited <==> pid in s'.reaped || exists j: nat :: ZombieWith(after, j, pid)
        {
          if pid in s.exited && pid !in s.reaped {
            var j: nat :| ZombieWith(ps, j, pid);
            assert ZombieWith(after, j, pid);
          }
        }
      case Wait(i) =>
        WaitPids(s, i);
      case _ =>
        OtherPids(s, step);
    }
  }

  lemma {:induction false} OtherPids(s: System, step: Step)
    requires Inv(s) && Enabled(s, step)
    requires step.Adopt? || step.ForkDone? || step.Run? || step.Yield? || step.SleepOn? || step.Wakeup? || step.KillPid?
    ensures PidsOk(Apply(s, step)) && ExitsOk(Apply(s, step))
  {
    var ps, after := s.procs, Apply(s, step).procs;
    if step.Adopt? || step.ForkDone? {
      assert Good(ps, step.i);
    }
    forall j: nat, pid: nat
      ensures HasPid(after, j, pid) <==> HasPid(ps, j, pid)
      ensures ZombieWith(after, j, pid) <==> ZombieWith(ps, j, pid)
    {
    }
  }

  lemma {:induction false} ExitPids(ps: seq<Proc>, i: nat)
    requires i < |ps| && ps[i].parent.Some? && ps[i].state == Running
    ensures forall j: nat, pid: nat :: HasPid(Exited(ps, i), j, pid) <==> HasPid(ps, j, pid)
    ensures forall j: nat, pid: nat ::
              ZombieWith(Exited(ps, i), j, pid) <==> ZombieWith(ps, j, pid) || (j == i && pid == ps[i].pid)
  {
    forall j: nat | j < |ps|
      ensures Exited(ps, i)[j].pid == ps[j].pid && (Exited(ps, i)[j].state == Unused <==> ps[j].state == Unused)
      ensures Exited(ps, i)[j].state == Zombie <==> ps[j].state == Zombie || j == i
    {
      assert Exited(ps, i)[j] == AfterExit(ps, i, j);
    }
  }

  /** wait takes a pid out of the table only for a process that has exited, and never again. */
  lemma {:induction false} WaitPids(s: System, i: nat)
    requires Inv(s) && Enabled(s, Wait(i))
    ensures PidsOk(Apply(s, Wait(i))) && ExitsOk(Apply(s, Wait(i)))
  {
    var ps, after, z := s.procs, Waited(s.procs, i), FirstZombie(s.procs, i, 0);
    forall j: nat, pid: nat
      ensures HasPid(after, j, pid) <==> HasPid(ps, j, pid) && j != z
      ensures ZombieWith(after, j, pid) <==> ZombieWith(ps, j, pid) && j != z
    {
    }
    if z < |ps| {
      assert ZombieWith(ps, z, ps[z].pid);
    }
  }

  // ---------------------------------------------------------------- over every run

  lemma {:induction false} StepKeeps(s: System, step: Step)
    requires Inv(s) && Enabled(s, step)
    ensures Inv(Apply(s, step))
  {
    PidsKeep(s, step);
    match step {
      case Exit(i) => ExitKeeps(s.procs, i);
      case Wait(i) => WaitKeeps(s.procs, i);
      case Alloc(_) => ForkKeeps(s, step);
      case AllocFail(_) => ForkKeeps(s, step);
      case Adopt(_) => ForkKeeps(s, step);
      case ForkDone(_) => ForkKeeps(s, step);
      case _ => OtherKeeps(s, step);
    }
  }

  /** The state once userinit has made the first process. */
  predicate Booted(s: System) {
    && |s.procs| == NPROC && s.nextpid == 2 && s.reaped == [] && s.exited == {}
    && s.procs[INIT] == Proc(Runnable, 1, None, NoChan, false, Elsewhere)
    && forall j | 0 < j < NPROC :: s.procs[j] == Free
  }

  ghost predicate Reaches(s: System, steps: seq<Step>, s': System)
    decreases |steps|
  {
    if steps == [] then s' == s else Enabled(s, steps[0]) && Reaches(Apply(s, steps[0]), steps[1..], s')
  }

  lemma {:induction false} RunKeeps(s: System, steps: seq<Step>, s': System)
    requires Inv(s) && Reaches(s, steps, s')
    ensures Inv(s')
    decreases |steps|
  {
    if steps != [] {
      StepKeeps(s, steps[0]);
      RunKeeps(Apply(s, steps[0]), steps[1..], s');
    }
  }

  lemma {:induction false} BootedOk(s: System)
    requires Booted(s)
    ensures Inv(s)
  {
    forall j | 0 <= j < |s.procs|
      ensures Good(s.procs, j)
    {
    }
    assert forall j: nat, pid: nat :: HasPid(s.procs, j, pid) <==> j == INIT && pid == 1;
  }

  /** The exit/wait protocol, over every interleaving: a process asleep in wait has a child, but no zombie
      child, and is not killed; whoever sleeps sleeps on something; every process past EMBRYO but init has
      a parent that is neither unused nor a zombie; no pid is returned by two waits, and only pids of
      processes that have exited are returned. */
  lemma {:induction false} ExitWaitProtocol(s: System, steps: seq<Step>, s': System)
    requires Booted(s) && Reaches(s, steps, s')
    ensures |s'.procs| == NPROC
    ensures forall j | 0 <= j < NPROC && AsleepInWait(s'.procs[j]) ::
              && !s'.procs[j].killed
              && (exists k | 0 <= k < NPROC :: s'.procs[k].parent == Some(j))
              && forall k | 0 <= k < NPROC && s'.procs[k].parent == Some(j) :: s'.procs[k].state != Zombie
    ensures forall j | 0 <= j < NPROC && s'.procs[j].state == Sleeping :: s'.procs[j].chan != NoChan
    ensures forall j | 0 < j < NPROC && PastEmbryo(s'.procs[j]) :: ParentLives(s'.procs, j)
    ensures forall a, b | 0 <= a < b < |s'.reaped| :: s'.reaped[a] != s'.reaped[b]
    ensures forall pid | pid in s'.reaped :: pid in s'.exited
  {
    BootedOk(s);
    RunKeeps(s, steps, s');
    forall j | 0 <= j < NPROC
      ensures AsleepInWait(s'.procs[j]) ==>
                !s'.procs[j].killed && !HasZombie(s'.procs, j) && HasKids(s'.procs, j)
      ensures s'.procs[j].state == Sleeping ==> s'.procs[j].chan != NoChan
      ensures j > 0 && PastEmbryo(s'.procs[j]) ==> ParentLives(s'.procs, j)
    {
      assert Good(s'.procs, j);
    }
    forall j | 0 <= j < NPROC && AsleepInWait(s'.procs[j])
      ensures exists k | 0 <= k < NPROC :: s'.procs[k].parent == Some(j)
      ensures forall k | 0 <= k < NPROC && s'.procs[k].parent == Some(j) :: s'.procs[k].state != Zombie
    {
      KidThere(s'.procs, j);
      ZombieThere(s'.procs, j);
    }
  }

  predicate AsleepInWait(p: Proc) {
    p.state == Sleeping && p.pc == InWait
  }

  predicate PastEmbryo(p: Proc) {
    p.state != Unused && p.state != Embryo
  }
}
