/** The decay scheduler of p4 (proc.c, trap.c): processes of the highest priority run in turn, and
    every 100 ticks the recorded CPU usage is halved and the priorities are recalculated. */
module Scheduler {
  const INT_MAX: int := 0x7fff_ffff
  const PERIOD: nat := 100              // ticks between recalculations
  const NPROC: nat := 64

  datatype ProcState = Unused | Embryo | Sleeping | Runnable | Running | Zombie

  datatype Proc = Proc(state: ProcState, nice: int, priority: int, ticks: nat, cpu: nat)

  // ---------------------------------------------------------------- what a scheduling round does

  /** What updatepriorities makes of a process. */
  function Decayed(p: Proc): Proc {
    if p.state == Unused then p else p.(cpu := p.cpu / 2, priority := p.cpu / 2 / 2 + p.nice)
  }

  function Recalculated(procs: seq<Proc>): (r: seq<Proc>)
    ensures |r| == |procs| && forall i | 0 <= i < |procs| :: r[i] == Decayed(procs[i])
  {
    seq(|procs|, i requires 0 <= i < |procs| => Decayed(procs[i]))
  }

  /** The process table and the clock. */
  datatype State = State(procs: seq<Proc>, clock: nat)

  predicate Recalculates(s: State) {
    (s.clock + 1) % PERIOD == 0
  }

  function Ticked(s: State): State {
    State(if Recalculates(s) then Recalculated(s.procs) else s.procs, s.clock + 1)
  }

  /** One dispatch of process i, which stays runnable and gives the processor up at the next tick:
      the tick, with the recalculation it may bring, comes before the process is charged for it. */
  function Dispatched(s: State, i: nat): State
    requires i < |s.procs|
  {
    var t := Ticked(s);
    t.(procs := t.procs[i := t.procs[i].(ticks := t.procs[i].ticks + 1, cpu := t.procs[i].cpu + 1)])
  }

  /** The smallest priority number among the first n processes that are runnable. */
  function Highest(procs: seq<Proc>, n: nat): (h: int)
    requires n <= |procs|
    ensures h <= INT_MAX && forall i | 0 <= i < n && procs[i].state == Runnable :: h <= procs[i].priority
    ensures h == INT_MAX || exists i :: 0 <= i < n && procs[i].state == Runnable && procs[i].priority == h
  {
    if n == 0 then INT_MAX
    else if procs[n - 1].state == Runnable && Highest(procs, n - 1) > procs[n - 1].priority then procs[n - 1].priority
    else Highest(procs, n - 1)
  }

  /** The second scan of a round from process i on; high was found by the first. */
  function Pass(s: State, high: int, i: nat): (r: State)
    ensures |r.procs| == |s.procs|
    decreases |s.procs| - i
  {
    if i >= |s.procs| then s
    else if s.procs[i].state == Runnable && s.procs[i].priority == high then Pass(Dispatched(s, i), high, i + 1)
    else Pass(s, high, i + 1)
  }

  function Round(s: State): State {
    Pass(s, Highest(s.procs, |s.procs|), 0)
  }

  // ---------------------------------------------------------------- the program

  class Machine {
    const procs: array<Proc>
    var clock: nat

    constructor (table: array<Proc>)
      ensures procs == table && clock == 0
    {
      procs, clock := table, 0;
    }

    function Now(): State
      reads this, procs
    {
      State(procs[..], clock)
    }

    /** calculatepriority. */
    method CalculatePriority(i: nat) returns (priority: int)
      requires i < procs.Length
      modifies procs
      ensures priority == old(procs[i]).cpu / 2 / 2 + procs[i].nice
      ensures procs[i] == old(procs[i]).(cpu := old(procs[i]).cpu / 2)
      ensures forall j | 0 <= j < procs.Length && j != i :: procs[j] == old(procs[j])
    {
      var cpu, nice := procs[i].cpu, procs[i].nice;
      cpu := cpu / 2;
      procs[i] := procs[i].(cpu := cpu);
      priority := cpu / 2 + nice;
    }

    /** updatepriorities: of every process in use the usage is halved, and half of that, plus the nice
        value, is its priority. */
    method UpdatePriorities()
      modifies procs
      ensures procs[..] == Recalculated(old(procs[..]))
      ensures forall j | 0 <= j < procs.Length && old(procs[j]).state != Unused ::
                && procs[j].cpu == old(procs[j]).cpu / 2
                && procs[j].priority == procs[j].cpu / 2 + procs[j].nice
                && procs[j].state == old(procs[j]).state && procs[j].nice == old(procs[j]).nice
                && procs[j].ticks == old(procs[j]).ticks
      ensures forall j | 0 <= j < procs.Length && old(procs[j]).state == Unused :: procs[j] == old(procs[j])
    {
      var i := 0;
      while i < procs.Length
        invariant 0 <= i <= procs.Length
        invariant forall j | 0 <= j < procs.Length ::
                    procs[j] == if j < i then Decayed(old(procs[j])) else old(procs[j])
      {
        if procs[i].state != Unused {
          var priority := CalculatePriority(i);
          procs[i] := procs[i].(priority := priority);
        }
        i := i + 1;
      }
    }

    /** The timer interrupt. */
    method Tick()
      modifies this`clock, procs
      ensures Now() == Ticked(old(Now()))
      ensures clock == old(clock) + 1
      ensures clock % 100 != 0 ==> procs[..] == old(procs[..])
      ensures clock % 100 == 0 ==> forall j | 0 <= j < procs.Length && old(procs[j]).state != Unused ::
                procs[j].cpu == old(procs[j]).cpu / 2 && procs[j].priority == procs[j].cpu / 2 + procs[j].nice
    {
      clock := clock + 1;
      if clock % PERIOD == 0 {
        UpdatePriorities();
      }
    }

    /** The body of the second scan's if: process i runs until the next tick. */
    method Dispatch(i: nat)
      requires i < procs.Length && procs[i].state == Runnable
      modifies this`clock, procs
      ensures Now() == Dispatched(old(Now()), i)
      ensures clock == old(clock) + 1 && procs[i].state == Runnable && procs[i].nice == old(procs[i]).nice
      ensures procs[i].ticks == old(procs[i]).ticks + 1
      ensures procs[i].cpu == (if clock % 100 == 0 then old(procs[i]).cpu / 2 else old(procs[i]).cpu) + 1
      ensures clock % 100 != 0 ==> forall j | 0 <= j < procs.Length && j != i :: procs[j] == old(procs[j])
    {
      ghost var s := Now();
      procs[i] := procs[i].(state := Running);
      ghost var s1 := Now();
      Tick();
      procs[i] := procs[i].(state := Runnable);   // yield
      RunningTicks(s, s1, i);
      assert Now().procs == Ticked(s).procs;
      procs[i] := procs[i].(ticks := procs[i].ticks + 1);
      procs[i] := procs[i].(cpu := procs[i].cpu + 1);
    }

    /** fork: the first unused slot, if there is one, becomes a runnable process with no usage, of nice 0 and of
        the highest priority. */
    method Fork() returns (slot: nat)
      modifies procs
      ensures slot == FirstUnused(old(procs[..]), 0)
      ensures slot <= procs.Length && forall j | 0 <= j < slot :: old(procs[j]).state != Unused
      ensures slot == procs.Length ==> procs[..] == old(procs[..])
      ensures slot < procs.Length ==> old(procs[slot]).state == Unused && procs[slot] == Proc(Runnable, 0, 0, 0, 0)
      ensures slot < procs.Length ==> procs[..] == old(procs[..])[slot := Forked]
    {
      slot := 0;
      while slot < procs.Length && procs[slot].state != Unused
        invariant 0 <= slot <= procs.Length && FirstUnused(procs[..], 0) == FirstUnused(procs[..], slot)
        invariant forall j | 0 <= j < slot :: procs[j].state != Unused
      {
        slot := slot + 1;
      }
      if slot < procs.Length {
        procs[slot] := procs[slot].(state := Embryo);
        procs[slot] := procs[slot].(state := Runnable);
        procs[slot] := procs[slot].(nice := 0, priority := 0, ticks := 0, cpu := 0);
      }
    }

    /** sys_nice by process i: the old nice value, or -1 for a new one out of bounds. */
    method Nice(i: nat, value: int) returns (r: int)
      requires i < procs.Length
      modifies procs
      ensures r == if value < 0 || value > 20 then -1 else old(procs[i]).nice
      ensures value < 0 || value > 20 ==> procs[..] == old(procs[..])
      ensures 0 <= value <= 20 ==> procs[..] == old(procs[..])[i := old(procs[i]).(nice := value)]
    {
      if value < 0 || value > 20 {
        return -1;
      }
      r := procs[i].nice;
      procs[i] := procs[i].(nice := value);
    }

    /** One turn of scheduler's endless loop. */
    method Schedule()
      modifies this`clock, procs
      ensures Now() == Round(old(Now()))
    {
      ghost var s := Now();
      var high := INT_MAX;
      var i := 0;
      while i < procs.Length
        invariant 0 <= i <= procs.Length && high == Highest(procs[..], i) && Now() == s
      {
        if procs[i].state == Runnable && high > procs[i].priority {
          high := procs[i].priority;
        }
        i := i + 1;
      }
      i := 0;
      while i < procs.Length
        invariant 0 <= i <= procs.Length && Pass(Now(), high, i) == Pass(s, high, 0)
      {
        if procs[i].state == Runnable && high == procs[i].priority {
          Dispatch(i);
        }
        i := i + 1;
      }
    }
  }

  /** Whether the ticking process is marked running or runnable makes no difference to a tick. */
  lemma RunningTicks(s: State, s1: State, i: nat)
    requires i < |s.procs| && s1 == s.(procs := s.procs[i := s.procs[i].(state := Running)])
             && s.procs[i].state == Runnable
    ensures Ticked(s1).procs[i := Ticked(s1).procs[i].(state := Runnable)] == Ticked(s).procs
  {
  }

  // ---------------------------------------------------------------- runs

  /** A point of an endless run: the second scan is about to look at process i, or a round is over. */
  datatype Point = Point(s: State, high: int, i: nat)

  predicate Chosen(p: Point, i: nat) {
    && p.i == i < |p.s.procs|
    && p.s.procs[i].state == Runnable && p.s.procs[i].priority == p.high
  }

  function Next(p: Point): (r: Point)
    ensures |r.s.procs| == |p.s.procs|
  {
    if p.i >= |p.s.procs| then Point(p.s, Highest(p.s.procs, |p.s.procs|), 0)
    else Point(if Chosen(p, p.i) then Dispatched(p.s, p.i) else p.s, p.high, p.i + 1)
  }

  function After(p: Point, k: nat): (r: Point)
    ensures |r.s.procs| == |p.s.procs|
    decreases k
  {
    if k == 0 then p else After(Next(p), k - 1)
  }

  /** The points of a run go through the rounds. */
  lemma {:induction false} PassIsSteps(p: Point)
    requires p.i <= |p.s.procs|
    ensures After(p, |p.s.procs| - p.i) == Point(Pass(p.s, p.high, p.i), p.high, |p.s.procs|)
    decreases |p.s.procs| - p.i
  {
    if p.i < |p.s.procs| {
      PassIsSteps(Next(p));
    }
  }

  lemma {:induction false} RoundIsSteps(p: Point)
    requires p.i >= |p.s.procs|
    ensures After(p, |p.s.procs| + 1).s == Round(p.s)
  {
    PassIsSteps(Next(p));
  }

  /** Process j is runnable, and no runnable process has a smaller priority number. */
  predicate Best(procs: seq<Proc>, j: nat) {
    && j < |procs| && procs[j].state == Runnable
    && forall k | 0 <= k < |procs| && procs[k].state == Runnable :: procs[j].priority <= procs[k].priority
  }

  lemma {:induction false} PassExact(s: State, high: int, i: nat)
    requires Pass(s, high, i).clock / PERIOD == s.clock / PERIOD
    ensures |Pass(s, high, i).procs| == |s.procs|
    ensures forall j | 0 <= j < |s.procs| ::
              Pass(s, high, i).procs[j] ==
                if i <= j && s.procs[j].state == Runnable && s.procs[j].priority == high
                then s.procs[j].(ticks := s.procs[j].ticks + 1, cpu := s.procs[j].cpu + 1) else s.procs[j]
    decreases |s.procs| - i
  {
    if i < |s.procs| {
      if s.procs[i].state == Runnable && s.procs[i].priority == high {
        PassForward(Dispatched(s, i), high, i + 1);
        PeriodTurns(s.clock);
        PeriodMonotone(s.clock + 1, Pass(s, high, i).clock);
        PassExact(Dispatched(s, i), high, i + 1);
      } else {
        PassExact(s, high, i + 1);
      }
    }
  }

  lemma PeriodMonotone(c: nat, d: nat)
    requires c <= d
    ensures c / PERIOD <= d / PERIOD
  {
  }

  /** A round without a recalculation runs every process of the best priority for one tick, and no other. */
  lemma {:induction false} RoundExact(s: State)
    requires Round(s).clock / PERIOD == s.clock / PERIOD
    requires forall j | 0 <= j < |s.procs| :: s.procs[j].priority <= INT_MAX
    ensures |Round(s).procs| == |s.procs|
    ensures forall j | 0 <= j < |s.procs| ::
              Round(s).procs[j] ==
                if Best(s.procs, j)
                then s.procs[j].(ticks := s.procs[j].ticks + 1, cpu := s.procs[j].cpu + 1) else s.procs[j]
  {
    var high := Highest(s.procs, |s.procs|);
    PassExact(s, high, 0);
    forall j | 0 <= j < |s.procs|
      ensures Best(s.procs, j) <==> s.procs[j].state == Runnable && s.procs[j].priority == high
    {
    }
  }

  // ---------------------------------------------------------------- two processes

  /** recalcs counts the recalculations since process a was last chosen. */
  datatype Watch = Watch(p: Point, recalcs: nat)

  function NextWatch(w: Watch, a: nat): Watch {
    Watch(Next(w.p),
          if Chosen(w.p, a) then 0
          else if Chosen(w.p, w.p.i) && Recalculates(w.p.s) then w.recalcs + 1 else w.recalcs)
  }

  function WatchAfter(w: Watch, a: nat, k: nat): Watch
    decreases k
  {
    if k == 0 then w else WatchAfter(NextWatch(w, a), a, k - 1)
  }

  /** Only a and b are runnable, and their nice values are as setnice allows. */
  predicate JustTwo(procs: seq<Proc>, a: nat, b: nat) {
    && a < |procs| && b < |procs| && a != b
    && (forall i | 0 <= i < |procs| :: procs[i].state == Runnable <==> i == a || i == b)
    && 0 <= procs[a].nice <= 20 && 0 <= procs[b].nice <= 20
    && procs[a].priority <= INT_MAX && procs[b].priority <= INT_MAX
  }

  /** The dispatches charged since the last recalculation. */
  function Charged(clock: nat): nat {
    clock % PERIOD + 1
  }

  /** The decay invariant, and what is known of the waiting process a, and of b, after each
      recalculation: a's usage is at most 100 and then halves, while b is charged for every tick. */
  predicate Decaying(w: Watch, a: nat, b: nat) {
    var s := w.p.s;
    && JustTwo(s.procs, a, b)
    && s.procs[a].cpu + s.procs[b].cpu <= 100 + Charged(s.clock)
    && w.recalcs <= 3
    && (w.recalcs >= 1 ==> s.procs[a].cpu <= 100 && s.procs[b].cpu >= Charged(s.clock))
    && (w.recalcs >= 2 ==> s.procs[a].cpu <= 50 && s.procs[b].cpu >= 50 + Charged(s.clock))
    && (w.recalcs == 3 ==> && s.procs[a].priority <= 32 && s.procs[b].priority >= 37
                           && (w.p.i > b || w.p.high == s.procs[a].priority))
  }

  lemma {:induction false} TwoHighest(procs: seq<Proc>, a: nat, b: nat, n: nat)
    requires JustTwo(procs, a, b) && procs[a].priority < procs[b].priority && procs[a].priority <= INT_MAX
             && a < n <= |procs|
    ensures Highest(procs, n) == procs[a].priority
  {
  }

  lemma {:induction false} DecayStep(w: Watch, a: nat, b: nat)
    requires Decaying(w, a, b)
    ensures Decaying(NextWatch(w, a), a, b)
  {
    var s := w.p.s;
    if w.p.i >= |s.procs| {
      if w.recalcs == 3 {
        TwoHighest(s.procs, a, b, |s.procs|);
      }
    } else if Chosen(w.p, w.p.i) {
      assert w.p.i == a || w.p.i == b;
      ClockTurns(s.clock);
    }
  }

  lemma ClockTurns(c: nat)
    ensures (c + 1) % PERIOD == 0 ==> Charged(c) == PERIOD && Charged(c + 1) == 1
    ensures (c + 1) % PERIOD != 0 ==> Charged(c + 1) == Charged(c) + 1
  {
  }

  lemma {:induction false} DecayRun(w: Watch, a: nat, b: nat, k: nat)
    requires Decaying(w, a, b)
    ensures Decaying(WatchAfter(w, a, k), a, b) && WatchAfter(w, a, k).recalcs <= 3
    decreases k
  {
    if k > 0 {
      DecayStep(w, a, b);
      DecayRun(NextWatch(w, a), a, b, k - 1);
    }
  }

  predicate Waits(w: Watch, a: nat, k: nat) {
    forall j | 0 <= j < k :: !Chosen(WatchAfter(w, a, j).p, a)
  }

  lemma {:induction false} WaitsOn(w: Watch, a: nat, k: nat)
    requires k > 0 && Waits(w, a, k)
    ensures !Chosen(w.p, a) && Waits(NextWatch(w, a), a, k - 1)
  {
    assert WatchAfter(w, a, 0) == w;
    forall j | 0 <= j < k - 1
      ensures !Chosen(WatchAfter(NextWatch(w, a), a, j).p, a)
    {
      assert WatchAfter(w, a, j + 1) == WatchAfter(NextWatch(w, a), a, j);
    }
  }

  /** While a waits, the recalculations are those of the clock. */
  lemma {:induction false} WaitCounts(w: Watch, a: nat, k: nat)
    requires Waits(w, a, k)
    ensures var v := WatchAfter(w, a, k); v.recalcs - w.recalcs == v.p.s.clock / PERIOD - w.p.s.clock / PERIOD
    decreases k
  {
    if k > 0 {
      WaitsOn(w, a, k);
      WaitCounts(NextWatch(w, a), a, k - 1);
      PeriodTurns(w.p.s.clock);
    }
  }

  lemma PeriodTurns(c: nat)
    ensures (c + 1) / PERIOD == c / PERIOD + if (c + 1) % PERIOD == 0 then 1 else 0
  {
  }

  lemma {:induction false} DecayBound(w: Watch, a: nat, b: nat, k: nat)
    requires Decaying(w, a, b) && Waits(w, a, k)
    ensures WatchAfter(w, a, k).p.s.clock < w.p.s.clock + 4 * PERIOD
  {
    DecayRun(w, a, b, k);
    WaitCounts(w, a, k);
  }

  lemma {:induction false} WatchPoints(w: Watch, a: nat, j: nat, k: nat)
    ensures WatchAfter(w, a, j).p == After(w.p, j)
    ensures WatchAfter(w, a, j + k) == WatchAfter(WatchAfter(w, a, j), a, k)
    decreases j
  {
    if j > 0 {
      WatchPoints(NextWatch(w, a), a, j - 1, k);
    }
  }

  /** A pass that meets a process of the priority it looks for ticks. */
  lemma {:induction false} PassTicks(s: State, high: int, i: nat, j: nat)
    requires i <= j < |s.procs| && s.procs[j].state == Runnable && s.procs[j].priority == high
    ensures Pass(s, high, i).clock > s.clock
    decreases |s.procs| - i
  {
    if s.procs[i].state == Runnable && s.procs[i].priority == high {
      PassForward(Dispatched(s, i), high, i + 1);
    } else {
      PassTicks(s, high, i + 1, j);
    }
  }

  lemma {:induction false} PassForward(s: State, high: int, i: nat)
    ensures Pass(s, high, i).clock >= s.clock
    decreases |s.procs| - i
  {
    if i < |s.procs| {
      var t := if s.procs[i].state == Runnable && s.procs[i].priority == high then Dispatched(s, i) else s;
      PassForward(t, high, i + 1);
    }
  }

  /** Every round with a runnable process ticks. */
  lemma {:induction false} RoundTicks(s: State, a: nat)
    requires a < |s.procs| && s.procs[a].state == Runnable && s.procs[a].priority <= INT_MAX
    ensures Round(s).clock > s.clock
  {
    var h := Highest(s.procs, |s.procs|);
    assert h <= s.procs[a].priority;
    if h == INT_MAX {
      PassTicks(s, h, 0, a);
    } else {
      var j :| 0 <= j < |s.procs| && s.procs[j].state == Runnable && s.procs[j].priority == h;
      PassTicks(s, h, 0, j);
    }
  }

  /** The points of so many rounds. */
  function Points(rounds: nat, n: nat): nat {
    if rounds == 0 then 0 else n + 1 + Points(rounds - 1, n)
  }

  lemma {:induction false} PointsProduct(rounds: nat, n: nat)
    ensures Points(rounds, n) == rounds * (n + 1)
  {
    if rounds > 0 {
      PointsProduct(rounds - 1, n);
    }
  }

  lemma {:induction false} RoundTicksOn(w: Watch, a: nat, b: nat)
    requires Decaying(w, a, b) && w.p.i >= |w.p.s.procs|
    ensures var v, n := WatchAfter(w, a, |w.p.s.procs| + 1), |w.p.s.procs|;
            Decaying(v, a, b) && v.p.i == |v.p.s.procs| == n && v.p.s.clock > w.p.s.clock
  {
    var n := |w.p.s.procs|;
    RoundIsSteps(w.p);
    PassIsSteps(Next(w.p));
    RoundTicks(w.p.s, a);
    DecayRun(w, a, b, n + 1);
    WatchPoints(w, a, n + 1, 0);
  }

  lemma {:induction false} RoundsTick(w: Watch, a: nat, b: nat, rounds: nat)
    requires Decaying(w, a, b) && w.p.i >= |w.p.s.procs|
    ensures WatchAfter(w, a, Points(rounds, |w.p.s.procs|)).p.s.clock >= w.p.s.clock + rounds
    decreases rounds
  {
    if rounds > 0 {
      var n := |w.p.s.procs|;
      RoundTicksOn(w, a, b);
      WatchPoints(w, a, n + 1, Points(rounds - 1, n));
      RoundsTick(WatchAfter(w, a, n + 1), a, b, rounds - 1);
    }
  }

  lemma {:induction false} DecayChosen(w: Watch, a: nat, b: nat)
    requires Decaying(w, a, b) && w.p.i >= |w.p.s.procs|
    ensures exists k :: 0 <= k < 4 * PERIOD * (|w.p.s.procs| + 1) && Chosen(WatchAfter(w, a, k).p, a)
  {
    var total := 4 * PERIOD * (|w.p.s.procs| + 1);
    if Waits(w, a, total) {
      DecayBound(w, a, b, total);
      PointsProduct(4 * PERIOD, |w.p.s.procs|);
      RoundsTick(w, a, b, 4 * PERIOD);
      assert false;
    }
  }

  // ---------------------------------------------------------------- recorded usage

  function TotalCpu(procs: seq<Proc>, n: nat): nat
    requires n <= |procs|
  {
    if n == 0 then 0 else TotalCpu(procs, n - 1) + if procs[n - 1].state == Unused then 0 else procs[n - 1].cpu
  }

  lemma {:induction false} TotalHalves(procs: seq<Proc>, n: nat)
    requires n <= |procs|
    ensures 2 * TotalCpu(Recalculated(procs), n) <= TotalCpu(procs, n)
  {
    if n > 0 {
      TotalHalves(procs, n - 1);
    }
  }

  lemma {:induction false} TotalCharged(procs: seq<Proc>, i: nat, p: Proc, n: nat)
    requires n <= |procs| && i < |procs| && procs[i].state != Unused && p.state == procs[i].state
             && p.cpu == procs[i].cpu + 1
    ensures TotalCpu(procs[i := p], n) == TotalCpu(procs, n) + if i < n then 1 else 0
  {
    if n > 0 {
      TotalCharged(procs, i, p, n - 1);
    }
  }

  predicate UsageOk(s: State) {
    TotalCpu(s.procs, |s.procs|) <= 100 + Charged(s.clock)
  }

  /** Whatever the scheduler does, the recorded usage adds up to at most 100 plus the dispatches
      since the last recalculation. */
  lemma {:induction false} UsageStep(p: Point)
    requires UsageOk(p.s)
    ensures UsageOk(Next(p).s)
  {
    var s := p.s;
    if Chosen(p, p.i) {
      var t := Ticked(s);
      ClockTurns(s.clock);
      TotalHalves(s.procs, |s.procs|);
      TotalCharged(t.procs, p.i, Dispatched(s, p.i).procs[p.i], |s.procs|);
    }
  }

  lemma {:induction false} TotalOfTwo(procs: seq<Proc>, a: nat, b: nat, n: nat)
    requires a < |procs| && b < |procs| && a != b && n <= |procs|
    requires procs[a].state != Unused && procs[b].state != Unused
    ensures TotalCpu(procs, n) >= (if a < n then procs[a].cpu else 0) + (if b < n then procs[b].cpu else 0)
  {
    if n > 0 {
      TotalOfTwo(procs, a, b, n - 1);
    }
  }

  lemma {:induction false} WatchStarts(p: Point, a: nat, b: nat)
    requires UsageOk(p.s) && JustTwo(p.s.procs, a, b)
    ensures Decaying(Watch(p, 0), a, b)
  {
    TotalOfTwo(p.s.procs, a, b, |p.s.procs|);
  }

  // ---------------------------------------------------------------- two processes wait a bounded time

  /** Bounded waiting: from whatever moment on just two processes are runnable, neither waits through
      more than three recalculations without being chosen. */
  lemma {:induction false} BoundedWaiting(p: Point, a: nat, b: nat, k: nat)
    requires UsageOk(p.s) && JustTwo(p.s.procs, a, b)
    ensures WatchAfter(Watch(p, 0), a, k).recalcs <= 3
  {
    WatchStarts(p, a, b);
    DecayRun(Watch(p, 0), a, b, k);
  }

  /** So neither waits 400 ticks ... */
  lemma {:induction false} WaitBound(p: Point, a: nat, b: nat, k: nat)
    requires UsageOk(p.s) && JustTwo(p.s.procs, a, b) && Waits(Watch(p, 0), a, k)
    ensures After(p, k).s.clock < p.s.clock + 4 * PERIOD
  {
    WatchStarts(p, a, b);
    DecayBound(Watch(p, 0), a, b, k);
    WatchPoints(Watch(p, 0), a, k, 0);
  }

  /** ... and each is chosen within 400 rounds. */
  lemma {:induction false} EventuallyChosen(p: Point, a: nat, b: nat)
    requires UsageOk(p.s) && JustTwo(p.s.procs, a, b) && p.i >= |p.s.procs|
    ensures exists k :: 0 <= k < 4 * PERIOD * (|p.s.procs| + 1) && Chosen(After(p, k), a)
  {
    WatchStarts(p, a, b);
    DecayChosen(Watch(p, 0), a, b);
    var k :| 0 <= k < 4 * PERIOD * (|p.s.procs| + 1) && Chosen(WatchAfter(Watch(p, 0), a, k).p, a);
    WatchPoints(Watch(p, 0), a, k, 0);
  }

  // ---------------------------------------------------------------- three processes need not

  /** The one of two rivals that runs until the next recalculation, charged for every tick. */
  predicate Low(s: State, x: nat) {
    && x < |s.procs| && s.procs[x].state == Runnable && s.procs[x].nice == 0 && s.procs[x].priority <= 19
    && 30 + Charged(s.clock) - 1 <= s.procs[x].cpu <= 39 + Charged(s.clock) - 1
  }

  /** The one whose turn comes then. */
  predicate High(s: State, y: nat) {
    && y < |s.procs| && s.procs[y].state == Runnable && s.procs[y].nice == 0 && s.procs[y].priority >= 30
    && 60 <= s.procs[y].cpu <= 79
  }

  predicate Lags(p: Proc) {
    p.state == Runnable ==> p.nice == 20 && p.priority >= 20
  }

  /** Two processes of nice 0 take turns, and all others that are runnable have nice 20. */
  predicate Rivals(p: Point, x: nat, y: nat) {
    && x != y && ((Low(p.s, x) && High(p.s, y)) || (Low(p.s, y) && High(p.s, x)))
    && (forall i | 0 <= i < |p.s.procs| && i != x && i != y :: Lags(p.s.procs[i]))
    && (p.i >= |p.s.procs| || p.high <= 19)
  }

  lemma {:induction false} RivalsStep(p: Point, x: nat, y: nat)
    requires Rivals(p, x, y)
    ensures Rivals(Next(p), x, y)
    ensures forall i :: Chosen(p, i) ==> i == x || i == y
  {
    var s := p.s;
    if p.i < |s.procs| && Chosen(p, p.i) {
      ClockTurns(s.clock);
      assert p.i == x || p.i == y;
      assert forall i | 0 <= i < |s.procs| && i != x && i != y :: Lags(Decayed(s.procs[i]));
    }
  }

  lemma {:induction false} RivalsRun(p: Point, x: nat, y: nat, k: nat)
    requires Rivals(p, x, y)
    ensures Rivals(After(p, k), x, y)
    decreases k
  {
    if k > 0 {
      RivalsStep(p, x, y);
      RivalsRun(Next(p), x, y, k - 1);
    }
  }

  /** Nobody else is ever chosen ... */
  lemma {:induction false} Starvation(p: Point, a: nat, x: nat, y: nat, k: nat)
    requires Rivals(p, x, y) && a != x && a != y
    ensures !Chosen(After(p, k), a)
  {
    RivalsRun(p, x, y, k);
    RivalsStep(After(p, k), x, y);
  }

  lemma {:induction false} AfterTwice(p: Point, j: nat, k: nat)
    ensures After(p, j + k) == After(After(p, j), k)
    decreases j
  {
    if j > 0 {
      AfterTwice(Next(p), j - 1, k);
    }
  }

  lemma {:induction false} RivalsRounds(p: Point, x: nat, y: nat, rounds: nat)
    requires Rivals(p, x, y) && p.i >= |p.s.procs|
    ensures After(p, Points(rounds, |p.s.procs|)).s.clock >= p.s.clock + rounds
    decreases rounds
  {
    if rounds > 0 {
      var n := |p.s.procs|;
      RoundIsSteps(p);
      PassIsSteps(Next(p));
      RoundTicks(p.s, if Low(p.s, x) then x else y);
      RivalsRun(p, x, y, n + 1);
      AfterTwice(p, n + 1, Points(rounds - 1, n));
      RivalsRounds(After(p, n + 1), x, y, rounds - 1);
    }
  }

  /** ... through any number of recalculations. */
  lemma {:induction false} Unbounded(p: Point, a: nat, x: nat, y: nat, bound: nat)
    requires Rivals(p, x, y) && a != x && a != y && p.i >= |p.s.procs|
    ensures exists k :: WatchAfter(Watch(p, 0), a, k).recalcs > bound
  {
    var k := Points(PERIOD * (bound + 1), |p.s.procs|);
    RivalsRounds(p, x, y, PERIOD * (bound + 1));
    forall j | 0 <= j < k
      ensures !Chosen(WatchAfter(Watch(p, 0), a, j).p, a)
    {
      Starvation(p, a, x, y, j);
      WatchPoints(Watch(p, 0), a, j, 0);
    }
    WaitCounts(Watch(p, 0), a, k);
    WatchPoints(Watch(p, 0), a, k, 0);
    Periods(p.s.clock, After(p, k).s.clock, bound + 1);
    assert WatchAfter(Watch(p, 0), a, k).recalcs > bound;
  }

  lemma Periods(c: nat, c': nat, n: nat)
    requires c' >= c + PERIOD * n
    ensures c' / PERIOD - c / PERIOD >= n
  {
  }

  // ---------------------------------------------------------------- runs of the whole system

  /** What can happen at a point: a scheduler step, or a system call of the process about to be dispatched,
      made during its tick. */
  datatype Act = Run | Fork | Nice(value: int)

  /** allocproc's scan, from slot i on. */
  function FirstUnused(procs: seq<Proc>, i: nat): (c: nat)
    requires i <= |procs|
    ensures i <= c <= |procs| && (c < |procs| ==> procs[c].state == Unused)
    ensures forall j | i <= j < c :: procs[j].state != Unused
    decreases |procs| - i
  {
    if i == |procs| || procs[i].state == Unused then i else FirstUnused(procs, i + 1)
  }

  /** fork and sys_nice, where they do not fail. */
  predicate Enabled(p: Point, act: Act) {
    match act
    case Run => true
    case Fork => Chosen(p, p.i) && FirstUnused(p.s.procs, 0) < |p.s.procs|
    case Nice(v) => Chosen(p, p.i) && 0 <= v <= 20
  }

  function WithProc(p: Point, i: nat, q: Proc): Point
    requires i < |p.s.procs|
  {
    p.(s := p.s.(procs := p.s.procs[i := q]))
  }

  const Forked: Proc := Proc(Runnable, 0, 0, 0, 0)

  function Does(p: Point, act: Act): Point
    requires Enabled(p, act)
  {
    match act
    case Run => Next(p)
    case Fork => WithProc(p, FirstUnused(p.s.procs, 0), Forked)
    case Nice(v) => WithProc(p, p.i, p.s.procs[p.i].(nice := v))
  }

  predicate Plays(p: Point, acts: seq<Act>, q: Point)
    decreases |acts|
  {
    if acts == [] then q == p else Enabled(p, acts[0]) && Plays(Does(p, acts[0]), acts[1..], q)
  }

  /** The first process, before the first round. */
  function Booted(): Point {
    Point(State(seq(NPROC, i requires 0 <= i < NPROC => if i == 0 then Forked else Proc(Unused, 0, 0, 0, 0)), 0), 0,
          NPROC)
  }

  ghost predicate Reachable(p: Point) {
    exists acts :: Plays(Booted(), acts, p)
  }

  /** What every run keeps: the usage is what it can be, and nice values are what sys_nice allows. */
  predicate Fair(s: State) {
    && UsageOk(s) && |s.procs| == NPROC
    && forall i | 0 <= i < |s.procs| ::
         && (s.procs[i].state == Unused || s.procs[i].state == Runnable)
         && 0 <= s.procs[i].nice <= 20 && s.procs[i].priority <= 100
  }

  lemma {:induction false} FairStep(p: Point, act: Act)
    requires Fair(p.s) && Enabled(p, act)
    ensures Fair(Does(p, act).s)
  {
    match act
    case Run =>
      UsageStep(p);
      if Chosen(p, p.i) {
        forall i | 0 <= i < |p.s.procs| && p.s.procs[i].state == Runnable
          ensures p.s.procs[i].cpu <= 200
        {
          TotalOfOne(p.s.procs, i, |p.s.procs|);
        }
      }
    case Fork =>
      var c := FirstUnused(p.s.procs, 0);
      TotalSame(p.s.procs, c, Forked, |p.s.procs|);
    case Nice(v) =>
      TotalSame(p.s.procs, p.i, p.s.procs[p.i].(nice := v), |p.s.procs|);
  }

  lemma {:induction false} TotalOfOne(procs: seq<Proc>, a: nat, n: nat)
    requires a < |procs| && n <= |procs| && procs[a].state != Unused
    ensures TotalCpu(procs, n) >= if a < n then procs[a].cpu else 0
  {
    if n > 0 {
      TotalOfOne(procs, a, n - 1);
    }
  }

  /** A process without recorded usage adds none, nor does a system call. */
  lemma {:induction false} TotalSame(procs: seq<Proc>, c: nat, q: Proc, n: nat)
    requires c < |procs| && n <= |procs|
    requires (procs[c].state == Unused && q.cpu == 0) || (procs[c].state == q.state && procs[c].cpu == q.cpu)
    ensures TotalCpu(procs[c := q], n) == TotalCpu(procs, n)
  {
    if n > 0 {
      TotalSame(procs, c, q, n - 1);
    }
  }

  lemma {:induction false} FairRun(p: Point, acts: seq<Act>, q: Point)
    requires Fair(p.s) && Plays(p, acts, q)
    ensures Fair(q.s)
    decreases |acts|
  {
    if acts != [] {
      FairStep(p, acts[0]);
      FairRun(Does(p, acts[0]), acts[1..], q);
    }
  }

  lemma ReachableFair(p: Point)
    requires Reachable(p)
    ensures Fair(p.s)
  {
    var acts :| Plays(Booted(), acts, p);
    BootedUsage(NPROC);
    FairRun(Booted(), acts, p);
  }

  lemma {:induction false} BootedUsage(n: nat)
    requires n <= NPROC
    ensures TotalCpu(Booted().s.procs, n) == 0
  {
    if n > 0 {
      BootedUsage(n - 1);
    }
  }

  lemma {:induction false} PlaysTwice(p: Point, a: seq<Act>, q: Point, b: seq<Act>, r: Point)
    requires Plays(p, a, q) && Plays(q, b, r)
    ensures Plays(p, a + b, r)
    decreases |a|
  {
    if a == [] {
      assert a + b == b;
    } else {
      assert (a + b)[0] == a[0] && (a + b)[1..] == a[1..] + b;
      PlaysTwice(Does(p, a[0]), a[1..], q, b, r);
    }
  }

  // ---------------------------------------------------------------- exactly when waiting is bounded

  function Runnables(procs: seq<Proc>, n: nat): nat
    requires n <= |procs|
  {
    if n == 0 then 0 else Runnables(procs, n - 1) + if procs[n - 1].state == Runnable then 1 else 0
  }

  ghost predicate Bounded(p: Point, a: nat) {
    forall k: nat :: WatchAfter(Watch(p, 0), a, k).recalcs <= 3
  }

  /** With m runnable processes, whatever forks, nice calls and rounds led to them, none ever waits through
      more than three recalculations. */
  ghost predicate AlwaysBounded(m: nat) {
    forall p: Point, a: nat | Reachable(p) && Runnables(p.s.procs, |p.s.procs|) == m && a < |p.s.procs|
    && p.s.procs[a].state == Runnable ::
      Bounded(p, a)
  }

  lemma {:induction false} FewBounded(p: Point, a: nat)
    requires Fair(p.s) && Runnables(p.s.procs, |p.s.procs|) <= 2 && a < |p.s.procs| && p.s.procs[a].state == Runnable
    ensures Bounded(p, a)
  {
    var procs := p.s.procs;
    if b: nat :| b < |procs| && b != a && procs[b].state == Runnable {
      forall i | 0 <= i < |procs|
        ensures procs[i].state == Runnable <==> i == a || i == b
      {
        if i != a && i != b && procs[i].state == Runnable {
          ThreeRunnable(procs, a, b, i, |procs|);
        }
      }
      forall k: nat
        ensures WatchAfter(Watch(p, 0), a, k).recalcs <= 3
      {
        BoundedWaiting(p, a, b, k);
      }
    } else {
      forall k: nat
        ensures WatchAfter(Watch(p, 0), a, k).recalcs <= 3
      {
        AloneRun(Watch(p, 0), a, k);
      }
    }
  }

  lemma {:induction false} ThreeRunnable(procs: seq<Proc>, a: nat, b: nat, c: nat, n: nat)
    requires a < |procs| && b < |procs| && c < |procs| && n <= |procs| && a != b && a != c && b != c
    requires procs[a].state == Runnable && procs[b].state == Runnable && procs[c].state == Runnable
    ensures Runnables(procs, n) >= (if a < n then 1 else 0) + (if b < n then 1 else 0) + if c < n then 1 else 0
  {
    if n > 0 {
      ThreeRunnable(procs, a, b, c, n - 1);
    }
  }

  /** A process that is runnable alone is the only one ever chosen. */
  lemma {:induction false} AloneRun(w: Watch, a: nat, k: nat)
    requires w.recalcs == 0 && forall i | 0 <= i < |w.p.s.procs| :: w.p.s.procs[i].state == Runnable ==> i == a
    ensures WatchAfter(w, a, k).recalcs == 0
    decreases k
  {
    if k > 0 {
      AloneRun(NextWatch(w, a), a, k - 1);
    }
  }

  // ---------------------------------------------------------------- a run into the rivalry

  /** Between two rounds process x has a higher priority than every other. */
  predicate Ahead(p: Point, x: nat) {
    && p.i == |p.s.procs| && x < |p.s.procs| && p.s.procs[x].state == Runnable && p.s.procs[x].priority < INT_MAX
    && forall i | 0 <= i < |p.s.procs| && i != x && p.s.procs[i].state == Runnable ::
         p.s.procs[i].priority > p.s.procs[x].priority
  }

  lemma {:induction false} AheadHighest(p: Point, x: nat, n: nat)
    requires Ahead(p, x) && n <= |p.s.procs|
    ensures if x < n then Highest(p.s.procs, n) == p.s.procs[x].priority
                     else Highest(p.s.procs, n) > p.s.procs[x].priority
  {
    if n > 0 {
      AheadHighest(p, x, n - 1);
    }
  }

  /** So many scheduler steps over processes that are not chosen. */
  lemma {:induction false} Skips(p: Point, j: nat) returns (acts: seq<Act>)
    requires p.i <= j <= |p.s.procs|
    requires forall i | p.i <= i < j :: !(p.s.procs[i].state == Runnable && p.s.procs[i].priority == p.high)
    ensures Plays(p, acts, p.(i := j))
    decreases j - p.i
  {
    if p.i == j {
      acts := [];
    } else {
      var rest := Skips(Next(p), j);
      acts := [Run] + rest;
      assert acts[1..] == rest;
    }
  }

  /** The point at which x is about to be dispatched. */
  function Turn(p: Point, x: nat): Point
    requires x < |p.s.procs|
  {
    Point(p.s, p.s.procs[x].priority, x)
  }

  lemma ToTurn(p: Point, x: nat) returns (acts: seq<Act>)
    requires Ahead(p, x)
    ensures Plays(p, acts, Turn(p, x)) && Chosen(Turn(p, x), x)
  {
    AheadHighest(p, x, |p.s.procs|);
    var rest := Skips(Next(p), x);
    acts := [Run] + rest;
    assert acts[1..] == rest;
  }

  /** From there: x is dispatched, and the round ends. */
  lemma FromTurn(q: Point, x: nat) returns (acts: seq<Act>, r: Point)
    requires Chosen(q, x)
    requires forall i | x < i < |q.s.procs| ::
               !(q.s.procs[i].state == Runnable && Dispatched(q.s, x).procs[i].priority == q.high)
    ensures Plays(q, acts, r) && r == Point(Dispatched(q.s, x), q.high, |q.s.procs|)
  {
    var rest := Skips(Next(q), |q.s.procs|);
    acts := [Run] + rest;
    assert acts[1..] == rest;
    r := Point(Dispatched(q.s, x), q.high, |q.s.procs|);
  }

  function Charge(q: Proc, k: nat): Proc {
    q.(ticks := q.ticks + k, cpu := q.cpu + k)
  }

  /** k rounds later, all of them x's. */
  predicate Later(p: Point, q: Point, x: nat, k: nat) {
    && |q.s.procs| == |p.s.procs| == q.i && x < q.i && q.s.clock == p.s.clock + k
    && q.s.procs[x] == Charge(p.s.procs[x], k)
    && forall i | 0 <= i < q.i && i != x :: q.s.procs[i] == p.s.procs[i]
  }

  lemma OneRound(p: Point, x: nat) returns (acts: seq<Act>, q: Point)
    requires Ahead(p, x) && !Recalculates(p.s)
    ensures Plays(p, acts, q) && Later(p, q, x, 1)
  {
    var a := ToTurn(p, x);
    var b, r := FromTurn(Turn(p, x), x);
    acts, q := a + b, r;
    PlaysTwice(p, a, Turn(p, x), b, r);
  }

  lemma {:induction false} Rounds(p: Point, x: nat, k: nat) returns (acts: seq<Act>, q: Point)
    requires Ahead(p, x) && p.s.clock % PERIOD + k < PERIOD
    ensures Plays(p, acts, q) && Later(p, q, x, k) && Ahead(q, x) && q.s.clock % PERIOD == p.s.clock % PERIOD + k
    decreases k
  {
    if k == 0 {
      acts, q := [], p;
    } else {
      var a, r := OneRound(p, x);
      var b;
      b, q := Rounds(r, x, k - 1);
      acts := a + b;
      PlaysTwice(p, a, r, b, q);
    }
  }

  /** The round of a recalculation, in which no process behind x takes x's old priority. */
  lemma LastRound(p: Point, x: nat) returns (acts: seq<Act>, q: Point)
    requires Ahead(p, x) && Recalculates(p.s)
    requires forall i | x < i < |p.s.procs| && p.s.procs[i].state == Runnable ::
               Decayed(p.s.procs[i]).priority != p.s.procs[x].priority
    ensures Plays(p, acts, q) && Decays(p, q, x, 0)
  {
    var a := ToTurn(p, x);
    var b, r := FromTurn(Turn(p, x), x);
    acts, q := a + b, r;
    PlaysTwice(p, a, Turn(p, x), b, r);
  }

  /** k rounds later, all of them x's, and then the round of a recalculation, x's too. */
  predicate Decays(p: Point, q: Point, x: nat, k: nat) {
    && |q.s.procs| == |p.s.procs| == q.i && x < q.i && q.s.clock == p.s.clock + k + 1
    && q.s.procs[x] == Charge(Decayed(Charge(p.s.procs[x], k)), 1)
    && forall i | 0 <= i < q.i && i != x :: q.s.procs[i] == Decayed(p.s.procs[i])
  }

  lemma WholePeriod(p: Point, x: nat) returns (acts: seq<Act>, q: Point)
    requires Ahead(p, x) && p.s.clock % PERIOD == 0
    requires forall i | x < i < |p.s.procs| && p.s.procs[i].state == Runnable ::
               Decayed(p.s.procs[i]).priority != p.s.procs[x].priority
    ensures Plays(p, acts, q) && Decays(p, q, x, PERIOD - 1)
  {
    var a, r := Rounds(p, x, PERIOD - 1);
    var b;
    b, q := LastRound(r, x);
    acts := a + b;
    PlaysTwice(p, a, r, b, q);
  }

  /** x forks in its round, and the child, in slot c, is ahead. */
  lemma ForkRound(p: Point, x: nat, c: nat) returns (acts: seq<Act>, q: Point)
    requires Ahead(p, x) && !Recalculates(p.s) && p.s.procs[x].priority > 0
    requires c == FirstUnused(p.s.procs, 0) < |p.s.procs|
    ensures Plays(p, acts, q) && Ahead(q, c) && Later(WithProc(p, c, Forked), q, x, 1)
  {
    var a := ToTurn(p, x);
    var t := Turn(p, x);
    var u := Does(t, Fork);
    var b, r := FromTurn(u, x);
    assert ([Fork] + b)[1..] == b;
    acts, q := a + ([Fork] + b), r;
    PlaysTwice(p, a, t, [Fork] + b, r);
  }

  /** c, the process in the last slot in use, sets its nice value in the round of a recalculation. */
  lemma NiceRound(p: Point, c: nat, v: int) returns (acts: seq<Act>, q: Point)
    requires Ahead(p, c) && Recalculates(p.s) && 0 <= v <= 20
    requires forall i | c < i < |p.s.procs| :: p.s.procs[i].state == Unused
    ensures Plays(p, acts, q) && Decays(WithProc(p, c, p.s.procs[c].(nice := v)), q, c, 0)
  {
    var a := ToTurn(p, c);
    var t := Turn(p, c);
    var u := Does(t, Nice(v));
    var b, r := FromTurn(u, c);
    assert ([Nice(v)] + b)[1..] == b;
    acts, q := a + ([Nice(v)] + b), r;
    PlaysTwice(p, a, t, [Nice(v)] + b, r);
  }

  /** At the end of a period x forks a process, which sets its nice value at once. */
  lemma JoinPeriod(p: Point, x: nat, c: nat, v: int) returns (acts: seq<Act>, q: Point)
    requires Ahead(p, x) && p.s.clock % PERIOD == 0 && p.s.procs[x].priority > 0 && 0 <= v <= 20
    requires c == FirstUnused(p.s.procs, 0) < |p.s.procs|
    requires forall i | c < i < |p.s.procs| :: p.s.procs[i].state == Unused
    ensures Plays(p, acts, q) && Joins(p, q, x, c, v)
  {
    var a, r := Rounds(p, x, PERIOD - 2);
    SameUnused(p.s.procs, r.s.procs, 0);
    var b, u := ForkRound(r, x, c);
    var d;
    d, q := NiceRound(u, c, v);
    PlaysTwice(r, b, u, d, q);
    PlaysTwice(p, a, r, b + d, q);
    acts := a + (b + d);
    JoinEnds(p, r, u, q, x, c, v);
  }

  lemma JoinEnds(p: Point, r: Point, u: Point, q: Point, x: nat, c: nat, v: int)
    requires Later(p, r, x, PERIOD - 2) && c < r.i && c != x && Later(WithProc(r, c, Forked), u, x, 1)
    requires Decays(WithProc(u, c, u.s.procs[c].(nice := v)), q, c, 0)
    ensures Joins(p, q, x, c, v)
  {
    assert u.s.procs[x] == Charge(p.s.procs[x], PERIOD - 1);
  }

  lemma {:induction false} SameUnused(procs: seq<Proc>, others: seq<Proc>, i: nat)
    requires i <= |procs| == |others| && forall j | 0 <= j < |procs| :: procs[j].state == others[j].state
    ensures FirstUnused(procs, i) == FirstUnused(others, i)
    decreases |procs| - i
  {
    if i < |procs| {
      SameUnused(procs, others, i + 1);
    }
  }

  /** A period later, with process c new. */
  predicate Joins(p: Point, q: Point, x: nat, c: nat, v: int) {
    && |q.s.procs| == |p.s.procs| == q.i && x < q.i && c < q.i && x != c && q.s.clock == p.s.clock + PERIOD
    && q.s.procs[x] == Decayed(Charge(p.s.procs[x], PERIOD - 1))
    && q.s.procs[c] == Charge(Decayed(Forked.(nice := v)), 1)
    && forall i | 0 <= i < q.i && i != x && i != c :: q.s.procs[i] == Decayed(p.s.procs[i])
  }

  /** Between two periods: the processes in slots below m are runnable, the first two of them rivals. */
  predicate Rivaling(p: Point, m: nat) {
    && |p.s.procs| == NPROC == p.i && p.s.clock % PERIOD == 0 && 2 <= m <= NPROC
    && (forall i | 0 <= i < NPROC :: p.s.procs[i].state == if i < m then Runnable else Unused)
    && (forall i | 2 <= i < m :: Lags(p.s.procs[i]))
    && (Starts(p.s, 0, 1) || Starts(p.s, 1, 0))
  }

  predicate Starts(s: State, x: nat, y: nat) {
    Low(s, x) && High(s, y) && s.procs[x].priority > 0
  }

  lemma RivalingRivals(p: Point, m: nat)
    requires Rivaling(p, m)
    ensures Rivals(p, 0, 1)
  {
  }

  lemma JoinRivals(p: Point, m: nat) returns (acts: seq<Act>, q: Point)
    requires Rivaling(p, m) && m < NPROC
    ensures Plays(p, acts, q) && Rivaling(q, m + 1)
  {
    var x := if Starts(p.s, 0, 1) then 0 else 1;
    FirstIs(p.s.procs, m, 0);
    acts, q := JoinPeriod(p, x, m, 20);
    JoinsRivaling(p, q, m, x, 1 - x);
  }

  /** The rivals have changed places. */
  lemma JoinsRivaling(p: Point, q: Point, m: nat, x: nat, y: nat)
    requires Rivaling(p, m) && m < NPROC && Joins(p, q, x, m, 20) && Starts(p.s, x, y)
    requires (x == 0 && y == 1) || (x == 1 && y == 0)
    ensures Rivaling(q, m + 1)
  {
    NextPeriod(p.s.clock, q.s.clock);
    RivalsSwap(p.s, q.s, x, y);
    JoinsStates(p, q, m, x);
    JoinsLags(p, q, m, x);
  }

  lemma NextPeriod(c: nat, d: nat)
    requires d == c + PERIOD
    ensures d % PERIOD == c % PERIOD
  {
  }

  lemma JoinsStates(p: Point, q: Point, m: nat, x: nat)
    requires |p.s.procs| == NPROC && m < NPROC && x < m && Joins(p, q, x, m, 20)
    requires forall i | 0 <= i < NPROC :: p.s.procs[i].state == if i < m then Runnable else Unused
    ensures forall i | 0 <= i < NPROC :: q.s.procs[i].state == if i < m + 1 then Runnable else Unused
  {
  }

  lemma JoinsLags(p: Point, q: Point, m: nat, x: nat)
    requires |p.s.procs| == NPROC && m < NPROC && x < 2 && Joins(p, q, x, m, 20)
    requires forall i | 2 <= i < m :: Lags(p.s.procs[i])
    ensures forall i | 2 <= i < m + 1 :: Lags(q.s.procs[i])
  {
    forall i | 2 <= i < m + 1
      ensures Lags(q.s.procs[i])
    {
      assert i < m ==> Lags(p.s.procs[i]);
    }
  }

  lemma RivalsSwap(s: State, t: State, x: nat, y: nat)
    requires Starts(s, x, y) && s.clock % PERIOD == 0 == t.clock % PERIOD && |t.procs| == |s.procs|
    requires t.procs[x] == Decayed(Charge(s.procs[x], PERIOD - 1)) && t.procs[y] == Decayed(s.procs[y])
    ensures Starts(t, y, x)
  {
  }

  lemma {:induction false} FirstIs(procs: seq<Proc>, m: nat, i: nat)
    requires i <= m < |procs| && procs[m].state == Unused && forall j | i <= j < m :: procs[j].state != Unused
    ensures FirstUnused(procs, i) == m
    decreases m - i
  {
    if i < m {
      FirstIs(procs, m, i + 1);
    }
  }

  // ---------------------------------------------------------------- nice values

  /** Until the next recalculation nothing changes the priority of a process in use. */
  lemma {:induction false} PriorityStays(p: Point, acts: seq<Act>, q: Point, i: nat)
    requires Plays(p, acts, q) && i < |p.s.procs| && p.s.procs[i].state != Unused
    ensures q.s.clock >= p.s.clock && |q.s.procs| == |p.s.procs|
    ensures q.s.clock / PERIOD == p.s.clock / PERIOD ==>
              q.s.procs[i].state != Unused && q.s.procs[i].priority == p.s.procs[i].priority
    decreases |acts|
  {
    if acts != [] {
      var r := Does(p, acts[0]);
      PriorityStays(r, acts[1..], q, i);
      PeriodTurns(p.s.clock);
      PeriodMonotone(p.s.clock, r.s.clock);
      PeriodMonotone(r.s.clock, q.s.clock);
    }
  }

  /** What nice is for: of two processes with the same usage at a recalculation the one of the lower nice value
      has the smaller priority number from there to the next recalculation, by as much as the values
      differ, whatever is run, forked or niced in between. */
  lemma {:induction false} NiceOrders(p: Point, i: nat, j: nat, acts: seq<Act>, q: Point)
    requires Chosen(p, p.i) && (p.s.clock + 1) % 100 == 0
    requires i < |p.s.procs| && j < |p.s.procs| && p.s.procs[i].cpu == p.s.procs[j].cpu
    requires p.s.procs[i].state != Unused && p.s.procs[j].state != Unused
    requires Plays(Next(p), acts, q) && q.s.clock < p.s.clock + 101
    ensures |q.s.procs| == |p.s.procs|
    ensures q.s.procs[i].priority - q.s.procs[j].priority == p.s.procs[i].nice - p.s.procs[j].nice
    ensures q.s.procs[i].priority < q.s.procs[j].priority <==> p.s.procs[i].nice < p.s.procs[j].nice
  {
    PriorityStays(Next(p), acts, q, i);
    PriorityStays(Next(p), acts, q, j);
    SamePeriod(p.s.clock + 1, q.s.clock);
  }

  lemma SamePeriod(c: nat, d: nat)
    requires c % PERIOD == 0 && c <= d < c + PERIOD
    ensures d / PERIOD == c / PERIOD
  {
  }

  /** Slot 0 as given, slot 1 as given, and the rest unused, between two periods. */
  predicate Pair(p: Point, first: bool, cpu0: nat, prio0: int, second: bool, cpu1: nat, prio1: int) {
    && |p.s.procs| == NPROC == p.i && p.s.clock % PERIOD == 0
    && Is(p.s.procs[0], first, cpu0, prio0) && Is(p.s.procs[1], second, cpu1, prio1)
    && forall i | 2 <= i < NPROC :: p.s.procs[i].state == Unused
  }

  predicate Is(q: Proc, used: bool, cpu: nat, prio: int) {
    if used then q.state == Runnable && q.nice == 0 && q.cpu == cpu && q.priority == prio else q.state == Unused
  }

  /** A whole period of slot 0's process. */
  lemma FirstPeriod(p: Point, cpu0: nat, prio0: int, second: bool, cpu1: nat, prio1: int)
      returns (acts: seq<Act>, q: Point)
    requires Pair(p, true, cpu0, prio0, second, cpu1, prio1) && prio0 < INT_MAX
    requires second ==> prio0 < prio1 && cpu1 / 2 / 2 != prio0
    ensures Plays(p, acts, q)
    ensures Pair(q, true, (cpu0 + 99) / 2 + 1, (cpu0 + 99) / 2 / 2, second, cpu1 / 2, cpu1 / 2 / 2)
  {
    acts, q := WholePeriod(p, 0);
  }

  lemma SecondPeriod(p: Point, cpu0: nat, prio0: int, cpu1: nat, prio1: int) returns (acts: seq<Act>, q: Point)
    requires Pair(p, true, cpu0, prio0, true, cpu1, prio1) && prio1 < prio0 && prio1 < INT_MAX
    ensures Plays(p, acts, q)
    ensures Pair(q, true, cpu0 / 2, cpu0 / 2 / 2, true, (cpu1 + 99) / 2 + 1, (cpu1 + 99) / 2 / 2)
  {
    acts, q := WholePeriod(p, 1);
  }

  /** At the end of a period the process of slot 0 forks. */
  lemma PairPeriod(p: Point, cpu0: nat, prio0: int) returns (acts: seq<Act>, q: Point)
    requires Pair(p, true, cpu0, prio0, false, 0, 0) && 0 < prio0 < INT_MAX
    ensures Plays(p, acts, q)
    ensures Pair(q, true, (cpu0 + 99) / 2, (cpu0 + 99) / 2 / 2, true, 1, 0)
  {
    FirstIs(p.s.procs, 1, 0);
    acts, q := JoinPeriod(p, 0, 1, 0);
    NextPeriod(p.s.clock, q.s.clock);
    PairJoins(p, q, cpu0, prio0);
  }

  lemma PairJoins(p: Point, q: Point, cpu0: nat, prio0: int)
    requires Pair(p, true, cpu0, prio0, false, 0, 0) && Joins(p, q, 0, 1, 0) && q.s.clock % PERIOD == 0
    ensures Pair(q, true, (cpu0 + 99) / 2, (cpu0 + 99) / 2 / 2, true, 1, 0)
  {
  }

  /** Two processes become rivals in six periods, the first of them alone in two. */
  lemma RivalsMeet() returns (acts: seq<Act>, q: Point)
    ensures Plays(Booted(), acts, q) && Rivaling(q, 2)
  {
    var a, p := PairMeets();
    var b, r := PairTurns(p);
    acts, q := a + b, r;
    PlaysTwice(Booted(), a, p, b, r);
  }

  lemma PairMeets() returns (acts: seq<Act>, q: Point)
    ensures Plays(Booted(), acts, q) && Pair(q, true, 87, 43, true, 1, 0)
  {
    BootedPair();
    var a, p := FirstPeriod(Booted(), 0, 0, false, 0, 0);
    var b;
    b, q := PairFollows(p);
    PlaysTwice(Booted(), a, p, b, q);
    acts := a + b;
  }

  lemma BootedPair()
    ensures Pair(Booted(), true, 0, 0, false, 0, 0)
  {
  }

  lemma PairFollows(p: Point) returns (acts: seq<Act>, q: Point)
    requires Pair(p, true, 50, 24, false, 0, 0)
    ensures Plays(p, acts, q) && Pair(q, true, 87, 43, true, 1, 0)
  {
    var a, r := FirstPeriod(p, 50, 24, false, 0, 0);
    var b;
    b, q := PairPeriod(r, 75, 37);
    PlaysTwice(p, a, r, b, q);
    acts := a + b;
  }

  lemma PairTurns(p: Point) returns (acts: seq<Act>, q: Point)
    requires Pair(p, true, 87, 43, true, 1, 0)
    ensures Plays(p, acts, q) && Rivaling(q, 2)
  {
    var a, r := SecondPeriod(p, 87, 43, 1, 0);
    var b, u := FirstPeriod(r, 43, 21, true, 51, 25);
    var c;
    c, q := SecondPeriod(u, 72, 35, 25, 12);
    PlaysTwice(r, b, u, c, q);
    PlaysTwice(p, a, r, b + c, q);
    acts := a + (b + c);
    PairRivaling(q);
  }

  lemma PairRivaling(q: Point)
    requires Pair(q, true, 36, 18, true, 63, 31)
    ensures Rivaling(q, 2)
  {
  }

  /** ... and then each period adds one of nice 20. */
  lemma {:induction false} RivalsReached(m: nat) returns (acts: seq<Act>, q: Point)
    requires 2 <= m <= NPROC
    ensures Plays(Booted(), acts, q) && Rivaling(q, m)
  {
    if m == 2 {
      acts, q := RivalsMeet();
    } else {
      var a, p := RivalsReached(m - 1);
      var b;
      b, q := JoinRivals(p, m - 1);
      PlaysTwice(Booted(), a, p, b, q);
      acts := a + b;
    }
  }

  lemma {:induction false} RunnablesBelow(procs: seq<Proc>, m: nat, n: nat)
    requires n <= |procs| && m <= |procs|
    requires forall i | 0 <= i < |procs| :: procs[i].state == Runnable <==> i < m
    ensures Runnables(procs, n) == if n < m then n else m
  {
    if n > 0 {
      RunnablesBelow(procs, m, n - 1);
    }
  }

  /** Starvation is reachable with any number of processes from three on. */
  lemma StarvationReached(m: nat) returns (p: Point)
    requires 3 <= m <= NPROC
    ensures Reachable(p) && Runnables(p.s.procs, |p.s.procs|) == m && p.i == |p.s.procs| == NPROC && Rivals(p, 0, 1)
    ensures p.s.procs[2].state == Runnable
  {
    var acts;
    acts, p := RivalsReached(m);
    RivalingRivals(p, m);
    RunnablesBelow(p.s.procs, m, NPROC);
  }

  /** Waiting is bounded, whatever forks, nice calls and rounds went before, if and only if at most two
      processes are runnable. */
  lemma BoundedIffTwo(m: nat)
    requires m <= NPROC
    ensures AlwaysBounded(m) <==> m <= 2
  {
    if m <= 2 {
      forall p: Point, a: nat | Reachable(p) && Runnables(p.s.procs, |p.s.procs|) == m && a < |p.s.procs|
      && p.s.procs[a].state == Runnable
        ensures Bounded(p, a)
      {
        ReachableFair(p);
        FewBounded(p, a);
      }
    } else {
      var p := StarvationReached(m);
      Unbounded(p, 2, 0, 1, 3);
      assert !Bounded(p, 2);
    }
  }
}
