/** Log space under every interleaving of begin_op, log_write, end_op and commit (log.c). */
module Reservation {
  import opened LogDisk

  /** The in-memory log as its lock protects it: the logged block numbers, and for each
      operation in progress how many new blocks it has logged. */
  datatype State = State(blocks: seq<int>, ops: seq<nat>, committing: bool, panicked: bool)

  datatype Step =
    | Begin                      // begin_op admits one more operation
    | Write(i: nat, block: int)  // operation i calls log_write
    | End(i: nat)                // operation i calls end_op
    | Commit                     // the commit that the last end_op started completes

  const Init := State([], [], false, false)

  /** Whether a step can be taken when each operation logs at most budget new blocks. */
  predicate Enabled(s: State, step: Step, budget: nat) {
    && !s.panicked
    && match step
       case Begin => !s.committing && |s.blocks| + (|s.ops| + 1) * MAXOPBLOCKS <= LOGSIZE
       case Write(i, b) => i < |s.ops| && (b in s.blocks || s.ops[i] < budget)
       case End(i) => i < |s.ops|
       case Commit => s.committing
  }

  function Remove(ops: seq<nat>, i: nat): seq<nat>
    requires i < |ops|
  {
    ops[..i] + ops[i + 1..]
  }

  /** The state after an enabled step; nlog is the size of the log area. */
  function After(s: State, step: Step, budget: nat, nlog: nat): State
    requires Enabled(s, step, budget)
  {
    match step
    case Begin => s.(ops := s.ops + [0])
    case Write(i, b) =>
      if |s.blocks| >= LOGSIZE || |s.blocks| >= nlog - 1 then s.(panicked := true)
      else if b in s.blocks then s
      else s.(blocks := s.blocks + [b], ops := s.ops[i := s.ops[i] + 1])
    case End(i) =>
      if s.committing then s.(panicked := true)
      else s.(ops := Remove(s.ops, i), committing := |s.ops| == 1)
    case Commit => s.(blocks := [], committing := false)
  }

  ghost predicate Follows(s: State, t: State, budget: nat, nlog: nat) {
    exists step :: Enabled(s, step, budget) && t == After(s, step, budget, nlog)
  }

  ghost predicate Run(states: seq<State>, budget: nat, nlog: nat) {
    && |states| > 0 && states[0] == Init
    && forall i | 0 < i < |states| :: Follows(states[i - 1], states[i], budget, nlog)
  }

  /** What the operations in progress may still log when each was promised quota blocks. */
  function Unspent(ops: seq<nat>, quota: nat): int {
    if ops == [] then 0 else quota - ops[0] + Unspent(ops[1..], quota)
  }

  lemma {:induction false} UnspentConcat(a: seq<nat>, b: seq<nat>, quota: nat)
    ensures Unspent(a + b, quota) == Unspent(a, quota) + Unspent(b, quota)
  {
    if a == [] {
      assert a + b == b;
    } else {
      assert (a + b)[1..] == a[1..] + b;
      UnspentConcat(a[1..], b, quota);
    }
  }

  lemma UnspentParts(ops: seq<nat>, i: nat, quota: nat)
    requires i < |ops|
    ensures Unspent(ops, quota) == Unspent(Remove(ops, i), quota) + quota - ops[i]
    ensures Unspent(ops[i := ops[i] + 1], quota) == Unspent(ops, quota) - 1
  {
    assert ops == ops[..i] + ([ops[i]] + ops[i + 1..]);
    assert ops[i := ops[i] + 1] == ops[..i] + ([ops[i] + 1] + ops[i + 1..]);
    UnspentConcat(ops[..i], [ops[i]] + ops[i + 1..], quota);
    UnspentConcat(ops[..i], [ops[i] + 1] + ops[i + 1..], quota);
    UnspentConcat(ops[..i], ops[i + 1..], quota);
  }

  lemma {:induction false} UnspentNonNegative(ops: seq<nat>, quota: nat)
    requires forall i | 0 <= i < |ops| :: ops[i] <= quota
    ensures Unspent(ops, quota) >= 0
  {
    if ops != [] {
      UnspentNonNegative(ops[1..], quota);
    }
  }

  /** Kept by every step: all quotas stay covered by log space, whether they are counted as
      the MAXOPBLOCKS that begin_op counts or as the budget the operations keep to. */
  ghost predicate Inv(s: State, budget: nat) {
    && (forall i, j | 0 <= i < j < |s.blocks| :: s.blocks[i] != s.blocks[j])
    && (s.committing ==> s.ops == [])
    && (s.ops == [] && !s.committing ==> s.blocks == [])
    && (forall i | 0 <= i < |s.ops| :: s.ops[i] <= budget)
    && |s.blocks| + Unspent(s.ops, MAXOPBLOCKS) <= LOGSIZE
    && |s.blocks| + Unspent(s.ops, budget) <= LOGSIZE - 2 * (MAXOPBLOCKS - budget)
  }

  lemma {:induction false} BeginKeeps(s: State, budget: nat, quota: nat)
    requires quota <= MAXOPBLOCKS
    ensures Unspent(s.ops + [0], quota) == Unspent(s.ops, quota) + quota
    ensures Unspent(s.ops, quota) <= |s.ops| * quota
    decreases |s.ops|
  {
    UnspentConcat(s.ops, [0], quota);
    if s.ops != [] {
      BeginKeeps(s.(ops := s.ops[1..]), budget, quota);
      assert |s.ops| * quota == (|s.ops| - 1) * quota + quota;
    }
  }

  /** The room begin_op insists on, counted in budgets: a first operation finds an empty log, and
      each of two or more leaves MAXOPBLOCKS - budget of its reservation unused. */
  lemma Admitted(n: nat, o: nat, unspent: int, budget: nat)
    requires n + (o + 1) * MAXOPBLOCKS <= LOGSIZE && unspent <= o * budget
    requires budget <= MAXOPBLOCKS && (o == 0 ==> n == 0)
    ensures n + unspent + budget <= LOGSIZE - 2 * (MAXOPBLOCKS - budget)
  {
    var spare := MAXOPBLOCKS - budget;
    assert o * budget == o * MAXOPBLOCKS - o * spare;
    if o > 0 {
      assert o * spare >= spare;
    }
  }

  lemma BeginStep(s: State, budget: nat, nlog: nat)
    requires budget <= MAXOPBLOCKS && Inv(s, budget) && Enabled(s, Begin, budget)
    ensures Inv(After(s, Begin, budget, nlog), budget)
  {
    BeginKeeps(s, budget, MAXOPBLOCKS);
    BeginKeeps(s, budget, budget);
    Admitted(|s.blocks|, |s.ops|, Unspent(s.ops, budget), budget);
  }

  lemma WriteStep(s: State, i: nat, b: int, budget: nat, nlog: nat)
    requires budget <= MAXOPBLOCKS && Inv(s, budget) && Enabled(s, Write(i, b), budget)
    ensures Inv(After(s, Write(i, b), budget, nlog), budget)
  {
    UnspentParts(s.ops, i, MAXOPBLOCKS);
    UnspentParts(s.ops, i, budget);
  }

  lemma EndStep(s: State, i: nat, budget: nat, nlog: nat)
    requires budget <= MAXOPBLOCKS && Inv(s, budget) && Enabled(s, End(i), budget)
    ensures Inv(After(s, End(i), budget, nlog), budget)
  {
    UnspentParts(s.ops, i, MAXOPBLOCKS);
    UnspentParts(s.ops, i, budget);
  }

  lemma StepKeeps(s: State, step: Step, budget: nat, nlog: nat)
    requires budget <= MAXOPBLOCKS && Inv(s, budget) && Enabled(s, step, budget)
    ensures Inv(After(s, step, budget, nlog), budget)
  {
    match step
    case Begin => BeginStep(s, budget, nlog);
    case Write(i, b) => WriteStep(s, i, b, budget, nlog);
    case End(i) => EndStep(s, i, budget, nlog);
    case Commit =>
  }

  /** In every state of every run logged block numbers are distinct, the log has room for all
      that begin_op promised, and no more than MAXOPBLOCKS + 2 * budget blocks are ever logged. */
  lemma {:induction false} ReservationHolds(states: seq<State>, budget: nat, nlog: nat)
    requires Run(states, budget, nlog) && budget <= MAXOPBLOCKS
    ensures var s := states[|states| - 1];
            && Inv(s, budget)
            && |s.blocks| <= MAXOPBLOCKS + 2 * budget
  {
    var last := |states| - 1;
    if last > 0 {
      ReservationHolds(states[..last], budget, nlog);
      assert Follows(states[last - 1], states[last], budget, nlog);
      var step :| Enabled(states[last - 1], step, budget)
                  && states[last] == After(states[last - 1], step, budget, nlog);
      StepKeeps(states[last - 1], step, budget, nlog);
    }
    UnspentNonNegative(states[last].ops, budget);
  }

  /** Three operations admitted and m blocks logged, the first ten by the first of them and so on. */
  function Filled(m: nat): State
    requires m < LOGSIZE
  {
    State(seq(m, i => i),
          if m <= MAXOPBLOCKS then [m, 0, 0]
          else if m <= 2 * MAXOPBLOCKS then [MAXOPBLOCKS, m - MAXOPBLOCKS, 0]
          else [MAXOPBLOCKS, MAXOPBLOCKS, m - 2 * MAXOPBLOCKS],
          false, false)
  }

  lemma {:induction false} FilledRun(m: nat, budget: nat) returns (states: seq<State>)
    requires m < LOGSIZE && budget >= MAXOPBLOCKS
    ensures Run(states, budget, LOGSIZE) && states[|states| - 1] == Filled(m)
  {
    if m == 0 {
      var s1, s2 := Init.(ops := [0]), Init.(ops := [0, 0]);
      assert Filled(0) == Init.(ops := [0, 0, 0]);
      states := [Init, s1, s2, Filled(0)];
      assert Enabled(Init, Begin, budget) && s1 == After(Init, Begin, budget, LOGSIZE);
      assert Enabled(s1, Begin, budget) && s2 == After(s1, Begin, budget, LOGSIZE);
      assert Enabled(s2, Begin, budget) && Filled(0) == After(s2, Begin, budget, LOGSIZE);
    } else {
      states := FilledRun(m - 1, budget);
      var step := Write((m - 1) / MAXOPBLOCKS, m - 1);
      assert Enabled(Filled(m - 1), step, budget);
      assert Filled(m).blocks == Filled(m - 1).blocks + [m - 1];
      assert Filled(m) == After(Filled(m - 1), step, budget, LOGSIZE);
      states := states + [Filled(m)];
    }
  }

  /** With the log that mkfs makes, LOGSIZE blocks of which one is the header, log_write can
      panic exactly when operations may log all of the MAXOPBLOCKS blocks they are promised. */
  lemma GuardFires(budget: nat)
    ensures (exists states: seq<State> :: Run(states, budget, LOGSIZE) && states[|states| - 1].panicked) <==>
              budget >= MAXOPBLOCKS
  {
    if budget >= MAXOPBLOCKS {
      var states := FilledRun(LOGSIZE - 1, budget);
      var full := Filled(LOGSIZE - 1);
      var step := Write(2, LOGSIZE);
      assert Enabled(full, step, budget);
      var run := states + [After(full, step, budget, LOGSIZE)];
      assert Run(run, budget, LOGSIZE) && run[|run| - 1].panicked;
    } else {
      forall states: seq<State> | Run(states, budget, LOGSIZE)
        ensures !states[|states| - 1].panicked
      {
        NeverPanics(states, budget);
      }
    }
  }

  lemma {:induction false} NeverPanics(states: seq<State>, budget: nat)
    requires Run(states, budget, LOGSIZE) && budget < MAXOPBLOCKS
    ensures !states[|states| - 1].panicked
  {
    var last := |states| - 1;
    if last > 0 {
      NeverPanics(states[..last], budget);
      ReservationHolds(states[..last], budget, LOGSIZE);
      assert Follows(states[last - 1], states[last], budget, LOGSIZE);
    }
  }
}
