/** The pipe (pipe.c): a ring buffer whose 32-bit counters wrap, and every interleaving of its
    readers and writers. */
module Pipe {
  import opened Common

  const PIPESIZE: nat := 512

  // ---------------------------------------------------------------- the ring

  /** nwrite - nread in unsigned arithmetic. */
  function Count(nread: Uint, nwrite: Uint): nat {
    if nwrite >= nread then nwrite - nread else nwrite + UINT - nread
  }

  function Advance(n: Uint, k: nat): Uint
    requires k <= PIPESIZE
  {
    if n + k < UINT then n + k else n + k - UINT
  }

  /** The bytes stored and not yet read, oldest first. */
  function Buffered(data: seq<Byte>, nread: Uint, count: nat): (b: seq<Byte>)
    requires |data| == PIPESIZE && count <= PIPESIZE
    ensures |b| == count
  {
    seq(count, k requires 0 <= k < count => data[Advance(nread, k) % PIPESIZE])
  }

  /** The counters wrap at a multiple of the ring's size, so that places stay distinct. */
  lemma Places(n: Uint, j: nat, k: nat)
    requires j < k < PIPESIZE
    ensures Advance(n, j) % PIPESIZE != Advance(n, k) % PIPESIZE
  {
    assert Advance(n, j) % PIPESIZE == (n + j) % PIPESIZE;
    assert Advance(n, k) % PIPESIZE == (n + k) % PIPESIZE;
  }

  lemma AdvanceMore(n: Uint, k: nat)
    requires k < PIPESIZE
    ensures Advance(Advance(n, k), 1) == Advance(n, k + 1) && Advance(Advance(n, 1), k) == Advance(n, k + 1)
  {
  }

  lemma BufferedStored(data: seq<Byte>, nread: Uint, count: nat, x: Byte)
    requires |data| == PIPESIZE && count < PIPESIZE
    ensures Buffered(data[Advance(nread, count) % PIPESIZE := x], nread, count + 1)
              == Buffered(data, nread, count) + [x]
  {
    forall k | 0 <= k < count
      ensures Advance(nread, k) % PIPESIZE != Advance(nread, count) % PIPESIZE
    {
      Places(nread, k, count);
    }
  }

  lemma BufferedTaken(data: seq<Byte>, nread: Uint, count: nat)
    requires |data| == PIPESIZE && 0 < count <= PIPESIZE
    ensures Buffered(data, nread, count) == [data[nread % PIPESIZE]] + Buffered(data, Advance(nread, 1), count - 1)
  {
    forall k | 0 <= k < count - 1
      ensures Advance(Advance(nread, 1), k) == Advance(nread, k + 1)
    {
      AdvanceMore(nread, k);
    }
  }

  function Min(a: nat, b: nat): nat {
    if a < b then a else b
  }

  /** How a call's section under the lock ends. */
  datatype Outcome = Returned(value: int) | Asleep

  class Ring {
    const data: array<Byte>
    var nread: Uint
    var nwrite: Uint
    var readopen: bool
    var writeopen: bool

    ghost predicate Valid()
      reads this, data
    {
      data.Length == PIPESIZE && Count(nread, nwrite) <= PIPESIZE
    }

    ghost function Contents(): (b: seq<Byte>)
      reads this, data
      requires Valid()
      ensures |b| <= PIPESIZE
    {
      Buffered(data[..], nread, Count(nread, nwrite))
    }

    /** pipealloc. */
    constructor ()
      ensures Valid() && fresh(data) && Contents() == [] && readopen && writeopen
    {
      data := new Byte[PIPESIZE](_ => 0);
      nread, nwrite, readopen, writeopen := 0, 0, true, true;
    }

    method Store(x: Byte)
      requires Valid() && |Contents()| < PIPESIZE
      modifies data, this`nwrite
      ensures Valid() && Contents() == old(Contents()) + [x]
    {
      ghost var before, count := data[..], Count(nread, nwrite);
      BufferedStored(before, nread, count, x);
      assert Advance(nread, count) == nwrite;
      AdvanceMore(nread, count);
      data[nwrite % PIPESIZE] := x;
      assert data[..] == before[nwrite % PIPESIZE := x];
      nwrite := Advance(nwrite, 1);
    }

    method Take() returns (x: Byte)
      requires Valid() && Contents() != []
      modifies this`nread
      ensures Valid() && old(Contents()) == [x] + Contents()
    {
      BufferedTaken(data[..], nread, Count(nread, nwrite));
      x := data[nread % PIPESIZE];
      nread := Advance(nread, 1);
    }

    /** pipewrite from the i-th byte on, until it returns or sleeps; woken says whether it wakes the
        readers. It returns the whole length if and only if the rest fits; if not, it stores what does, and
        fails if and only if nobody can read any more or the writer is killed. */
    method WriteSection(addr: seq<Byte>, start: nat, killed: bool) returns (i: nat, outcome: Outcome, woken: bool)
      requires Valid() && start <= |addr|
      modifies data, this`nwrite
      ensures Valid()
      ensures outcome == Returned(|addr|) <==> |addr| - start <= PIPESIZE - |old(Contents())|
      ensures outcome == Returned(-1) <==>
                |addr| - start > PIPESIZE - |old(Contents())| && (!readopen || killed)
      ensures outcome == Asleep <==> |addr| - start > PIPESIZE - |old(Contents())| && readopen && !killed
      ensures woken <==> outcome != Returned(-1)
      ensures start <= i <= |addr| && (outcome == Returned(|addr|) <==> i == |addr|)
      ensures Contents() == old(Contents()) + addr[start..i]
      ensures i < |addr| ==> |Contents()| == PIPESIZE
      ensures (i, outcome, woken) == WriteEnds(|old(Contents())|, |addr|, start, readopen, killed)
    {
      i := start;
      while i < |addr|
        invariant Valid() && start <= i <= |addr| && Contents() == old(Contents()) + addr[start..i]
      {
        if nwrite == Advance(nread, PIPESIZE) {
          assert Count(nread, nwrite) == PIPESIZE;
          if !readopen || killed {
            return i, Returned(-1), false;
          }
          return i, Asleep, true;
        }
        assert Count(nread, nwrite) < PIPESIZE;
        Store(addr[i]);
        assert addr[start..i + 1] == addr[start..i] + [addr[i]];
        i := i + 1;
      }
      return i, Returned(|addr|), true;
    }

    /** piperead until it returns or sleeps. */
    method ReadSection(n: nat, killed: bool) returns (bytes: seq<Byte>, outcome: Outcome, woken: bool)
      requires Valid()
      modifies this`nread
      ensures Valid() && old(Contents()) == bytes + Contents()
      ensures if old(Contents()) == [] && writeopen
                then bytes == [] && !woken && outcome == (if killed then Returned(-1) else Asleep)
              else woken && outcome == Returned(|bytes|)
                   && |bytes| == (if n <= |old(Contents())| then n else |old(Contents())|)
      ensures (|bytes|, outcome, woken) == ReadEnds(|old(Contents())|, n, writeopen, killed)
    {
      bytes := [];
      if nread == nwrite && writeopen {
        return [], if killed then Returned(-1) else Asleep, false;
      }
      var i := 0;
      while i < n && nread != nwrite
        invariant Valid() && 0 <= i <= n && |bytes| == i && old(Contents()) == bytes + Contents()
      {
        ghost var before := Contents();
        var x := Take();
        assert bytes + before == (bytes + [x]) + Contents();
        bytes := bytes + [x];
        i := i + 1;
      }
      return bytes, Returned(i), true;
    }
  }

  /** What a writer's section comes to, with count bytes buffered before. */
  function WriteEnds(count: nat, n: nat, start: nat, readopen: bool, killed: bool): (nat, Outcome, bool)
    requires count <= PIPESIZE && start <= n
  {
    if n - start <= PIPESIZE - count then (n, Returned(n), true)
    else if !readopen || killed then (start + (PIPESIZE - count), Returned(-1), false)
    else (start + (PIPESIZE - count), Asleep, true)
  }

  /** What a reader's section comes to. */
  function ReadEnds(count: nat, n: nat, writeopen: bool, killed: bool): (nat, Outcome, bool) {
    if count == 0 && writeopen then (0, if killed then Returned(-1) else Asleep, false)
    else (Min(n, count), Returned(Min(n, count)), true)
  }

  // ---------------------------------------------------------------- every interleaving

  /** A process's call on the pipe: the call-th write, with its next byte, or a read. */
  datatype Op = Idle | Write(addr: seq<Byte>, i: nat, call: nat) | Read(n: nat)

  /** Asleep on &p->nread or &p->nwrite, or not. */
  datatype Sleep = Awake | OnRead | OnWrite

  datatype Thread = Thread(op: Op, sleep: Sleep, killed: bool)

  /** A write ever called, with its result once it has one. */
  datatype WriteCall = WriteCall(addr: seq<Byte>, result: Option<int>)

  /** A read that has returned, with the bytes that it got. */
  datatype ReadCall = ReadCall(n: nat, result: int, bytes: seq<Byte>)

  /** The pipe as the sequence of the bytes in it, the processes, all bytes ever stored, with the write
      that each of them is of, all bytes ever delivered, and the calls. */
  datatype System = System(buf: seq<Byte>, readopen: bool, writeopen: bool, threads: seq<Thread>,
                           stored: seq<Byte>, owners: seq<nat>, delivered: seq<Byte>,
                           writes: seq<WriteCall>, replies: seq<ReadCall>)

  datatype Step =
    | StartWrite(t: nat, addr: seq<Byte>)
    | StartRead(t: nat, n: nat)
    | RunWrite(t: nat)                  // a writer's section, from the start or from sleep on
    | RunRead(t: nat)
    | CloseWrite                        // pipeclose of the last descriptor of an end
    | CloseRead
    | Kill(t: nat)

  predicate AwakeIn(s: System, t: nat) {
    t < |s.threads| && s.threads[t].sleep == Awake
  }

  /** A process calls an end that is open, and an end is closed when no process is in a call on it. */
  predicate Enabled(s: System, step: Step) {
    match step
    case StartWrite(t, addr) => AwakeIn(s, t) && s.threads[t].op == Idle && s.writeopen
    case StartRead(t, n) => AwakeIn(s, t) && s.threads[t].op == Idle && s.readopen
    case RunWrite(t) =>
      AwakeIn(s, t) && s.threads[t].op.Write? && s.threads[t].op.i <= |s.threads[t].op.addr| && |s.buf| <= PIPESIZE
      && s.threads[t].op.call < |s.writes|
    case RunRead(t) => AwakeIn(s, t) && s.threads[t].op.Read?
    case CloseWrite => s.writeopen && forall t | 0 <= t < |s.threads| :: !s.threads[t].op.Write?
    case CloseRead => s.readopen && forall t | 0 <= t < |s.threads| :: !s.threads[t].op.Read?
    case Kill(t) => t < |s.threads|
  }

  function WakeOne(t: Thread, c: Sleep): Thread {
    if t.sleep == c then t.(sleep := Awake) else t
  }

  function Woken(threads: seq<Thread>, c: Sleep): (r: seq<Thread>)
    ensures |r| == |threads| && forall t | 0 <= t < |threads| :: r[t] == WakeOne(threads[t], c)
  {
    seq(|threads|, t requires 0 <= t < |threads| => WakeOne(threads[t], c))
  }

  function WriteStep(s: System, t: nat): System
    requires Enabled(s, RunWrite(t))
  {
    var th := s.threads[t];
    var c := th.op.call;
    var (i, outcome, woken) := WriteEnds(|s.buf|, |th.op.addr|, th.op.i, s.readopen, th.killed);
    var threads := if woken then Woken(s.threads, OnRead) else s.threads;
    var after := if outcome == Asleep then th.(op := Write(th.op.addr, i, c), sleep := OnWrite) else th.(op := Idle);
    var bytes := th.op.addr[th.op.i..i];
    s.(buf := s.buf + bytes, stored := s.stored + bytes, owners := s.owners + Repeated(c, |bytes|),
       threads := threads[t := after],
       writes := if outcome == Asleep then s.writes else s.writes[c := s.writes[c].(result := Some(outcome.value))])
  }

  function Repeated(c: nat, n: nat): (r: seq<nat>)
    ensures |r| == n
  {
    seq(n, _ => c)
  }

  function ReadStep(s: System, t: nat): System
    requires Enabled(s, RunRead(t))
  {
    var th := s.threads[t];
    var (m, outcome, woken) := ReadEnds(|s.buf|, th.op.n, s.writeopen, th.killed);
    var threads := if woken then Woken(s.threads, OnWrite) else s.threads;
    var after := if outcome == Asleep then th.(sleep := OnRead) else th.(op := Idle);
    s.(buf := s.buf[m..], delivered := s.delivered + s.buf[..m], threads := threads[t := after],
       replies := if outcome == Asleep then s.replies else s.replies + [ReadCall(th.op.n, outcome.value, s.buf[..m])])
  }

  function Apply(s: System, step: Step): System
    requires Enabled(s, step)
  {
    match step
    case StartWrite(t, addr) =>
      s.(threads := s.threads[t := s.threads[t].(op := Write(addr, 0, |s.writes|))],
         writes := s.writes + [WriteCall(addr, None)])
    case StartRead(t, n) => s.(threads := s.threads[t := s.threads[t].(op := Read(n))])
    case RunWrite(t) => WriteStep(s, t)
    case RunRead(t) => ReadStep(s, t)
    case CloseWrite => s.(writeopen := false, threads := Woken(s.threads, OnRead))
    case CloseRead => s.(readopen := false, threads := Woken(s.threads, OnWrite))
    case Kill(t) => s.(threads := s.threads[t := s.threads[t].(killed := true, sleep := Awake)])
  }

  /** A writer sleeps only while the pipe is full, nobody who is killed sleeps, and each process is in a
      call on an open end. */
  predicate ThreadOk(s: System, t: nat)
    requires t < |s.threads|
  {
    var th := s.threads[t];
    && (th.op.Write? ==> s.writeopen && th.op.i <= |th.op.addr|)
    && (th.op.Read? ==> s.readopen)
    && (th.sleep == OnWrite ==> th.op.Write? && s.readopen && |s.buf| == PIPESIZE && th.op.i < |th.op.addr|)
    && (th.sleep == OnRead ==> th.op.Read? && s.writeopen)
    && (th.killed ==> th.sleep == Awake)
  }

  ghost predicate Inv(s: System) {
    && s.stored == s.delivered + s.buf && |s.buf| <= PIPESIZE
    && (forall t | 0 <= t < |s.threads| :: ThreadOk(s, t))
    && CallsOk(s)
  }

  lemma {:induction false} StepKeeps(s: System, step: Step)
    requires Inv(s) && Enabled(s, step)
    ensures Inv(Apply(s, step))
  {
    BufferKeeps(s, step);
    CallsKeep(s, step);
    forall t | 0 <= t < |Apply(s, step).threads|
      ensures ThreadOk(Apply(s, step), t)
    {
      ThreadKeeps(s, step, t);
    }
  }

  /** What is stored is what was delivered and then what is buffered. */
  lemma {:induction false} BufferKeeps(s: System, step: Step)
    requires Inv(s) && Enabled(s, step)
    ensures var after := Apply(s, step); after.stored == after.delivered + after.buf && |after.buf| <= PIPESIZE
    ensures |Apply(s, step).threads| == |s.threads|
  {
    if step.RunWrite? {
      var th := s.threads[step.t];
      assert ThreadOk(s, step.t);
      var (i, _, _) := WriteEnds(|s.buf|, |th.op.addr|, th.op.i, s.readopen, th.killed);
      Regrouped(s.delivered, s.buf, th.op.addr[th.op.i..i]);
    } else if step.RunRead? {
      var m := if s.buf == [] then 0 else Min(s.threads[step.t].op.n, |s.buf|);
      Regrouped(s.delivered, s.buf[..m], s.buf[m..]);
      assert s.buf == s.buf[..m] + s.buf[m..];
    }
  }

  lemma {:induction false} ThreadKeeps(s: System, step: Step, t: nat)
    requires Inv(s) && Enabled(s, step) && t < |s.threads|
    ensures |Apply(s, step).threads| == |s.threads| && ThreadOk(Apply(s, step), t)
  {
    assert ThreadOk(s, t);
    if step.RunWrite? {
      assert ThreadOk(s, step.t);
    }
  }

  // ---------------------------------------------------------------- what each call has done

  /** The stored bytes that are of write c, in the order in which they were stored. */
  function Part(stored: seq<Byte>, owners: seq<nat>, c: nat): seq<Byte>
    requires |owners| == |stored|
    decreases |stored|
  {
    if stored == [] then []
    else
      var k := |stored| - 1;
      Part(stored[..k], owners[..k], c) + if owners[k] == c then [stored[k]] else []
  }

  lemma {:induction false} PartMore(stored: seq<Byte>, owners: seq<nat>, bytes: seq<Byte>, d: nat, c: nat)
    requires |owners| == |stored|
    ensures Part(stored + bytes, owners + Repeated(d, |bytes|), c)
              == Part(stored, owners, c) + if d == c then bytes else []
    decreases |bytes|
  {
    var all, who := stored + bytes, owners + Repeated(d, |bytes|);
    if bytes == [] {
      assert all == stored && who == owners;
    } else {
      var k := |bytes| - 1;
      PartMore(stored, owners, bytes[..k], d, c);
      assert all[..|all| - 1] == stored + bytes[..k];
      assert who[..|all| - 1] == owners + Repeated(d, k);
      assert bytes == bytes[..k] + [bytes[k]];
      assert who[|all| - 1] == d && all[|all| - 1] == bytes[k];
    }
  }

  lemma {:induction false} PartNone(stored: seq<Byte>, owners: seq<nat>, c: nat)
    requires |owners| == |stored| && forall k | 0 <= k < |owners| :: owners[k] != c
    ensures Part(stored, owners, c) == []
    decreases |stored|
  {
    if stored != [] {
      PartNone(stored[..|stored| - 1], owners[..|stored| - 1], c);
    }
  }

  /** The bytes that write c has stored so far. */
  function PartOf(s: System, c: nat): seq<Byte>
    requires |s.owners| == |s.stored|
  {
    Part(s.stored, s.owners, c)
  }

  predicate Writes(s: System, t: nat, c: nat) {
    t < |s.threads| && s.threads[t].op.Write? && s.threads[t].op.call == c
  }

  /** A write in progress has stored the bytes before its next one. */
  predicate Writing(s: System, t: nat, c: nat)
    requires |s.owners| == |s.stored|
  {
    && Writes(s, t, c) && c < |s.writes| && s.writes[c] == WriteCall(s.threads[t].op.addr, None)
    && s.threads[t].op.i <= |s.threads[t].op.addr|
    && PartOf(s, c) == s.threads[t].op.addr[..s.threads[t].op.i]
  }

  /** A write that has returned its length has stored all of its bytes, and one that has failed not all. */
  predicate WriteOk(s: System, c: nat)
    requires |s.owners| == |s.stored| && c < |s.writes|
  {
    var w := s.writes[c];
    w.result.Some? ==>
      && PartOf(s, c) <= w.addr
      && w.result.value == if PartOf(s, c) == w.addr then |w.addr| else -1
  }

  /** What the reads that have returned got, one after the other. */
  function Got(replies: seq<ReadCall>): seq<Byte> {
    if replies == [] then [] else Got(replies[..|replies| - 1]) + replies[|replies| - 1].bytes
  }

  /** A read returns how many bytes it got, or -1 and gets none. */
  predicate ReadOk(r: ReadCall) {
    |r.bytes| <= r.n && (r.result == |r.bytes| || (r.result == -1 && r.bytes == []))
  }

  ghost predicate CallsOk(s: System) {
    && |s.owners| == |s.stored|
    && (forall k | 0 <= k < |s.owners| :: s.owners[k] < |s.writes|)
    && (forall t: nat, c: nat | Writes(s, t, c) :: Writing(s, t, c))
    && (forall t: nat, u: nat, c: nat | Writes(s, t, c) && Writes(s, u, c) :: t == u)
    && (forall c: nat | c < |s.writes| :: WriteOk(s, c))
    && s.delivered == Got(s.replies)
    && (forall k | 0 <= k < |s.replies| :: ReadOk(s.replies[k]))
  }

  lemma {:induction false} CallsKeep(s: System, step: Step)
    requires Inv(s) && Enabled(s, step)
    ensures CallsOk(Apply(s, step))
  {
    match step
    case StartWrite(t, addr) => StartKeeps(s, t, addr);
    case RunWrite(t) => WriteKeeps(s, t);
    case RunRead(t) => ReadKeeps(s, t);
    case _ => SameCalls(s, Apply(s, step));
  }

  /** A step that stores nothing and starts or ends no write. */
  lemma {:induction false} SameCalls(s: System, s': System)
    requires CallsOk(s) && s'.stored == s.stored && s'.owners == s.owners && s'.writes == s.writes
    requires |s'.threads| == |s.threads|
    requires forall t | 0 <= t < |s.threads| :: s'.threads[t].op.Write? ==> s'.threads[t].op == s.threads[t].op
    requires s'.delivered == Got(s'.replies) && forall k | 0 <= k < |s'.replies| :: ReadOk(s'.replies[k])
    ensures CallsOk(s')
  {
    forall t: nat, c: nat | Writes(s', t, c)
      ensures Writes(s, t, c) && Writing(s', t, c)
    {
      assert Writes(s, t, c) && Writing(s, t, c);
    }
    forall c: nat | c < |s'.writes|
      ensures WriteOk(s', c)
    {
      assert WriteOk(s, c);
    }
  }

  lemma {:induction false} ReadKeeps(s: System, t: nat)
    requires Inv(s) && Enabled(s, RunRead(t))
    ensures CallsOk(Apply(s, RunRead(t)))
  {
    ReadReplies(s, t);
    ReadThreads(s, t);
    SameCalls(s, Apply(s, RunRead(t)));
  }

  lemma ReadThreads(s: System, t: nat)
    requires Enabled(s, RunRead(t))
    ensures var s' := Apply(s, RunRead(t));
            && |s'.threads| == |s.threads|
            && forall u | 0 <= u < |s.threads| :: s'.threads[u].op.Write? ==> s'.threads[u].op == s.threads[u].op
  {
  }

  lemma ReadReplies(s: System, t: nat)
    requires Enabled(s, RunRead(t)) && s.delivered == Got(s.replies)
    requires forall k | 0 <= k < |s.replies| :: ReadOk(s.replies[k])
    ensures var s' := Apply(s, RunRead(t));
            && s'.delivered == Got(s'.replies)
            && forall k | 0 <= k < |s'.replies| :: ReadOk(s'.replies[k])
  {
    var s' := Apply(s, RunRead(t));
    ReadAdds(s, t);
    if s'.replies != s.replies {
      GotMore(s.replies, s'.replies[|s.replies|]);
    }
  }

  /** A section of piperead that returns adds one reply, and otherwise nothing is delivered. */
  lemma ReadAdds(s: System, t: nat)
    requires Enabled(s, RunRead(t))
    ensures var s' := Apply(s, RunRead(t));
            if s'.replies == s.replies then s'.delivered == s.delivered
            else && |s'.replies| == |s.replies| + 1 && s'.replies == s.replies + [s'.replies[|s.replies|]]
                 && ReadOk(s'.replies[|s.replies|])
                 && s'.delivered == s.delivered + s'.replies[|s.replies|].bytes
  {
  }

  lemma GotMore(replies: seq<ReadCall>, call: ReadCall)
    ensures Got(replies + [call]) == Got(replies) + call.bytes
  {
    assert (replies + [call])[..|replies|] == replies;
  }

  lemma {:induction false} StartKeeps(s: System, t: nat, addr: seq<Byte>)
    requires Inv(s) && Enabled(s, StartWrite(t, addr))
    ensures CallsOk(Apply(s, StartWrite(t, addr)))
  {
    var s' := Apply(s, StartWrite(t, addr));
    PartNone(s.stored, s.owners, |s.writes|);
    forall u: nat, c: nat | Writes(s', u, c)
      ensures if u == t then c == |s.writes| else Writes(s, u, c) && c < |s.writes|
      ensures Writing(s', u, c)
    {
      assert u != t ==> Writes(s, u, c) && Writing(s, u, c);
    }
    forall c: nat | c < |s'.writes|
      ensures WriteOk(s', c)
    {
      assert c < |s.writes| ==> WriteOk(s, c);
    }
  }

  /** A writer's section stores its next bytes, and nothing of other writes. */
  lemma {:induction false} WriteStores(s: System, t: nat, c: nat)
    requires Inv(s) && Enabled(s, RunWrite(t))
    ensures var th, s' := s.threads[t], Apply(s, RunWrite(t));
            var i := WriteEnds(|s.buf|, |th.op.addr|, th.op.i, s.readopen, th.killed).0;
            th.op.i <= i <= |th.op.addr| && |s'.owners| == |s'.stored|
            && PartOf(s', c) == if c == th.op.call then th.op.addr[..i] else PartOf(s, c)
  {
    var th := s.threads[t];
    assert Writes(s, t, th.op.call) && Writing(s, t, th.op.call);
    var i := WriteEnds(|s.buf|, |th.op.addr|, th.op.i, s.readopen, th.killed).0;
    PartMore(s.stored, s.owners, th.op.addr[th.op.i..i], th.op.call, c);
    assert th.op.addr[..th.op.i] + th.op.addr[th.op.i..i] == th.op.addr[..i];
  }

  lemma {:induction false} WriteGoesOn(s: System, t: nat, u: nat, c: nat)
    requires Inv(s) && Enabled(s, RunWrite(t)) && Writes(Apply(s, RunWrite(t)), u, c)
    ensures Writes(s, u, c) && |Apply(s, RunWrite(t)).owners| == |Apply(s, RunWrite(t)).stored|
    ensures Writing(Apply(s, RunWrite(t)), u, c)
  {
    assert Writes(s, u, c) && Writing(s, u, c);
    assert Writes(s, t, s.threads[t].op.call);
    WriteStores(s, t, c);
  }

  lemma {:induction false} WriteEnded(s: System, t: nat, c: nat)
    requires Inv(s) && Enabled(s, RunWrite(t)) && c < |s.writes|
    ensures |Apply(s, RunWrite(t)).owners| == |Apply(s, RunWrite(t)).stored|
    ensures WriteOk(Apply(s, RunWrite(t)), c)
  {
    var th := s.threads[t];
    var i := WriteEnds(|s.buf|, |th.op.addr|, th.op.i, s.readopen, th.killed).0;
    assert Writes(s, t, th.op.call) && Writing(s, t, th.op.call) && WriteOk(s, c);
    WriteStores(s, t, c);
    assert i < |th.op.addr| ==> |th.op.addr[..i]| != |th.op.addr|;
    assert th.op.addr[..|th.op.addr|] == th.op.addr;
  }

  lemma {:induction false} WriteKeeps(s: System, t: nat)
    requires Inv(s) && Enabled(s, RunWrite(t))
    ensures CallsOk(Apply(s, RunWrite(t)))
  {
    var s' := Apply(s, RunWrite(t));
    WriteStores(s, t, 0);
    forall u: nat, c: nat | Writes(s', u, c)
      ensures Writes(s, u, c) && Writing(s', u, c)
    {
      WriteGoesOn(s, t, u, c);
    }
    forall c: nat | c < |s'.writes|
      ensures WriteOk(s', c)
    {
      WriteEnded(s, t, c);
    }
  }

  // ---------------------------------------------------------------- when a reader is stranded

  predicate AsleepOn(s: System, t: nat, c: Sleep) {
    t < |s.threads| && s.threads[t].sleep == c
  }

  /** Some reader is asleep although bytes are buffered. */
  ghost predicate ReaderStuck(s: System) {
    s.buf != [] && exists t :: AsleepOn(s, t, OnRead)
  }

  /** A killed writer runs that cannot store all it has left, while a reader is asleep. */
  ghost predicate Strands(s: System, step: Step) {
    && step.RunWrite? && step.t < |s.threads| && s.threads[step.t].op.Write? && s.threads[step.t].killed
    && |s.threads[step.t].op.addr| - s.threads[step.t].op.i > PIPESIZE - |s.buf|
    && exists t :: AsleepOn(s, t, OnRead)
  }

  /** A step leaves a reader asleep before buffered bytes if and only if it is such a writer's. */
  lemma {:induction false} StrandsIff(s: System, step: Step)
    requires Inv(s) && Enabled(s, step) && !ReaderStuck(s)
    ensures ReaderStuck(Apply(s, step)) <==> Strands(s, step)
  {
    if Strands(s, step) {
      var t :| AsleepOn(s, t, OnRead);
      StrandsReader(s, step, t);
    } else if ReaderStuck(Apply(s, step)) {
      var t :| AsleepOn(Apply(s, step), t, OnRead);
      StuckStrands(s, step, t);
    }
  }

  lemma {:induction false} StrandsReader(s: System, step: Step, t: nat)
    requires Inv(s) && Enabled(s, step) && Strands(s, step) && AsleepOn(s, t, OnRead)
    ensures AsleepOn(Apply(s, step), t, OnRead) && Apply(s, step).buf != []
  {
    assert ThreadOk(s, t) && ThreadOk(s, step.t);
  }

  lemma {:induction false} StuckStrands(s: System, step: Step, t: nat)
    requires Inv(s) && Enabled(s, step) && !ReaderStuck(s)
    requires AsleepOn(Apply(s, step), t, OnRead) && Apply(s, step).buf != []
    ensures Strands(s, step)
  {
    assert t < |s.threads| by {
      BufferKeeps(s, step);
    }
    assert ThreadOk(s, t);
    if step.RunWrite? {
      assert ThreadOk(s, step.t);
    }
    assert AsleepOn(s, t, OnRead) || step == RunRead(t);
  }

  ghost predicate Reaches(s: System, steps: seq<Step>, s': System)
    decreases |steps|
  {
    if steps == [] then s' == s else Enabled(s, steps[0]) && Reaches(Apply(s, steps[0]), steps[1..], s')
  }

  /** A new pipe. */
  predicate Fresh(s: System) {
    && s.buf == [] && s.readopen && s.writeopen && s.stored == [] && s.owners == [] && s.delivered == []
    && s.writes == [] && s.replies == []
    && forall t | 0 <= t < |s.threads| :: s.threads[t] == Thread(Idle, Awake, s.threads[t].killed)
  }

  lemma {:induction false} FreshOk(s: System)
    requires Fresh(s)
    ensures Inv(s)
  {
    forall t | 0 <= t < |s.threads|
      ensures ThreadOk(s, t)
    {
    }
  }

  lemma {:induction false} RunKeeps(s: System, steps: seq<Step>, s': System)
    requires Inv(s) && Reaches(s, steps, s')
    ensures Inv(s')
    decreases |steps|
  {
    if steps != [] {
      StepKeeps(s, steps[0]);
      RunKeeps(Apply(s, steps[0]), steps[1..], s');
    }
  }

  /** No reader is asleep before buffered bytes at any point of the run. */
  ghost predicate NeverStuck(s: System, steps: seq<Step>)
    decreases |steps|
  {
    !ReaderStuck(s) && (steps == [] || (Enabled(s, steps[0]) && NeverStuck(Apply(s, steps[0]), steps[1..])))
  }

  /** No step of the run is a killed writer's that fills the pipe while a reader is asleep. */
  ghost predicate NoneStrands(s: System, steps: seq<Step>)
    decreases |steps|
  {
    steps == [] || (!Strands(s, steps[0]) && Enabled(s, steps[0]) && NoneStrands(Apply(s, steps[0]), steps[1..]))
  }

  lemma {:induction false} StuckIff(s: System, steps: seq<Step>, s': System)
    requires Inv(s) && Reaches(s, steps, s') && !ReaderStuck(s)
    ensures NeverStuck(s, steps) <==> NoneStrands(s, steps)
    ensures NeverStuck(s, steps) ==> !ReaderStuck(s')
    decreases |steps|
  {
    if steps != [] {
      StepKeeps(s, steps[0]);
      StrandsIff(s, steps[0]);
      if !Strands(s, steps[0]) {
        StuckIff(Apply(s, steps[0]), steps[1..], s');
      } else {
        assert !NeverStuck(Apply(s, steps[0]), steps[1..]);
      }
    }
  }

  /** Over every interleaving: what readers got, followed by what is buffered, is what writers stored,
      in order; at most 512 bytes are buffered; no writer sleeps while there is room; and no reader
      ever sleeps while there is data if and only if no killed writer fills the pipe before one. */
  lemma {:induction false} PipeFifo(s: System, steps: seq<Step>, s': System)
    requires Fresh(s) && Reaches(s, steps, s')
    ensures s'.stored == s'.delivered + s'.buf && |s'.buf| <= PIPESIZE
    ensures forall t | AsleepOn(s', t, OnWrite) :: |s'.buf| == PIPESIZE
    ensures NeverStuck(s, steps) <==> NoneStrands(s, steps)
    ensures NoneStrands(s, steps) ==> !exists t, u :: AsleepOn(s', t, OnRead) && AsleepOn(s', u, OnWrite)
  {
    FreshOk(s);
    RunKeeps(s, steps, s');
    StuckIff(s, steps, s');
    forall t | 0 <= t < |s'.threads|
      ensures AsleepOn(s', t, OnWrite) ==> |s'.buf| == PIPESIZE
    {
      assert ThreadOk(s', t);
    }
  }

  /** Over every interleaving, what each call returns is what it has done: the bytes of a write are stored in
      its order, all of them if it returned their number, and not all if it failed; a read's result is
      the number of bytes it got, and what the reads got, one after the other, is what was delivered. */
  lemma {:induction false} CallsDone(s: System, steps: seq<Step>, s': System)
    requires Fresh(s) && Reaches(s, steps, s')
    ensures |s'.owners| == |s'.stored|
    ensures forall c: nat | c < |s'.writes| && s'.writes[c].result.Some? ::
              && PartOf(s', c) <= s'.writes[c].addr
              && (s'.writes[c].result == Some(|s'.writes[c].addr|) <==> PartOf(s', c) == s'.writes[c].addr)
              && (s'.writes[c].result == Some(-1) <==> |PartOf(s', c)| < |s'.writes[c].addr|)
    ensures s'.delivered == Got(s'.replies)
    ensures forall k | 0 <= k < |s'.replies| ::
              && |s'.replies[k].bytes| <= s'.replies[k].n
              && (s'.replies[k].result == |s'.replies[k].bytes|
                  || (s'.replies[k].result == -1 && s'.replies[k].bytes == []))
  {
    FreshOk(s);
    RunKeeps(s, steps, s');
    forall c: nat | c < |s'.writes|
      ensures WriteOk(s', c) && (|PartOf(s', c)| == |s'.writes[c].addr| && PartOf(s', c) <= s'.writes[c].addr ==>
                                   PartOf(s', c) == s'.writes[c].addr)
    {
    }
    assert forall k | 0 <= k < |s'.replies| :: ReadOk(s'.replies[k]);
  }

  lemma {:induction false} Preceded(s: System, step: Step, steps: seq<Step>, s': System)
    requires Enabled(s, step) && Reaches(Apply(s, step), steps, s')
    ensures Reaches(s, [step] + steps, s')
  {
    assert ([step] + steps)[1..] == steps;
  }

  predicate Stranded(s: System) {
    && |s.buf| == PIPESIZE && |s.threads| == 3 && s.threads[2].sleep == OnRead
    && s.threads[0].op == Idle && s.threads[1].op == Idle
  }

  /** With a killed writer a reader may be left asleep in front of a full pipe: the writer, woken by a
      first reader, fills the pipe again and leaves without a wakeup. */
  lemma {:induction false} KilledWriterStrands(s: System, addr: seq<Byte>)
    requires Fresh(s) && |s.threads| == 3 && (forall t | 0 <= t < 3 :: !s.threads[t].killed) && |addr| > 2 * PIPESIZE
    ensures exists steps, s' :: Reaches(s, steps, s') && Stranded(s')
  {
    var s1 := Apply(s, StartWrite(0, addr));
    var s2 := Apply(s1, RunWrite(0));
    var s3 := Apply(s2, StartRead(1, PIPESIZE));
    var s4 := Apply(s3, RunRead(1));
    assert s4.threads == [Thread(Write(addr, PIPESIZE, 0), Awake, false), Thread(Idle, Awake, false),
                          Thread(Idle, Awake, false)];
    var steps, s' := WriterLeaves(s4, addr);
    Preceded(s3, RunRead(1), steps, s');
    Preceded(s2, StartRead(1, PIPESIZE), [RunRead(1)] + steps, s');
    Preceded(s1, RunWrite(0), [StartRead(1, PIPESIZE)] + ([RunRead(1)] + steps), s');
    Preceded(s, StartWrite(0, addr), [RunWrite(0)] + ([StartRead(1, PIPESIZE)] + ([RunRead(1)] + steps)), s');
  }

  lemma {:induction false} WriterLeaves(s: System, addr: seq<Byte>) returns (steps: seq<Step>, s': System)
    requires s.buf == [] && s.readopen && s.writeopen && |addr| > 2 * PIPESIZE && |s.writes| > 0
    requires s.threads == [Thread(Write(addr, PIPESIZE, 0), Awake, false), Thread(Idle, Awake, false),
                           Thread(Idle, Awake, false)]
    ensures Reaches(s, steps, s') && Stranded(s')
  {
    var s1 := Apply(s, StartRead(2, 1));
    var s2 := Apply(s1, RunRead(2));
    var s3 := Apply(s2, Kill(0));
    s' := Apply(s3, RunWrite(0));
    Preceded(s3, RunWrite(0), [], s');
    Preceded(s2, Kill(0), [RunWrite(0)], s');
    Preceded(s1, RunRead(2), [Kill(0)] + [RunWrite(0)], s');
    steps := [StartRead(2, 1)] + ([RunRead(2)] + ([Kill(0)] + [RunWrite(0)]));
    Preceded(s, StartRead(2, 1), [RunRead(2)] + ([Kill(0)] + [RunWrite(0)]), s');
  }
}
