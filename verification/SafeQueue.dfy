/** The proxy's thread-safe priority queue (safequeue.c): an array scanned for the highest priority,
    under a mutex and a condition variable. */
module SafeQueue {
  const MAX_QUEUE_SIZE: nat := 1000

  datatype Request = Request(clientFd: int, priority: int, delay: int, path: string)

  const NoRequest := Request(-1, -1, -1, "")

  // ---------------------------------------------------------------- the scan and the stable order

  /** The index that the scan over the first n requests ends with: -1 as long as no priority is above
      -1, else the first of the highest priority. */
  function Best(s: seq<Request>, n: nat): (k: int)
    requires n <= |s|
    ensures -1 <= k < n
    ensures k == -1 <==> forall i | 0 <= i < n :: s[i].priority < 0
    ensures k >= 0 ==> && s[k].priority >= 0 && (forall i | 0 <= i < n :: s[i].priority <= s[k].priority)
                       && forall i | 0 <= i < k :: s[i].priority < s[k].priority
  {
    if n == 0 then -1
    else
      var k := Best(s, n - 1);
      if (if k == -1 then -1 else s[k].priority) < s[n - 1].priority then n - 1 else k
  }

  /** Request k has the highest priority of all, not a negative one, and is the first that has it. */
  predicate FirstOfHighest(s: seq<Request>, k: nat) {
    && k < |s| && s[k].priority >= 0
    && (forall i | 0 <= i < |s| :: s[i].priority <= s[k].priority)
    && forall i | 0 <= i < k :: s[i].priority < s[k].priority
  }

  function Without(s: seq<Request>, k: nat): (r: seq<Request>)
    requires k < |s|
    ensures |r| == |s| - 1
  {
    s[..k] + s[k + 1..]
  }

  predicate AllRanked(s: seq<Request>) {
    forall r | r in s :: r.priority >= 0
  }

  /** Inserting into a queue that is kept in order: behind all requests of at least its priority. */
  function Insert(q: seq<Request>, r: Request): (p: seq<Request>)
    ensures |p| == |q| + 1
  {
    if q == [] || q[0].priority < r.priority then [r] + q else [q[0]] + Insert(q[1..], r)
  }

  /** The stable order: highest priority first, insertion order among equals. */
  function Order(s: seq<Request>): (q: seq<Request>)
    ensures |q| == |s|
  {
    if s == [] then [] else Insert(Order(s[..|s| - 1]), s[|s| - 1])
  }

  predicate Ordered(q: seq<Request>) {
    forall i, j | 0 <= i < j < |q| :: q[i].priority >= q[j].priority
  }

  lemma {:induction false} InsertKeeps(q: seq<Request>, r: Request)
    ensures multiset(Insert(q, r)) == multiset(q) + multiset{r}
  {
    if q != [] && q[0].priority >= r.priority {
      InsertKeeps(q[1..], r);
      assert q == [q[0]] + q[1..];
    }
  }

  lemma {:induction false} InsertIn(q: seq<Request>, r: Request, i: nat)
    requires i <= |q|
    ensures Insert(q, r)[i] == r || exists j | 0 <= j < |q| :: q[j] == Insert(q, r)[i]
  {
    if q != [] && q[0].priority >= r.priority {
      if i > 0 {
        InsertIn(q[1..], r, i - 1);
        assert Insert(q, r)[i] == Insert(q[1..], r)[i - 1];
        if Insert(q, r)[i] != r {
          var j :| 0 <= j < |q[1..]| && q[1..][j] == Insert(q[1..], r)[i - 1];
          assert q[j + 1] == Insert(q, r)[i];
        }
      }
    } else if i > 0 {
      assert q[i - 1] == Insert(q, r)[i];
    }
  }

  lemma {:induction false} InsertOrdered(q: seq<Request>, r: Request)
    requires Ordered(q)
    ensures Ordered(Insert(q, r))
  {
    if q != [] && q[0].priority >= r.priority {
      InsertOrdered(q[1..], r);
      forall i | 0 <= i < |q|
        ensures Insert(q[1..], r)[i].priority <= q[0].priority
      {
        InsertIn(q[1..], r, i);
      }
    }
  }

  lemma MultisetLast(s: seq<Request>)
    requires s != []
    ensures multiset(s) == multiset(s[..|s| - 1]) + multiset{s[|s| - 1]}
  {
    assert s == s[..|s| - 1] + [s[|s| - 1]];
  }

  lemma {:induction false} OrderOrdered(s: seq<Request>)
    ensures Ordered(Order(s)) && multiset(Order(s)) == multiset(s)
  {
    if s != [] {
      var t, r := s[..|s| - 1], s[|s| - 1];
      OrderOrdered(t);
      InsertOrdered(Order(t), r);
      InsertKeeps(Order(t), r);
      MultisetLast(s);
    }
  }

  /** What the scan finds in the array is the head of the ordered queue, and shifting it out of the
      array takes the head off. */
  lemma {:induction false} ScanIsHead(s: seq<Request>)
    requires Best(s, |s|) >= 0
    ensures Order(s) == [s[Best(s, |s|)]] + Order(Without(s, Best(s, |s|)))
  {
    var t, r := s[..|s| - 1], s[|s| - 1];
    assert s == t + [r];
    BestSame(t, s, |t|);
    if Best(t, |t|) == -1 {
      HeadIsLast(t, r);
    } else {
      ScanIsHead(t);
      HeadStays(t, r);
    }
  }

  /** Behind requests of negative priority, which the scan passes over. */
  lemma {:induction false} HeadIsLast(t: seq<Request>, r: Request)
    requires Best(t, |t|) == -1 && r.priority >= 0
    ensures var s := t + [r];
            Best(s, |s|) == |t| && Order(s) == [s[|t|]] + Order(Without(s, |t|))
  {
    var s := t + [r];
    assert s[..|t|] == t[..|t|] && s[..|t|] == t && Without(s, |t|) == t;
    BestSame(t, s, |t|);
    OrderOrdered(t);
    if t != [] {
      assert Order(t)[0] in multiset(Order(t));
      assert Order(t)[0] in t;
    }
  }

  /** Behind a queue in which the scan finds something. */
  lemma {:induction false} HeadStays(t: seq<Request>, r: Request)
    requires Best(t, |t|) >= 0 && Order(t) == [t[Best(t, |t|)]] + Order(Without(t, Best(t, |t|)))
    ensures var s := t + [r];
            Best(s, |s|) >= 0 && Order(s) == [s[Best(s, |s|)]] + Order(Without(s, Best(s, |s|)))
  {
    BestLast(t, r);
    HeadWithLast(t, Best(t, |t|), r);
  }

  lemma {:induction false} BestLast(t: seq<Request>, r: Request)
    requires Best(t, |t|) >= 0
    ensures Best(t + [r], |t| + 1) == if t[Best(t, |t|)].priority < r.priority then |t| else Best(t, |t|)
  {
    var s := t + [r];
    assert s[..|t|] == t[..|t|];
    BestSame(t, s, |t|);
    assert s[|t|] == r && s[Best(t, |t|)] == t[Best(t, |t|)];
  }

  lemma {:induction false} HeadWithLast(t: seq<Request>, k: nat, r: Request)
    requires k < |t| && Order(t) == [t[k]] + Order(Without(t, k))
    ensures Order(t + [r]) == if t[k].priority < r.priority then [r] + Order(Without(t + [r], |t|))
                              else [t[k]] + Order(Without(t + [r], k))
  {
    var s, rest := t + [r], Without(t, k);
    assert s[..|t|] == t;
    if t[k].priority < r.priority {
      assert Without(s, |t|) == t;
    } else {
      assert Order(t)[1..] == Order(rest);
      assert Without(s, k) == rest + [r];
      assert (rest + [r])[..|rest|] == rest;
    }
  }

  lemma {:induction false} BestSame(s: seq<Request>, t: seq<Request>, n: nat)
    requires n <= |s| && n <= |t| && s[..n] == t[..n]
    ensures Best(s, n) == Best(t, n)
    decreases n
  {
    if n > 0 {
      assert s[..n - 1] == s[..n][..n - 1] == t[..n][..n - 1] == t[..n - 1];
      BestSame(s, t, n - 1);
      assert s[n - 1] == s[..n][n - 1] == t[n - 1];
      assert Best(s, n - 1) >= 0 ==> s[Best(s, n - 1)] == s[..n][Best(s, n - 1)] == t[Best(s, n - 1)];
    }
  }

  lemma WithoutRanked(s: seq<Request>, k: nat)
    requires k < |s| && AllRanked(s)
    ensures AllRanked(Without(s, k))
  {
    forall r | r in Without(s, k)
      ensures r in s
    {
    }
  }

  // ---------------------------------------------------------------- the program

  class Queue {
    const requests: array<Request>
    const maxSize: int
    var currSize: nat

    ghost predicate Valid()
      reads this, requests
    {
      requests.Length == MAX_QUEUE_SIZE && currSize <= MAX_QUEUE_SIZE && (0 <= maxSize ==> currSize <= maxSize)
    }

    ghost function Contents(): seq<Request>
      reads this, requests
      requires Valid()
    {
      requests[..currSize]
    }

    /** create_queue, which takes any size. */
    constructor (size: int)
      ensures Valid() && fresh(requests) && Contents() == [] && maxSize == size
    {
      currSize, maxSize := 0, size;
      requests := new Request[MAX_QUEUE_SIZE](_ => Request(-1, -1, 0, ""));
    }

    /** add_work; signalled says whether it signals the condition. ok is false where it stores behind
        the array: when that is full and maxSize is another number. */
    method AddWork(clientFd: int, priority: int, delay: int, path: string) returns (ok: bool, r: int, signalled: bool)
      requires Valid()
      modifies this`currSize, requests
      ensures Valid() && (ok <==> |old(Contents())| < MAX_QUEUE_SIZE || maxSize == MAX_QUEUE_SIZE)
      ensures ok && |old(Contents())| == maxSize ==> r == -1 && !signalled && Contents() == old(Contents())
      ensures ok && |old(Contents())| != maxSize ==>
                r == 0 && signalled && Contents() == old(Contents()) + [Request(clientFd, priority, delay, path)]
    {
      if currSize == maxSize {
        return true, -1, false;
      }
      if currSize == MAX_QUEUE_SIZE {
        return false, 0, false;
      }
      ghost var before := requests[..currSize];
      requests[currSize] := requests[currSize].(clientFd := clientFd);
      requests[currSize] := requests[currSize].(priority := priority);
      requests[currSize] := requests[currSize].(delay := delay);
      requests[currSize] := requests[currSize].(path := path);
      currSize := currSize + 1;
      assert requests[..currSize] == before + [Request(clientFd, priority, delay, path)];
      return true, 0, true;
    }

    /** The scan that peek, get_work and get_work_nonblocking share. */
    method Scan() returns (index: int)
      requires Valid()
      ensures index == Best(Contents(), |Contents()|)
    {
      var highest := -1;
      index := -1;
      ghost var s := requests[..currSize];
      var i := 0;
      while i < currSize
        invariant 0 <= i <= currSize && index == Best(s, i)
        invariant highest == if index == -1 then -1 else s[index].priority
      {
        assert s[i] == requests[i];
        if highest < requests[i].priority {
          highest := requests[i].priority;
          index := i;
        }
        i := i + 1;
      }
    }

    /** peek. */
    method Peek() returns (index: int)
      requires Valid()
      ensures index == Best(Contents(), |Contents()|)
      ensures index == -1 <==> forall r | r in Contents() :: r.priority < 0
    {
      if currSize == 0 {
        return -1;
      }
      index := Scan();
      assert index != -1 ==> Contents()[index] in Contents();
    }

    /** get_work and get_work_nonblocking stay inside the array, whose shift reads one place behind the
        last request: some priority is not negative, and the array is not full. */
    ghost predicate Inside()
      reads this, requests
      requires Valid()
    {
      (exists r :: r in Contents() && r.priority >= 0) && |Contents()| < MAX_QUEUE_SIZE
    }

    /** What get_work does once the queue is not empty, and get_work_nonblocking too: the request that
        is first in the stable order leaves the queue. */
    method TakeNext() returns (ok: bool, next: Request)
      requires Valid() && Contents() != []
      modifies this`currSize, requests
      ensures Valid() && (ok <==> old(Inside()))
      ensures ok ==> Order(old(Contents())) == [next] + Order(Contents())
      ensures ok ==> exists k: nat :: FirstOfHighest(old(Contents()), k) && next == old(Contents())[k]
                                      && Contents() == old(Contents())[..k] + old(Contents())[k + 1..]
      ensures !ok ==> Contents() == old(Contents())
    {
      ghost var s := Contents();
      var index := Scan();
      assert index != -1 ==> s[index] in s;
      ok, next := index != -1 && currSize < MAX_QUEUE_SIZE, NoRequest;
      if ok {
        ScanIsHead(s);
        assert FirstOfHighest(s, index);
        next := requests[index];
        Shift(index);
      }
    }

    /** Place j once the places from index on up to i have been shifted. */
    static function Moved(before: seq<Request>, index: nat, i: nat, j: nat): Request
      requires j < |before| && i < |before|
    {
      if index <= j < i then before[j + 1] else before[j]
    }

    /** The shift and the decrement that follow the scan. */
    method Shift(index: nat)
      requires requests.Length == MAX_QUEUE_SIZE && index < currSize < MAX_QUEUE_SIZE
      modifies this`currSize, requests
      ensures currSize == old(currSize) - 1 && requests[..currSize] == Without(old(requests[..currSize]), index)
    {
      ghost var before := requests[..];
      var i := index;
      while i < currSize
        invariant currSize == old(currSize) && index <= i <= currSize
        invariant forall j | 0 <= j < requests.Length :: requests[j] == Moved(before, index, i, j)
      {
        requests[i] := requests[i + 1];
        i := i + 1;
      }
      currSize := currSize - 1;
      assert requests[..currSize] == before[..index] + before[index + 1..currSize + 1];
    }

    /** get_work_nonblocking. */
    method GetWorkNonblocking() returns (ok: bool, next: Request)
      requires Valid()
      modifies this`currSize, requests
      ensures Valid() && (ok <==> old(Contents()) == [] || old(Inside()))
      ensures old(Contents()) == [] ==> next == Request(-1, -1, -1, "") && Contents() == []
      ensures ok && old(Contents()) != [] ==> Order(old(Contents())) == [next] + Order(Contents())
      ensures ok && old(Contents()) != [] ==>
                exists k: nat :: FirstOfHighest(old(Contents()), k) && next == old(Contents())[k]
                                 && Contents() == old(Contents())[..k] + old(Contents())[k + 1..]
    {
      if currSize == 0 {
        return true, NoRequest;
      }
      ok, next := TakeNext();
    }
  }

  // ---------------------------------------------------------------- every interleaving

  /** The monitor: the array's requests, the workers waiting on the condition, and the workers that a
      signal has released and that have not yet got the mutex again; and all requests ever added and
      taken. */
  datatype Monitor = Monitor(queue: seq<Request>, maxSize: int, waiting: set<nat>, signalled: set<nat>,
                             added: seq<Request>, taken: seq<Request>)

  datatype Step =
    | Add(request: Request, released: nat)        // add_work; the signal releases one waiting worker
    | Get(worker: nat)                            // get_work, from the start or from the wait on
    | GetNonblocking
    | Spurious(worker: nat)                       // a wait may end without a signal

  /** Taking from the queue stays inside the array. */
  predicate Takes(q: seq<Request>) {
    q == [] || (Best(q, |q|) >= 0 && |q| < MAX_QUEUE_SIZE)
  }

  /** Every step that stays inside the array. */
  predicate Enabled(m: Monitor, step: Step) {
    match step
    case Add(request, released) =>
      && (|m.queue| == m.maxSize || |m.queue| < MAX_QUEUE_SIZE)
      && (|m.queue| != m.maxSize && m.waiting != {} ==> released in m.waiting)
    case Get(worker) => worker !in m.waiting && Takes(m.queue)
    case GetNonblocking => Takes(m.queue)
    case Spurious(worker) => worker in m.waiting
  }

  function Take(m: Monitor): Monitor
    requires m.queue != [] && Takes(m.queue)
  {
    var k := Best(m.queue, |m.queue|);
    m.(queue := Without(m.queue, k), taken := m.taken + [m.queue[k]])
  }

  function Apply(m: Monitor, step: Step): Monitor
    requires Enabled(m, step)
  {
    match step
    case Add(request, released) =>
      if |m.queue| == m.maxSize then m
      else
        var n := m.(queue := m.queue + [request], added := m.added + [request]);
        if m.waiting == {} then n else n.(waiting := m.waiting - {released}, signalled := m.signalled + {released})
    case Get(worker) =>
      var n := m.(signalled := m.signalled - {worker});
      if m.queue == [] then n.(waiting := m.waiting + {worker}) else Take(n)
    case GetNonblocking => if m.queue == [] then m else Take(m)
    case Spurious(worker) => m.(waiting := m.waiting - {worker}, signalled := m.signalled + {worker})
  }

  /** No wakeup is lost: while workers wait, the queued requests do not outnumber the workers already
      released. And no request is lost or duplicated. */
  ghost predicate Inv(m: Monitor) {
    && m.waiting !! m.signalled && |m.queue| <= MAX_QUEUE_SIZE && (0 <= m.maxSize ==> |m.queue| <= m.maxSize)
    && (m.waiting != {} ==> |m.queue| <= |m.signalled|)
    && multiset(m.added) == multiset(m.taken) + multiset(m.queue)
  }

  lemma WithoutOne(s: seq<Request>, k: nat)
    requires k < |s|
    ensures multiset(s) == multiset(Without(s, k)) + multiset{s[k]}
  {
    assert s == s[..k] + [s[k]] + s[k + 1..];
  }

  lemma {:induction false} TakeKeeps(m: Monitor)
    requires m.queue != [] && Takes(m.queue) && multiset(m.added) == multiset(m.taken) + multiset(m.queue)
    ensures multiset(m.added) == multiset(Take(m).taken) + multiset(Take(m).queue)
    ensures Order(m.queue) != [] && Take(m).taken == m.taken + [Order(m.queue)[0]]
            && Order(Take(m).queue) == Order(m.queue)[1..]
  {
    ScanIsHead(m.queue);
    var k := Best(m.queue, |m.queue|);
    WithoutOne(m.queue, k);
    assert multiset(m.taken + [m.queue[k]]) == multiset(m.taken) + multiset{m.queue[k]};
  }

  lemma {:induction false} AddKeeps(m: Monitor, request: Request, released: nat)
    requires Inv(m) && Enabled(m, Add(request, released))
    ensures Inv(Apply(m, Add(request, released)))
  {
    if |m.queue| != m.maxSize {
      assert multiset(m.added + [request]) == multiset(m.added) + multiset{request};
      assert multiset(m.queue + [request]) == multiset(m.queue) + multiset{request};
      assert m.waiting != {} ==> |m.signalled + {released}| == |m.signalled| + 1;
    }
  }

  lemma {:induction false} StepKeeps(m: Monitor, step: Step)
    requires Inv(m) && Enabled(m, step)
    ensures Inv(Apply(m, step))
  {
    match step {
      case Add(request, released) =>
        AddKeeps(m, request, released);
      case Get(worker) =>
        if m.queue != [] {
          TakeKeeps(m.(signalled := m.signalled - {worker}));
        }
        assert |m.signalled - {worker}| >= |m.signalled| - 1;
      case GetNonblocking =>
        if m.queue != [] {
          TakeKeeps(m);
        }
      case Spurious(worker) =>
        assert |m.signalled + {worker}| == |m.signalled| + 1;
    }
  }

  ghost predicate Reaches(m: Monitor, steps: seq<Step>, m': Monitor)
    decreases |steps|
  {
    if steps == [] then m' == m else Enabled(m, steps[0]) && Reaches(Apply(m, steps[0]), steps[1..], m')
  }

  predicate Created(m: Monitor) {
    m.queue == [] && m.waiting == {} && m.signalled == {} && m.added == [] && m.taken == []
  }

  lemma {:induction false} RunKeeps(m: Monitor, steps: seq<Step>, m': Monitor)
    requires Inv(m) && Reaches(m, steps, m')
    ensures Inv(m') && m'.maxSize == m.maxSize
    decreases |steps|
  {
    if steps != [] {
      StepKeeps(m, steps[0]);
      RunKeeps(Apply(m, steps[0]), steps[1..], m');
    }
  }

  /** Over every interleaving: no request is lost or taken twice, and while a request is queued and a
      worker waits, another worker has been released to take it. */
  lemma {:induction false} NoLostWakeup(m: Monitor, steps: seq<Step>, m': Monitor)
    requires Created(m) && Reaches(m, steps, m')
    ensures multiset(m'.added) == multiset(m'.taken) + multiset(m'.queue)
    ensures m'.waiting != {} ==> |m'.queue| <= |m'.signalled|
    ensures m'.waiting != {} && m'.queue != [] ==> m'.signalled != {}
  {
    RunKeeps(m, steps, m');
  }

  // ---------------------------------------------------------------- inside the array

  /** No request of a run has a negative priority. */
  predicate Ranked(steps: seq<Step>) {
    forall step | step in steps && step.Add? :: step.request.priority >= 0
  }

  lemma {:induction false} RankedKeeps(m: Monitor, steps: seq<Step>, m': Monitor)
    requires AllRanked(m.queue) && Reaches(m, steps, m') && Ranked(steps)
    ensures AllRanked(m'.queue)
    decreases |steps|
  {
    if steps != [] {
      var n := Apply(m, steps[0]);
      if (steps[0].Get? || steps[0].GetNonblocking?) && m.queue != [] {
        WithoutRanked(m.queue, Best(m.queue, |m.queue|));
      }
      assert AllRanked(n.queue);
      RankedKeeps(n, steps[1..], m');
    }
  }

  /** A run that adds so many requests. */
  lemma {:induction false} Fills(m: Monitor, request: Request, n: nat) returns (steps: seq<Step>, m': Monitor)
    requires m.waiting == {} && n <= MAX_QUEUE_SIZE && |m.queue| + n <= MAX_QUEUE_SIZE
    requires 0 <= m.maxSize ==> |m.queue| + n <= m.maxSize
    ensures Reaches(m, steps, m') && |m'.queue| == |m.queue| + n
    ensures forall step | step in steps :: step == Add(request, 0)
    ensures forall r | r in m'.queue :: r in m.queue || r == request
    decreases n
  {
    if n == 0 {
      steps, m' := [], m;
    } else {
      var rest;
      rest, m' := Fills(Apply(m, Add(request, 0)), request, n - 1);
      steps := [Add(request, 0)] + rest;
      assert steps[1..] == rest;
    }
  }

  /** Takers never leave the array. */
  ghost predicate NeverOutside(maxSize: int, ranked: bool) {
    forall m, steps, m' | Created(m) && m.maxSize == maxSize && Reaches(m, steps, m') && (ranked ==> Ranked(steps)) ::
      Takes(m'.queue)
  }

  function Empty(maxSize: int): Monitor {
    Monitor([], maxSize, {}, {}, [], [])
  }

  /** They do not, whatever the run, if and only if the queue is one of fewer than MAX_QUEUE_SIZE requests
      and, but for a queue of none, no request of negative priority is ever added. */
  lemma {:induction false} InsideIff(maxSize: int, ranked: bool)
    ensures NeverOutside(maxSize, ranked) <==> maxSize == 0 || (0 < maxSize < MAX_QUEUE_SIZE && ranked)
  {
    if maxSize == 0 || (0 < maxSize < MAX_QUEUE_SIZE && ranked) {
      forall m, steps, m' | Created(m) && m.maxSize == maxSize && Reaches(m, steps, m') && (ranked ==> Ranked(steps))
        ensures Takes(m'.queue)
      {
        RunKeeps(m, steps, m');
        if maxSize > 0 {
          RankedKeeps(m, steps, m');
          assert m'.queue != [] ==> m'.queue[0] in m'.queue;
        }
      }
    } else {
      var n := if 0 < maxSize < MAX_QUEUE_SIZE then 1 else MAX_QUEUE_SIZE;
      var request := Request(0, if n == 1 then -1 else 0, 0, "");
      var steps, m' := Fills(Empty(maxSize), request, n);
      assert Created(Empty(maxSize)) && (ranked ==> Ranked(steps));
      if n == 1 {
        assert m'.queue[0] in m'.queue;
      }
      assert !Takes(m'.queue);
    }
  }

  // ---------------------------------------------------------------- against a simple queue

  /** The specification: a queue kept in order, whose head is taken. Each value is what one operation
      of the monitor does to it, if anything. */
  ghost predicate SimpleStep(q: seq<Request>, taken: seq<Request>, step: Step, maxSize: int, q': seq<Request>,
                             taken': seq<Request>) {
    match step
    case Add(request, _) => taken' == taken && q' == if |q| == maxSize then q else Insert(q, request)
    case Get(_) => if q == [] then q' == q && taken' == taken else q' == q[1..] && taken' == taken + [q[0]]
    case GetNonblocking => if q == [] then q' == q && taken' == taken else q' == q[1..] && taken' == taken + [q[0]]
    case Spurious(_) => q' == q && taken' == taken
  }

  /** The monitor refines the bounded stable priority queue. */
  lemma {:induction false} Refines(m: Monitor, step: Step)
    requires Inv(m) && Enabled(m, step)
    ensures SimpleStep(Order(m.queue), m.taken, step, m.maxSize, Order(Apply(m, step).queue), Apply(m, step).taken)
  {
    match step {
      case Add(request, released) =>
        AddRefines(m, request, released);
      case Get(worker) =>
        if m.queue != [] {
          TakeKeeps(m.(signalled := m.signalled - {worker}));
        }
      case GetNonblocking =>
        if m.queue != [] {
          TakeKeeps(m);
        }
      case Spurious(worker) =>
    }
  }

  lemma AddRefines(m: Monitor, request: Request, released: nat)
    requires Enabled(m, Add(request, released))
    ensures var m' := Apply(m, Add(request, released));
            && m'.taken == m.taken
            && Order(m'.queue) == if |m.queue| == m.maxSize then Order(m.queue) else Insert(Order(m.queue), request)
  {
    assert (m.queue + [request])[..|m.queue|] == m.queue;
  }
}
