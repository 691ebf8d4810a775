/** The buffer cache of bio.c: NBUF buffers on a doubly linked ring, most recently
    released first, over a disk whose single-block writes are atomic. */
module Bcache {
  import opened Blocks

  const NBUF: nat := 30
  const HEAD: nat := NBUF      // the list head is one more link, after the buffers'
  const ROOTDEV: nat := 1

  /** A buffer; the two flag bits B_VALID and B_DIRTY are booleans, its list links
      are kept apart in Link so that relinking leaves the buffer itself unchanged. */
  datatype Buf = Buf(valid: bool, dirty: bool, dev: nat, blockno: nat,
                     locked: bool, refcnt: nat, data: Block)

  datatype Link = Link(prev: nat, next: nat)

  // ---------------------------------------------------------------- the ring

  /** Element i of the ring, counting the head as both element 0 and element |ring|+1. */
  ghost function At(ring: seq<nat>, i: int): nat
    requires 0 <= i <= |ring| + 1
  {
    if i == 0 || i == |ring| + 1 then HEAD else ring[i - 1]
  }

  ghost predicate Distinct(ring: seq<nat>) {
    && (forall i | 0 <= i < |ring| :: ring[i] < NBUF)
    && (forall i, j | 0 <= i < j < |ring| :: ring[i] != ring[j])
  }

  /** Elements i and i+1 of the ring point at each other. */
  ghost predicate Joined(link: seq<Link>, ring: seq<nat>, i: int)
    requires |link| == NBUF + 1 && Distinct(ring) && 0 <= i <= |ring|
  {
    link[At(ring, i)].next == At(ring, i + 1) && link[At(ring, i + 1)].prev == At(ring, i)
  }

  /** next follows the ring forwards and prev backwards, through the head. */
  ghost predicate Linked(link: seq<Link>, ring: seq<nat>) {
    && |link| == NBUF + 1
    && Distinct(ring)
    && forall i | 0 <= i <= |ring| :: Joined(link, ring, i)
  }

  ghost function Without(ring: seq<nat>, k: nat): seq<nat>
    requires k < |ring|
  {
    ring[..k] + ring[k + 1..]
  }

  /** The two assignments that take b off its list. */
  function Unlink(link: seq<Link>, b: nat): seq<Link>
    requires b < |link| && link[b].next < |link| && link[b].prev < |link|
  {
    var l1 := link[link[b].next := link[link[b].next].(prev := link[b].prev)];
    l1[l1[b].prev := l1[l1[b].prev].(next := l1[b].next)]
  }

  /** The four assignments that put b at the front. */
  function PushFront(link: seq<Link>, b: nat): seq<Link>
    requires |link| == NBUF + 1 && b < NBUF && link[HEAD].next < |link|
  {
    var l1 := link[b := Link(HEAD, link[HEAD].next)];
    var l2 := l1[l1[HEAD].next := l1[l1[HEAD].next].(prev := b)];
    l2[HEAD := l2[HEAD].(next := b)]
  }

  method LinkFront(link: array<Link>, b: nat)
    requires link.Length == NBUF + 1 && b < NBUF && link[HEAD].next < link.Length
    modifies link
    ensures link[..] == PushFront(old(link[..]), b)
  {
    link[b] := Link(HEAD, link[HEAD].next);
    link[link[HEAD].next] := link[link[HEAD].next].(prev := b);
    link[HEAD] := link[HEAD].(next := b);
  }

  method TakeOff(link: array<Link>, b: nat)
    requires b < link.Length && link[b].next < link.Length && link[b].prev < link.Length
    modifies link
    ensures link[..] == Unlink(old(link[..]), b)
  {
    link[link[b].next] := link[link[b].next].(prev := link[b].prev);
    link[link[b].prev] := link[link[b].prev].(next := link[b].next);
  }

  method Relink(link: array<Link>, b: nat)
    requires link.Length == NBUF + 1 && b < NBUF && link[b].next < link.Length && link[b].prev < link.Length
    requires Unlink(link[..], b)[HEAD].next < link.Length
    modifies link
    ensures link[..] == PushFront(Unlink(old(link[..]), b), b)
  {
    TakeOff(link, b);
    LinkFront(link, b);
  }

  lemma UnlinkRemoves(link: seq<Link>, ring: seq<nat>, k: nat)
    requires Linked(link, ring) && k < |ring|
    ensures link[ring[k]].next < |link| && link[ring[k]].prev < |link|
    ensures Linked(Unlink(link, ring[k]), Without(ring, k))
  {
    var b := ring[k];
    var r := Without(ring, k);
    assert Joined(link, ring, k) && Joined(link, ring, k + 1);
    var l := Unlink(link, b);
    forall i | 0 <= i <= |r|
      ensures Joined(l, r, i)
    {
      if i < k {
        assert Joined(link, ring, i);
        assert At(r, i) == At(ring, i) && At(r, i + 1) == At(ring, i + 1);
      } else if i == k {
        assert At(r, i) == At(ring, k) && At(r, i + 1) == At(ring, k + 2);
      } else {
        assert Joined(link, ring, i + 1);
        assert At(r, i) == At(ring, i + 1) && At(r, i + 1) == At(ring, i + 2);
      }
    }
  }

  lemma PushFrontAdds(link: seq<Link>, ring: seq<nat>, b: nat)
    requires Linked(link, ring) && b < NBUF && b !in ring
    ensures link[HEAD].next < |link|
    ensures Linked(PushFront(link, b), [b] + ring)
  {
    var r := [b] + ring;
    assert Joined(link, ring, 0);
    var l := PushFront(link, b);
    forall i | 0 <= i <= |r|
      ensures Joined(l, r, i)
    {
      if i == 0 {
      } else if i == 1 {
        assert At(r, 2) == At(ring, 1);
      } else {
        assert Joined(link, ring, i - 1);
        assert At(r, i) == At(ring, i - 1) && At(r, i + 1) == At(ring, i);
      }
    }
  }

  // ------------------------------------------------------- buffers and the disk

  predicate Holds(b: Buf, blockno: nat) {
    b.dev == ROOTDEV && b.blockno == blockno
  }

  predicate Recyclable(b: Buf) {
    b.refcnt == 0 && !b.dirty
  }

  /** The buffer may be ahead of its home block. */
  predicate Busy(b: Buf) {
    b.valid && (b.dirty || b.locked)
  }

  predicate BufOk(b: Buf, size: nat) {
    && (b.dev == 0 || (b.dev == ROOTDEV && b.blockno < size))
    && (b.locked ==> b.refcnt > 0)
    && (b.refcnt > 0 || b.valid || b.dirty ==> b.dev == ROOTDEV)
    && (b.dirty ==> b.valid)
  }

  /** view gives the newest contents of every block: a valid buffer holds them, a block
      has at most one buffer, and only a dirty or locked buffer is ahead of the disk. */
  ghost predicate Coherent(buf: seq<Buf>, disk: seq<Block>, view: seq<Block>) {
    && |buf| == NBUF && |view| == |disk|
    && (forall i | 0 <= i < NBUF :: BufOk(buf[i], |disk|))
    && (forall i, j | 0 <= i < j < NBUF ::
          buf[i].dev == ROOTDEV && buf[j].dev == ROOTDEV ==> buf[i].blockno != buf[j].blockno)
    && (forall i | 0 <= i < NBUF && buf[i].valid :: buf[i].data == view[buf[i].blockno])
    && (forall n | 0 <= n < |disk| && view[n] != disk[n] ::
          exists i | 0 <= i < NBUF :: Holds(buf[i], n) && Busy(buf[i]))
  }

  /** Every buffer is on the ring once, most recently released first. */
  ghost predicate RingOk(link: seq<Link>, ring: seq<nat>, stamp: seq<nat>, clock: nat) {
    && Linked(link, ring)
    && |ring| == NBUF && |stamp| == NBUF
    && (forall b | 0 <= b < NBUF :: b in ring && stamp[b] <= clock)
    && (forall i, j | 0 <= i < j < NBUF :: stamp[ring[i]] > stamp[ring[j]])
  }

  /** Changing buffers that are not ahead of the disk, or keeping them as far ahead, keeps
      every block's newest contents in the cache or on the disk. */
  lemma CoherentBusy(was: seq<Buf>, now: seq<Buf>, disk: seq<Block>, view: seq<Block>)
    requires Coherent(was, disk, view) && |now| == NBUF
    requires forall i | 0 <= i < NBUF && Busy(was[i]) ::
               Busy(now[i]) && now[i].dev == was[i].dev && now[i].blockno == was[i].blockno
    ensures forall n | 0 <= n < |disk| && view[n] != disk[n] ::
              exists i | 0 <= i < NBUF :: Holds(now[i], n) && Busy(now[i])
  {
    forall n | 0 <= n < |disk| && view[n] != disk[n]
      ensures exists i | 0 <= i < NBUF :: Holds(now[i], n) && Busy(now[i])
    {
      var i :| 0 <= i < NBUF && Holds(was[i], n) && Busy(was[i]);
      assert Holds(now[i], n) && Busy(now[i]);
    }
  }

  /** Ring positions after moving the buffer at position k to the front. */
  lemma MovedAt(ring: seq<nat>, k: nat, j: nat)
    requires k < |ring| && j < |ring|
    ensures var r := [ring[k]] + Without(ring, k);
            |r| == |ring| && r[j] == if j == 0 then ring[k] else if j <= k then ring[j - 1] else ring[j]
  {
  }

  /** Moving the buffer at position k to the front and stamping it newest keeps the ring in
      order of release. */
  lemma MovedOrder(ring: seq<nat>, stamp: seq<nat>, clock: nat, k: nat)
    requires Distinct(ring) && |ring| == NBUF && |stamp| == NBUF && k < NBUF
    requires forall b | 0 <= b < NBUF :: stamp[b] <= clock
    requires forall i, j | 0 <= i < j < NBUF :: stamp[ring[i]] > stamp[ring[j]]
    requires Distinct([ring[k]] + Without(ring, k))
    ensures var r, t := [ring[k]] + Without(ring, k), stamp[ring[k] := clock + 1];
            |r| == NBUF && forall i, j | 0 <= i < j < NBUF :: t[r[i]] > t[r[j]]
  {
    var r, t := [ring[k]] + Without(ring, k), stamp[ring[k] := clock + 1];
    MovedAt(ring, k, 0);
    forall i, j | 0 <= i < j < NBUF
      ensures t[r[i]] > t[r[j]]
    {
      MovedAt(ring, k, i);
      MovedAt(ring, k, j);
    }
  }

  /** ... and on it every buffer. */
  lemma MovedAll(ring: seq<nat>, k: nat, b: nat)
    requires k < |ring| && b in ring
    ensures b in [ring[k]] + Without(ring, k)
  {
    var j :| 0 <= j < |ring| && ring[j] == b;
    MovedAt(ring, k, if j == k then 0 else if j < k then j + 1 else j);
  }

  /** brelse's relinking keeps the ring. */
  lemma MovedRing(link: seq<Link>, ring: seq<nat>, stamp: seq<nat>, clock: nat, k: nat)
    requires RingOk(link, ring, stamp, clock) && k < NBUF
    ensures link[ring[k]].next < |link| && link[ring[k]].prev < |link|
    ensures var l := Unlink(link, ring[k]);
            && l[HEAD].next < |l|
            && RingOk(PushFront(l, ring[k]), [ring[k]] + Without(ring, k), stamp[ring[k] := clock + 1], clock + 1)
  {
    var b := ring[k];
    UnlinkRemoves(link, ring, k);
    PushFrontAdds(Unlink(link, b), Without(ring, k), b);
    MovedOrder(ring, stamp, clock, k);
    forall c | 0 <= c < NBUF
      ensures c in [b] + Without(ring, k) && stamp[b := clock + 1][c] <= clock + 1
    {
      assert c in ring;
      MovedAll(ring, k, c);
    }
  }

  lemma Front(link: seq<Link>, ring: seq<nat>, stamp: seq<nat>, clock: nat, b: nat) returns (r: seq<nat>)
    requires RingOk(link, ring, stamp, clock) && b < NBUF
    ensures link[b].next < |link| && link[b].prev < |link| && Unlink(link, b)[HEAD].next < |link|
    ensures RingOk(PushFront(Unlink(link, b), b), r, stamp[b := clock + 1], clock + 1)
    ensures exists k | 0 <= k < NBUF :: ring[k] == b && r == [b] + Without(ring, k)
  {
    assert b in ring;
    var k :| 0 <= k < NBUF && ring[k] == b;
    MovedRing(link, ring, stamp, clock, k);
    r := [b] + Without(ring, k);
  }

  class Cache {
    const buf: array<Buf>
    const link: array<Link>
    var disk: seq<Block>
    ghost var hist: seq<seq<Block>>   // the disk after each block write, oldest first
    ghost var view: seq<Block>        // the newest contents of each block
    ghost var ring: seq<nat>          // the buffers in list order
    ghost var stamp: seq<nat>         // when each buffer was last finally released
    ghost var clock: nat

    ghost predicate Valid()
      reads this, buf, link
    {
      && buf.Length == NBUF && link.Length == NBUF + 1
      && Coherent(buf[..], disk, view)
      && RingOk(link[..], ring, stamp, clock)
    }

    /** binit: an empty cache, as it stands after a boot. */
    constructor (disk: seq<Block>)
      ensures Valid() && fresh(buf) && fresh(link)
      ensures this.disk == disk && view == disk && hist == []
      ensures forall i | 0 <= i < NBUF :: buf[i].refcnt == 0 && !buf[i].dirty && !buf[i].valid && buf[i].dev == 0
      ensures forall i | 0 <= i < NBUF :: ring[i] == NBUF - 1 - i
    {
      var ls := new Link[NBUF + 1](_ => Link(HEAD, HEAD));
      ghost var r: seq<nat> := [];
      var b := 0;
      while b < NBUF
        invariant 0 <= b <= NBUF
        invariant Linked(ls[..], r) && |r| == b
        invariant forall i | 0 <= i < b :: r[i] == b - 1 - i
      {
        PushFrontAdds(ls[..], r, b);
        LinkFront(ls, b);
        r := [b] + r;
        b := b + 1;
      }
      var bs := new Buf[NBUF](_ => Buf(false, false, 0, 0, false, 0, ZeroBlock));
      buf := bs;
      link := ls;
      this.disk := disk;
      hist := [];
      view := disk;
      ring := r;
      stamp := seq(NBUF, i => i);
      clock := NBUF;
      new;
      forall b | 0 <= b < NBUF
        ensures b in ring
      {
        assert ring[NBUF - 1 - b] == b;
      }
    }

    /** bget's first scan: forwards from the most recently released buffer, for the block. */
    method FindCached(blockno: nat) returns (found: bool, b: nat)
      requires Valid()
      ensures found ==> b < NBUF && Holds(buf[b], blockno)
      ensures found <==> exists i | 0 <= i < NBUF :: Holds(buf[i], blockno)
    {
      b := link[HEAD].next;
      ghost var k := 0;
      assert Joined(link[..], ring, 0);
      while b != HEAD
        invariant 0 <= k <= NBUF && b == At(ring, k + 1)
        invariant forall i | 0 <= i < k :: !Holds(buf[ring[i]], blockno)
        decreases NBUF - k
      {
        if buf[b].dev == ROOTDEV && buf[b].blockno == blockno {
          return true, b;
        }
        assert Joined(link[..], ring, k + 1);
        b := link[b].next;
        k := k + 1;
      }
      forall i | 0 <= i < NBUF
        ensures !Holds(buf[i], blockno)
      {
        assert i in ring;
        var j :| 0 <= j < NBUF && ring[j] == i;
      }
      found := false;
    }

    /** bget's second scan: backwards from the least recently released buffer, for one that may
        be reused. */
    method FindRecyclable() returns (found: bool, b: nat)
      requires Valid()
      ensures found ==> b < NBUF && Recyclable(buf[b])
      ensures found ==> forall i | 0 <= i < NBUF && Recyclable(buf[i]) :: stamp[b] <= stamp[i]
      ensures found <==> exists i | 0 <= i < NBUF :: Recyclable(buf[i])
    {
      b := link[HEAD].prev;
      ghost var k := NBUF;
      assert Joined(link[..], ring, NBUF);
      while b != HEAD
        invariant 0 <= k <= NBUF && b == At(ring, k)
        invariant forall i | k <= i < NBUF :: !Recyclable(buf[ring[i]])
        decreases k
      {
        if buf[b].refcnt == 0 && !buf[b].dirty {
          forall i | 0 <= i < NBUF && Recyclable(buf[i])
            ensures stamp[b] <= stamp[i]
          {
            assert i in ring;
            var j :| 0 <= j < NBUF && ring[j] == i;
            assert j <= k - 1;
          }
          return true, b;
        }
        assert Joined(link[..], ring, k - 1);
        b := link[b].prev;
        k := k - 1;
      }
      forall i | 0 <= i < NBUF
        ensures !Recyclable(buf[i])
      {
        assert i in ring;
        var j :| 0 <= j < NBUF && ring[j] == i;
      }
      found := false;
    }

    /** bget: the block's buffer if it is cached, else the least recently released buffer that
        is neither referenced nor dirty; ok is false where bget panics for want of one. */
    method Bget(blockno: nat) returns (ok: bool, b: nat)
      requires Valid() && blockno < |disk|
      modifies buf
      ensures Valid() && b < NBUF
      ensures ok <==> exists i | 0 <= i < NBUF :: Holds(old(buf[i]), blockno) || Recyclable(old(buf[i]))
      ensures !ok ==> forall i | 0 <= i < NBUF :: old(buf[i]).refcnt > 0 || old(buf[i]).dirty
      ensures !ok ==> buf[..] == old(buf[..])
      ensures ok ==> forall i | 0 <= i < NBUF && i != b :: buf[i] == old(buf[i])
      ensures ok && (exists i | 0 <= i < NBUF :: Holds(old(buf[i]), blockno)) ==>
                Holds(old(buf[b]), blockno) && buf[b] == old(buf[b]).(refcnt := old(buf[b]).refcnt + 1)
      ensures ok && (forall i | 0 <= i < NBUF :: !Holds(old(buf[i]), blockno)) ==>
                && Recyclable(old(buf[b]))
                && buf[b] == Buf(false, false, ROOTDEV, blockno, false, 1, old(buf[b]).data)
                && forall i | 0 <= i < NBUF && Recyclable(old(buf[i])) :: stamp[b] <= stamp[i]
    {
      ghost var was := buf[..];
      ok, b := FindCached(blockno);
      if ok {
        buf[b] := buf[b].(refcnt := buf[b].refcnt + 1);
        assert Holds(was[b], blockno);
        CoherentBusy(was, buf[..], disk, view);
        return;
      }
      ok, b := FindRecyclable();
      if ok {
        buf[b] := Buf(false, false, ROOTDEV, blockno, false, 1, buf[b].data);
        assert Recyclable(was[b]);
        CoherentBusy(was, buf[..], disk, view);
        return;
      }
      b := 0;
    }

    /** bread: the locked buffer with the newest contents of the block. The caller does not
        hold the block already (acquiresleep would wait for itself for ever). */
    method Bread(blockno: nat) returns (ok: bool, b: nat)
      requires Valid() && blockno < |disk|
      requires forall i | 0 <= i < NBUF && Holds(buf[i], blockno) :: !buf[i].locked
      modifies buf
      ensures Valid() && b < NBUF
      ensures ok <==> exists i | 0 <= i < NBUF :: Holds(old(buf[i]), blockno) || Recyclable(old(buf[i]))
      ensures !ok ==> forall i | 0 <= i < NBUF :: old(buf[i]).refcnt > 0 || old(buf[i]).dirty
      ensures !ok ==> buf[..] == old(buf[..])
      ensures ok ==>
                && (forall i | 0 <= i < NBUF && i != b :: buf[i] == old(buf[i]))
                && Holds(buf[b], blockno) && buf[b].valid && buf[b].locked
                && buf[b].data == view[blockno]
                && if Holds(old(buf[b]), blockno)
                   then buf[b].refcnt == old(buf[b]).refcnt + 1 && buf[b].dirty == old(buf[b]).dirty
                   else Recyclable(old(buf[b])) && buf[b].refcnt == 1 && !buf[b].dirty
    {
      ok, b := Bget(blockno);
      if ok {
        Fill(b, blockno);
      }
    }

    /** acquiresleep on a buffer that nobody has locked, and reading the block if need be. */
    method Fill(b: nat, blockno: nat)
      requires Valid() && b < NBUF && Holds(buf[b], blockno) && !buf[b].locked && buf[b].refcnt > 0 && blockno < |disk|
      modifies buf
      ensures Valid() && forall i | 0 <= i < NBUF && i != b :: buf[i] == old(buf[i])
      ensures buf[b] == old(buf[b]).(locked := true, valid := true, data := buf[b].data) && buf[b].data == view[blockno]
    {
      ghost var was := buf[..];
      buf[b] := buf[b].(locked := true);
      if !buf[b].valid {
        buf[b] := buf[b].(data := disk[blockno], valid := true);   // iderw
        assert view[blockno] == disk[blockno];
      }
      CoherentBusy(was, buf[..], disk, view);
    }

    /** The holder of the buffer's lock changes its data; the disk does not move. */
    method Modify(b: nat, data: Block)
      requires Valid() && b < NBUF && buf[b].locked && buf[b].valid
      modifies this`view, buf
      ensures Valid() && buf[b] == old(buf[b]).(data := data)
      ensures forall i | 0 <= i < NBUF && i != b :: buf[i] == old(buf[i])
      ensures view == old(view)[buf[b].blockno := data]
    {
      ghost var was := buf[..];
      buf[b] := buf[b].(data := data);
      CoherentBusy(was, buf[..], disk, view);
      view := view[buf[b].blockno := data];
      assert Holds(buf[b], buf[b].blockno) && Busy(buf[b]);
    }

    /** b->flags |= B_DIRTY, as log_write does to pin the buffer. */
    method Pin(b: nat)
      requires Valid() && b < NBUF && buf[b].valid && buf[b].dev == ROOTDEV
      modifies buf
      ensures Valid() && buf[b] == old(buf[b]).(dirty := true)
      ensures forall i | 0 <= i < NBUF && i != b :: buf[i] == old(buf[i])
    {
      ghost var was := buf[..];
      buf[b] := buf[b].(dirty := true);
      CoherentBusy(was, buf[..], disk, view);
    }

    /** bwrite: the only way for a block to reach the disk. */
    method Bwrite(b: nat)
      requires Valid() && b < NBUF && buf[b].locked && buf[b].valid
      modifies this`disk, this`hist, buf
      ensures Valid() && buf[b] == old(buf[b]).(dirty := false)
      ensures forall i | 0 <= i < NBUF && i != b :: buf[i] == old(buf[i])
      ensures disk == old(disk)[buf[b].blockno := buf[b].data] && hist == old(hist) + [disk]
    {
      ghost var was := buf[..];
      var n := buf[b].blockno;
      disk := disk[n := buf[b].data];
      hist := hist + [disk];
      buf[b] := buf[b].(dirty := false);
      forall m | 0 <= m < |disk| && view[m] != disk[m]
        ensures exists i | 0 <= i < NBUF :: Holds(buf[i], m) && Busy(buf[i])
      {
        var i :| 0 <= i < NBUF && Holds(was[i], m) && Busy(was[i]);
        assert Holds(buf[i], m) && Busy(buf[i]);
      }
    }

    /** brelse: unlock, and on the final release move the buffer to the front of the ring. The
        caller has logged or written every change it made to the data. */
    method Brelse(b: nat)
      requires Valid() && b < NBUF && buf[b].locked
      requires buf[b].valid && !buf[b].dirty ==> buf[b].data == disk[buf[b].blockno]
      modifies buf, link, this`ring, this`stamp, this`clock
      ensures Valid() && buf[b] == old(buf[b]).(locked := false, refcnt := old(buf[b]).refcnt - 1)
      ensures forall i | 0 <= i < NBUF && i != b :: buf[i] == old(buf[i])
      ensures buf[b].refcnt == 0 ==>
                && (exists k | 0 <= k < NBUF :: old(ring)[k] == b && ring == [b] + Without(old(ring), k))
                && stamp == old(stamp)[b := clock] && clock == old(clock) + 1
      ensures buf[b].refcnt > 0 ==> ring == old(ring) && stamp == old(stamp) && clock == old(clock)
    {
      ghost var was := buf[..];
      buf[b] := buf[b].(locked := false, refcnt := buf[b].refcnt - 1);
      assert forall i | 0 <= i < NBUF && i != b :: buf[i] == was[i];
      forall m | 0 <= m < |disk| && view[m] != disk[m]
        ensures exists i | 0 <= i < NBUF :: Holds(buf[i], m) && Busy(buf[i])
      {
        var i :| 0 <= i < NBUF && Holds(was[i], m) && Busy(was[i]);
        assert Holds(buf[i], m) && Busy(buf[i]);
      }
      if buf[b].refcnt == 0 {
        MoveToFront(b);
      }
    }

    /** brelse's relinking: take the buffer off its place and put it at the front. */
    method MoveToFront(b: nat)
      requires link.Length == NBUF + 1 && RingOk(link[..], ring, stamp, clock) && b < NBUF
      modifies link, this`ring, this`stamp, this`clock
      ensures RingOk(link[..], ring, stamp, clock)
      ensures exists k | 0 <= k < NBUF :: old(ring)[k] == b && ring == [b] + Without(old(ring), k)
      ensures stamp == old(stamp)[b := clock] && clock == old(clock) + 1
    {
      ghost var r := Front(link[..], ring, stamp, clock, b);
      Relink(link, b);
      ring, stamp, clock := r, stamp[b := clock + 1], clock + 1;
    }
  }
}
