/** The Kernighan and Ritchie allocator of umalloc.c. Addresses count headers of eight bytes. */
module Heap {
  import opened Common

  datatype Header = Header(ptr: int, size: nat)
  type Memory = map<int, Header>

  // ---------------------------------------------------------------- the free list

  /** The free block after the i-th on the circular list. */
  ghost function Succ(ring: seq<int>, i: nat): int
    requires i < |ring|
  {
    if i + 1 < |ring| then ring[i + 1] else ring[0]
  }

  ghost function IndexOf(ring: seq<int>, a: int): (i: nat)
    requires a in ring
    ensures i < |ring| && ring[i] == a
  {
    var i: nat :| i < |ring| && ring[i] == a;
    i
  }

  ghost predicate Ascending(ring: seq<int>) {
    forall i, j | 0 <= i < j < |ring| :: ring[i] < ring[j]
  }

  /** Free block i points at the next, and ends before it without touching it. */
  ghost predicate LinkOk(mem: Memory, ring: seq<int>, i: nat)
    requires i < |ring|
  {
    && ring[i] in mem && mem[ring[i]].ptr == Succ(ring, i)
    && (i + 1 < |ring| ==> ring[i] + mem[ring[i]].size < ring[i + 1])
  }

  /** One circular list through all of ring, in address order with a single wrap, starting at
      the empty block base, and with no two neighbours adjacent in memory. */
  ghost predicate FreeList(mem: Memory, base: int, ring: seq<int>) {
    && |ring| > 0 && ring[0] == base && Ascending(ring)
    && base in mem && mem[base].size == 0
    && forall i | 0 <= i < |ring| :: LinkOk(mem, ring, i)
  }

  // ---------------------------------------------------------------- the blocks

  ghost predicate InRegion(p: int, n: nat, u: int) {
    p <= u < p + n
  }

  /** The n units from p on. */
  ghost function Region(p: int, n: nat): set<int> {
    set u | p <= u < p + n && InRegion(p, n, u)
  }

  ghost predicate Contains(blocks: map<int, nat>, a: int, u: int) {
    a in blocks && a <= u < a + blocks[a]
  }

  /** blocks gives every block's size by its header's address; own gives for every unit obtained
      from sbrk the one block that contains it. */
  ghost predicate Tiled(blocks: map<int, nat>, own: map<int, int>) {
    && (forall a | a in blocks :: blocks[a] >= 1)
    && (forall a, u | Contains(blocks, a, u) :: u in own && own[u] == a)
    && (forall u | u in own :: Contains(blocks, own[u], u))
  }

  /** The headers hold the blocks' sizes, and the free blocks other than base are blocks. */
  ghost predicate Inv(mem: Memory, base: int, ring: seq<int>, blocks: map<int, nat>, own: map<int, int>) {
    && FreeList(mem, base, ring)
    && Tiled(blocks, own)
    && (forall a | a in blocks :: base < a && a in mem && mem[a].size == blocks[a])
    && forall i | 0 < i < |ring| :: ring[i] in blocks
  }

  /** Blocks do not overlap. */
  lemma Disjoint(blocks: map<int, nat>, own: map<int, int>, a: int, b: int)
    requires Tiled(blocks, own) && a in blocks && b in blocks && a < b
    ensures a + blocks[a] <= b
  {
    assert Contains(blocks, b, b) && !Contains(blocks, a, b);
  }

  lemma {:induction false} RegionSize(p: int, n: nat)
    ensures |Region(p, n)| == n
  {
    if n > 0 {
      RegionSize(p, n - 1);
      assert InRegion(p, n, p + n - 1);
      assert Region(p, n) == Region(p, n - 1) + {p + n - 1} by {
        assert forall u :: InRegion(p, n, u) <==> InRegion(p, n - 1, u) || u == p + n - 1;
      }
    }
  }

  ghost function Pick(s: set<int>): (a: int)
    requires exists a :: a in s
    ensures a in s
  {
    var a :| a in s;
    a
  }

  ghost function TotalUnits(blocks: map<int, nat>): nat {
    if exists a :: a in blocks.Keys then
      var a := Pick(blocks.Keys);
      blocks[a] + TotalUnits(blocks - {a})
    else 0
  }

  /** Taking block a and its units away leaves the rest tiled. */
  lemma Untile(blocks: map<int, nat>, own: map<int, int>, a: int)
    requires Tiled(blocks, own) && a in blocks
    ensures var o := map u | u in own && own[u] != a :: own[u];
            Tiled(blocks - {a}, o) && |own| == |o| + blocks[a]
  {
    var bs, o := blocks - {a}, map u | u in own && own[u] != a :: own[u];
    var r := Region(a, blocks[a]);
    forall c, u | Contains(bs, c, u)
      ensures u in o && o[u] == c
    {
      assert Contains(blocks, c, u);
    }
    forall u | u in o
      ensures Contains(bs, o[u], u) && u !in r
    {
      assert Contains(blocks, own[u], u);
      assert !Contains(blocks, a, u);
    }
    forall u
      ensures u in own.Keys <==> u in o.Keys + r
    {
      assert InRegion(a, blocks[a], u) <==> Contains(blocks, a, u);
      assert u in own ==> Contains(blocks, own[u], u);
    }
    RegionSize(a, blocks[a]);
    assert own.Keys == o.Keys + r && |own.Keys| == |o.Keys| + |r|;
  }

  /** Conservation: the sizes of all blocks, free and live, add up to what sbrk gave. */
  lemma {:induction false} UnitsConserved(blocks: map<int, nat>, own: map<int, int>)
    requires Tiled(blocks, own)
    ensures |own| == TotalUnits(blocks)
    decreases |blocks.Keys|
  {
    if exists a :: a in blocks.Keys {
      var a := Pick(blocks.Keys);
      Untile(blocks, own, a);
      UnitsConserved(blocks - {a}, map u | u in own && own[u] != a :: own[u]);
    } else {
      assert forall u :: u in own ==> Contains(blocks, own[u], u);
      assert own.Keys == {};
    }
  }

  ghost function Merge(blocks: map<int, nat>, a: int, b: int): map<int, nat>
    requires a in blocks && b in blocks
  {
    (blocks - {b})[a := blocks[a] + blocks[b]]
  }

  ghost function MergeOwn(own: map<int, int>, a: int, b: int): map<int, int> {
    map u | u in own :: if own[u] == b then a else own[u]
  }

  /** Joining two adjacent blocks keeps every unit in exactly one block. */
  lemma MergeTiled(blocks: map<int, nat>, own: map<int, int>, a: int, b: int)
    requires Tiled(blocks, own) && a in blocks && b in blocks && a + blocks[a] == b
    ensures Tiled(Merge(blocks, a, b), MergeOwn(own, a, b))
  {
    var bs, o := Merge(blocks, a, b), MergeOwn(own, a, b);
    forall c, u | Contains(bs, c, u)
      ensures u in o && o[u] == c
    {
      assert Contains(blocks, c, u) || (c == a && Contains(blocks, b, u));
    }
    forall u | u in o
      ensures Contains(bs, o[u], u)
    {
      assert Contains(blocks, own[u], u);
    }
  }

  // ---------------------------------------------------------------- free

  /** free's search ends at the list position k that bp belongs after. */
  ghost predicate Between(ring: seq<int>, k: nat, bp: int)
    requires k < |ring|
  {
    ring[k] < bp && (k + 1 < |ring| ==> bp < ring[k + 1])
  }

  /** Where bp belongs on the list. */
  ghost function Place(ring: seq<int>, bp: int): (k: nat)
    requires |ring| > 0 && Ascending(ring) && ring[0] < bp && bp !in ring
    ensures k < |ring| && Between(ring, k, bp)
  {
    var last := |ring| - 1;
    if ring[last] < bp then last else Place(ring[..last], bp)
  }

  /** The assignments free makes once it has found p. */
  function Freed(mem: Memory, p: int, bp: int): Memory
    requires p in mem && bp in mem && mem[p].ptr in mem
  {
    var next := mem[p].ptr;
    var m := if bp + mem[bp].size == next
             then mem[bp := Header(mem[next].ptr, mem[bp].size + mem[next].size)]
             else mem[bp := mem[bp].(ptr := next)];
    if p + m[p].size == bp
    then m[p := Header(m[bp].ptr, m[p].size + m[bp].size)]
    else m[p := m[p].(ptr := bp)]
  }

  ghost predicate JoinsNext(mem: Memory, ring: seq<int>, k: nat, bp: int)
    requires k < |ring| && bp in mem
  {
    k + 1 < |ring| && bp + mem[bp].size == ring[k + 1]
  }

  ghost predicate JoinsPrev(mem: Memory, ring: seq<int>, k: nat, bp: int)
    requires k < |ring| && ring[k] in mem
  {
    ring[k] + mem[ring[k]].size == bp
  }

  ghost function FreedRing(mem: Memory, ring: seq<int>, k: nat, bp: int): seq<int>
    requires k < |ring| && ring[k] in mem && bp in mem
  {
    ring[..k + 1]
      + (if JoinsPrev(mem, ring, k, bp) then [] else [bp])
      + ring[if JoinsNext(mem, ring, k, bp) then k + 2 else k + 1..]
  }

  /** bp lies in the gap after free block k. */
  ghost predicate InGap(mem: Memory, base: int, ring: seq<int>, k: nat, bp: int) {
    && FreeList(mem, base, ring) && k < |ring| && ring[k] in mem
    && bp in mem && bp !in ring && mem[bp].size >= 1 && base < bp
    && ring[k] + mem[ring[k]].size <= bp
    && (k + 1 < |ring| ==> bp + mem[bp].size <= ring[k + 1])
  }

  lemma FreedList(mem: Memory, base: int, ring: seq<int>, k: nat, bp: int)
    requires InGap(mem, base, ring, k, bp)
    ensures ring[k] in mem && mem[ring[k]].ptr in mem
    ensures FreeList(Freed(mem, ring[k], bp), base, FreedRing(mem, ring, k, bp))
  {
    var n := if k + 1 < |ring| then k + 1 else 0;
    assert LinkOk(mem, ring, k) && Succ(ring, k) == ring[n] && LinkOk(mem, ring, n);
    var m, r := Freed(mem, ring[k], bp), FreedRing(mem, ring, k, bp);
    FreedAscends(mem, base, ring, k, bp);
    forall i | 0 <= i < |r|
      ensures LinkOk(m, r, i)
    {
      FreedLink(mem, base, ring, k, bp, i);
    }
  }

  lemma FreedAscends(mem: Memory, base: int, ring: seq<int>, k: nat, bp: int)
    requires InGap(mem, base, ring, k, bp)
    ensures Ascending(FreedRing(mem, ring, k, bp))
  {
    assert LinkOk(mem, ring, k);
  }

  lemma FreedLink(mem: Memory, base: int, ring: seq<int>, k: nat, bp: int, i: nat)
    requires InGap(mem, base, ring, k, bp) && i < |FreedRing(mem, ring, k, bp)|
    requires mem[ring[k]].ptr == Succ(ring, k) && Succ(ring, k) in mem
    ensures LinkOk(Freed(mem, ring[k], bp), FreedRing(mem, ring, k, bp), i)
  {
    if i < k {
      FreedEarlier(mem, base, ring, k, bp, i);
    } else if i > k + (if JoinsPrev(mem, ring, k, bp) then 0 else 1) {
      FreedLater(mem, base, ring, k, bp, i);
    } else if JoinsNext(mem, ring, k, bp) {
      FreedUp(mem, base, ring, k, bp, i);
    } else {
      FreedPlain(mem, base, ring, k, bp, i);
    }
  }

  /** The links before k and after bp are as they were. */
  lemma FreedEarlier(mem: Memory, base: int, ring: seq<int>, k: nat, bp: int, i: nat)
    requires InGap(mem, base, ring, k, bp) && i < |FreedRing(mem, ring, k, bp)| && i < k
    requires mem[ring[k]].ptr == Succ(ring, k) && Succ(ring, k) in mem
    ensures LinkOk(Freed(mem, ring[k], bp), FreedRing(mem, ring, k, bp), i)
  {
    assert LinkOk(mem, ring, i) && FreedRing(mem, ring, k, bp)[i] == ring[i];
  }

  lemma FreedLater(mem: Memory, base: int, ring: seq<int>, k: nat, bp: int, i: nat)
    requires InGap(mem, base, ring, k, bp) && i < |FreedRing(mem, ring, k, bp)|
    requires i > k + (if JoinsPrev(mem, ring, k, bp) then 0 else 1)
    requires mem[ring[k]].ptr == Succ(ring, k) && Succ(ring, k) in mem
    ensures LinkOk(Freed(mem, ring[k], bp), FreedRing(mem, ring, k, bp), i)
  {
    var shift := (if JoinsPrev(mem, ring, k, bp) then 0 else 1) - (if JoinsNext(mem, ring, k, bp) then 1 else 0);
    assert LinkOk(mem, ring, i - shift) && FreedRing(mem, ring, k, bp)[i] == ring[i - shift];
  }

  /** The links at k and bp when bp joins the next free block ... */
  lemma FreedUp(mem: Memory, base: int, ring: seq<int>, k: nat, bp: int, i: nat)
    requires InGap(mem, base, ring, k, bp) && JoinsNext(mem, ring, k, bp)
    requires mem[ring[k]].ptr == Succ(ring, k) && Succ(ring, k) in mem
    requires i < |FreedRing(mem, ring, k, bp)| && k <= i <= k + (if JoinsPrev(mem, ring, k, bp) then 0 else 1)
    ensures LinkOk(Freed(mem, ring[k], bp), FreedRing(mem, ring, k, bp), i)
  {
    assert LinkOk(mem, ring, k) && LinkOk(mem, ring, k + 1);
    var r := FreedRing(mem, ring, k, bp);
    assert r == ring[..k + 1] + (if JoinsPrev(mem, ring, k, bp) then [] else [bp]) + ring[k + 2..];
  }

  /** ... and when it does not. */
  lemma FreedPlain(mem: Memory, base: int, ring: seq<int>, k: nat, bp: int, i: nat)
    requires InGap(mem, base, ring, k, bp) && !JoinsNext(mem, ring, k, bp)
    requires mem[ring[k]].ptr == Succ(ring, k) && Succ(ring, k) in mem
    requires i < |FreedRing(mem, ring, k, bp)| && k <= i <= k + (if JoinsPrev(mem, ring, k, bp) then 0 else 1)
    ensures LinkOk(Freed(mem, ring[k], bp), FreedRing(mem, ring, k, bp), i)
  {
    assert LinkOk(mem, ring, k);
    var r := FreedRing(mem, ring, k, bp);
    assert r == ring[..k + 1] + (if JoinsPrev(mem, ring, k, bp) then [] else [bp]) + ring[k + 1..];
  }

  ghost function FreedBlocks(mem: Memory, ring: seq<int>, k: nat, bp: int, blocks: map<int, nat>): map<int, nat>
    requires k < |ring| && ring[k] in mem && bp in mem && bp in blocks && Ascending(ring)
    requires JoinsNext(mem, ring, k, bp) ==> ring[k + 1] in blocks
    requires JoinsPrev(mem, ring, k, bp) ==> ring[k] in blocks
  {
    var b1 := if JoinsNext(mem, ring, k, bp) then Merge(blocks, bp, ring[k + 1]) else blocks;
    if JoinsPrev(mem, ring, k, bp) then Merge(b1, ring[k], bp) else b1
  }

  ghost function FreedOwn(mem: Memory, ring: seq<int>, k: nat, bp: int, own: map<int, int>): map<int, int>
    requires k < |ring| && ring[k] in mem && bp in mem
  {
    var o1 := if JoinsNext(mem, ring, k, bp) then MergeOwn(own, bp, ring[k + 1]) else own;
    if JoinsPrev(mem, ring, k, bp) then MergeOwn(o1, ring[k], bp) else o1
  }

  /** A live block lies in the gap that free's search finds. */
  lemma LiveInGap(mem: Memory, base: int, ring: seq<int>, blocks: map<int, nat>, own: map<int, int>, k: nat, bp: int)
    requires Inv(mem, base, ring, blocks, own) && bp in blocks && bp !in ring
    requires k < |ring| && Between(ring, k, bp)
    ensures InGap(mem, base, ring, k, bp)
  {
    assert LinkOk(mem, ring, k);
    if k > 0 {
      Disjoint(blocks, own, ring[k], bp);
    }
    if k + 1 < |ring| {
      Disjoint(blocks, own, bp, ring[k + 1]);
    }
  }

  /** Putting a live block back, joined with its free neighbours, keeps the heap in order. */
  lemma FreedInv(mem: Memory, base: int, ring: seq<int>, blocks: map<int, nat>, own: map<int, int>, k: nat, bp: int)
    requires Inv(mem, base, ring, blocks, own) && bp in blocks && bp !in ring
    requires k < |ring| && Between(ring, k, bp)
    ensures InGap(mem, base, ring, k, bp) && mem[ring[k]].ptr in mem
    ensures JoinsNext(mem, ring, k, bp) ==> ring[k + 1] in blocks
    ensures JoinsPrev(mem, ring, k, bp) ==> ring[k] in blocks
    ensures Inv(Freed(mem, ring[k], bp), base, FreedRing(mem, ring, k, bp),
                FreedBlocks(mem, ring, k, bp, blocks), FreedOwn(mem, ring, k, bp, own))
  {
    LiveInGap(mem, base, ring, blocks, own, k, bp);
    FreedList(mem, base, ring, k, bp);
    assert LinkOk(mem, ring, k);
    var b1, o1 := blocks, own;
    if JoinsNext(mem, ring, k, bp) {
      MergeTiled(blocks, own, bp, ring[k + 1]);
      b1, o1 := Merge(blocks, bp, ring[k + 1]), MergeOwn(own, bp, ring[k + 1]);
    }
    if JoinsPrev(mem, ring, k, bp) {
      MergeTiled(b1, o1, ring[k], bp);
    }
    var r := FreedRing(mem, ring, k, bp);
    forall i | 0 < i < |r|
      ensures r[i] in FreedBlocks(mem, ring, k, bp, blocks)
    {
      assert r[i] == bp || r[i] in ring;
    }
  }

  ghost function LiveOf(ring: seq<int>, blocks: map<int, nat>): map<int, nat> {
    map a | a in blocks && a !in ring :: blocks[a]
  }

  /** What freeing means for the callers: bp, and only bp, is no longer live, and its units now
      belong to a free block. */
  lemma FreedLive(mem: Memory, base: int, ring: seq<int>, blocks: map<int, nat>, own: map<int, int>, k: nat, bp: int)
    requires Inv(mem, base, ring, blocks, own) && bp in blocks && bp !in ring
    requires InGap(mem, base, ring, k, bp)
    requires JoinsNext(mem, ring, k, bp) ==> ring[k + 1] in blocks
    requires JoinsPrev(mem, ring, k, bp) ==> ring[k] in blocks
    ensures var r, bs, o := FreedRing(mem, ring, k, bp), FreedBlocks(mem, ring, k, bp, blocks),
              FreedOwn(mem, ring, k, bp, own);
            && LiveOf(r, bs) == LiveOf(ring, blocks) - {bp}
            && o.Keys == own.Keys && ring[k] in r
            && bp in o && o[bp] in r
            && forall u | bp <= u < bp + blocks[bp] :: u in o && o[u] == o[bp]
  {
    var r, bs, o := FreedRing(mem, ring, k, bp), FreedBlocks(mem, ring, k, bp, blocks), FreedOwn(mem, ring, k, bp, own);
    assert r[k] == ring[k];
    assert JoinsPrev(mem, ring, k, bp) || r[k + 1] == bp;
    forall a
      ensures a in r <==> (a in ring || a == bp) && !(JoinsNext(mem, ring, k, bp) && a == ring[k + 1])
                          && !(JoinsPrev(mem, ring, k, bp) && a == bp)
    {
      FreedMembers(mem, ring, k, bp, a);
    }
    assert Contains(blocks, bp, bp);
    forall u | bp <= u < bp + blocks[bp]
      ensures u in o && o[u] == o[bp]
    {
      assert Contains(blocks, bp, u);
    }
  }

  lemma FreedMembers(mem: Memory, ring: seq<int>, k: nat, bp: int, a: int)
    requires k < |ring| && ring[k] in mem && bp in mem && Ascending(ring) && bp !in ring
    ensures a in FreedRing(mem, ring, k, bp) <==>
            && (a in ring || a == bp) && !(JoinsNext(mem, ring, k, bp) && a == ring[k + 1])
            && !(JoinsPrev(mem, ring, k, bp) && a == bp)
  {
    var r := FreedRing(mem, ring, k, bp);
    var skip := if JoinsNext(mem, ring, k, bp) then k + 2 else k + 1;
    assert ring == ring[..k + 1] + ring[k + 1..skip] + ring[skip..];
  }

  // ---------------------------------------------------------------- malloc

  const KERNBASE: int := 0x8000_0000   // the end of what a process may use

  /** The number of units malloc looks for, header included, in 32-bit unsigned arithmetic. */
  function Units(nbytes: nat): (n: nat)
    ensures n >= 1
  {
    (nbytes + 7) % UINT / 8 + 1
  }

  /** The number of units that morecore asks for. */
  function Ask(nu: nat): (n: nat)
    ensures n >= nu && n >= 4096 && (n == nu || n == 4096)
  {
    if nu < 4096 then 4096 else nu
  }

  /** The byte count of n units as sbrk receives it: an unsigned 32-bit product taken as an int. */
  function SbrkArg(n: nat): (b: int)
    ensures -KERNBASE <= b < KERNBASE && b % 8 == 0 && (8 * n - b) % UINT == 0
  {
    var u: int := 8 * n % UINT;
    if u < KERNBASE then u else u - UINT
  }

  /** The payload of a block of Units(nbytes) holds nbytes unless the rounding sum wraps, and then with
      fewer than 8 bytes to spare. */
  lemma PayloadFits(nbytes: nat)
    requires nbytes < UINT
    ensures 8 * (Units(nbytes) - 1) >= nbytes <==> nbytes + 7 < UINT
    ensures 8 * (Units(nbytes) - 1) < nbytes + 8
  {
  }

  /** The requests for which sbrk's argument is not the size of the region that morecore then
      uses, but zero or negative. */
  predicate Misasked(nbytes: nat) {
    KERNBASE - 15 <= nbytes <= UINT - 8
  }

  lemma MisaskedExactly(nbytes: nat)
    requires nbytes < UINT
    ensures var n := Ask(Units(nbytes));
            && (Misasked(nbytes) <==> SbrkArg(n) <= 0)
            && (Misasked(nbytes) <==> SbrkArg(n) != 8 * n)
            && (Misasked(nbytes) <==> Units(nbytes) >= KERNBASE / 8)
  {
  }

  /** The block is large enough and sbrk is asked for it, both at once, for exactly the requests
      of at most 2^31 - 16 bytes. */
  lemma RequestFits(nbytes: nat)
    requires nbytes < UINT
    ensures 8 * (Units(nbytes) - 1) >= nbytes && SbrkArg(Ask(Units(nbytes))) == 8 * Ask(Units(nbytes))
            <==> nbytes <= KERNBASE - 16
  {
    PayloadFits(nbytes);
    MisaskedExactly(nbytes);
  }

  /** Unlinking free block i, all of which is taken. */
  lemma TakenWhole(mem: Memory, base: int, ring: seq<int>, blocks: map<int, nat>, own: map<int, int>, i: nat)
    requires Inv(mem, base, ring, blocks, own) && i + 1 < |ring|
    ensures ring[i] in mem && ring[i + 1] in mem
    ensures Inv(mem[ring[i] := mem[ring[i]].(ptr := mem[ring[i + 1]].ptr)], base,
                ring[..i + 1] + ring[i + 2..], blocks, own)
  {
    assert LinkOk(mem, ring, i) && LinkOk(mem, ring, i + 1);
    var m, r := mem[ring[i] := mem[ring[i]].(ptr := mem[ring[i + 1]].ptr)], ring[..i + 1] + ring[i + 2..];
    forall j | 0 <= j < |r|
      ensures LinkOk(m, r, j)
    {
      assert LinkOk(mem, ring, if j <= i then j else j + 1);
    }
  }

  ghost function Split(own: map<int, int>, b: int, n: nat): map<int, int> {
    map u | u in own :: if b <= u < b + n then b else own[u]
  }

  /** Splitting the tail of free block a off as block b; the rest keeps its place. */
  lemma Carved(mem: Memory, base: int, ring: seq<int>, blocks: map<int, nat>, own: map<int, int>, i: nat, n: nat,
               a: int, rest: nat, b: int)
    requires Inv(mem, base, ring, blocks, own) && 0 < i < |ring| && ring[i] == a && 1 <= n < blocks[a]
    requires rest == blocks[a] - n && b == a + rest
    ensures a in mem && b !in blocks && b !in ring
    ensures Inv(mem[a := mem[a].(size := rest)][b := Header(if b in mem then mem[b].ptr else 0, n)], base, ring,
                blocks[a := rest][b := n], Split(own, b, n))
    ensures LiveOf(ring, blocks[a := rest][b := n]) == LiveOf(ring, blocks)[b := n]
    ensures Split(own, b, n).Keys == own.Keys && b !in LiveOf(ring, blocks)
  {
    assert Contains(blocks, a, b);
    assert b in blocks ==> Contains(blocks, b, b);
    var m := mem[a := mem[a].(size := rest)][b := Header(if b in mem then mem[b].ptr else 0, n)];
    var bs, o := blocks[a := rest][b := n], Split(own, b, n);
    forall c, u | Contains(bs, c, u)
      ensures u in o && o[u] == c
    {
      assert Contains(blocks, if c == b then a else c, u);
      assert c != a && c != b ==> !Contains(blocks, a, u);
    }
    forall u | u in o
      ensures Contains(bs, o[u], u)
    {
      assert Contains(blocks, own[u], u);
    }
    forall j | 0 <= j < |ring|
      ensures LinkOk(m, ring, j)
    {
      assert LinkOk(mem, ring, j);
    }
  }

  ghost function Annex(own: map<int, int>, p: int, n: nat): (o: map<int, int>)
    ensures o.Keys == own.Keys + Region(p, n)
    ensures forall u | u in o :: o[u] == if u in Region(p, n) then p else own[u]
  {
    own + map u | u in Region(p, n) :: p
  }

  lemma AnnexBelow(own: map<int, int>, base: int, p: int, n: nat, top: int)
    requires Below(base, own, top) && base < p && p + n <= top
    ensures Below(base, Annex(own, p, n), top)
  {
    forall u | u in Annex(own, p, n)
      ensures base < u < top
    {
      assert u in own || InRegion(p, n, u);
    }
  }

  /** A fresh region from sbrk, its header written, is one more live block. */
  lemma Grown(mem: Memory, base: int, ring: seq<int>, blocks: map<int, nat>, own: map<int, int>, p: int, n: nat)
    requires Inv(mem, base, ring, blocks, own) && base < p && n >= 1
    requires Region(p, n) !! own.Keys
    ensures p !in blocks && p !in ring
    ensures Inv(mem[p := Header(if p in mem then mem[p].ptr else 0, n)], base, ring, blocks[p := n],
                Annex(own, p, n))
  {
    assert p in blocks ==> Contains(blocks, p, p);
    var m := mem[p := Header(if p in mem then mem[p].ptr else 0, n)];
    var bs, o := blocks[p := n], Annex(own, p, n);
    forall c, u | Contains(bs, c, u)
      ensures u in o && o[u] == c
    {
      assert c == p || Contains(blocks, c, u);
    }
    forall u | u in o
      ensures Contains(bs, o[u], u)
    {
      assert u in own ==> Contains(blocks, own[u], u);
    }
    forall j | 0 <= j < |ring|
      ensures LinkOk(m, ring, j)
    {
      assert LinkOk(mem, ring, j);
    }
  }

  /** How many steps along the list of n blocks lead from block f to block i. */
  function Dist(f: nat, i: nat, n: nat): int
    requires f < n && i < n
  {
    if i >= f then i - f else i - f + n
  }

  /** The blocks that malloc's search has passed since it left block f are too small. */
  ghost predicate TooSmall(mem: Memory, ring: seq<int>, f: nat, i: nat, nunits: nat)
    requires f < |ring| && i < |ring|
  {
    forall j | 0 <= j < |ring| && 1 <= Dist(f, j, |ring|) <= Dist(f, i, |ring|) ::
      ring[j] in mem && mem[ring[j]].size < nunits
  }

  /** Block r of nunits is the end of the first free block large enough that comes after the one at from,
      with prev before it. */
  ghost predicate NextFit(mem: Memory, ring: seq<int>, from: int, prev: int, nunits: nat, r: int) {
    exists f: nat, i: nat :: f < |ring| && i < |ring| && ring[f] == from && ring[i] == prev
                             && TooSmall(mem, ring, f, i, nunits) && EndOf(mem, Succ(ring, i), nunits, r)
  }

  ghost predicate EndOf(mem: Memory, a: int, nunits: nat, r: int) {
    a in mem && mem[a].size >= nunits && r == a + mem[a].size - nunits
  }

  lemma FitsNext(mem: Memory, ring: seq<int>, f: nat, i: nat, nunits: nat)
    requires f < |ring| && i < |ring| && TooSmall(mem, ring, f, i, nunits)
    requires Succ(ring, i) in mem && mem[Succ(ring, i)].size >= nunits
    ensures NextFit(mem, ring, ring[f], ring[i], nunits, Succ(ring, i) + mem[Succ(ring, i)].size - nunits)
  {
    assert EndOf(mem, Succ(ring, i), nunits, Succ(ring, i) + mem[Succ(ring, i)].size - nunits);
  }

  /** Once the search is back where it started, no block is large enough. */
  lemma AllTooSmall(mem: Memory, ring: seq<int>, f: nat, i: nat, nunits: nat)
    requires f < |ring| && i < |ring| && Ascending(ring) && Succ(ring, i) == ring[f]
    requires TooSmall(mem, ring, f, i, nunits) && ring[f] in mem && mem[ring[f]].size < nunits
    ensures forall a | a in ring :: a in mem && mem[a].size < nunits
  {
    forall a | a in ring
      ensures a in mem && mem[a].size < nunits
    {
      var j :| 0 <= j < |ring| && ring[j] == a;
      assert j == f || 1 <= Dist(f, j, |ring|) <= Dist(f, i, |ring|);
    }
  }

  /** One more block passed, the search not being back where it started. */
  lemma StillTooSmall(mem: Memory, ring: seq<int>, f: nat, i: nat, n: nat, nunits: nat)
    requires f < |ring| && i < |ring| && n == (if i + 1 < |ring| then i + 1 else 0) && n != f
    requires TooSmall(mem, ring, f, i, nunits) && ring[n] in mem && mem[ring[n]].size < nunits
    ensures TooSmall(mem, ring, f, n, nunits) && Dist(f, n, |ring|) == Dist(f, i, |ring|) + 1
  {
    forall j | 0 <= j < |ring| && 1 <= Dist(f, j, |ring|) <= Dist(f, n, |ring|)
      ensures ring[j] in mem && mem[ring[j]].size < nunits
    {
      assert j == n || Dist(f, j, |ring|) <= Dist(f, i, |ring|);
    }
  }

  /** Every unit obtained from sbrk lies between the static header and the end of the process. */
  ghost predicate Below(base: int, own: map<int, int>, top: int) {
    && 0 < base < top && 8 * top < KERNBASE
    && forall u | u in own :: base < u < top
  }

  /** So no block is as large as the process can be. */
  lemma BlocksSmall(mem: Memory, base: int, ring: seq<int>, blocks: map<int, nat>, own: map<int, int>, top: int)
    requires Inv(mem, base, ring, blocks, own) && Below(base, own, top)
    ensures forall a | a in ring :: a in mem && mem[a].size < KERNBASE / 8
  {
    forall a | a in ring
      ensures a in mem && mem[a].size < KERNBASE / 8
    {
      var i: nat :| i < |ring| && ring[i] == a;
      if i > 0 {
        assert Contains(blocks, a, a) && Contains(blocks, a, a + blocks[a] - 1);
      }
    }
  }

  /** The free block that owns all of a region is at least as large. */
  lemma HoldsRegion(mem: Memory, base: int, ring: seq<int>, blocks: map<int, nat>, own: map<int, int>, q: int, n: nat)
    requires Inv(mem, base, ring, blocks, own) && n >= 1 && q in own && q + n - 1 in own
    requires own[q] in ring && own[q + n - 1] == own[q]
    ensures own[q] in mem && mem[own[q]].size >= n
  {
    assert Contains(blocks, own[q], q) && Contains(blocks, own[q], q + n - 1);
  }

  lemma LiveMore(ring: seq<int>, blocks: map<int, nat>, p: int, n: nat)
    requires p !in ring
    ensures LiveOf(ring, blocks[p := n]) == LiveOf(ring, blocks)[p := n]
  {
  }

  /** A block unlinked from the list is live. */
  lemma LiveTaken(ring: seq<int>, blocks: map<int, nat>, i: nat)
    requires i + 1 < |ring| && Ascending(ring) && ring[i + 1] in blocks
    ensures ring[i + 1] !in LiveOf(ring, blocks)
    ensures LiveOf(ring[..i + 1] + ring[i + 2..], blocks) == LiveOf(ring, blocks)[ring[i + 1] := blocks[ring[i + 1]]]
  {
    var r := ring[..i + 1] + ring[i + 2..];
    assert ring == ring[..i + 1] + [ring[i + 1]] + ring[i + 2..];
    assert forall a :: a in ring <==> a in r || a == ring[i + 1];
    assert ring[i + 1] !in r;
  }

  // ---------------------------------------------------------------- the allocator

  class Heap {
    const base: int                    // the address of the static header
    var mem: Memory
    var freep: int                     // 0 before the first malloc
    var top: int                       // the size of the process, where sbrk's next region begins
    ghost var ring: seq<int>
    ghost var blocks: map<int, nat>
    ghost var own: map<int, int>

    /** base lies in the process's data, before whatever sbrk adds at top. */
    constructor (base: int, top: int)
      requires 0 < base < top && 8 * top < KERNBASE
      ensures Valid() && Live() == map[] && own == map[] && this.top == top
    {
      this.base, this.top := base, top;
      mem, freep, ring, blocks, own := map[], 0, [], map[], map[];
    }

    ghost predicate Valid()
      reads this
    {
      && Below(base, own, top)
      && if freep == 0 then blocks == map[] && own == map[]
         else Inv(mem, base, ring, blocks, own) && freep in ring
    }

    /** The blocks handed out and not yet freed, by header address. */
    ghost function Live(): map<int, nat>
      reads this
    {
      if freep == 0 then map[] else LiveOf(ring, blocks)
    }

    /** free's search: at most once round the list to the block that bp belongs after. */
    method FindGap(bp: int) returns (p: int, ghost k: nat)
      requires freep != 0 && Valid() && bp in blocks && bp !in ring
      ensures k < |ring| && p == ring[k] && Between(ring, k, bp)
      ensures p in ring && p < bp && forall a | a in ring :: a <= p || a > bp
    {
      p := freep;
      k := IndexOf(ring, p);
      ghost var t := Place(ring, bp);
      assert LinkOk(mem, ring, k);
      while !(bp > p && bp < mem[p].ptr)
        invariant k < |ring| && p == ring[k] && LinkOk(mem, ring, k)
        decreases if k <= t then t - k else |ring| + t - k
      {
        if p >= mem[p].ptr && (bp > p || bp < mem[p].ptr) {
          break;
        }
        p := mem[p].ptr;
        k := if k + 1 < |ring| then k + 1 else 0;
        assert LinkOk(mem, ring, k);
      }
    }

    /** free's assignments to p and bp, which join bp with the next free block and with p where
        they touch. */
    method Relink(p: int, bp: int)
      requires p in mem && bp in mem && mem[p].ptr in mem
      modifies this`mem
      ensures mem == Freed(old(mem), p, bp)
    {
      if bp + mem[bp].size == mem[p].ptr {
        mem := mem[bp := mem[bp].(size := mem[bp].size + mem[mem[p].ptr].size)];
        mem := mem[bp := mem[bp].(ptr := mem[mem[p].ptr].ptr)];
      } else {
        mem := mem[bp := mem[bp].(ptr := mem[p].ptr)];
      }
      if p + mem[p].size == bp {
        mem := mem[p := mem[p].(size := mem[p].size + mem[bp].size)];
        mem := mem[p := mem[p].(ptr := mem[bp].ptr)];
      } else {
        mem := mem[p := mem[p].(ptr := bp)];
      }
    }

    /** free(bp + 1): the block stops being live, no other live block changes, the arena is the
        same, and all of the block's units are in one free block. */
    method Free(bp: int)
      requires Valid() && bp in Live()
      modifies this
      ensures Valid() && freep != 0 && Live() == old(Live()) - {bp} && own.Keys == old(own.Keys) && top == old(top)
      ensures bp in own && own[bp] in ring
      ensures forall u | bp <= u < bp + old(Live())[bp] :: u in own && own[u] == own[bp]
      ensures freep in ring && freep < bp && forall a | a in ring :: a <= freep || a >= bp
    {
      ghost var was := mem;
      var p, k := FindGap(bp);
      FreedInv(mem, base, ring, blocks, own, k, bp);
      FreedLive(mem, base, ring, blocks, own, k, bp);
      assert LinkOk(mem, ring, k);
      Relink(p, bp);
      freep := p;
      forall a | a in FreedRing(was, ring, k, bp)
        ensures a in ring || a == bp
      {
        FreedMembers(was, ring, k, bp, a);
      }
      assert FreedRing(was, ring, k, bp)[k] == p;
      blocks, own, ring := FreedBlocks(was, ring, k, bp, blocks), FreedOwn(was, ring, k, bp, own),
        FreedRing(was, ring, k, bp);
    }

    /** sbrk(n) for a byte count n of whole units: growproc moves the end of the process and the
        old end is returned. granted says whether allocuvm finds the pages it needs. A count of
        zero or less adds no memory, and returns the old end all the same. */
    method Sbrk(n: int, granted: bool) returns (p: int)
      requires Valid() && n % 8 == 0 && -KERNBASE <= n < KERNBASE
      modifies this`top
      ensures n > 0 && granted && 8 * old(top) + n < KERNBASE ==> p == old(top) && 8 * top == 8 * old(top) + n
      ensures n > 0 && !(granted && 8 * old(top) + n < KERNBASE) ==> p == -1 && top == old(top)
      ensures n <= 0 ==> top <= old(top) && p == if 8 * old(top) + n == 0 then -1 else old(top)
      ensures n >= 0 ==> Valid()
    {
      p := top;
      if n > 0 {
        if 8 * top + n >= KERNBASE || !granted {
          return -1;
        }
        top := (8 * top + n) / 8;
      } else if n < 0 {
        var newsz := (8 * top + n) % UINT;
        if newsz == 0 {
          return -1;
        }
        if newsz < 8 * top {
          top := newsz / 8;
        }
      }
    }

    /** What sbrk makes of morecore's request for at least nu units. */
    ghost predicate Gives(nu: nat, granted: bool)
      reads this
    {
      granted && top + Ask(nu) < KERNBASE / 8
    }

    /** The process has grown by what morecore asks for, and the heap with it. */
    twostate predicate GrownBy(nu: nat)
      reads this
    {
      && top == old(top) + Ask(nu) && own.Keys == old(own.Keys) + Region(old(top), Ask(nu))
      && top - old(top) >= nu && top - old(top) >= 4096 && (top - old(top) == nu || top - old(top) == 4096)
    }

    /** morecore: put a region from sbrk on the free list. Where sbrk was not asked for a region
        but answers with an address, ok is false: the header is then stored outside the memory
        that the process was given, and nothing more is said. nu is at most what malloc asks for. */
    method Morecore(nu: nat, granted: bool) returns (ok: bool, p: int)
      requires freep != 0 && Valid() && 1 <= nu <= UINT / 8
      modifies this
      ensures ok <==> SbrkArg(Ask(nu)) > 0
      ensures ok ==> Valid() && freep != 0 && Live() == old(Live())
      ensures ok && old(Gives(nu, granted)) ==> p == freep && GrownBy(nu) && !NoneFits(nu)
      ensures ok && !old(Gives(nu, granted)) ==> p == 0 && own.Keys == old(own.Keys) && top == old(top)
    {
      var n := if nu < 4096 then 4096 else nu;
      var arg := SbrkArg(n);
      var q := Sbrk(arg, granted);
      if arg <= 0 {
        return false, 0;
      }
      if q == -1 {
        return true, 0;
      }
      Supply(q, n);
      return true, freep;
    }

    /** A region just obtained becomes a block that is freed: a free block is then large enough. */
    method Supply(q: int, n: nat)
      requires freep != 0 && Valid() && n >= 1 && base < q && q + n <= top && Region(q, n) !! own.Keys
      modifies this
      ensures Valid() && freep != 0 && top == old(top) && Live() == old(Live())
      ensures own.Keys == old(own.Keys) + Region(q, n) && !NoneFits(n)
    {
      AddRegion(q, n);
      ghost var live := Live();
      Free(q);
      assert live - {q} == old(Live());
      HoldsRegion(mem, base, ring, blocks, own, q, n);
    }

    /** malloc's exact fit: unlink the free block p after prevp. */
    method TakeWhole(prevp: int, p: int, ghost i: nat)
      requires freep != 0 && Valid() && i + 1 < |ring| && ring[i] == prevp && ring[i + 1] == p && p in mem
      modifies this
      ensures Valid() && top == old(top) && freep == prevp && own == old(own)
      ensures p !in old(Live()) && Live() == old(Live())[p := old(blocks)[p]] && p in old(blocks)
    {
      TakenWhole(mem, base, ring, blocks, own, i);
      LiveTaken(ring, blocks, i);
      ghost var r := ring[..i + 1] + ring[i + 2..];
      assert r[i] == prevp;
      mem := mem[prevp := mem[prevp].(ptr := mem[p].ptr)];
      ring := r;
      freep := prevp;
    }

    /** malloc's split: the tail of free block p becomes the block handed out. */
    method TakeTail(prevp: int, p: int, nunits: nat, ghost i: nat) returns (r: int)
      requires freep != 0 && Valid() && 0 < i < |ring| && ring[i - 1] == prevp && ring[i] == p && p in mem
      requires 1 <= nunits < mem[p].size
      modifies this
      ensures Valid() && top == old(top) && freep == prevp && own.Keys == old(own.Keys)
      ensures r !in old(Live()) && Live() == old(Live())[r := nunits]
      ensures r == p + old(mem[p].size) - nunits
    {
      ghost var rest, b := mem[p].size - nunits, p + (mem[p].size - nunits);
      Carved(mem, base, ring, blocks, own, i, nunits, p, rest, b);
      mem := mem[p := mem[p].(size := mem[p].size - nunits)];
      r := p + mem[p].size;
      mem := mem[r := Header(if r in mem then mem[r].ptr else 0, nunits)];
      assert r == b;
      own, blocks := Split(own, b, nunits), blocks[p := rest][b := nunits];
      freep := prevp;
    }

    /** malloc's two ways to take nunits from the free block p after prevp. */
    method Take(prevp: int, p: int, nunits: nat, ghost i: nat) returns (r: int)
      requires freep != 0 && Valid() && i < |ring| && ring[i] == prevp && p == Succ(ring, i) && p in mem
      requires 1 <= nunits <= mem[p].size
      modifies this
      ensures Valid() && top == old(top) && freep == prevp && own.Keys == old(own.Keys)
      ensures r !in old(Live()) && Live() == old(Live())[r := nunits]
      ensures r == p + old(mem[p].size) - nunits
    {
      assert i + 1 < |ring| && p in blocks;
      if mem[p].size == nunits {
        TakeWhole(prevp, p, i);
        return p;
      }
      r := TakeTail(prevp, p, nunits, i + 1);
    }

    /** The same for the block that the search finds, having passed all those from freep on. */
    method TakeNext(prevp: int, p: int, nunits: nat, ghost f: nat, ghost i: nat) returns (r: int)
      requires freep != 0 && Valid() && i < |ring| && ring[i] == prevp && p == Succ(ring, i) && p in mem
      requires 1 <= nunits <= mem[p].size
      requires f < |ring| && ring[f] == freep && TooSmall(mem, ring, f, i, nunits)
      modifies this
      ensures Valid() && top == old(top) && freep != 0 && own.Keys == old(own.Keys)
      ensures r > 0 && r !in old(Live()) && Live() == old(Live())[r := nunits] && !old(NoneFits(nunits))
      ensures NextFit(old(mem), old(ring), old(freep), freep, nunits, r)
    {
      FitsNext(mem, ring, f, i, nunits);
      assert ring[i + 1] in ring;
      r := Take(prevp, p, nunits, i);
      assert r in Live();
    }

    /** The first malloc makes the list of base alone. */
    method MakeBase()
      requires Valid() && freep == 0
      modifies this
      ensures Valid() && top == old(top) && freep == base && ring == [base] && Live() == map[] && own == map[]
    {
      freep := base;
      mem := mem[base := Header(base, 0)];
      ring := [base];
      assert LinkOk(mem, ring, 0);
    }

    /** What malloc promises of a request for nunits units: a block of exactly that size that was
        not live before, from the free list if one fits and else from new memory, and no other
        live block changes; or 0 if none fits and sbrk fails. */
    twostate predicate Allocated(nunits: nat, granted: bool, r: int)
      reads this
    {
      && Valid() && freep != 0
      && (r == 0 <==> old(NoneFits(nunits)) && !old(Gives(nunits, granted)))
      && (r == 0 ==> Live() == old(Live()))
      && (r != 0 ==> r - 1 !in old(Live()) && Live() == old(Live())[r - 1 := nunits])
      && (if r != 0 && old(NoneFits(nunits)) then GrownBy(nunits) else own.Keys == old(own.Keys) && top == old(top))
    }

    /** malloc's loop, once the list exists. */
    method Search(nunits: nat, granted: bool) returns (ok: bool, r: int)
      requires freep != 0 && Valid() && 1 <= nunits <= UINT / 8
      modifies this
      ensures ok <==> !(old(NoneFits(nunits)) && SbrkArg(Ask(nunits)) <= 0)
      ensures ok ==> Allocated(nunits, granted, r)
      ensures ok && !old(NoneFits(nunits)) ==> NextFit(old(mem), old(ring), old(freep), freep, nunits, r - 1)
    {
      var prevp := freep;
      ghost var f: nat := IndexOf(ring, freep);
      ghost var i: nat := f;
      ghost var grown := false;
      assert LinkOk(mem, ring, f);
      var p := mem[prevp].ptr;
      while true
        invariant freep != 0 && Valid() && Live() == old(Live())
        invariant f < |ring| && ring[f] == freep && i < |ring| && ring[i] == prevp && p == Succ(ring, i)
        invariant TooSmall(mem, ring, f, i, nunits)
        invariant if grown then old(NoneFits(nunits)) && old(Gives(nunits, granted)) && GrownBy(nunits)
                  && !NoneFits(nunits)
                                && SbrkArg(Ask(nunits)) > 0
                  else unchanged(this)
        decreases !grown, |ring| - Dist(f, i, |ring|)
      {
        ghost var n: nat := if i + 1 < |ring| then i + 1 else 0;
        assert LinkOk(mem, ring, n);
        if mem[p].size >= nunits {
          r := TakeNext(prevp, p, nunits, f, i);
          return true, r + 1;
        }
        if p == freep {
          AllTooSmall(mem, ring, f, i, nunits);
          ok, p := Morecore(nunits, granted);
          if !ok || p == 0 {
            return ok, 0;
          }
          grown, f := true, IndexOf(ring, freep);
          n := f;
          assert LinkOk(mem, ring, n);
        } else {
          StillTooSmall(mem, ring, f, i, n, nunits);
        }
        prevp, i := p, n;
        p := mem[p].ptr;
      }
    }

    /** malloc of nbytes. It misbehaves, storing a header outside the memory that sbrk gave, for
        exactly the requests from 2^31 - 15 bytes up to those whose rounding wraps at 2^32; the
        block of any smaller request holds its bytes. */
    method Malloc(nbytes: nat, granted: bool) returns (ok: bool, r: int)
      requires Valid() && nbytes < UINT
      modifies this
      ensures ok <==> !Misasked(nbytes)
      ensures ok ==> Allocated(Units(nbytes), granted, r)
      ensures ok && r != 0 && nbytes <= KERNBASE - 16 ==> nbytes <= 8 * (Live()[r - 1] - 1) < nbytes + 8
      ensures ok && !old(NoneFits(Units(nbytes))) ==>
                NextFit(old(mem), old(ring), old(freep), freep, Units(nbytes), r - 1)
    {
      var nunits := (nbytes + 7) % UINT / 8 + 1;
      MisaskedExactly(nbytes);
      RequestFits(nbytes);
      if freep == 0 {
        MakeBase();
      }
      BlocksSmall(mem, base, ring, blocks, own, top);
      ok, r := Search(nunits, granted);
    }

    ghost predicate NoneFits(nunits: nat)
      reads this
    {
      freep != 0 ==> forall a | a in ring :: a in mem && mem[a].size < nunits
    }

    /** hp->s.size = nu, on memory just obtained. */
    method AddRegion(p: int, n: nat)
      requires freep != 0 && Valid() && n >= 1 && base < p && p + n <= top && Region(p, n) !! own.Keys
      modifies this`mem, this`blocks, this`own
      ensures Valid() && p !in old(Live()) && Live() == old(Live())[p := n] && own.Keys == old(own.Keys) + Region(p, n)
    {
      Grown(mem, base, ring, blocks, own, p, n);
      AnnexBelow(own, base, p, n, top);
      LiveMore(ring, blocks, p, n);
      mem := mem[p := Header(if p in mem then mem[p].ptr else 0, n)];
      blocks, own := blocks[p := n], Annex(own, p, n);
    }
  }
}
