/** The block allocator and the file layer of fs.c: files as byte sequences over bitmap-allocated
    direct and indirect blocks. */
module Fs {
  import opened Common
  import opened FsBlocks

  const NDIRECT: nat := 12
  const MAXFILE: nat := NDIRECT + NINDIRECT
  const NSLOTS: nat := MAXFILE + 1
  const IPB: nat := 8                  // inodes per block

  /** The layout: metadata blocks, among them the bitmap from bmapstart on, lie below datastart. */
  datatype Super = Super(size: nat, inodestart: nat, bmapstart: nat, datastart: nat)

  /** An inode's file fields; entry NDIRECT of addrs is the indirect block. */
  datatype Inode = Inode(size: nat, addrs: seq<nat>)

  /** A place that can hold a block number: 0 to NDIRECT in the inode's addrs, then the
      entries of its indirect block. */
  datatype Slot = Slot(inum: nat, k: nat)

  // ---------------------------------------------------------------- the abstraction

  function Ref(blocks: seq<Block>, ip: Inode, k: nat): (r: nat)
    requires |ip.addrs| == NDIRECT + 1
    ensures r < UINT || k <= NDIRECT
  {
    if k <= NDIRECT then ip.addrs[k]
    else if k < NSLOTS && 0 < ip.addrs[NDIRECT] < |blocks| then Word(blocks[ip.addrs[NDIRECT]], k - NDIRECT - 1)
    else 0
  }

  /** The slot of a file's n-th block. */
  function SlotOf(n: nat): nat {
    if n < NDIRECT then n else n + 1
  }

  ghost function SlotRef(blocks: seq<Block>, inodes: map<nat, Inode>, s: Slot): nat {
    if s.inum in inodes && |inodes[s.inum].addrs| == NDIRECT + 1 then Ref(blocks, inodes[s.inum], s.k) else 0
  }

  function ByteAt(blocks: seq<Block>, ip: Inode, p: nat): Byte
    requires |ip.addrs| == NDIRECT + 1
  {
    var r := Ref(blocks, ip, SlotOf(p / BSIZE));
    if r < |blocks| then blocks[r][p % BSIZE] else 0
  }

  /** The file as a sequence of bytes. */
  function Content(blocks: seq<Block>, ip: Inode): (c: seq<Byte>)
    requires |ip.addrs| == NDIRECT + 1
    ensures |c| == ip.size
  {
    seq(ip.size, p requires 0 <= p < ip.size => ByteAt(blocks, ip, p))
  }

  /** c with src written over it at off, growing if need be. */
  function Splice(c: seq<Byte>, off: nat, src: seq<Byte>): seq<Byte>
    requires off <= |c|
  {
    c[..off] + src + (if off + |src| < |c| then c[off + |src|..] else [])
  }

  // ---------------------------------------------------------------- the invariant

  /** d is c with src from off on, and no shorter. */
  ghost predicate Altered(c: seq<Byte>, off: nat, src: seq<Byte>, d: seq<Byte>) {
    && off <= |c| && |d| == (if off + |src| > |c| then off + |src| else |c|)
    && (forall j | 0 <= j < |src| :: d[off + j] == src[j])
    && forall j | 0 <= j < |c| && !(off <= j < off + |src|) :: d[j] == c[j]
  }

  lemma SpliceAlters(c: seq<Byte>, off: nat, src: seq<Byte>)
    requires off <= |c|
    ensures Altered(c, off, src, Splice(c, off, src))
  {
  }

  /** A file's byte p is in the block that the inode names for it: the first twelve directly, the others in
      the indirect block. */
  lemma ContentIs(blocks: seq<Block>, ip: Inode, p: nat)
    requires |ip.addrs| == 13 && p < ip.size
    ensures p / 512 < 12 && ip.addrs[p / 512] < |blocks| ==>
              Content(blocks, ip)[p] == blocks[ip.addrs[p / 512]][p % 512]
    ensures 12 <= p / 512 < 140 && 0 < ip.addrs[12] < |blocks| ==>
              var r := Word(blocks[ip.addrs[12]], p / 512 - 12);
              r < |blocks| ==> Content(blocks, ip)[p] == blocks[r][p % 512]
  {
  }

  ghost predicate Geometry(sb: Super, blocks: seq<Block>) {
    && |blocks| == sb.size < UINT
    && 0 < sb.datastart <= sb.size
    && forall b: nat | b < sb.size :: InBitmap(sb, b)
  }

  /** The bitmap block of b lies in the metadata. */
  predicate InBitmap(sb: Super, b: nat) {
    sb.bmapstart + b / BPB < sb.datastart
  }

  predicate Used(sb: Super, blocks: seq<Block>, b: nat)
    requires InBitmap(sb, b) && sb.datastart <= |blocks|
  {
    BlockBit(blocks[sb.bmapstart + b / BPB], b % BPB)
  }

  /** Block b's bit in the bitmap. */
  lemma UsedIs(sb: Super, blocks: seq<Block>, b: nat)
    requires InBitmap(sb, b) && sb.datastart <= |blocks|
    ensures Used(sb, blocks, b) <==> blocks[sb.bmapstart + b / 4096][b % 4096 / 8] / Pow2(b % 4096 % 8) % 2 == 1
  {
    BlockBitIs(blocks[sb.bmapstart + b / BPB], b % BPB, true);
  }

  /** The blocks that the bitmap marks. */
  ghost function UsedSet(sb: Super, blocks: seq<Block>): set<nat>
    requires Geometry(sb, blocks)
  {
    set b: nat | b < sb.size && Used(sb, blocks, b)
  }

  ghost function Metadata(sb: Super): set<nat> {
    set b: nat | b < sb.datastart && IsMetadata(sb, b)
  }

  ghost predicate IsMetadata(sb: Super, b: nat) {
    b < sb.datastart
  }

  /** Every block number in a slot belongs to that slot alone and is a data block, and owner
      records exactly these. */
  ghost predicate Owned(sb: Super, blocks: seq<Block>, inodes: map<nat, Inode>, owner: map<nat, Slot>) {
    && (forall s :: SlotRef(blocks, inodes, s) != 0 ==>
          var b := SlotRef(blocks, inodes, s); sb.datastart <= b < sb.size && b in owner && owner[b] == s)
    && (forall b | b in owner :: b != 0 && SlotRef(blocks, inodes, owner[b]) == b)
  }

  /** No file has a hole. */
  ghost predicate NoHoles(blocks: seq<Block>, ip: Inode)
    requires |ip.addrs| == NDIRECT + 1
  {
    forall n | 0 <= n && n * BSIZE < ip.size :: Ref(blocks, ip, SlotOf(n)) != 0
  }

  ghost predicate InodesOk(inodes: map<nat, Inode>) {
    forall i | i in inodes :: |inodes[i].addrs| == NDIRECT + 1 && inodes[i].size <= MAXFILE * BSIZE
  }

  ghost predicate Consistent(sb: Super, blocks: seq<Block>, inodes: map<nat, Inode>, owner: map<nat, Slot>) {
    && Geometry(sb, blocks) && InodesOk(inodes)
    && Owned(sb, blocks, inodes, owner)
    && UsedSet(sb, blocks) == Metadata(sb) + owner.Keys
    && forall i | i in inodes :: NoHoles(blocks, inodes[i])
  }

  // ---------------------------------------------------------------- frames

  /** Changing no indirect block changes no block number anywhere. */
  lemma RefsSame(sb: Super, was: seq<Block>, now: seq<Block>, inodes: map<nat, Inode>, owner: map<nat, Slot>)
    requires Owned(sb, was, inodes, owner) && |was| == |now| == sb.size
    requires forall b | b in owner && owner[b].k == NDIRECT && b < sb.size :: now[b] == was[b]
    ensures forall s :: SlotRef(now, inodes, s) == SlotRef(was, inodes, s)
  {
    forall s
      ensures SlotRef(now, inodes, s) == SlotRef(was, inodes, s)
    {
      var ind := Slot(s.inum, NDIRECT);
      assert SlotRef(was, inodes, ind) != 0 ==> owner[SlotRef(was, inodes, ind)] == ind;
    }
  }

  lemma BitPlace(base: nat, bi: nat)
    requires base % BPB == 0 && bi < BPB
    ensures (base + bi) / BPB == base / BPB && (base + bi) % BPB == bi && (base + BPB) % BPB == 0
  {
  }

  function Marked(sb: Super, blocks: seq<Block>, b: nat, on: bool): (r: seq<Block>)
    requires InBitmap(sb, b) && sb.datastart <= |blocks|
    ensures |r| == |blocks|
  {
    var m := sb.bmapstart + b / BPB;
    blocks[m := WithBit(blocks[m], b % BPB, on)]
  }

  /** Changing the bit of b changes no other block's. */
  lemma UsedFlipped(sb: Super, blocks: seq<Block>, b: nat, on: bool, c: nat)
    requires InBitmap(sb, b) && InBitmap(sb, c) && sb.datastart <= |blocks|
    ensures Used(sb, Marked(sb, blocks, b, on), c) == if c == b then on else Used(sb, blocks, c)
  {
    BitWritten(blocks[sb.bmapstart + b / BPB], b % BPB, on, c % BPB);
    assert b == BPB * (b / BPB) + b % BPB && c == BPB * (c / BPB) + c % BPB;
  }

  lemma UsedMarked(sb: Super, blocks: seq<Block>, b: nat, on: bool)
    requires Geometry(sb, blocks) && b < sb.size
    ensures InBitmap(sb, b) && Geometry(sb, Marked(sb, blocks, b, on))
    ensures UsedSet(sb, Marked(sb, blocks, b, on))
              == if on then UsedSet(sb, blocks) + {b} else UsedSet(sb, blocks) - {b}
  {
    forall c: nat | c < sb.size
      ensures InBitmap(sb, c) && Used(sb, Marked(sb, blocks, b, on), c) == if c == b then on else Used(sb, blocks, c)
    {
      UsedFlipped(sb, blocks, b, on, c);
    }
  }

  /** Only metadata blocks say what is used. */
  lemma UsedSame(sb: Super, was: seq<Block>, now: seq<Block>)
    requires Geometry(sb, was) && |now| == sb.size
    requires forall b | 0 <= b < sb.datastart :: now[b] == was[b]
    ensures Geometry(sb, now) && UsedSet(sb, now) == UsedSet(sb, was)
  {
    assert forall c: nat | c < sb.size :: InBitmap(sb, c) && Used(sb, now, c) == Used(sb, was, c);
  }

  /** Entering fresh zeroed block b in empty slot k of the inode itself. */
  lemma LinkedDirect(sb: Super, blocks: seq<Block>, inodes: map<nat, Inode>, owner: map<nat, Slot>, i: nat, k: nat,
                     b: nat)
    requires Geometry(sb, blocks) && InodesOk(inodes) && Owned(sb, blocks, inodes, owner)
    requires i in inodes && k <= NDIRECT && inodes[i].addrs[k] == 0
    requires sb.datastart <= b < sb.size && b !in owner && blocks[b] == ZeroBlock
    ensures var ip := inodes[i].(addrs := inodes[i].addrs[k := b]);
            && Owned(sb, blocks, inodes[i := ip], owner[b := Slot(i, k)])
            && forall s ::
              SlotRef(blocks, inodes[i := ip], s) == if s == Slot(i, k) then b else SlotRef(blocks, inodes, s)
  {
    var ip := inodes[i].(addrs := inodes[i].addrs[k := b]);
    forall s
      ensures SlotRef(blocks, inodes[i := ip], s) == if s == Slot(i, k) then b else SlotRef(blocks, inodes, s)
    {
      if s.inum == i && NDIRECT < s.k < NSLOTS && k == NDIRECT {
        assert Word(ZeroBlock, s.k - NDIRECT - 1) == 0;
      }
    }
    assert SlotRef(blocks, inodes, Slot(i, k)) == 0;
    var o, after := owner[b := Slot(i, k)], inodes[i := ip];
    forall c | c in o
      ensures c != 0 && SlotRef(blocks, after, o[c]) == c
    {
      assert c in owner ==> SlotRef(blocks, inodes, owner[c]) == c;
    }
    forall s | SlotRef(blocks, after, s) != 0
      ensures var c := SlotRef(blocks, after, s); sb.datastart <= c < sb.size && c in o && o[c] == s
    {
      assert SlotRef(blocks, inodes, s) != 0 || s == Slot(i, k);
    }
  }

  /** Entering fresh block b in empty entry k of the inode's indirect block. */
  lemma LinkedEntry(sb: Super, blocks: seq<Block>, inodes: map<nat, Inode>, owner: map<nat, Slot>, i: nat, k: nat,
                    b: nat)
    requires Geometry(sb, blocks) && InodesOk(inodes) && Owned(sb, blocks, inodes, owner)
    requires i in inodes && NDIRECT < k < NSLOTS && inodes[i].addrs[NDIRECT] != 0 && Ref(blocks, inodes[i], k) == 0
    requires sb.datastart <= b < sb.size && b !in owner
    ensures var ind := inodes[i].addrs[NDIRECT];
            && sb.datastart <= ind < sb.size && ind != b
            && var now := blocks[ind := WithWord(blocks[ind], k - NDIRECT - 1, b)];
               && Owned(sb, now, inodes, owner[b := Slot(i, k)])
               && forall s :: SlotRef(now, inodes, s) == if s == Slot(i, k) then b else SlotRef(blocks, inodes, s)
  {
    var ind := inodes[i].addrs[NDIRECT];
    assert SlotRef(blocks, inodes, Slot(i, NDIRECT)) == ind;
    var now := blocks[ind := WithWord(blocks[ind], k - NDIRECT - 1, b)];
    forall s
      ensures SlotRef(now, inodes, s) == if s == Slot(i, k) then b else SlotRef(blocks, inodes, s)
    {
      EntrySlot(sb, blocks, inodes, owner, i, k, b, s);
    }
    OwnedMore(sb, blocks, now, inodes, owner, Slot(i, k), b);
  }

  lemma EntrySlot(sb: Super, blocks: seq<Block>, inodes: map<nat, Inode>, owner: map<nat, Slot>, i: nat, k: nat, b: nat,
                  s: Slot)
    requires InodesOk(inodes) && Owned(sb, blocks, inodes, owner) && |blocks| == sb.size < UINT && b < UINT
    requires i in inodes && NDIRECT < k < NSLOTS && 0 < inodes[i].addrs[NDIRECT] < |blocks|
    ensures var ind := inodes[i].addrs[NDIRECT];
            var now := blocks[ind := WithWord(blocks[ind], k - NDIRECT - 1, b)];
            SlotRef(now, inodes, s) == if s == Slot(i, k) then b else SlotRef(blocks, inodes, s)
  {
    var ind := inodes[i].addrs[NDIRECT];
    assert SlotRef(blocks, inodes, Slot(i, NDIRECT)) == ind;
    if s.inum in inodes && NDIRECT < s.k < NSLOTS {
      assert SlotRef(blocks, inodes, Slot(s.inum, NDIRECT)) == inodes[s.inum].addrs[NDIRECT];
      WordWritten(blocks[ind], k - NDIRECT - 1, b, s.k - NDIRECT - 1);
    }
  }

  /** One more block number, in one slot that was empty. */
  lemma OwnedMore(sb: Super, blocks: seq<Block>, now: seq<Block>, inodes: map<nat, Inode>, owner: map<nat, Slot>,
                  sl: Slot, b: nat)
    requires Owned(sb, blocks, inodes, owner) && SlotRef(blocks, inodes, sl) == 0
    requires sb.datastart <= b < sb.size && b != 0 && b !in owner
    requires forall s :: SlotRef(now, inodes, s) == if s == sl then b else SlotRef(blocks, inodes, s)
    ensures Owned(sb, now, inodes, owner[b := sl])
  {
    var o := owner[b := sl];
    forall c | c in o
      ensures c != 0 && SlotRef(now, inodes, o[c]) == c
    {
      assert c in owner ==> SlotRef(blocks, inodes, owner[c]) == c;
    }
  }

  /** A state of the disk and the inodes, with the owner of every allocated block. */
  datatype State = State(blocks: seq<Block>, inodes: map<nat, Inode>, owner: map<nat, Slot>)

  /** From s to t inode i got some new blocks: every block number stays where it was, no other
      inode changes, and no file's data block changes. */
  ghost predicate Extended(s: State, t: State, i: nat) {
    && |t.blocks| == |s.blocks|
    && t.inodes.Keys == s.inodes.Keys
    && (forall j | j in s.inodes :: t.inodes[j].size == s.inodes[j].size && (j != i ==> t.inodes[j] == s.inodes[j]))
    && (forall sl: Slot | SlotRef(s.blocks, s.inodes, sl) != 0 || sl.inum != i ::
          SlotRef(t.blocks, t.inodes, sl) == SlotRef(s.blocks, s.inodes, sl))
    && (forall b | b in s.owner :: b in t.owner && t.owner[b] == s.owner[b]
          && (s.owner[b].k != NDIRECT && b < |s.blocks| ==> t.blocks[b] == s.blocks[b]))
  }

  ghost predicate Sound(sb: Super, s: State) {
    Consistent(sb, s.blocks, s.inodes, s.owner)
  }

  lemma ExtendedTwice(s: State, t: State, u: State, i: nat)
    requires Extended(s, t, i) && Extended(t, u, i)
    ensures Extended(s, u, i)
  {
  }

  /** The state after balloc gave b and slot k of inode i took it. */
  lemma Attached(sb: Super, s: State, blocks: seq<Block>, i: nat, k: nat, b: nat)
    requires Sound(sb, s) && i in s.inodes && k <= NDIRECT && s.inodes[i].addrs[k] == 0
    requires Geometry(sb, blocks) && sb.datastart <= b < sb.size && b !in s.owner && blocks[b] == ZeroBlock
    requires UsedSet(sb, blocks) == UsedSet(sb, s.blocks) + {b}
    requires forall c | sb.datastart <= c < sb.size && c != b :: blocks[c] == s.blocks[c]
    ensures var ip := s.inodes[i].(addrs := s.inodes[i].addrs[k := b]);
            var t := State(blocks, s.inodes[i := ip], s.owner[b := Slot(i, k)]);
            Sound(sb, t) && Extended(s, t, i) && SlotRef(t.blocks, t.inodes, Slot(i, k)) == b
  {
    assert forall c | c in s.owner :: SlotRef(s.blocks, s.inodes, s.owner[c]) == c;
    RefsSame(sb, s.blocks, blocks, s.inodes, s.owner);
    assert SlotRef(s.blocks, s.inodes, Slot(i, k)) == 0;
    LinkedDirect(sb, blocks, s.inodes, s.owner, i, k, b);
    var ip := s.inodes[i].(addrs := s.inodes[i].addrs[k := b]);
    var t := State(blocks, s.inodes[i := ip], s.owner[b := Slot(i, k)]);
    HolesKept(s, t, i);
  }

  /** The state after balloc gave b and entry k of inode i's indirect block took it. */
  lemma AttachedEntry(sb: Super, s: State, blocks: seq<Block>, i: nat, k: nat, b: nat)
    requires Sound(sb, s) && i in s.inodes && NDIRECT < k < NSLOTS
    requires s.inodes[i].addrs[NDIRECT] != 0 && Ref(s.blocks, s.inodes[i], k) == 0
    requires Geometry(sb, blocks) && sb.datastart <= b < sb.size && b !in s.owner
    requires UsedSet(sb, blocks) == UsedSet(sb, s.blocks) + {b}
    requires forall c | sb.datastart <= c < sb.size && c != b :: blocks[c] == s.blocks[c]
    ensures var ind := s.inodes[i].addrs[NDIRECT];
            && ind < sb.size
            && var t := State(blocks[ind := WithWord(blocks[ind], k - NDIRECT - 1, b)], s.inodes,
                              s.owner[b := Slot(i, k)]);
               Sound(sb, t) && Extended(s, t, i) && SlotRef(t.blocks, t.inodes, Slot(i, k)) == b
  {
    assert forall c | c in s.owner :: SlotRef(s.blocks, s.inodes, s.owner[c]) == c;
    RefsSame(sb, s.blocks, blocks, s.inodes, s.owner);
    assert SlotRef(s.blocks, s.inodes, Slot(i, k)) == 0;
    var ind := s.inodes[i].addrs[NDIRECT];
    assert SlotRef(s.blocks, s.inodes, Slot(i, NDIRECT)) == ind;
    assert SlotRef(blocks, s.inodes, Slot(i, k)) == 0;
    LinkedEntry(sb, blocks, s.inodes, s.owner, i, k, b);
    var t := State(blocks[ind := WithWord(blocks[ind], k - NDIRECT - 1, b)], s.inodes, s.owner[b := Slot(i, k)]);
    UsedSame(sb, blocks, t.blocks);
    HolesKept(s, t, i);
  }

  /** Block numbers that stay put leave no new holes. */
  lemma HolesKept(s: State, t: State, i: nat)
    requires Extended(s, t, i) && InodesOk(s.inodes) && InodesOk(t.inodes)
    requires forall j | j in s.inodes :: NoHoles(s.blocks, s.inodes[j])
    ensures forall j | j in t.inodes :: NoHoles(t.blocks, t.inodes[j])
  {
    forall j, n | j in t.inodes && 0 <= n && n * BSIZE < t.inodes[j].size
      ensures Ref(t.blocks, t.inodes[j], SlotOf(n)) != 0
    {
      var sl := Slot(j, SlotOf(n));
      assert SlotRef(s.blocks, s.inodes, sl) == Ref(s.blocks, s.inodes[j], SlotOf(n)) != 0;
      assert SlotRef(t.blocks, t.inodes, sl) == Ref(t.blocks, t.inodes[j], SlotOf(n));
    }
  }

  // ---------------------------------------------------------------- file data

  /** Data written over part of a block. */
  function Patch(b: Block, o: nat, data: seq<Byte>): Block
    requires o + |data| <= BSIZE
  {
    b[..o] + data + b[o + |data|..]
  }

  lemma PatchAt(b: Block, o: nat, data: seq<Byte>, q: nat)
    requires o + |data| <= BSIZE && q < BSIZE
    ensures Patch(b, o, data)[q] == if o <= q < o + |data| then data[q - o] else b[q]
  {
  }

  ghost predicate Mapped(s: State, i: nat, p: nat) {
    SlotRef(s.blocks, s.inodes, Slot(i, SlotOf(p / BSIZE))) != 0
  }

  ghost function Get(s: State, i: nat, p: nat): int {
    if i in s.inodes && |s.inodes[i].addrs| == NDIRECT + 1 then ByteAt(s.blocks, s.inodes[i], p) else 0
  }

  /** New blocks change no byte that was there. */
  lemma ExtendedBytes(sb: Super, s: State, t: State, i: nat, j: nat, p: nat)
    requires Sound(sb, s) && Extended(s, t, i) && InodesOk(t.inodes) && j in s.inodes && Mapped(s, j, p)
    ensures Mapped(t, j, p) && Get(t, j, p) == Get(s, j, p)
  {
    var sl := Slot(j, SlotOf(p / BSIZE));
    var b := SlotRef(s.blocks, s.inodes, sl);
    assert b in s.owner && s.owner[b] == sl;
    assert SlotRef(t.blocks, t.inodes, sl) == b;
  }

  /** Overwriting the data block of the file's bn-th block changes those bytes and no others. */
  lemma DataWritten(sb: Super, s: State, i: nat, bn: nat, addr: nat, x: Block)
    requires Sound(sb, s) && addr != 0 && SlotRef(s.blocks, s.inodes, Slot(i, SlotOf(bn))) == addr
    ensures addr < sb.size
    ensures var t := State(s.blocks[addr := x], s.inodes, s.owner);
            && Sound(sb, t)
            && (forall sl :: SlotRef(t.blocks, t.inodes, sl) == SlotRef(s.blocks, s.inodes, sl))
            && forall j, p: nat | Mapped(s, j, p) ::
                 Get(t, j, p) == if j == i && p / BSIZE == bn then x[p % BSIZE] else Get(s, j, p)
  {
    var t := State(s.blocks[addr := x], s.inodes, s.owner);
    RefsSame(sb, s.blocks, t.blocks, s.inodes, s.owner);
    UsedSame(sb, s.blocks, t.blocks);
    forall j | j in t.inodes
      ensures NoHoles(t.blocks, t.inodes[j])
    {
      assert NoHoles(s.blocks, s.inodes[j]);
      assert forall k :: Ref(t.blocks, t.inodes[j], k) == SlotRef(t.blocks, t.inodes, Slot(j, k));
      assert forall k :: Ref(s.blocks, s.inodes[j], k) == SlotRef(s.blocks, s.inodes, Slot(j, k));
    }
    forall j, p: nat | Mapped(s, j, p)
      ensures Get(t, j, p) == if j == i && p / BSIZE == bn then x[p % BSIZE] else Get(s, j, p)
    {
      var sl := Slot(j, SlotOf(p / BSIZE));
      var b := SlotRef(s.blocks, s.inodes, sl);
      assert s.owner[b] == sl && SlotRef(t.blocks, t.inodes, sl) == b;
      assert b == Ref(s.blocks, s.inodes[j], sl.k) == Ref(t.blocks, t.inodes[j], sl.k);
    }
  }

  /** The positions of m bytes from off on that fit in one block. */
  lemma InBlock(off: nat, m: nat, p: nat)
    requires off % BSIZE + m <= BSIZE
    ensures off <= p < off + m <==> p / BSIZE == off / BSIZE && off % BSIZE <= p % BSIZE < off % BSIZE + m
    ensures off <= p < off + m ==> p % BSIZE - off % BSIZE == p - off
  {
  }

  /** writei after tot bytes: from s to t the file's bytes from off on are those of src, its other
      bytes and every other file are as they were. */
  ghost predicate Written(s: State, t: State, i: nat, off: nat, src: seq<Byte>, tot: nat)
    requires tot <= |src|
  {
    && t.inodes.Keys == s.inodes.Keys && i in s.inodes
    && (forall j | j in s.inodes :: t.inodes[j].size == s.inodes[j].size && (j != i ==> t.inodes[j] == s.inodes[j]))
    && (forall p: nat | p < s.inodes[i].size || p < off + tot :: Mapped(t, i, p))
    && (forall p: nat | p < s.inodes[i].size || (off <= p < off + tot) ::
          Get(t, i, p) == if off <= p < off + tot then src[p - off] else Get(s, i, p))
    && (forall j, p: nat | j in s.inodes && j != i && p < s.inodes[j].size ::
          Mapped(t, j, p) && Get(t, j, p) == Get(s, j, p))
  }

  lemma SizesMapped(sb: Super, s: State, j: nat, p: nat)
    requires Sound(sb, s) && j in s.inodes && p < s.inodes[j].size
    ensures Mapped(s, j, p)
  {
    assert NoHoles(s.blocks, s.inodes[j]);
    assert SlotRef(s.blocks, s.inodes, Slot(j, SlotOf(p / BSIZE))) == Ref(s.blocks, s.inodes[j], SlotOf(p / BSIZE));
  }

  lemma NothingWritten(sb: Super, s: State, i: nat, off: nat, src: seq<Byte>)
    requires Sound(sb, s) && i in s.inodes && off <= s.inodes[i].size
    ensures Written(s, s, i, off, src, 0)
  {
    forall j, p: nat | j in s.inodes && p < s.inodes[j].size
      ensures Mapped(s, j, p)
    {
      SizesMapped(sb, s, j, p);
    }
  }

  /** What one turn of writei's loop makes of the byte at position p: was before the call, now before the
      turn, and m bytes of src go into block b of the file, which holds position at. */
  lemma WrittenByte(size: nat, off: nat, src: seq<Byte>, tot: nat, at: nat, bn: nat, m: nat, end: nat, p: nat, b: Block,
                    x: Block, was: int, now: int)
    requires at == off + tot && bn == at / BSIZE && end == tot + m <= |src| && at % BSIZE + m <= BSIZE && off <= size
    requires x == Patch(b, at % BSIZE, src[tot..end])
    requires p < size || off <= p < off + tot ==> now == if off <= p < off + tot then src[p - off] else was
    requires p / BSIZE == bn ==> now == b[p % BSIZE]
    requires p < size || off <= p < off + end
    ensures (if off <= p < off + end then src[p - off] else was) == if p / BSIZE == bn then x[p % BSIZE] else now
  {
    InBlock(at, m, p);
    PatchAt(b, at % BSIZE, src[tot..end], p % BSIZE);
  }

  /** bmap in writei's loop undoes nothing. */
  lemma WrittenExtended(sb: Super, s: State, t: State, u: State, i: nat, off: nat, src: seq<Byte>, tot: nat)
    requires tot <= |src| && Written(s, t, i, off, src, tot) && Sound(sb, t) && Extended(t, u, i) && InodesOk(u.inodes)
    ensures Written(s, u, i, off, src, tot)
  {
    forall p: nat | p < s.inodes[i].size || p < off + tot
      ensures Mapped(u, i, p) && Get(u, i, p) == Get(t, i, p)
    {
      ExtendedBytes(sb, t, u, i, i, p);
    }
    forall j, p: nat | j in s.inodes && j != i && p < s.inodes[j].size
      ensures Mapped(u, j, p) && Get(u, j, p) == Get(s, j, p)
    {
      ExtendedBytes(sb, t, u, i, j, p);
    }
  }

  /** The rest of the turn: m bytes into data block bn, which holds position at. */
  lemma WrittenStep(sb: Super, s: State, u: State, v: State, i: nat, off: nat, src: seq<Byte>, tot: nat, at: nat,
                    bn: nat, m: nat, end: nat, addr: nat, x: Block)
    requires at == off + tot && bn == at / BSIZE && end == tot + m <= |src| && m > 0 && at % BSIZE + m <= BSIZE
    requires Written(s, u, i, off, src, tot) && off <= s.inodes[i].size && Sound(sb, u)
    requires addr != 0 && addr < sb.size && SlotRef(u.blocks, u.inodes, Slot(i, SlotOf(bn))) == addr
    requires x == Patch(u.blocks[addr], at % BSIZE, src[tot..end])
    requires v == State(u.blocks[addr := x], u.inodes, u.owner)
    ensures Sound(sb, v) && Written(s, v, i, off, src, end)
  {
    DataWritten(sb, u, i, bn, addr, x);
    forall p: nat | p < s.inodes[i].size || p < off + end
      ensures Mapped(v, i, p)
      ensures p < s.inodes[i].size || off <= p ==>
                Get(v, i, p) == if off <= p < off + end then src[p - off] else Get(s, i, p)
    {
      InBlock(at, m, p);
      assert p < s.inodes[i].size || p < off + tot ==> Mapped(u, i, p);
      assert p / BSIZE == bn ==> Get(u, i, p) == u.blocks[addr][p % BSIZE];
      if p < s.inodes[i].size || off <= p {
        WrittenByte(s.inodes[i].size, off, src, tot, at, bn, m, end, p, u.blocks[addr], x, Get(s, i, p), Get(u, i, p));
      }
    }
  }

  /** A whole turn: from t to u by bmap, and then to v. */
  lemma TurnDone(sb: Super, s: State, t: State, u: State, v: State, i: nat, off: nat, src: seq<Byte>, tot: nat,
                 at: nat, bn: nat, m: nat, end: nat, addr: nat, x: Block)
    requires at == off + tot && bn == at / BSIZE && end == tot + m <= |src| && m > 0 && at % BSIZE + m <= BSIZE
    requires Written(s, t, i, off, src, tot) && off <= s.inodes[i].size
    requires Sound(sb, t) && Extended(t, u, i) && Sound(sb, u)
    requires addr != 0 && addr < sb.size && SlotRef(u.blocks, u.inodes, Slot(i, SlotOf(bn))) == addr
    requires x == Patch(u.blocks[addr], at % BSIZE, src[tot..end])
    requires v == State(u.blocks[addr := x], u.inodes, u.owner)
    ensures Sound(sb, v) && Written(s, v, i, off, src, end)
  {
    WrittenExtended(sb, s, t, u, i, off, src, tot);
    WrittenStep(sb, s, u, v, i, off, src, tot, at, bn, m, end, addr, x);
  }

  /** The part of a data block that readi copies. */
  lemma BlockPart(blocks: seq<Block>, ip: Inode, off: nat, m: nat)
    requires |ip.addrs| == NDIRECT + 1 && off + m <= ip.size && off % BSIZE + m <= BSIZE
    requires Ref(blocks, ip, SlotOf(off / BSIZE)) < |blocks|
    ensures blocks[Ref(blocks, ip, SlotOf(off / BSIZE))][off % BSIZE..off % BSIZE + m]
              == Content(blocks, ip)[off..off + m]
  {
    var part := blocks[Ref(blocks, ip, SlotOf(off / BSIZE))][off % BSIZE..off % BSIZE + m];
    forall q: nat | q < m
      ensures part[q] == Content(blocks, ip)[off + q]
    {
      InBlock(off, m, off + q);
    }
  }

  lemma PartRead(s: State, i: nat, off: nat, bn: nat, m: nat, addr: nat)
    requires i in s.inodes && |s.inodes[i].addrs| == NDIRECT + 1 && off + m <= s.inodes[i].size
    requires off % BSIZE + m <= BSIZE && bn == off / BSIZE && addr < |s.blocks|
    requires SlotRef(s.blocks, s.inodes, Slot(i, SlotOf(bn))) == addr
    ensures s.blocks[addr][off % BSIZE..off % BSIZE + m] == Content(s.blocks, s.inodes[i])[off..off + m]
  {
    BlockPart(s.blocks, s.inodes[i], off, m);
  }

  /** The state with inode i's size set. */
  function Resized(s: State, i: nat, size: nat): State
    requires i in s.inodes
  {
    s.(inodes := s.inodes[i := s.inodes[i].(size := size)])
  }

  /** Every inode but i, and its contents, is as it was. */
  ghost predicate OthersSame(s: State, t: State, i: nat) {
    && t.inodes.Keys == s.inodes.Keys && InodesOk(s.inodes) && InodesOk(t.inodes)
    && forall j | j in s.inodes && j != i ::
         t.inodes[j] == s.inodes[j] && Content(t.blocks, t.inodes[j]) == Content(s.blocks, s.inodes[j])
  }

  /** 32-bit sums: the overflow check of readi and writei. */
  lemma Wraps(off: nat, n: nat)
    requires off < UINT && n < UINT
    ensures (off + n) % UINT < off <==> off + n >= UINT
    ensures off + n < UINT ==> (off + n) % UINT == off + n
  {
  }

  lemma WrittenOthers(s: State, t: State, u: State, i: nat, off: nat, src: seq<Byte>, j: nat)
    requires Written(s, t, i, off, src, |src|) && InodesOk(s.inodes) && j in s.inodes && j != i
    requires u.blocks == t.blocks && j in u.inodes && u.inodes[j] == s.inodes[j]
    ensures Content(u.blocks, u.inodes[j]) == Content(s.blocks, s.inodes[j])
  {
    forall p: nat | p < s.inodes[j].size
      ensures Content(u.blocks, u.inodes[j])[p] == Content(s.blocks, s.inodes[j])[p]
    {
      assert Get(t, j, p) == Get(s, j, p);
    }
  }

  lemma WrittenOwn(s: State, t: State, ip: Inode, i: nat, off: nat, src: seq<Byte>)
    requires Written(s, t, i, off, src, |src|) && InodesOk(s.inodes) && InodesOk(t.inodes) && off <= s.inodes[i].size
    requires ip.addrs == t.inodes[i].addrs
    requires ip.size == if off + |src| > s.inodes[i].size then off + |src| else s.inodes[i].size
    ensures Content(t.blocks, ip) == Splice(Content(s.blocks, s.inodes[i]), off, src)
  {
    var c, d := Content(s.blocks, s.inodes[i]), Content(t.blocks, ip);
    forall p: nat | p < ip.size
      ensures d[p] == Splice(c, off, src)[p]
    {
      assert d[p] == Get(t, i, p);
      assert p < |c| ==> c[p] == Get(s, i, p);
    }
  }

  lemma ResizedSound(sb: Super, t: State, i: nat, size: nat)
    requires Sound(sb, t) && i in t.inodes && size <= MAXFILE * BSIZE
    requires forall p: nat | p < size :: Mapped(t, i, p)
    ensures Sound(sb, Resized(t, i, size))
  {
    var u := Resized(t, i, size);
    assert forall sl :: SlotRef(u.blocks, u.inodes, sl) == SlotRef(t.blocks, t.inodes, sl);
    forall n | 0 <= n && n * BSIZE < size
      ensures Ref(u.blocks, u.inodes[i], SlotOf(n)) != 0
    {
      assert Mapped(t, i, n * BSIZE) && n * BSIZE / BSIZE == n;
    }
  }

  /** Files refine byte sequences: a finished writei has spliced src into its file and left every
      other file alone. */
  lemma WrittenContent(sb: Super, s: State, t: State, i: nat, off: nat, src: seq<Byte>)
    requires Sound(sb, s) && Sound(sb, t) && Written(s, t, i, off, src, |src|)
    requires off <= s.inodes[i].size && off + |src| <= MAXFILE * BSIZE
    ensures var size := if off + |src| > s.inodes[i].size then off + |src| else s.inodes[i].size;
            var u := Resized(t, i, size);
            && Sound(sb, u)
            && Content(u.blocks, u.inodes[i]) == Splice(Content(s.blocks, s.inodes[i]), off, src)
            && OthersSame(s, u, i)
  {
    var size := if off + |src| > s.inodes[i].size then off + |src| else s.inodes[i].size;
    var u := Resized(t, i, size);
    ResizedSound(sb, t, i, size);
    WrittenOwn(s, t, u.inodes[i], i, off, src);
    forall j | j in s.inodes && j != i
      ensures Content(u.blocks, u.inodes[j]) == Content(s.blocks, s.inodes[j])
    {
      WrittenOthers(s, t, u, i, off, src, j);
    }
  }

  // ---------------------------------------------------------------- truncation

  /** Sound but for inode i, which may be missing blocks. */
  ghost predicate SoundBut(sb: Super, s: State, i: nat) {
    && Geometry(sb, s.blocks) && InodesOk(s.inodes)
    && Owned(sb, s.blocks, s.inodes, s.owner)
    && UsedSet(sb, s.blocks) == Metadata(sb) + s.owner.Keys
    && forall j | j in s.inodes && j != i :: NoHoles(s.blocks, s.inodes[j])
  }

  /** The state after direct slot k of inode i was freed, with blocks as bfree leaves them. */
  lemma FreedDirect(sb: Super, s: State, blocks: seq<Block>, i: nat, k: nat)
    requires SoundBut(sb, s, i) && i in s.inodes && k < NDIRECT && s.inodes[i].addrs[k] != 0
    requires Geometry(sb, blocks) && UsedSet(sb, blocks) == UsedSet(sb, s.blocks) - {s.inodes[i].addrs[k]}
    requires forall c | sb.datastart <= c < sb.size :: blocks[c] == s.blocks[c]
    ensures var b := s.inodes[i].addrs[k];
            SoundBut(sb, State(blocks, s.inodes[i := s.inodes[i].(addrs := s.inodes[i].addrs[k := 0])], s.owner - {b}),
                     i)
  {
    var b := s.inodes[i].addrs[k];
    var after := s.inodes[i := s.inodes[i].(addrs := s.inodes[i].addrs[k := 0])];
    assert SlotRef(s.blocks, s.inodes, Slot(i, k)) == b;
    assert forall c | c in s.owner :: SlotRef(s.blocks, s.inodes, s.owner[c]) == c;
    RefsSame(sb, s.blocks, blocks, s.inodes, s.owner);
    forall sl
      ensures SlotRef(blocks, after, sl) == if sl == Slot(i, k) then 0 else SlotRef(s.blocks, s.inodes, sl)
    {
      assert SlotRef(blocks, s.inodes, sl) == SlotRef(s.blocks, s.inodes, sl);
    }
    OwnedLess(sb, s, blocks, after, Slot(i, k), b);
    forall j | j in after && j != i
      ensures NoHoles(blocks, after[j])
    {
      OtherHoles(s, blocks, j);
    }
  }

  /** One block number less. */
  lemma OwnedLess(sb: Super, s: State, blocks: seq<Block>, inodes: map<nat, Inode>, sl: Slot, b: nat)
    requires Owned(sb, s.blocks, s.inodes, s.owner) && SlotRef(s.blocks, s.inodes, sl) == b != 0
    requires forall r :: SlotRef(blocks, inodes, r) == if r == sl then 0 else SlotRef(s.blocks, s.inodes, r)
    ensures Owned(sb, blocks, inodes, s.owner - {b})
  {
    forall c | c in s.owner - {b}
      ensures SlotRef(blocks, inodes, s.owner[c]) == c
    {
      assert SlotRef(s.blocks, s.inodes, s.owner[c]) == c;
    }
    forall r | SlotRef(blocks, inodes, r) != 0
      ensures var c := SlotRef(blocks, inodes, r); sb.datastart <= c < sb.size && c in s.owner - {b} && s.owner[c] == r
    {
      assert SlotRef(s.blocks, s.inodes, r) != 0;
    }
  }

  lemma OtherHoles(s: State, blocks: seq<Block>, j: nat)
    requires j in s.inodes && |s.inodes[j].addrs| == NDIRECT + 1 && NoHoles(s.blocks, s.inodes[j])
    requires forall k :: SlotRef(blocks, s.inodes, Slot(j, k)) == SlotRef(s.blocks, s.inodes, Slot(j, k))
    ensures NoHoles(blocks, s.inodes[j])
  {
    forall n | 0 <= n && n * BSIZE < s.inodes[j].size
      ensures Ref(blocks, s.inodes[j], SlotOf(n)) != 0
    {
      assert SlotRef(blocks, s.inodes, Slot(j, SlotOf(n))) == Ref(blocks, s.inodes[j], SlotOf(n));
      assert SlotRef(s.blocks, s.inodes, Slot(j, SlotOf(n))) == Ref(s.blocks, s.inodes[j], SlotOf(n));
    }
  }

  /** The first n block numbers of an indirect block. */
  ghost function Entries(b: Block, n: nat): set<nat>
    requires n <= NINDIRECT
  {
    set t | 0 <= t < n && Word(b, t) != 0 :: Word(b, t)
  }

  /** The blocks of every file but i's. */
  ghost function Without(owner: map<nat, Slot>, i: nat): map<nat, Slot> {
    map b | b in owner && owner[b].inum != i :: owner[b]
  }

  const EmptyInode: Inode := Inode(0, seq(NDIRECT + 1, _ => 0))

  /** The blocks that are left of inode i once its direct slots are empty. */
  ghost function IndirectBlocks(s: State, i: nat): set<nat>
    requires i in s.inodes && |s.inodes[i].addrs| == NDIRECT + 1
  {
    var ind := s.inodes[i].addrs[NDIRECT];
    if 0 < ind < |s.blocks| then Entries(s.blocks[ind], NINDIRECT) + {ind} else {}
  }

  lemma IndirectOwned(sb: Super, s: State, i: nat)
    requires SoundBut(sb, s, i) && i in s.inodes
    requires forall k | 0 <= k < NDIRECT :: s.inodes[i].addrs[k] == 0
    ensures forall b :: b in s.owner && s.owner[b].inum == i <==> b in IndirectBlocks(s, i)
  {
    var ind := s.inodes[i].addrs[NDIRECT];
    assert SlotRef(s.blocks, s.inodes, Slot(i, NDIRECT)) == ind;
    forall b
      ensures b in s.owner && s.owner[b].inum == i <==> b in IndirectBlocks(s, i)
    {
      if b in s.owner && s.owner[b].inum == i {
        assert SlotRef(s.blocks, s.inodes, s.owner[b]) == b;
      }
      if b in IndirectBlocks(s, i) && b != ind {
        var t :| 0 <= t < NINDIRECT && Word(s.blocks[ind], t) == b != 0;
        assert SlotRef(s.blocks, s.inodes, Slot(i, NDIRECT + 1 + t)) == b;
      }
    }
  }

  /** Freeing those leaves every other file sound and inode i empty. */
  lemma Truncated(sb: Super, s: State, blocks: seq<Block>, i: nat)
    requires SoundBut(sb, s, i) && i in s.inodes
    requires forall k | 0 <= k < NDIRECT :: s.inodes[i].addrs[k] == 0
    requires Geometry(sb, blocks) && UsedSet(sb, blocks) == UsedSet(sb, s.blocks) - IndirectBlocks(s, i)
    requires forall c | sb.datastart <= c < sb.size :: blocks[c] == s.blocks[c]
    ensures Sound(sb, State(blocks, s.inodes[i := EmptyInode], Without(s.owner, i)))
    ensures UsedSet(sb, blocks) == Metadata(sb) + Without(s.owner, i).Keys
  {
    var after, o := s.inodes[i := EmptyInode], Without(s.owner, i);
    var ind := s.inodes[i].addrs[NDIRECT];
    assert SlotRef(s.blocks, s.inodes, Slot(i, NDIRECT)) == ind;
    assert forall c | c in s.owner :: SlotRef(s.blocks, s.inodes, s.owner[c]) == c;
    RefsSame(sb, s.blocks, blocks, s.inodes, s.owner);
    forall sl
      ensures SlotRef(blocks, after, sl) == if sl.inum == i then 0 else SlotRef(s.blocks, s.inodes, sl)
    {
      assert SlotRef(blocks, s.inodes, sl) == SlotRef(s.blocks, s.inodes, sl);
    }
    IndirectOwned(sb, s, i);
    forall j | j in after
      ensures NoHoles(blocks, after[j])
    {
      if j != i {
        OtherHoles(s, blocks, j);
      }
    }
    assert UsedSet(sb, blocks) == Metadata(sb) + o.Keys;
  }

  /** Inode i lost blocks; nothing else changed. */
  ghost predicate Shrunk(s: State, t: State, i: nat) {
    && |t.blocks| == |s.blocks| && i in s.inodes && i in t.inodes
    && t.inodes == s.inodes[i := t.inodes[i]]
    && Without(t.owner, i) == Without(s.owner, i)
    && (forall b | b in s.owner && b < |s.blocks| && s.owner[b].inum != i :: t.blocks[b] == s.blocks[b])
  }

  lemma ShrunkTwice(s: State, t: State, u: State, i: nat)
    requires Shrunk(s, t, i) && Shrunk(t, u, i)
    ensures Shrunk(s, u, i)
  {
    forall b | b in s.owner && b < |s.blocks| && s.owner[b].inum != i
      ensures u.blocks[b] == s.blocks[b]
    {
      assert b in Without(s.owner, i);
      assert Without(s.owner, i)[b] == Without(t.owner, i)[b] && t.owner[b].inum != i;
    }
  }

  /** An entry of the indirect block is a used block that no earlier entry names. */
  lemma EntryFresh(sb: Super, s: State, i: nat, j: nat)
    requires SoundBut(sb, s, i) && i in s.inodes && j < NINDIRECT
    requires 0 < s.inodes[i].addrs[NDIRECT] < |s.blocks| && Word(s.blocks[s.inodes[i].addrs[NDIRECT]], j) != 0
    ensures var a := Word(s.blocks[s.inodes[i].addrs[NDIRECT]], j);
            a < sb.size && a in UsedSet(sb, s.blocks) && a !in Entries(s.blocks[s.inodes[i].addrs[NDIRECT]], j)
  {
    var ind := s.inodes[i].addrs[NDIRECT];
    forall t | 0 <= t < NINDIRECT
      ensures Word(s.blocks[ind], t) == SlotRef(s.blocks, s.inodes, Slot(i, NDIRECT + 1 + t))
    {
    }
  }

  lemma IndirectFresh(sb: Super, s: State, i: nat)
    requires SoundBut(sb, s, i) && i in s.inodes && 0 < s.inodes[i].addrs[NDIRECT] < |s.blocks|
    ensures s.inodes[i].addrs[NDIRECT] in UsedSet(sb, s.blocks)
    ensures s.inodes[i].addrs[NDIRECT] !in Entries(s.blocks[s.inodes[i].addrs[NDIRECT]], NINDIRECT)
  {
    var ind := s.inodes[i].addrs[NDIRECT];
    assert SlotRef(s.blocks, s.inodes, Slot(i, NDIRECT)) == ind;
    forall t | 0 <= t < NINDIRECT
      ensures Word(s.blocks[ind], t) == SlotRef(s.blocks, s.inodes, Slot(i, NDIRECT + 1 + t))
    {
    }
  }

  /** ... from s0, before itrunc, on. */
  lemma TruncEnds(sb: Super, s0: State, s: State, t: State, i: nat)
    requires Sound(sb, s0) && Shrunk(s0, s, i) && SoundBut(sb, s, i)
    requires forall k | 0 <= k < NDIRECT :: s.inodes[i].addrs[k] == 0
    requires Geometry(sb, t.blocks) && UsedSet(sb, t.blocks) == UsedSet(sb, s.blocks) - IndirectBlocks(s, i)
    requires forall c | sb.datastart <= c < sb.size :: t.blocks[c] == s.blocks[c]
    requires t.inodes == s.inodes[i := EmptyInode] && t.owner == Without(s.owner, i)
    ensures Sound(sb, t) && UsedSet(sb, t.blocks) == Metadata(sb) + Without(s0.owner, i).Keys
    ensures t.inodes == s0.inodes[i := EmptyInode] && OthersSame(s0, t, i)
  {
    Truncated(sb, s, t.blocks, i);
    OthersKept(sb, s0, t, i);
  }

  /** Files whose blocks and inodes did not change kept their contents. */
  lemma OthersKept(sb: Super, s: State, t: State, i: nat)
    requires Sound(sb, s) && Sound(sb, t) && i in s.inodes && i in t.inodes && t.inodes == s.inodes[i := t.inodes[i]]
    requires forall b | b in s.owner && b < |s.blocks| && s.owner[b].inum != i :: t.blocks[b] == s.blocks[b]
    ensures OthersSame(s, t, i)
  {
    forall sl: Slot | sl.inum != i
      ensures SlotRef(t.blocks, s.inodes, sl) == SlotRef(s.blocks, s.inodes, sl)
    {
      var ind := Slot(sl.inum, NDIRECT);
      assert SlotRef(s.blocks, s.inodes, ind) != 0 ==> s.owner[SlotRef(s.blocks, s.inodes, ind)] == ind;
    }
    forall j | j in s.inodes && j != i
      ensures Content(t.blocks, t.inodes[j]) == Content(s.blocks, s.inodes[j])
    {
      forall p: nat | p < s.inodes[j].size
        ensures ByteAt(t.blocks, t.inodes[j], p) == ByteAt(s.blocks, s.inodes[j], p)
      {
        SizesMapped(sb, s, j, p);
        var sl := Slot(j, SlotOf(p / BSIZE));
        assert SlotRef(t.blocks, s.inodes, sl) == SlotRef(s.blocks, s.inodes, sl);
      }
    }
  }

  // ---------------------------------------------------------------- the blocks that a write needs

  /** One past the last block that the n bytes from off on lie in. */
  function BlockEnd(off: nat, n: nat): (r: nat)
    ensures off / BSIZE <= r
  {
    if n == 0 then off / BSIZE else (off + n - 1) / BSIZE + 1
  }

  /** How many blocks these bytes touch. */
  function Span(off: nat, n: nat): nat {
    BlockEnd(off, n) - off / BSIZE
  }

  /** Slot k is needed for blocks lo to hi - 1 of a file: it is one of theirs, or the indirect block's. */
  predicate Takes(lo: nat, hi: nat, k: nat) {
    if k < NDIRECT then lo <= k < hi else if k == NDIRECT then lo < hi && NDIRECT < hi else lo < k <= hi
  }

  /** Every block below b is in use. */
  ghost predicate Lowest(sb: Super, t: State, b: nat) {
    forall c: nat | c < b :: c < sb.datastart || c in t.owner
  }

  /** From s to t file i got blocks, always the lowest that is free, and only for slots that its blocks
      lo to hi - 1 need. */
  ghost predicate Grown(sb: Super, s: State, t: State, i: nat, lo: nat, hi: nat) {
    && (forall b | b in s.owner :: b in t.owner && t.owner[b] == s.owner[b])
    && forall b | b in t.owner && b !in s.owner ::
         t.owner[b].inum == i && Takes(lo, hi, t.owner[b].k) && Lowest(sb, t, b)
  }

  /** None of these slots is empty. */
  ghost predicate Filled(t: State, i: nat, lo: nat, hi: nat) {
    forall k: nat | Takes(lo, hi, k) :: SlotRef(t.blocks, t.inodes, Slot(i, k)) != 0
  }

  lemma GrownTwice(sb: Super, s: State, t: State, u: State, i: nat, lo: nat, hi: nat, lo2: nat, hi2: nat)
    requires Grown(sb, s, t, i, lo, hi) && Grown(sb, t, u, i, lo2, hi2) && lo <= lo2 && hi <= hi2
    ensures Grown(sb, s, u, i, lo, hi2)
  {
    forall b | b in u.owner && b !in s.owner
      ensures u.owner[b].inum == i && Takes(lo, hi2, u.owner[b].k) && Lowest(sb, u, b)
    {
      assert b in t.owner ==> Lowest(sb, t, b);
    }
  }

  /** A block number that was there stays. */
  lemma SlotsKept(sb: Super, s: State, t: State, i: nat, lo: nat, hi: nat, sl: Slot)
    requires Sound(sb, s) && Sound(sb, t) && Grown(sb, s, t, i, lo, hi) && SlotRef(s.blocks, s.inodes, sl) != 0
    ensures SlotRef(t.blocks, t.inodes, sl) == SlotRef(s.blocks, s.inodes, sl)
  {
    var b := SlotRef(s.blocks, s.inodes, sl);
    assert b in s.owner && s.owner[b] == sl;
  }

  lemma FilledMore(sb: Super, t: State, u: State, i: nat, lo: nat, hi: nat, lo2: nat, hi2: nat)
    requires Sound(sb, t) && Sound(sb, u) && Grown(sb, t, u, i, lo2, hi2) && lo <= lo2 <= hi <= hi2
    requires Filled(t, i, lo, hi) && Filled(u, i, lo2, hi2)
    ensures Filled(u, i, lo, hi2)
  {
    forall k: nat | Takes(lo, hi2, k)
      ensures SlotRef(u.blocks, u.inodes, Slot(i, k)) != 0
    {
      if !Takes(lo2, hi2, k) {
        assert Takes(lo, hi, k);
        SlotsKept(sb, t, u, i, lo2, hi2, Slot(i, k));
      }
    }
  }

  ghost predicate Lacks(s: State, i: nat, lo: nat, hi: nat, k: nat) {
    Takes(lo, hi, k) && SlotRef(s.blocks, s.inodes, Slot(i, k)) == 0
  }

  /** The slots that blocks lo to hi - 1 of file i need and that are empty. */
  ghost function Lacking(s: State, i: nat, lo: nat, hi: nat): set<nat> {
    set k: nat | k <= hi && Lacks(s, i, lo, hi, k)
  }

  ghost function FreeBlocks(sb: Super, blocks: seq<Block>): set<nat>
    requires Geometry(sb, blocks)
  {
    set b: nat | b < sb.size && b !in UsedSet(sb, blocks)
  }

  ghost function NewBlocks(s: State, t: State): set<nat> {
    t.owner.Keys - s.owner.Keys
  }

  lemma {:induction false} SubsetSize(x: set<nat>, y: set<nat>)
    requires x <= y
    ensures |x| <= |y|
  {
    assert y == x + (y - x) && x !! y - x;
  }

  /** f maps the numbers of x to distinct ones of y. */
  ghost predicate Injects(x: set<nat>, y: set<nat>, f: map<nat, nat>) {
    && (forall b | b in x :: b in f && f[b] in y)
    && forall b, c | b in x && c in x && b != c :: f[b] != f[c]
  }

  lemma {:induction false} InjectionSize(x: set<nat>, y: set<nat>, f: map<nat, nat>)
    requires Injects(x, y, f)
    ensures |x| <= |y|
  {
    if x != {} {
      var b :| b in x;
      InjectionSize(x - {b}, y - {f[b]}, f);
    }
  }

  /** A new block fills a slot that was empty. */
  lemma NewFills(sb: Super, s: State, t: State, i: nat, lo: nat, hi: nat, b: nat)
    requires Sound(sb, s) && Sound(sb, t) && Grown(sb, s, t, i, lo, hi) && b in NewBlocks(s, t)
    ensures t.owner[b].inum == i && t.owner[b].k in Lacking(s, i, lo, hi)
    ensures SlotRef(t.blocks, t.inodes, t.owner[b]) == b
  {
    var sl := t.owner[b];
    if SlotRef(s.blocks, s.inodes, sl) != 0 {
      SlotsKept(sb, s, t, i, lo, hi, sl);
      assert false;
    }
    assert sl == Slot(i, sl.k) && sl.k <= hi;
  }

  /** ... and a slot filled since has a new block. */
  lemma FilledNew(sb: Super, s: State, t: State, i: nat, lo: nat, hi: nat, k: nat)
    requires Sound(sb, s) && Sound(sb, t) && Grown(sb, s, t, i, lo, hi)
    requires SlotRef(s.blocks, s.inodes, Slot(i, k)) == 0 != SlotRef(t.blocks, t.inodes, Slot(i, k))
    ensures var b := SlotRef(t.blocks, t.inodes, Slot(i, k)); b in NewBlocks(s, t) && t.owner[b] == Slot(i, k)
  {
    var b := SlotRef(t.blocks, t.inodes, Slot(i, k));
    assert b !in s.owner;
  }

  lemma NewSlots(sb: Super, s: State, t: State, i: nat, lo: nat, hi: nat) returns (f: map<nat, nat>)
    requires Sound(sb, s) && Sound(sb, t) && Grown(sb, s, t, i, lo, hi)
    ensures Injects(NewBlocks(s, t), Lacking(s, i, lo, hi), f)
    ensures forall b | b in NewBlocks(s, t) :: SlotRef(t.blocks, t.inodes, Slot(i, f[b])) == b
  {
    f := map b: nat | b in NewBlocks(s, t) :: t.owner[b].k;
    forall b | b in NewBlocks(s, t)
      ensures f[b] in Lacking(s, i, lo, hi) && SlotRef(t.blocks, t.inodes, Slot(i, f[b])) == b
    {
      NewFills(sb, s, t, i, lo, hi, b);
    }
  }

  /** There are as many new blocks as slots that were empty, if all are filled, and otherwise fewer. */
  lemma NewForLacking(sb: Super, s: State, t: State, i: nat, lo: nat, hi: nat)
    requires Sound(sb, s) && Sound(sb, t) && Grown(sb, s, t, i, lo, hi)
    ensures |NewBlocks(s, t)| <= |Lacking(s, i, lo, hi)|
    ensures |NewBlocks(s, t)| == |Lacking(s, i, lo, hi)| <==> Filled(t, i, lo, hi)
  {
    var f := NewSlots(sb, s, t, i, lo, hi);
    InjectionSize(NewBlocks(s, t), Lacking(s, i, lo, hi), f);
    if Filled(t, i, lo, hi) {
      LackingForNew(sb, s, t, i, lo, hi);
    } else {
      var k: nat :| Takes(lo, hi, k) && SlotRef(t.blocks, t.inodes, Slot(i, k)) == 0;
      StillLacking(sb, s, t, i, lo, hi, k);
      FewerSlots(s, t, i, NewBlocks(s, t), Lacking(s, i, lo, hi), f, k);
    }
  }

  lemma FewerSlots(s: State, t: State, i: nat, x: set<nat>, y: set<nat>, f: map<nat, nat>, k: nat)
    requires Injects(x, y, f) && k in y && SlotRef(t.blocks, t.inodes, Slot(i, k)) == 0 && 0 !in x
    requires forall b | b in x :: SlotRef(t.blocks, t.inodes, Slot(i, f[b])) == b
    ensures |x| < |y|
  {
    InjectionSize(x, y - {k}, f);
  }

  lemma StillLacking(sb: Super, s: State, t: State, i: nat, lo: nat, hi: nat, k: nat)
    requires Sound(sb, s) && Sound(sb, t) && Grown(sb, s, t, i, lo, hi)
    requires Takes(lo, hi, k) && SlotRef(t.blocks, t.inodes, Slot(i, k)) == 0
    ensures k in Lacking(s, i, lo, hi)
  {
    if SlotRef(s.blocks, s.inodes, Slot(i, k)) != 0 {
      SlotsKept(sb, s, t, i, lo, hi, Slot(i, k));
    }
    assert k <= hi;
  }

  lemma LackingForNew(sb: Super, s: State, t: State, i: nat, lo: nat, hi: nat)
    requires Sound(sb, s) && Sound(sb, t) && Grown(sb, s, t, i, lo, hi) && Filled(t, i, lo, hi)
    ensures |Lacking(s, i, lo, hi)| <= |NewBlocks(s, t)|
  {
    var x, y := Lacking(s, i, lo, hi), NewBlocks(s, t);
    var g := map k: nat | k in x :: SlotRef(t.blocks, t.inodes, Slot(i, k));
    forall k | k in x
      ensures g[k] in y && t.owner[g[k]] == Slot(i, k)
    {
      FilledNew(sb, s, t, i, lo, hi, k);
    }
    InjectionSize(x, y, g);
  }

  /** What log_write is given: a block with its new contents, or an inode's block with that inode's. */
  datatype Store = Data(b: nat, x: Block) | Dinode(i: nat, ip: Inode)

  /** A state, and what was given to log_write before it. */
  datatype Moment = Moment(now: State, log: seq<Store>)

  /** The writing of blocks lo to hi - 1 ended at t with every block in use and a slot still empty. */
  ghost predicate RanOut(sb: Super, s: Moment, t: Moment, i: nat, lo: nat, hi: nat) {
    && Sound(sb, t.now) && Grown(sb, s.now, t.now, i, lo, hi) && !Filled(t.now, i, lo, hi)
    && FreeBlocks(sb, t.now.blocks) == {}
  }

  /** As many blocks are free as the writing of blocks lo to hi - 1 lacks. */
  ghost predicate Enough(sb: Super, s: State, i: nat, lo: nat, hi: nat)
    requires Geometry(sb, s.blocks)
  {
    |Lacking(s, i, lo, hi)| <= |FreeBlocks(sb, s.blocks)|
  }

  /** writei's argument checks. */
  predicate Refused(s: State, i: nat, off: nat, n: nat)
    requires i in s.inodes
  {
    off > s.inodes[i].size || off + n > MAXFILE * BSIZE
  }

  /** These moments. */
  ghost function AfterRunningOut(sb: Super, s: Moment, i: nat, lo: nat, hi: nat): iset<Moment> {
    iset t: Moment | RanOut(sb, s, t, i, lo, hi)
  }

  /** Running out at block bn is running out. */
  lemma RanOutThere(sb: Super, s: Moment, t: Moment, u: Moment, i: nat, lo: nat, bn: nat, hi: nat)
    requires t in AfterBlocks(sb, s, i, lo, bn) && u in AfterRunningOut(sb, t, i, bn, bn + 1) && lo <= bn < hi
    ensures u in AfterRunningOut(sb, s, i, lo, hi)
  {
    GrownTwice(sb, s.now, t.now, u.now, i, lo, bn, bn, bn + 1);
    GrownTwice(sb, s.now, u.now, u.now, i, lo, bn + 1, hi, hi);
    var k: nat :| Takes(bn, bn + 1, k) && SlotRef(u.now.blocks, u.now.inodes, Slot(i, k)) == 0;
    assert Takes(lo, hi, k);
  }

  /** It runs out exactly when fewer blocks are free than slots are empty. */
  lemma EnoughOrNot(sb: Super, s: State, t: State, i: nat, lo: nat, hi: nat)
    requires Sound(sb, s) && Sound(sb, t) && Grown(sb, s, t, i, lo, hi)
    ensures Filled(t, i, lo, hi) ==> |Lacking(s, i, lo, hi)| <= |FreeBlocks(sb, s.blocks)|
    ensures !Filled(t, i, lo, hi) && FreeBlocks(sb, t.blocks) == {} ==>
              |Lacking(s, i, lo, hi)| > |FreeBlocks(sb, s.blocks)|
  {
    NewForLacking(sb, s, t, i, lo, hi);
    var x, free := NewBlocks(s, t), FreeBlocks(sb, s.blocks);
    NewWereFree(sb, s, t);
    if Filled(t, i, lo, hi) {
      SubsetSize(x, free);
    } else if FreeBlocks(sb, t.blocks) == {} {
      SubsetSize(free, x);
    }
  }

  lemma EndsEnough(sb: Super, s: Moment, t: Moment, i: nat, off: nat, src: seq<Byte>, lo: nat, hi: nat, ok: bool)
    requires Sound(sb, s.now) && lo == off / BSIZE && hi == BlockEnd(off, |src|)
    requires if ok then t in AfterWrite(sb, s, i, off, src) else t in AfterRunningOut(sb, s, i, lo, hi)
    ensures ok <==> Enough(sb, s.now, i, lo, hi)
  {
    EnoughOrNot(sb, s.now, t.now, i, lo, hi);
  }

  lemma NewWereFree(sb: Super, s: State, t: State)
    requires Sound(sb, s) && Sound(sb, t)
    ensures NewBlocks(s, t) <= FreeBlocks(sb, s.blocks)
    ensures FreeBlocks(sb, t.blocks) == {} ==> FreeBlocks(sb, s.blocks) <= NewBlocks(s, t)
  {
    forall b | b in NewBlocks(s, t)
      ensures b in FreeBlocks(sb, s.blocks)
    {
      assert SlotRef(t.blocks, t.inodes, t.owner[b]) == b;
    }
    forall b | b in FreeBlocks(sb, s.blocks) && FreeBlocks(sb, t.blocks) == {}
      ensures b in NewBlocks(s, t)
    {
      assert b !in FreeBlocks(sb, t.blocks);
    }
  }

  // ---------------------------------------------------------------- what is logged

  function BitmapLength(sb: Super): nat {
    (sb.size + BPB - 1) / BPB
  }

  ghost predicate InRun(lo: nat, n: nat, b: nat) {
    lo <= b < lo + n
  }

  /** The n blocks from lo on. */
  ghost function BlockRun(lo: nat, n: nat): set<nat> {
    set b: nat | b < lo + n && InRun(lo, n, b)
  }

  ghost function BitmapBlocks(sb: Super): set<nat> {
    BlockRun(sb.bmapstart, BitmapLength(sb))
  }

  lemma {:induction false} RunSize(lo: nat, n: nat)
    ensures |BlockRun(lo, n)| == n
  {
    if n == 0 {
      assert BlockRun(lo, n) == {};
    } else {
      RunSize(lo, n - 1);
      assert InRun(lo, n, lo + n - 1) && forall b: nat :: InRun(lo, n, b) <==> InRun(lo, n - 1, b) || b == lo + n - 1;
      assert BlockRun(lo, n) == BlockRun(lo, n - 1) + {lo + n - 1};
    }
  }

  /** BBLOCK: the bitmap block of b. */
  function BitmapOf(sb: Super, b: nat): nat {
    sb.bmapstart + b / BPB
  }

  lemma MapBlock(sb: Super, b: nat)
    requires b < sb.size
    ensures InRun(sb.bmapstart, BitmapLength(sb), BitmapOf(sb, b))
  {
  }

  /** IBLOCK. */
  function InodeBlock(sb: Super, i: nat): nat {
    i / IPB + sb.inodestart
  }

  ghost function IndirectOf(inodes: map<nat, Inode>, i: nat): set<nat> {
    var b := SlotRef([], inodes, Slot(i, NDIRECT));
    if b != 0 then {b} else {}
  }

  function BlockOf(sb: Super, st: Store): nat {
    match st
    case Data(b, _) => b
    case Dinode(i, _) => InodeBlock(sb, i)
  }

  /** The blocks logged. */
  ghost function BlocksOf(sb: Super, log: seq<Store>): set<nat> {
    set st | st in log :: BlockOf(sb, st)
  }

  lemma BlocksOfSum(sb: Super, a: seq<Store>, b: seq<Store>)
    ensures BlocksOf(sb, a + b) == BlocksOf(sb, a) + BlocksOf(sb, b)
  {
  }

  lemma BlocksOfOne(sb: Super, st: Store)
    ensures BlocksOf(sb, [st]) == {BlockOf(sb, st)}
  {
    assert st in [st];
  }

  predicate OnlyData(log: seq<Store>) {
    forall st | st in log :: st.Data?
  }

  /** The blocks, and the inodes, after these stores. */
  function Replayed(blocks: seq<Block>, log: seq<Store>): (r: seq<Block>)
    ensures |r| == |blocks|
  {
    if log == [] then blocks
    else
      var was := Replayed(blocks, log[..|log| - 1]);
      match log[|log| - 1]
      case Data(b, x) => if b < |was| then was[b := x] else was
      case Dinode(_, _) => was
  }

  function Reinoded(inodes: map<nat, Inode>, log: seq<Store>): map<nat, Inode> {
    if log == [] then inodes
    else
      var was := Reinoded(inodes, log[..|log| - 1]);
      match log[|log| - 1]
      case Data(_, _) => was
      case Dinode(i, ip) => was[i := ip]
  }

  lemma {:induction false} ReplayedTwice(blocks: seq<Block>, a: seq<Store>, b: seq<Store>)
    ensures Replayed(blocks, a + b) == Replayed(Replayed(blocks, a), b)
    decreases |b|
  {
    if b == [] {
      assert a + b == a;
    } else {
      assert (a + b)[..|a + b| - 1] == a + b[..|b| - 1];
      ReplayedTwice(blocks, a, b[..|b| - 1]);
    }
  }

  lemma {:induction false} ReinodedData(inodes: map<nat, Inode>, log: seq<Store>)
    requires OnlyData(log)
    ensures Reinoded(inodes, log) == inodes
    decreases |log|
  {
    if log != [] {
      assert log[|log| - 1] in log;
      assert forall st | st in log[..|log| - 1] :: st in log;
      ReinodedData(inodes, log[..|log| - 1]);
    }
  }

  /** What was logged since l0. */
  function Since(l0: seq<Store>, l1: seq<Store>): seq<Store>
    requires l0 <= l1
  {
    l1[|l0|..]
  }

  lemma SinceTwice(l0: seq<Store>, l1: seq<Store>, l2: seq<Store>)
    requires l0 <= l1 <= l2
    ensures l0 <= l2 && Since(l0, l2) == Since(l0, l1) + Since(l1, l2)
  {
  }

  /** From b0 to b1 exactly the blocks in x are logged, and what is logged is what changes. */
  ghost predicate Adds(sb: Super, b0: seq<Block>, l0: seq<Store>, b1: seq<Block>, l1: seq<Store>, x: set<nat>) {
    && l0 <= l1 && OnlyData(Since(l0, l1)) && BlocksOf(sb, Since(l0, l1)) == x && b1 == Replayed(b0, Since(l0, l1))
  }

  lemma AddsNone(sb: Super, b0: seq<Block>, l: seq<Store>)
    ensures Adds(sb, b0, l, b0, l, {})
  {
    assert Since(l, l) == [] && BlocksOf(sb, []) == {};
  }

  lemma AddsOne(sb: Super, b0: seq<Block>, l: seq<Store>, b1: seq<Block>, l1: seq<Store>, b: nat, x: Block)
    requires b < |b0| && b1 == b0[b := x] && l1 == l + [Data(b, x)]
    ensures Adds(sb, b0, l, b1, l1, {b})
  {
    var st := [Data(b, x)];
    assert Since(l, l1) == st && st[..0] == [];
    BlocksOfOne(sb, Data(b, x));
    assert Replayed(b0, []) == b0;
  }

  lemma AddsTwice(sb: Super, b0: seq<Block>, l0: seq<Store>, b1: seq<Block>, l1: seq<Store>, b2: seq<Block>,
                  l2: seq<Store>, x: set<nat>, y: set<nat>)
    requires Adds(sb, b0, l0, b1, l1, x) && Adds(sb, b1, l1, b2, l2, y)
    ensures Adds(sb, b0, l0, b2, l2, x + y)
  {
    SinceTwice(l0, l1, l2);
    BlocksOfSum(sb, Since(l0, l1), Since(l1, l2));
    ReplayedTwice(b0, Since(l0, l1), Since(l1, l2));
  }

  /** From b0 to b1 only bitmap blocks are logged. */
  ghost predicate Logs(sb: Super, b0: seq<Block>, l0: seq<Store>, b1: seq<Block>, l1: seq<Store>) {
    l0 <= l1 && Adds(sb, b0, l0, b1, l1, BlocksOf(sb, Since(l0, l1))) && BlocksOf(sb, Since(l0, l1)) <= BitmapBlocks(sb)
  }

  lemma AddsLogs(sb: Super, b0: seq<Block>, l0: seq<Store>, b1: seq<Block>, l1: seq<Store>, x: set<nat>)
    requires Adds(sb, b0, l0, b1, l1, x) && x <= BitmapBlocks(sb)
    ensures Logs(sb, b0, l0, b1, l1)
  {
  }

  lemma LogsNone(sb: Super, b0: seq<Block>, l: seq<Store>)
    ensures Logs(sb, b0, l, b0, l)
  {
    AddsNone(sb, b0, l);
  }

  lemma LogsTwice(sb: Super, b0: seq<Block>, l0: seq<Store>, b1: seq<Block>, l1: seq<Store>, b2: seq<Block>,
                  l2: seq<Store>)
    requires Logs(sb, b0, l0, b1, l1) && Logs(sb, b1, l1, b2, l2)
    ensures Logs(sb, b0, l0, b2, l2)
  {
    AddsTwice(sb, b0, l0, b1, l1, b2, l2, BlocksOf(sb, Since(l0, l1)), BlocksOf(sb, Since(l1, l2)));
  }

  /** From s to t an empty slot k of file i took the lowest free block, and exactly that is logged. */
  ghost predicate Took(sb: Super, s: Moment, t: Moment, i: nat, k: nat) {
    && Sound(sb, t.now) && Extended(s.now, t.now, i)
    && var b := SlotRef(t.now.blocks, t.now.inodes, Slot(i, k));
       && SlotRef(s.now.blocks, s.now.inodes, Slot(i, k)) == 0 != b
       && b !in s.now.owner && t.now.owner == s.now.owner[b := Slot(i, k)] && Lowest(sb, t.now, b)
       && Adds(sb, s.now.blocks, s.log, t.now.blocks, t.log,
               {BitmapOf(sb, b), b} + if k > NDIRECT then IndirectOf(t.now.inodes, i) else {})
  }

  lemma TookSlot(sb: Super, s: Moment, t: Moment, i: nat, k: nat, b: nat)
    requires Sound(sb, t.now) && Extended(s.now, t.now, i) && k <= NDIRECT
    requires SlotRef(t.now.blocks, t.now.inodes, Slot(i, k)) == b != 0
               == SlotRef(s.now.blocks, s.now.inodes, Slot(i, k))
    requires b !in s.now.owner && t.now.owner == s.now.owner[b := Slot(i, k)]
    requires Sound(sb, s.now) && forall c: nat | c < b :: c in UsedSet(sb, s.now.blocks)
    requires Adds(sb, s.now.blocks, s.log, t.now.blocks, t.log, {BitmapOf(sb, b), b})
    ensures t in AfterTaking(sb, s, i, k)
  {
    LowestUsed(sb, s.now, t.now, b);
  }

  lemma LowestUsed(sb: Super, s: State, t: State, b: nat)
    requires Sound(sb, s) && (forall c: nat | c < b :: c in UsedSet(sb, s.blocks))
    requires s.owner.Keys <= t.owner.Keys
    ensures Lowest(sb, t, b)
  {
    forall c: nat | c < b
      ensures c < sb.datastart || c in t.owner
    {
      assert c in Metadata(sb) + s.owner.Keys;
    }
  }

  /** These moments. */
  ghost function AfterTaking(sb: Super, s: Moment, i: nat, k: nat): iset<Moment> {
    iset t: Moment | Took(sb, s, t, i, k)
  }

  /** The same through the indirect block; was and l are from before its store. */
  lemma TookEntry(sb: Super, s: Moment, was: seq<Block>, l: seq<Store>, t: Moment, i: nat, k: nat, b: nat, ind: nat)
    requires Sound(sb, t.now) && Extended(s.now, t.now, i) && k > NDIRECT
    requires SlotRef(t.now.blocks, t.now.inodes, Slot(i, k)) == b != 0
               == SlotRef(s.now.blocks, s.now.inodes, Slot(i, k))
    requires b !in s.now.owner && t.now.owner == s.now.owner[b := Slot(i, k)]
    requires Sound(sb, s.now) && forall c: nat | c < b :: c in UsedSet(sb, s.now.blocks)
    requires i in t.now.inodes && t.now.inodes[i].addrs[NDIRECT] == ind && 0 < ind < |was|
    requires Adds(sb, s.now.blocks, s.log, was, l, {BitmapOf(sb, b), b})
    requires |t.now.blocks| == |was| && t.now.blocks == was[ind := t.now.blocks[ind]]
    requires t.log == l + [Data(ind, t.now.blocks[ind])]
    ensures t in AfterTaking(sb, s, i, k)
  {
    LowestUsed(sb, s.now, t.now, b);
    IndirectSame(t.now, i);
    AddsOne(sb, was, l, t.now.blocks, t.log, ind, t.now.blocks[ind]);
    AddsTwice(sb, s.now.blocks, s.log, was, l, t.now.blocks, t.log, {BitmapOf(sb, b), b}, {ind});
  }

  ghost function BitmapsOf(sb: Super, x: set<nat>): set<nat> {
    set b | b in x :: BitmapOf(sb, b)
  }

  ghost predicate EntryAdded(s: State, t: State) {
    exists b :: b in t.owner && b !in s.owner && t.owner[b].k > NDIRECT
  }

  /** What the allocation of the new blocks logs: their bitmap blocks, themselves, and file i's indirect
      block if it got an entry. */
  ghost function AllocLog(sb: Super, s: State, t: State, i: nat): set<nat> {
    BitmapsOf(sb, NewBlocks(s, t)) + NewBlocks(s, t) + if EntryAdded(s, t) then IndirectOf(t.inodes, i) else {}
  }

  lemma AllocOne(sb: Super, s: State, t: State, i: nat, k: nat, b: nat)
    requires b !in s.owner && t.owner == s.owner[b := Slot(i, k)]
    ensures AllocLog(sb, s, t, i) == {BitmapOf(sb, b), b} + if k > NDIRECT then IndirectOf(t.inodes, i) else {}
  {
    assert NewBlocks(s, t) == {b};
    assert BitmapsOf(sb, {b}) == {BitmapOf(sb, b)};
    assert k > NDIRECT ==> t.owner[b].k > NDIRECT;
  }

  lemma AllocNone(sb: Super, s: State, t: State, i: nat)
    requires t.owner == s.owner
    ensures AllocLog(sb, s, t, i) == {}
  {
  }

  /** Where an entry was added there is an indirect block, and it stays. */
  lemma EntryIndirect(sb: Super, s: State, t: State, u: State, i: nat, lo: nat, hi: nat, lo2: nat, hi2: nat)
    requires Sound(sb, t) && Sound(sb, u)
    requires Grown(sb, s, t, i, lo, hi) && Grown(sb, t, u, i, lo2, hi2) && EntryAdded(s, t)
    ensures IndirectOf(t.inodes, i) == IndirectOf(u.inodes, i)
  {
    var b :| b in t.owner && b !in s.owner && t.owner[b].k > NDIRECT;
    assert SlotRef(t.blocks, t.inodes, Slot(i, t.owner[b].k)) == b;
    IndirectSame(t, i);
    IndirectSame(u, i);
    SlotsKept(sb, t, u, i, lo2, hi2, Slot(i, NDIRECT));
  }

  lemma IndirectSame(t: State, i: nat)
    ensures SlotRef([], t.inodes, Slot(i, NDIRECT)) == SlotRef(t.blocks, t.inodes, Slot(i, NDIRECT))
  {
  }

  lemma AllocTwice(sb: Super, s: State, t: State, u: State, i: nat, lo: nat, hi: nat, lo2: nat, hi2: nat)
    requires Sound(sb, t) && Sound(sb, u)
    requires Grown(sb, s, t, i, lo, hi) && Grown(sb, t, u, i, lo2, hi2)
    ensures AllocLog(sb, s, u, i) == AllocLog(sb, s, t, i) + AllocLog(sb, t, u, i)
  {
    assert NewBlocks(s, u) == NewBlocks(s, t) + NewBlocks(t, u);
    EntryTwice(sb, s, t, u, i, lo, hi, lo2, hi2);
    if EntryAdded(s, t) {
      EntryIndirect(sb, s, t, u, i, lo, hi, lo2, hi2);
    }
    AllocJoin(sb, s, t, u, i);
  }

  lemma AllocJoin(sb: Super, s: State, t: State, u: State, i: nat)
    requires NewBlocks(s, u) == NewBlocks(s, t) + NewBlocks(t, u)
    requires EntryAdded(s, u) <==> EntryAdded(s, t) || EntryAdded(t, u)
    requires EntryAdded(s, t) ==> IndirectOf(t.inodes, i) == IndirectOf(u.inodes, i)
    ensures AllocLog(sb, s, u, i) == AllocLog(sb, s, t, i) + AllocLog(sb, t, u, i)
  {
    BitmapsSum(sb, NewBlocks(s, t), NewBlocks(t, u));
  }

  lemma BitmapsSum(sb: Super, x: set<nat>, y: set<nat>)
    ensures BitmapsOf(sb, x + y) == BitmapsOf(sb, x) + BitmapsOf(sb, y)
  {
  }

  lemma EntryTwice(sb: Super, s: State, t: State, u: State, i: nat, lo: nat, hi: nat, lo2: nat, hi2: nat)
    requires Grown(sb, s, t, i, lo, hi) && Grown(sb, t, u, i, lo2, hi2)
    ensures EntryAdded(s, u) <==> EntryAdded(s, t) || EntryAdded(t, u)
  {
    if EntryAdded(s, t) {
      var b :| b in t.owner && b !in s.owner && t.owner[b].k > NDIRECT;
      assert b in u.owner && u.owner[b].k > NDIRECT;
    }
    if EntryAdded(t, u) {
      var b :| b in u.owner && b !in t.owner && u.owner[b].k > NDIRECT;
      assert b !in s.owner;
    }
  }

  /** The data blocks lo to hi - 1 of file i. */
  ghost function DataBlocks(t: State, i: nat, lo: nat, hi: nat): set<nat> {
    set n: nat | lo <= n < hi :: SlotRef(t.blocks, t.inodes, Slot(i, SlotOf(n)))
  }

  /** From s to t blocks lo to hi - 1 of file i were written: the blocks that it lacked for that are new,
      and exactly what was allocated and written is logged. */
  ghost predicate Progress(sb: Super, s: Moment, t: Moment, i: nat, lo: nat, hi: nat) {
    && Grown(sb, s.now, t.now, i, lo, hi) && Filled(t.now, i, lo, hi)
    && Adds(sb, s.now.blocks, s.log, t.now.blocks, t.log, AllocLog(sb, s.now, t.now, i) + DataBlocks(t.now, i, lo, hi))
  }

  /** These moments. */
  ghost function AfterBlocks(sb: Super, s: Moment, i: nat, lo: nat, hi: nat): iset<Moment> {
    iset t: Moment | Progress(sb, s, t, i, lo, hi)
  }

  lemma NoProgress(sb: Super, s: Moment, i: nat, lo: nat)
    ensures s in AfterBlocks(sb, s, i, lo, lo)
  {
    AllocNone(sb, s.now, s.now, i);
    AddsNone(sb, s.now.blocks, s.log);
    assert DataBlocks(s.now, i, lo, lo) == {};
  }

  lemma DataOne(t: State, i: nat, bn: nat)
    ensures DataBlocks(t, i, bn, bn + 1) == {SlotRef(t.blocks, t.inodes, Slot(i, SlotOf(bn)))}
  {
    assert SlotRef(t.blocks, t.inodes, Slot(i, SlotOf(bn))) in DataBlocks(t, i, bn, bn + 1);
  }

  lemma DataSum(sb: Super, t: State, u: State, i: nat, lo: nat, hi: nat, lo2: nat, hi2: nat)
    requires Sound(sb, t) && Sound(sb, u) && Grown(sb, t, u, i, lo2, hi2) && lo <= lo2 <= hi <= hi2
    requires Filled(t, i, lo, hi)
    ensures DataBlocks(u, i, lo, hi2) == DataBlocks(t, i, lo, hi) + DataBlocks(u, i, lo2, hi2)
  {
    forall n: nat | lo <= n < hi
      ensures SlotRef(u.blocks, u.inodes, Slot(i, SlotOf(n))) == SlotRef(t.blocks, t.inodes, Slot(i, SlotOf(n)))
    {
      assert Takes(lo, hi, SlotOf(n));
      SlotsKept(sb, t, u, i, lo2, hi2, Slot(i, SlotOf(n)));
    }
  }

  /** Where the block numbers are the same, so are all these. */
  lemma SlotsSame(sb: Super, s: State, u: State, v: State, i: nat, lo: nat, hi: nat)
    requires v.owner == u.owner && Grown(sb, s, u, i, lo, hi) && Filled(u, i, lo, hi)
    requires forall sl :: SlotRef(v.blocks, v.inodes, sl) == SlotRef(u.blocks, u.inodes, sl)
    ensures Grown(sb, s, v, i, lo, hi) && Filled(v, i, lo, hi)
    ensures DataBlocks(v, i, lo, hi) == DataBlocks(u, i, lo, hi) && AllocLog(sb, s, v, i) == AllocLog(sb, s, u, i)
  {
    assert forall b | b in v.owner && b !in s.owner :: Lowest(sb, u, b) ==> Lowest(sb, v, b);
    IndirectSame(u, i);
    IndirectSame(v, i);
  }

  lemma ProgressTwice(sb: Super, s: Moment, t: Moment, u: Moment, i: nat, lo: nat, hi: nat, lo2: nat, hi2: nat)
    requires Sound(sb, t.now) && Sound(sb, u.now) && lo <= lo2 <= hi <= hi2
    requires t in AfterBlocks(sb, s, i, lo, hi) && u in AfterBlocks(sb, t, i, lo2, hi2)
    ensures u in AfterBlocks(sb, s, i, lo, hi2)
  {
    GrownTwice(sb, s.now, t.now, u.now, i, lo, hi, lo2, hi2);
    FilledMore(sb, t.now, u.now, i, lo, hi, lo2, hi2);
    AllocTwice(sb, s.now, t.now, u.now, i, lo, hi, lo2, hi2);
    DataSum(sb, t.now, u.now, i, lo, hi, lo2, hi2);
    var x := AllocLog(sb, s.now, t.now, i) + DataBlocks(t.now, i, lo, hi);
    var y := AllocLog(sb, t.now, u.now, i) + DataBlocks(u.now, i, lo2, hi2);
    AddsTwice(sb, s.now.blocks, s.log, t.now.blocks, t.log, u.now.blocks, u.log, x, y);
    assert AllocLog(sb, s.now, u.now, i) + DataBlocks(u.now, i, lo, hi2) == x + y;
  }

  // ---------------------------------------------------------------- bmap

  /** What bmap for block bn of file i leaves: all that the block needs, unless blocks ran out. */
  ghost predicate Bmapped(sb: Super, s: Moment, t: Moment, i: nat, bn: nat) {
    && Sound(sb, t.now) && Extended(s.now, t.now, i) && Grown(sb, s.now, t.now, i, bn, bn + 1)
    && Adds(sb, s.now.blocks, s.log, t.now.blocks, t.log, AllocLog(sb, s.now, t.now, i))
    && (Filled(s.now, i, bn, bn + 1) ==> t == s)
  }

  /** These moments. */
  ghost function AfterBmap(sb: Super, s: Moment, i: nat, bn: nat): iset<Moment> {
    iset t: Moment | Bmapped(sb, s, t, i, bn)
  }

  lemma BmapNothing(sb: Super, s: Moment, i: nat, bn: nat)
    requires Sound(sb, s.now)
    ensures s in AfterBmap(sb, s, i, bn)
  {
    AllocNone(sb, s.now, s.now, i);
    AddsNone(sb, s.now.blocks, s.log);
  }

  lemma BmapTook(sb: Super, s: Moment, t: Moment, i: nat, bn: nat, k: nat)
    requires t in AfterTaking(sb, s, i, k) && Takes(bn, bn + 1, k)
    ensures t in AfterBmap(sb, s, i, bn)
  {
    AllocOne(sb, s.now, t.now, i, k, SlotRef(t.now.blocks, t.now.inodes, Slot(i, k)));
  }

  lemma BmapTwice(sb: Super, s: Moment, t: Moment, u: Moment, i: nat, bn: nat)
    requires t in AfterBmap(sb, s, i, bn) && u in AfterBmap(sb, t, i, bn)
    ensures u in AfterBmap(sb, s, i, bn)
  {
    ExtendedTwice(s.now, t.now, u.now, i);
    GrownTwice(sb, s.now, t.now, u.now, i, bn, bn + 1, bn, bn + 1);
    AllocTwice(sb, s.now, t.now, u.now, i, bn, bn + 1, bn, bn + 1);
    AddsTwice(sb, s.now.blocks, s.log, t.now.blocks, t.log, u.now.blocks, u.log, AllocLog(sb, s.now, t.now, i),
              AllocLog(sb, t.now, u.now, i));
  }

  lemma BmapRanOut(sb: Super, s: Moment, t: Moment, i: nat, bn: nat)
    requires t in AfterBmap(sb, s, i, bn) && !Filled(t.now, i, bn, bn + 1)
    requires Geometry(sb, t.now.blocks) && FreeBlocks(sb, t.now.blocks) == {}
    ensures t in AfterRunningOut(sb, s, i, bn, bn + 1)
  {
  }

  lemma BmapFilled(sb: Super, t: State, i: nat, bn: nat)
    requires Sound(sb, t) && i in t.inodes && bn < MAXFILE
    ensures Filled(t, i, bn, bn + 1) <==> Ref(t.blocks, t.inodes[i], SlotOf(bn)) != 0
  {
    var k := SlotOf(bn);
    assert Takes(bn, bn + 1, k) && SlotRef(t.blocks, t.inodes, Slot(i, k)) == Ref(t.blocks, t.inodes[i], k);
    assert SlotRef(t.blocks, t.inodes, Slot(i, NDIRECT)) == t.inodes[i].addrs[NDIRECT];
  }

  lemma IndirectThere(sb: Super, t: State, i: nat, n: nat, k: nat)
    requires Sound(sb, t) && i in t.inodes && n < NINDIRECT && t.inodes[i].addrs[NDIRECT] != 0 && k == NDIRECT + 1 + n
    ensures t.inodes[i].addrs[NDIRECT] < |t.blocks|
    ensures Ref(t.blocks, t.inodes[i], k) == Word(t.blocks[t.inodes[i].addrs[NDIRECT]], n)
  {
    assert SlotRef(t.blocks, t.inodes, Slot(i, NDIRECT)) == t.inodes[i].addrs[NDIRECT];
  }

  lemma TookEntryBmap(sb: Super, s: Moment, t: Moment, i: nat, n: nat, bn: nat, k: nat)
    requires t in AfterTaking(sb, s, i, k) && i in t.now.inodes && |t.now.inodes[i].addrs| == NDIRECT + 1
    requires n < NINDIRECT && bn == NDIRECT + n && k == bn + 1 && t.now.inodes[i].addrs[NDIRECT] != 0
    ensures t in AfterBmap(sb, s, i, bn) && t.now.inodes[i].addrs[NDIRECT] < |t.now.blocks|
    ensures Ref(t.now.blocks, t.now.inodes[i], k) == Word(t.now.blocks[t.now.inodes[i].addrs[NDIRECT]], n)
  {
    TookSound(sb, s, t, i, k);
    IndirectThere(sb, t.now, i, n, k);
    BmapTook(sb, s, t, i, bn, k);
  }

  lemma TookSound(sb: Super, s: Moment, t: Moment, i: nat, k: nat)
    requires t in AfterTaking(sb, s, i, k)
    ensures Sound(sb, t.now)
  {
  }

  lemma BmapSound(sb: Super, s: Moment, t: Moment, i: nat, bn: nat)
    requires t in AfterBmap(sb, s, i, bn)
    ensures Sound(sb, t.now)
  {
  }

  /** What bmap gives is the block's slot. */
  lemma BmapMaps(sb: Super, s: Moment, t: Moment, i: nat, bn: nat, addr: nat)
    requires t in AfterBmap(sb, s, i, bn) && i in s.now.inodes && bn < MAXFILE
    requires i in t.now.inodes && |t.now.inodes[i].addrs| == NDIRECT + 1
    requires addr == Ref(t.now.blocks, t.now.inodes[i], SlotOf(bn))
    ensures Filled(t.now, i, bn, bn + 1) <==> addr != 0
    ensures Filled(s.now, i, bn, bn + 1) ==> t == s
    ensures addr != 0 ==>
              && SlotRef(t.now.blocks, t.now.inodes, Slot(i, SlotOf(bn))) == addr < sb.size
              && addr in t.now.owner && t.now.owner[addr] == Slot(i, SlotOf(bn))
  {
    BmapFilled(sb, t.now, i, bn);
    assert SlotRef(t.now.blocks, t.now.inodes, Slot(i, SlotOf(bn))) == addr;
  }

  /** The block that a slot names is in the inode's addrs or in its indirect block. */
  lemma SlotNames(blocks: seq<Block>, inodes: map<nat, Inode>, i: nat, bn: nat, addr: nat)
    requires bn < MAXFILE && addr != 0 && SlotRef(blocks, inodes, Slot(i, SlotOf(bn))) == addr
    ensures i in inodes && |inodes[i].addrs| == 13
    ensures bn < 12 ==> addr == inodes[i].addrs[bn]
    ensures bn >= 12 ==> 0 < inodes[i].addrs[12] < |blocks| && addr == Word(blocks[inodes[i].addrs[12]], bn - 12)
  {
  }

  /** ... with addr its result. */
  ghost function AfterMapping(sb: Super, s: Moment, i: nat, bn: nat, addr: nat): iset<Moment> {
    iset t: Moment | Bmapped(sb, s, t, i, bn) && Filled(t.now, i, bn, bn + 1) && addr != 0
                     && SlotRef(t.now.blocks, t.now.inodes, Slot(i, SlotOf(bn))) == addr
  }

  lemma MappingSlot(sb: Super, s: Moment, t: Moment, i: nat, bn: nat, addr: nat)
    requires t in AfterMapping(sb, s, i, bn, addr)
    ensures t in AfterBmap(sb, s, i, bn) && Filled(t.now, i, bn, bn + 1)
    ensures addr != 0 && SlotRef(t.now.blocks, t.now.inodes, Slot(i, SlotOf(bn))) == addr < |t.now.blocks|
  {
  }

  /** bmap, from t to u, and then the data stored and logged. */
  lemma TurnProgress(sb: Super, t: Moment, u: Moment, v: Moment, i: nat, bn: nat, addr: nat, x: Block)
    requires u in AfterMapping(sb, t, i, bn, addr) && addr < |u.now.blocks|
    requires v == Moment(State(u.now.blocks[addr := x], u.now.inodes, u.now.owner), u.log + [Data(addr, x)])
    ensures v in AfterBlocks(sb, t, i, bn, bn + 1)
  {
    DataWritten(sb, u.now, i, bn, addr, x);
    SlotsSame(sb, t.now, u.now, v.now, i, bn, bn + 1);
    DataOne(u.now, i, bn);
    AddsOne(sb, u.now.blocks, u.log, v.now.blocks, v.log, addr, x);
    AddsTwice(sb, t.now.blocks, t.log, u.now.blocks, u.log, v.now.blocks, v.log, AllocLog(sb, t.now, u.now, i), {addr});
  }

  // ---------------------------------------------------------------- turns and counts

  /** min(left, BSIZE - off % BSIZE): a turn ends with its block or with the last byte. */
  function PartSize(left: nat, off: nat): (m: nat)
    requires left > 0
    ensures 0 < m <= left && off % BSIZE + m <= BSIZE
    ensures m == left || (off + m) % BSIZE == 0
  {
    if left < BSIZE - off % BSIZE then left else BSIZE - off % BSIZE
  }

  /** The n bytes from off on lie in blocks lo to hi - 1. */
  predicate Covers(off: nat, n: nat, lo: nat, hi: nat) {
    && lo * BSIZE <= off < lo * BSIZE + BSIZE
    && if n == 0 then hi == lo else hi * BSIZE - BSIZE < off + n <= hi * BSIZE
  }

  lemma BlocksCover(off: nat, n: nat)
    ensures Covers(off, n, off / BSIZE, BlockEnd(off, n))
  {
  }

  /** After tot of n bytes writei's loop has dealt with blocks lo to bn - 1: every turn but the last ends
      with its block. */
  predicate AtBlock(off: nat, n: nat, tot: nat, lo: nat, bn: nat) {
    Covers(off, tot, lo, bn) && (tot == 0 || tot == n || off + tot == bn * BSIZE)
  }

  lemma CoversOnce(off: nat, n: nat, lo: nat, bn: nat, hi: nat)
    requires Covers(off, n, lo, bn) && Covers(off, n, lo, hi)
    ensures bn == hi
  {
  }

  lemma TurnsBlock(off: nat, n: nat, tot: nat, lo: nat, bn: nat, hi: nat, at: nat, m: nat)
    requires AtBlock(off, n, tot, lo, bn) && Covers(off, n, lo, hi)
    requires tot < n && at == off + tot && m == PartSize(n - tot, at)
    ensures at / BSIZE == bn && lo <= bn < hi && AtBlock(off, n, tot + m, lo, bn + 1)
  {
  }

  /** What writei's loop keeps of files and blocks, s from before it. */
  ghost predicate Writing(sb: Super, s: Moment, t: Moment, i: nat, off: nat, src: seq<Byte>, tot: nat) {
    && tot <= |src| && Sound(sb, t.now) && Written(s.now, t.now, i, off, src, tot)
    && off <= s.now.inodes[i].size && (off + tot <= s.now.inodes[i].size ==> t.now.inodes == s.now.inodes)
  }

  /** These moments. */
  ghost function AfterBytes(sb: Super, s: Moment, i: nat, off: nat, src: seq<Byte>, tot: nat): iset<Moment> {
    iset t: Moment | Writing(sb, s, t, i, off, src, tot)
  }

  lemma WritingNothing(sb: Super, s: Moment, i: nat, off: nat, src: seq<Byte>)
    requires Sound(sb, s.now) && i in s.now.inodes && off <= s.now.inodes[i].size
    ensures s in AfterBytes(sb, s, i, off, src, 0)
  {
    NothingWritten(sb, s.now, i, off, src);
  }

  lemma MappedFilled(sb: Super, t: State, i: nat, at: nat, bn: nat)
    requires Sound(sb, t) && Mapped(t, i, at) && bn == at / BSIZE && bn < MAXFILE
    ensures Filled(t, i, bn, bn + 1)
  {
    assert i in t.inodes;
    BmapFilled(sb, t, i, bn);
  }

  lemma ReadFilled(sb: Super, t: State, i: nat, at: nat, bn: nat)
    requires Sound(sb, t) && i in t.inodes && at < t.inodes[i].size && bn == at / BSIZE
    ensures bn < MAXFILE && Filled(t, i, bn, bn + 1)
  {
    SizesMapped(sb, t, i, at);
    MappedFilled(sb, t, i, at, bn);
  }

  /** Within the old size bmap allocates nothing. */
  lemma InodesStay(sb: Super, s: Moment, t: Moment, u: Moment, i: nat, off: nat, src: seq<Byte>, tot: nat, at: nat,
                   bn: nat, addr: nat)
    requires t in AfterBytes(sb, s, i, off, src, tot) && u in AfterMapping(sb, t, i, bn, addr)
    requires at == off + tot && bn == at / BSIZE && bn < MAXFILE
    ensures i in s.now.inodes && (at < s.now.inodes[i].size ==> u.now.inodes == t.now.inodes == s.now.inodes)
  {
    WritingMapped(sb, s, t, i, off, src, tot, at);
    if at < s.now.inodes[i].size {
      MappedFilled(sb, t.now, i, at, bn);
      MappingNothing(sb, t, u, i, bn, addr);
    }
  }

  lemma WritingMapped(sb: Super, s: Moment, t: Moment, i: nat, off: nat, src: seq<Byte>, tot: nat, at: nat)
    requires t in AfterBytes(sb, s, i, off, src, tot) && at == off + tot
    ensures i in s.now.inodes && Sound(sb, t.now)
    ensures at < s.now.inodes[i].size ==> Mapped(t.now, i, at) && t.now.inodes == s.now.inodes
  {
  }

  lemma MappingNothing(sb: Super, t: Moment, u: Moment, i: nat, bn: nat, addr: nat)
    requires u in AfterMapping(sb, t, i, bn, addr) && Filled(t.now, i, bn, bn + 1)
    ensures u == t
  {
  }

  /** A whole turn: bmap from t to u, and the store. */
  lemma WritingMore(sb: Super, s: Moment, t: Moment, u: Moment, v: Moment, i: nat, off: nat, src: seq<Byte>, tot: nat,
                    at: nat, bn: nat, m: nat, end: nat, addr: nat, x: Block)
    requires at == off + tot && bn == at / BSIZE && end == tot + m <= |src| && m > 0 && at % BSIZE + m <= BSIZE
    requires t in AfterBytes(sb, s, i, off, src, tot) && u in AfterMapping(sb, t, i, bn, addr)
    requires bn < MAXFILE && addr < |u.now.blocks|
    requires x == Patch(u.now.blocks[addr], at % BSIZE, src[tot..end])
    requires v.now == State(u.now.blocks[addr := x], u.now.inodes, u.now.owner)
    ensures v in AfterBytes(sb, s, i, off, src, end)
  {
    TurnDone(sb, s.now, t.now, u.now, v.now, i, off, src, tot, at, bn, m, end, addr, x);
    InodesStay(sb, s, t, u, i, off, src, tot, at, bn, addr);
  }

  /** From s to t src was spliced into file i at off, and no other file changed. */
  ghost predicate Wrote(s: State, i: nat, off: nat, src: seq<Byte>, t: State) {
    && i in s.inodes && i in t.inodes && OthersSame(s, t, i) && off <= s.inodes[i].size
    && Content(t.blocks, t.inodes[i]) == Splice(Content(s.blocks, s.inodes[i]), off, src)
  }

  /** The stores are to bitmap and data blocks, and to inodes there are. */
  ghost predicate Regular(sb: Super, size: nat, inodes: map<nat, Inode>, log: seq<Store>) {
    forall st | st in log ::
      && (st.Data? ==> sb.bmapstart <= st.b < size)
      && (st.Dinode? ==> st.i in inodes && |st.ip.addrs| == NDIRECT + 1)
  }

  /** What is logged from s to t leads from the one state to the other, on at most count blocks. */
  ghost predicate Logged(sb: Super, s: Moment, t: Moment, count: nat) {
    && s.log <= t.log && |BlocksOf(sb, Since(s.log, t.log))| <= count
    && Regular(sb, |s.now.blocks|, s.now.inodes, Since(s.log, t.log))
    && t.now.blocks == Replayed(s.now.blocks, Since(s.log, t.log))
    && t.now.inodes == Reinoded(s.now.inodes, Since(s.log, t.log))
  }

  /** From s to t the writing of file i's blocks lo to hi - 1 took and logged exactly this. */
  ghost predicate BlocksLogged(sb: Super, s: Moment, t: Moment, i: nat, lo: nat, hi: nat, longer: bool) {
    && Sound(sb, t.now) && Grown(sb, s.now, t.now, i, lo, hi) && Filled(t.now, i, lo, hi) && s.log <= t.log
    && BlocksOf(sb, Since(s.log, t.log))
         == AllocLog(sb, s.now, t.now, i) + DataBlocks(t.now, i, lo, hi) + if longer then {InodeBlock(sb, i)} else {}
  }

  /** ... that of its n bytes at off. */
  ghost predicate WriteLogs(sb: Super, s: Moment, t: Moment, i: nat, off: nat, n: nat) {
    && i in s.now.inodes
    && BlocksLogged(sb, s, t, i, off / BSIZE, BlockEnd(off, n), off + n > s.now.inodes[i].size)
  }

  function Least(a: nat, b: nat): nat {
    if a < b then a else b
  }

  /** At most a bitmap block for each block that is lacking, and no more than there are; the inode's block,
      an indirect block, and those that the bytes lie in. */
  ghost function WriteCount(sb: Super, s: State, i: nat, off: nat, n: nat): nat {
    Least(BitmapLength(sb), |Lacking(s, i, off / BSIZE, BlockEnd(off, n))|) + 2 + Span(off, n)
  }

  lemma {:induction false} BitmapsFew(sb: Super, x: set<nat>)
    ensures |BitmapsOf(sb, x)| <= |x|
  {
    if x != {} {
      var b :| b in x;
      BitmapsFew(sb, x - {b});
      assert x == x - {b} + {b};
      BitmapsSum(sb, x - {b}, {b});
      assert BitmapsOf(sb, {b}) == {BitmapOf(sb, b)};
    }
  }

  lemma BitmapsIn(sb: Super, x: set<nat>)
    requires forall b | b in x :: b < sb.size
    ensures |BitmapsOf(sb, x)| <= BitmapLength(sb)
  {
    forall b | b in x
      ensures BitmapOf(sb, b) in BitmapBlocks(sb)
    {
      MapBlock(sb, b);
    }
    RunSize(sb.bmapstart, BitmapLength(sb));
    SubsetSize(BitmapsOf(sb, x), BitmapBlocks(sb));
  }

  lemma DataSplit(t: State, i: nat, lo: nat, mid: nat, hi: nat)
    requires lo <= mid <= hi
    ensures DataBlocks(t, i, lo, hi) == DataBlocks(t, i, lo, mid) + DataBlocks(t, i, mid, hi)
  {
  }

  lemma {:induction false} DataFew(t: State, i: nat, lo: nat, hi: nat)
    requires lo <= hi
    ensures |DataBlocks(t, i, lo, hi)| <= hi - lo
    decreases hi - lo
  {
    if lo == hi {
      assert DataBlocks(t, i, lo, hi) == {};
    } else {
      DataFew(t, i, lo + 1, hi);
      DataSplit(t, i, lo, lo + 1, hi);
      DataOne(t, i, lo);
    }
  }

  /** A new block is a data block or the indirect block. */
  lemma NewAreData(sb: Super, s: State, t: State, i: nat, lo: nat, hi: nat)
    requires Sound(sb, t) && Grown(sb, s, t, i, lo, hi)
    ensures NewBlocks(s, t) <= DataBlocks(t, i, lo, hi) + IndirectOf(t.inodes, i)
  {
    forall b | b in NewBlocks(s, t)
      ensures b in DataBlocks(t, i, lo, hi) + IndirectOf(t.inodes, i)
    {
      var k := t.owner[b].k;
      assert SlotRef(t.blocks, t.inodes, Slot(i, k)) == b;
      if k == NDIRECT {
        IndirectSame(t, i);
      } else {
        var n := if k < NDIRECT then k else k - 1;
        assert lo <= n < hi && SlotOf(n) == k;
      }
    }
  }

  lemma AllocFew(sb: Super, s: State, t: State, i: nat, lo: nat, hi: nat)
    requires Sound(sb, s) && Sound(sb, t) && Grown(sb, s, t, i, lo, hi) && Filled(t, i, lo, hi)
    ensures |BitmapsOf(sb, NewBlocks(s, t))| <= Least(BitmapLength(sb), |Lacking(s, i, lo, hi)|)
  {
    NewForLacking(sb, s, t, i, lo, hi);
    BitmapsFew(sb, NewBlocks(s, t));
    NewWereFree(sb, s, t);
    BitmapsIn(sb, NewBlocks(s, t));
  }

  lemma LogsIn(sb: Super, s: Moment, t: Moment, i: nat, lo: nat, hi: nat, longer: bool)
    requires BlocksLogged(sb, s, t, i, lo, hi, longer)
    ensures BlocksOf(sb, Since(s.log, t.log))
              <= BitmapsOf(sb, NewBlocks(s.now, t.now)) + DataBlocks(t.now, i, lo, hi) + IndirectOf(t.now.inodes, i)
                 + {InodeBlock(sb, i)}
  {
    NewAreData(sb, s.now, t.now, i, lo, hi);
  }

  lemma BlocksFew(sb: Super, s: Moment, t: Moment, i: nat, lo: nat, hi: nat, longer: bool)
    requires Sound(sb, s.now) && BlocksLogged(sb, s, t, i, lo, hi, longer) && lo <= hi
    ensures |BlocksOf(sb, Since(s.log, t.log))| <= Least(BitmapLength(sb), |Lacking(s.now, i, lo, hi)|) + 2 + hi - lo
  {
    LogsIn(sb, s, t, i, lo, hi, longer);
    AllocFew(sb, s.now, t.now, i, lo, hi);
    DataFew(t.now, i, lo, hi);
    SumFew(BlocksOf(sb, Since(s.log, t.log)), BitmapsOf(sb, NewBlocks(s.now, t.now)), DataBlocks(t.now, i, lo, hi),
           IndirectOf(t.now.inodes, i), {InodeBlock(sb, i)});
  }

  /** How many blocks a write logs at most. */
  lemma LogsFew(sb: Super, s: Moment, t: Moment, i: nat, off: nat, n: nat)
    requires Sound(sb, s.now) && WriteLogs(sb, s, t, i, off, n)
    ensures |BlocksOf(sb, Since(s.log, t.log))| <= WriteCount(sb, s.now, i, off, n)
  {
    BlocksFew(sb, s, t, i, off / BSIZE, BlockEnd(off, n), off + n > s.now.inodes[i].size);
  }

  lemma SumFew(l: set<nat>, a: set<nat>, b: set<nat>, c: set<nat>, d: set<nat>)
    requires l <= a + b + c + d
    ensures |l| <= |a| + |b| + |c| + |d|
  {
    SubsetSize(l, a + b + c + d);
  }

  lemma DataRegular(sb: Super, size: nat, inodes: map<nat, Inode>, log: seq<Store>)
    requires OnlyData(log) && forall b | b in BlocksOf(sb, log) :: sb.bmapstart <= b < size
    ensures Regular(sb, size, inodes, log)
  {
    forall st | st in log
      ensures st.Data? && sb.bmapstart <= st.b < size
    {
      assert BlockOf(sb, st) in BlocksOf(sb, log);
    }
  }

  /** x holds blocks from the bitmap on. */
  ghost predicate InRange(sb: Super, x: set<nat>) {
    forall b | b in x :: sb.bmapstart <= b < sb.size
  }

  /** What a write touches are bitmap and data blocks. */
  lemma WriteRange(sb: Super, s: State, t: State, i: nat, lo: nat, hi: nat)
    requires Sound(sb, s) && Sound(sb, t) && Filled(t, i, lo, hi)
    ensures InRange(sb, AllocLog(sb, s, t, i) + DataBlocks(t, i, lo, hi))
  {
    AllocRange(sb, s, t);
    DataRange(sb, t, i, lo, hi);
    IndirectRange(sb, t, i);
  }

  lemma DataStart(sb: Super, s: State)
    requires Sound(sb, s)
    ensures sb.bmapstart <= sb.datastart <= sb.size
  {
    assert InBitmap(sb, 0);
  }

  lemma AllocRange(sb: Super, s: State, t: State)
    requires Sound(sb, s) && Sound(sb, t)
    ensures InRange(sb, NewBlocks(s, t)) && InRange(sb, BitmapsOf(sb, NewBlocks(s, t)))
  {
    DataStart(sb, s);
    forall b | b in NewBlocks(s, t)
      ensures sb.datastart <= b < sb.size && sb.bmapstart <= BitmapOf(sb, b) < sb.size
    {
      NewRange(sb, s, t, b);
      BitmapPlace(sb, s.blocks, b);
    }
  }

  lemma NewRange(sb: Super, s: State, t: State, b: nat)
    requires Sound(sb, t) && b in NewBlocks(s, t)
    ensures sb.datastart <= b < sb.size
  {
    assert SlotRef(t.blocks, t.inodes, t.owner[b]) == b;
  }

  lemma BitmapPlace(sb: Super, blocks: seq<Block>, b: nat)
    requires Geometry(sb, blocks) && b < sb.size
    ensures sb.bmapstart <= BitmapOf(sb, b) < sb.datastart
  {
    assert InBitmap(sb, b);
  }

  lemma DataRange(sb: Super, t: State, i: nat, lo: nat, hi: nat)
    requires Sound(sb, t) && Filled(t, i, lo, hi)
    ensures InRange(sb, DataBlocks(t, i, lo, hi))
  {
    DataStart(sb, t);
    forall n: nat | lo <= n < hi
      ensures sb.datastart <= SlotRef(t.blocks, t.inodes, Slot(i, SlotOf(n))) < sb.size
    {
      assert Takes(lo, hi, SlotOf(n));
    }
  }

  lemma IndirectRange(sb: Super, t: State, i: nat)
    requires Sound(sb, t)
    ensures InRange(sb, IndirectOf(t.inodes, i))
  {
    DataStart(sb, t);
    IndirectSame(t, i);
  }

  lemma BitmapRange(sb: Super, s: State)
    requires Sound(sb, s)
    ensures InRange(sb, BitmapBlocks(sb))
  {
    assert InBitmap(sb, sb.size - 1);
  }

  /** Data, from s to u, and then inode i. */
  lemma InodeLogged(sb: Super, s: Moment, u: Moment, v: Moment, i: nat, ip: Inode, x: set<nat>)
    requires Adds(sb, s.now.blocks, s.log, u.now.blocks, u.log, x)
    requires v.now.blocks == u.now.blocks && v.now.inodes == s.now.inodes[i := ip] && v.log == u.log + [Dinode(i, ip)]
    requires InRange(sb, x) && sb.size == |s.now.blocks|
    requires i in s.now.inodes && |ip.addrs| == NDIRECT + 1
    ensures s.log <= v.log && BlocksOf(sb, Since(s.log, v.log)) == x + {InodeBlock(sb, i)}
    ensures Regular(sb, sb.size, s.now.inodes, Since(s.log, v.log))
    ensures v.now.blocks == Replayed(s.now.blocks, Since(s.log, v.log))
    ensures v.now.inodes == Reinoded(s.now.inodes, Since(s.log, v.log))
  {
    var st := Since(s.log, u.log);
    SinceTwice(s.log, u.log, v.log);
    assert Since(u.log, v.log) == [Dinode(i, ip)];
    BlocksOfSum(sb, st, [Dinode(i, ip)]);
    BlocksOfOne(sb, Dinode(i, ip));
    assert (st + [Dinode(i, ip)])[..|st|] == st;
    ReinodedData(s.now.inodes, st);
    DataRegular(sb, sb.size, s.now.inodes, st);
  }

  lemma TruncLogged(sb: Super, s: Moment, u: Moment, v: Moment, i: nat, ip: Inode)
    requires Logs(sb, s.now.blocks, s.log, u.now.blocks, u.log)
    requires v.now.blocks == u.now.blocks && v.now.inodes == s.now.inodes[i := ip] && v.log == u.log + [Dinode(i, ip)]
    requires Sound(sb, s.now) && i in s.now.inodes && |ip.addrs| == NDIRECT + 1
    ensures Logged(sb, s, v, BitmapLength(sb) + 1)
  {
    BitmapRange(sb, s.now);
    var x := BlocksOf(sb, Since(s.log, u.log));
    InodeLogged(sb, s, u, v, i, ip, x);
    RunSize(sb.bmapstart, BitmapLength(sb));
    SumFew(BlocksOf(sb, Since(s.log, v.log)), BitmapBlocks(sb), {InodeBlock(sb, i)}, {}, {});
  }

  function Longer(a: nat, b: nat): nat {
    if a > b then a else b
  }

  /** What the new size adds. */
  lemma SizeLogged(sb: Super, s: Moment, u: Moment, v: Moment, i: nat, lo: nat, hi: nat, longer: bool)
    requires u in AfterBlocks(sb, s, i, lo, hi) && Sound(sb, v.now) && i in v.now.inodes
    requires v.now.blocks == u.now.blocks && v.now.owner == u.now.owner
    requires forall sl :: SlotRef(v.now.blocks, v.now.inodes, sl) == SlotRef(u.now.blocks, u.now.inodes, sl)
    requires v.log == if longer then u.log + [Dinode(i, v.now.inodes[i])] else u.log
    requires v.now.inodes == if longer then s.now.inodes[i := v.now.inodes[i]] else s.now.inodes
    requires Sound(sb, s.now) && i in s.now.inodes && |v.now.inodes[i].addrs| == NDIRECT + 1
    ensures BlocksLogged(sb, s, v, i, lo, hi, longer)
    ensures Regular(sb, |s.now.blocks|, s.now.inodes, Since(s.log, v.log))
    ensures v.now.blocks == Replayed(s.now.blocks, Since(s.log, v.log))
    ensures v.now.inodes == Reinoded(s.now.inodes, Since(s.log, v.log))
  {
    SlotsSame(sb, s.now, u.now, v.now, i, lo, hi);
    var x := AllocLog(sb, s.now, u.now, i) + DataBlocks(u.now, i, lo, hi);
    WriteRange(sb, s.now, v.now, i, lo, hi);
    if longer {
      InodeLogged(sb, s, u, v, i, v.now.inodes[i], x);
    } else {
      DataRegular(sb, |s.now.blocks|, s.now.inodes, Since(s.log, u.log));
      ReinodedData(s.now.inodes, Since(s.log, u.log));
    }
  }

  lemma ResizedRefs(u: State, i: nat, size: nat)
    requires i in u.inodes
    ensures var v := Resized(u, i, size);
            forall sl :: SlotRef(v.blocks, v.inodes, sl) == SlotRef(u.blocks, u.inodes, sl)
  {
  }

  /** The end of a write: u is the state after the loop, v with the new size. */
  lemma WriteDone(sb: Super, s: Moment, u: Moment, v: Moment, i: nat, off: nat, n: nat, end: nat, lo: nat, hi: nat)
    requires Sound(sb, s.now) && Sound(sb, v.now) && i in u.now.inodes && i in s.now.inodes
    requires u in AfterBlocks(sb, s, i, lo, hi) && lo == off / BSIZE && hi == BlockEnd(off, n) && end == off + n
    requires s.now.inodes[i].size == u.now.inodes[i].size
    requires v.now == Resized(u.now, i, Longer(end, u.now.inodes[i].size))
    requires v.log == if end > u.now.inodes[i].size then u.log + [Dinode(i, v.now.inodes[i])] else u.log
    requires v.now.inodes
               == if end > u.now.inodes[i].size then s.now.inodes[i := v.now.inodes[i]] else s.now.inodes
    ensures WriteLogs(sb, s, v, i, off, n)
    ensures Logged(sb, s, v, WriteCount(sb, s.now, i, off, n))
  {
    ResizedRefs(u.now, i, Longer(end, u.now.inodes[i].size));
    SizeLogged(sb, s, u, v, i, lo, hi, end > u.now.inodes[i].size);
    LogsFew(sb, s, v, i, off, n);
  }

  /** The moments after writing src into file i at off from s: the file has src spliced in, every other is
      as it was, and the blocks logged are exactly those that this takes. */
  ghost function AfterWrite(sb: Super, s: Moment, i: nat, off: nat, src: seq<Byte>): iset<Moment> {
    iset t: Moment |
      && Sound(sb, t.now) && Wrote(s.now, i, off, src, t.now) && WriteLogs(sb, s, t, i, off, |src|)
      && Logged(sb, s, t, WriteCount(sb, s.now, i, off, |src|))
  }

  lemma AfterWriteSound(sb: Super, s: Moment, t: Moment, i: nat, off: nat, src: seq<Byte>)
    requires t in AfterWrite(sb, s, i, off, src)
    ensures Sound(sb, t.now) && Wrote(s.now, i, off, src, t.now)
  {
  }

  lemma WrittenEnds(sb: Super, s: Moment, u: Moment, v: Moment, i: nat, off: nat, src: seq<Byte>, end: nat)
    requires Sound(sb, s.now) && u in AfterBytes(sb, s, i, off, src, |src|) && end == off + |src| <= MAXFILE * BSIZE
    requires i in u.now.inodes && v.now == Resized(u.now, i, Longer(end, u.now.inodes[i].size))
    ensures Sound(sb, v.now) && Wrote(s.now, i, off, src, v.now) && i in s.now.inodes
    ensures s.now.inodes[i].size == u.now.inodes[i].size
    ensures i in v.now.inodes && v.now.inodes
              == if end > u.now.inodes[i].size then s.now.inodes[i := v.now.inodes[i]] else s.now.inodes
  {
    WrittenContent(sb, s.now, u.now, i, off, src);
    if end <= s.now.inodes[i].size {
      SameSize(s.now, u.now, i, u.now.inodes[i].size);
    }
  }

  /** ... with its bytes. */
  lemma WriteEnds(sb: Super, s: Moment, u: Moment, v: Moment, i: nat, off: nat, src: seq<Byte>, end: nat, lo: nat,
                  hi: nat)
    requires Sound(sb, s.now) && u in AfterBytes(sb, s, i, off, src, |src|) && u in AfterBlocks(sb, s, i, lo, hi)
    requires end == off + |src| <= MAXFILE * BSIZE && lo == off / BSIZE && hi == BlockEnd(off, |src|)
    requires i in u.now.inodes && v.now == Resized(u.now, i, Longer(end, u.now.inodes[i].size))
    requires v.log == if end > u.now.inodes[i].size then u.log + [Dinode(i, v.now.inodes[i])] else u.log
    ensures v in AfterWrite(sb, s, i, off, src)
  {
    WrittenEnds(sb, s, u, v, i, off, src, end);
    WriteDone(sb, s, u, v, i, off, |src|, end, lo, hi);
  }

  lemma WriteBegins(sb: Super, s: Moment, i: nat, off: nat, src: seq<Byte>, lo: nat, hi: nat)
    requires Sound(sb, s.now) && i in s.now.inodes && off <= s.now.inodes[i].size
    requires lo == off / BSIZE && hi == BlockEnd(off, |src|)
    ensures s in AfterBytes(sb, s, i, off, src, 0) && s in AfterBlocks(sb, s, i, lo, lo) && Covers(off, |src|, lo, hi)
  {
    BlocksCover(off, |src|);
    WritingNothing(sb, s, i, off, src);
    NoProgress(sb, s, i, lo);
  }

  lemma WritingInodes(sb: Super, s: Moment, t: Moment, i: nat, off: nat, src: seq<Byte>, tot: nat)
    requires t in AfterBytes(sb, s, i, off, src, tot)
    ensures Sound(sb, t.now) && i in s.now.inodes && t.now.inodes.Keys == s.now.inodes.Keys
    ensures t.now.inodes[i].size == s.now.inodes[i].size >= off
    ensures forall j | j in s.now.inodes && j != i :: t.now.inodes[j] == s.now.inodes[j]
    ensures off + tot <= s.now.inodes[i].size ==> t.now.inodes == s.now.inodes
  {
  }

  /** One turn after the others. */
  lemma TurnTwice(sb: Super, s: Moment, t: Moment, u: Moment, i: nat, off: nat, src: seq<Byte>, tot: nat,
                  end: nat, lo: nat, bn: nat, next: nat)
    requires next == bn + 1 && t in AfterBytes(sb, s, i, off, src, tot) && u in AfterBytes(sb, s, i, off, src, end)
    requires t in AfterBlocks(sb, s, i, lo, bn) && u in AfterBlocks(sb, t, i, bn, bn + 1) && lo <= bn
    ensures u in AfterBlocks(sb, s, i, lo, next)
  {
    ProgressTwice(sb, s, t, u, i, lo, bn, bn, bn + 1);
  }

  lemma SameSize(s: State, u: State, i: nat, size: nat)
    requires i in u.inodes && u.inodes == s.inodes && size == u.inodes[i].size
    ensures Resized(u, i, size).inodes == s.inodes
  {
  }

  // ---------------------------------------------------------------- the file system

  class Fs {
    const sb: Super
    var blocks: seq<Block>            // the newest contents of every block, as bread returns them
    var inodes: map<nat, Inode>       // the in-memory inodes
    var dinodes: map<nat, Inode>      // the inodes in the inode blocks, written by iupdate
    ghost var owner: map<nat, Slot>
    var logged: seq<Store>            // what was given to log_write so far

    ghost predicate Valid()
      reads this
    {
      Consistent(sb, blocks, inodes, owner) && dinodes == inodes
    }

    constructor (sb: Super, blocks: seq<Block>, inodes: map<nat, Inode>, ghost owner: map<nat, Slot>)
      requires Consistent(sb, blocks, inodes, owner)
      ensures Valid() && this.sb == sb && Now() == State(blocks, inodes, owner)
    {
      this.sb, this.blocks, this.inodes, this.dinodes, this.owner := sb, blocks, inodes, inodes, owner;
      logged := [];
    }

    /** Mark free block b and zero it. */
    method Claim(b: nat)
      requires Geometry(sb, blocks) && sb.datastart <= b < sb.size
      modifies this`blocks, this`logged
      ensures Geometry(sb, blocks) && blocks[b] == ZeroBlock
      ensures UsedSet(sb, blocks) == old(UsedSet(sb, blocks)) + {b}
      ensures forall c | sb.datastart <= c < sb.size && c != b :: blocks[c] == old(blocks[c])
      ensures Adds(sb, old(blocks), old(logged), blocks, logged, {BitmapOf(sb, b), b})
    {
      UsedMarked(sb, blocks, b, true);
      var m := sb.bmapstart + b / BPB;
      blocks := blocks[m := WithBit(blocks[m], b % BPB, true)];
      logged := logged + [Data(m, blocks[m])];
      ghost var was, l := blocks, logged;
      blocks := blocks[b := ZeroBlock];   // bzero
      logged := logged + [Data(b, ZeroBlock)];
      UsedSame(sb, was, blocks);
      AddsOne(sb, old(blocks), old(logged), was, l, m, was[m]);
      AddsOne(sb, was, l, blocks, logged, b, ZeroBlock);
      AddsTwice(sb, old(blocks), old(logged), was, l, blocks, logged, {m}, {b});
    }

    /** balloc's inner loop: the lowest free block that the bitmap block of base describes. */
    method ScanBitmap(base: nat) returns (found: bool, bi: nat)
      requires Geometry(sb, blocks) && base % BPB == 0 && base < sb.size
      ensures bi <= BPB && forall c: nat | base <= c < base + bi && c < sb.size :: c in UsedSet(sb, blocks)
      ensures found ==> bi < BPB && base + bi < sb.size && base + bi !in UsedSet(sb, blocks)
      ensures !found ==> bi == BPB || base + bi >= sb.size
    {
      bi := 0;
      assert InBitmap(sb, base);
      var m := sb.bmapstart + base / BPB;
      while bi < BPB && base + bi < sb.size
        invariant bi <= BPB
        invariant forall c: nat | base <= c < base + bi && c < sb.size :: c in UsedSet(sb, blocks)
      {
        BitPlace(base, bi);
        assert InBitmap(sb, base + bi);
        if !BlockBit(blocks[m], bi) {
          return true, bi;
        }
        bi := bi + 1;
      }
      found := false;
    }

    /** balloc: the lowest free block, marked and zeroed; ok is false where it panics. */
    method Balloc() returns (ok: bool, b: nat)
      requires Geometry(sb, blocks) && Metadata(sb) <= UsedSet(sb, blocks)
      modifies this`blocks, this`logged
      ensures Geometry(sb, blocks)
      ensures !ok ==> blocks == old(blocks) && logged == old(logged) && Full()
      ensures ok ==> Adds(sb, old(blocks), old(logged), blocks, logged, {BitmapOf(sb, b), b})
      ensures ok ==>
                && sb.datastart <= b < sb.size && b !in old(UsedSet(sb, blocks))
                && (forall c: nat | c < b :: c in old(UsedSet(sb, blocks)))
                && blocks[b] == ZeroBlock
                && UsedSet(sb, blocks) == old(UsedSet(sb, blocks)) + {b}
                && forall c | sb.datastart <= c < sb.size && c != b :: blocks[c] == old(blocks[c])
    {
      var base := 0;
      while base < sb.size
        invariant base % BPB == 0 && blocks == old(blocks) && logged == old(logged)
        invariant forall c: nat | c < base && c < sb.size :: c in UsedSet(sb, blocks)
        decreases sb.size - base
      {
        var found, bi := ScanBitmap(base);
        if found {
          b := base + bi;
          assert b !in Metadata(sb);
          Claim(b);
          return true, b;
        }
        BitPlace(base, 0);
        base := base + BPB;
      }
      ok, b := false, 0;
    }

    /** bfree: ok is false where it panics, on a block that is free already. */
    method Bfree(b: nat) returns (ok: bool)
      requires Geometry(sb, blocks) && b < sb.size
      modifies this`blocks, this`logged
      ensures Geometry(sb, blocks)
      ensures ok <==> b in old(UsedSet(sb, blocks))
      ensures UsedSet(sb, blocks) == old(UsedSet(sb, blocks)) - {b}
      ensures forall c | sb.datastart <= c < sb.size :: blocks[c] == old(blocks[c])
      ensures Logs(sb, old(blocks), old(logged), blocks, logged)
    {
      UsedMarked(sb, blocks, b, false);
      LogsNone(sb, blocks, logged);
      var m := sb.bmapstart + b / BPB;
      MapBlock(sb, b);
      if !BlockBit(blocks[m], b % BPB) {
        return false;
      }
      blocks := blocks[m := WithBit(blocks[m], b % BPB, false)];
      logged := logged + [Data(m, blocks[m])];
      AddsOne(sb, old(blocks), old(logged), blocks, logged, m, blocks[m]);
      AddsLogs(sb, old(blocks), old(logged), blocks, logged, {m});
      ok := true;
    }

    ghost function Now(): State
      reads this
    {
      State(blocks, inodes, owner)
    }

    ghost function At(): Moment
      reads this
    {
      Moment(Now(), logged)
    }

    /** balloc for slot k of inode i itself. */
    method AllocSlot(i: nat, k: nat) returns (ok: bool)
      requires Sound(sb, Now()) && i in inodes && k <= NDIRECT && inodes[i].addrs[k] == 0
      modifies this`blocks, this`inodes, this`owner, this`logged
      ensures ok ==> At() in AfterTaking(sb, old(At()), i, k) && inodes[i].addrs[k] != 0
      ensures !ok ==> Now() == old(Now()) && logged == old(logged) && Full()
    {
      ghost var s := At();
      var b;
      ok, b := Balloc();
      if ok {
        Attached(sb, s.now, blocks, i, k, b);
        inodes := inodes[i := inodes[i].(addrs := inodes[i].addrs[k := b])];
        owner := owner[b := Slot(i, k)];
        TookSlot(sb, s, At(), i, k, b);
      }
    }

    /** balloc for entry k of inode i's indirect block. */
    method AllocEntry(i: nat, k: nat) returns (ok: bool)
      requires Sound(sb, Now()) && i in inodes && NDIRECT < k < NSLOTS
      requires inodes[i].addrs[NDIRECT] != 0 && Ref(blocks, inodes[i], k) == 0
      modifies this`blocks, this`owner, this`logged
      ensures ok ==> At() in AfterTaking(sb, old(At()), i, k) && Ref(blocks, inodes[i], k) != 0
      ensures !ok ==> Now() == old(Now()) && logged == old(logged) && Full()
    {
      ghost var s := At();
      var b;
      ok, b := Balloc();
      if ok {
        AttachedEntry(sb, s.now, blocks, i, k, b);
        ghost var was, l := blocks, logged;
        var ind := inodes[i].addrs[NDIRECT];
        blocks := blocks[ind := WithWord(blocks[ind], k - NDIRECT - 1, b)];
        logged := logged + [Data(ind, blocks[ind])];
        owner := owner[b := Slot(i, k)];
        TookEntry(sb, s, was, l, At(), i, k, b, ind);
      }
    }

    /** bmap through the inode itself. */
    method BmapDirect(i: nat, bn: nat) returns (ok: bool, addr: nat)
      requires Sound(sb, Now()) && i in inodes && bn < NDIRECT
      modifies this`blocks, this`inodes, this`owner, this`logged
      ensures At() in AfterBmap(sb, old(At()), i, bn) && i in inodes && |inodes[i].addrs| == NDIRECT + 1
      ensures ok <==> inodes[i].addrs[bn] != 0
      ensures !ok ==> Full()
      ensures ok ==> addr == inodes[i].addrs[bn]
    {
      ghost var s := At();
      BmapNothing(sb, s, i, bn);
      if inodes[i].addrs[bn] == 0 {
        ok := AllocSlot(i, bn);
        if !ok {
          return false, 0;
        }
        BmapTook(sb, s, At(), i, bn, bn);
      }
      return true, inodes[i].addrs[bn];
    }

    /** bmap through the indirect block, itself allocated if it is missing; k is the slot of block bn. */
    method BmapIndirect(i: nat, n: nat, ghost bn: nat, ghost k: nat) returns (ok: bool, addr: nat)
      requires Sound(sb, Now()) && i in inodes && n < NINDIRECT && bn == NDIRECT + n && k == bn + 1
      modifies this`blocks, this`inodes, this`owner, this`logged
      ensures At() in AfterBmap(sb, old(At()), i, bn) && i in inodes && |inodes[i].addrs| == NDIRECT + 1
      ensures ok <==> Ref(blocks, inodes[i], k) != 0
      ensures !ok ==> Full()
      ensures ok ==> addr == Ref(blocks, inodes[i], k)
    {
      ghost var s := At();
      ok := HaveIndirect(i, bn);
      if !ok {
        return false, 0;
      }
      ok, addr := BmapThere(i, n, s, bn, k);
    }

    /** ... which comes first. */
    method HaveIndirect(i: nat, ghost bn: nat) returns (ok: bool)
      requires Sound(sb, Now()) && i in inodes && NDIRECT <= bn
      modifies this`blocks, this`inodes, this`owner, this`logged
      ensures At() in AfterBmap(sb, old(At()), i, bn) && i in inodes && |inodes[i].addrs| == NDIRECT + 1
      ensures ok <==> inodes[i].addrs[NDIRECT] != 0
      ensures !ok ==> Full()
    {
      ghost var s := At();
      BmapNothing(sb, s, i, bn);
      ok := true;
      if inodes[i].addrs[NDIRECT] == 0 {
        ok := AllocSlot(i, NDIRECT);
        if ok {
          BmapTook(sb, s, At(), i, bn, NDIRECT);
        }
      }
    }

    /** ... and what follows; s is from before it. */
    method BmapThere(i: nat, n: nat, ghost s: Moment, ghost bn: nat, ghost k: nat) returns (ok: bool, addr: nat)
      requires i in inodes && n < NINDIRECT && |inodes[i].addrs| == NDIRECT + 1 && inodes[i].addrs[NDIRECT] != 0
      requires At() in AfterBmap(sb, s, i, bn) && bn == NDIRECT + n && k == bn + 1
      modifies this`blocks, this`owner, this`logged
      ensures At() in AfterBmap(sb, s, i, bn)
      ensures ok <==> Ref(blocks, inodes[i], k) != 0
      ensures !ok ==> Full()
      ensures ok ==> addr == Ref(blocks, inodes[i], k)
    {
      ghost var t := At();
      BmapSound(sb, s, t, i, bn);
      ok, addr := BmapEntry(i, n, bn, k);
      BmapTwice(sb, s, t, At(), i, bn);
    }

    /** bmap through an indirect block that is there. */
    method BmapEntry(i: nat, n: nat, ghost bn: nat, ghost k: nat) returns (ok: bool, addr: nat)
      requires Sound(sb, Now()) && i in inodes && n < NINDIRECT && inodes[i].addrs[NDIRECT] != 0
      requires bn == NDIRECT + n && k == bn + 1
      modifies this`blocks, this`owner, this`logged
      ensures At() in AfterBmap(sb, old(At()), i, bn)
      ensures ok <==> Ref(blocks, inodes[i], k) != 0
      ensures !ok ==> Full()
      ensures ok ==> addr == Ref(blocks, inodes[i], k)
    {
      ghost var s := At();
      BmapNothing(sb, s, i, bn);
      IndirectThere(sb, Now(), i, n, k);
      if Word(blocks[inodes[i].addrs[NDIRECT]], n) == 0 {
        ok := AllocEntry(i, n + NDIRECT + 1);
        if !ok {
          return false, 0;
        }
        TookEntryBmap(sb, s, At(), i, n, bn, k);
      }
      return true, Word(blocks[inodes[i].addrs[NDIRECT]], n);
    }

    /** No block is free, so that balloc panics. */
    ghost predicate Full()
      reads this
    {
      Geometry(sb, blocks) && forall c: nat | c < sb.size :: c in UsedSet(sb, blocks)
    }

    /** bmap: the disk block of the file's bn-th block, allocated if it is missing; ok is false
        where it panics, for want of blocks or past the largest file. */
    method Bmap(i: nat, bn: nat) returns (ok: bool, addr: nat)
      requires Sound(sb, Now()) && i in inodes
      modifies this`blocks, this`inodes, this`owner, this`logged
      ensures ok ==> bn < MAXFILE && Maps(i, bn, addr)
      ensures ok ==> i in inodes && |inodes[i].addrs| == 13
      ensures ok && bn < 12 ==> addr == inodes[i].addrs[bn]
      ensures ok && bn >= 12 ==>
                0 < inodes[i].addrs[12] < |blocks| && addr == Word(blocks[inodes[i].addrs[12]], bn - 12)
      ensures bn < MAXFILE ==>
                && At() in AfterBmap(sb, old(At()), i, bn)
                && (ok <==> Filled(Now(), i, bn, bn + 1)) && (!ok ==> Full())
      ensures old(Filled(Now(), i, bn, bn + 1)) && bn < MAXFILE ==> ok && At() == old(At())
    {
      ghost var s := At();
      if bn < NDIRECT {
        ok, addr := BmapDirect(i, bn);
      } else if bn - NDIRECT < NINDIRECT {
        ok, addr := BmapIndirect(i, bn - NDIRECT, bn, bn + 1);
      } else {
        return false, 0;
      }
      BmapMaps(sb, s, At(), i, bn, if ok then addr else 0);
      if ok {
        SlotNames(blocks, inodes, i, bn, addr);
      }
    }

    /** addr is the disk block of the file's bn-th block. */
    ghost predicate Maps(i: nat, bn: nat, addr: nat)
      reads this
    {
      && addr != 0 && SlotRef(blocks, inodes, Slot(i, SlotOf(bn))) == addr
      && addr < sb.size && addr in owner && owner[addr] == Slot(i, SlotOf(bn))
    }

    /** One turn of writei's loop, on block bn of the file. */
    method WriteBlock(i: nat, src: seq<Byte>, tot: nat, off: nat, ghost s: Moment, ghost off0: nat, ghost bn: nat)
        returns (ok: bool, m: nat, ghost end: nat)
      requires At() in AfterBytes(sb, s, i, off0, src, tot) && off0 + |src| <= MAXFILE * BSIZE
      requires tot < |src| && off == off0 + tot && bn == off / BSIZE
      modifies this`blocks, this`inodes, this`owner, this`logged
      ensures !ok ==> At() in AfterRunningOut(sb, old(At()), i, bn, bn + 1)
      ensures ok ==> m == PartSize(|src| - tot, off) && end == tot + m && At() in AfterBytes(sb, s, i, off0, src, end)
      ensures ok ==> At() in AfterBlocks(sb, old(At()), i, bn, bn + 1)
    {
      ghost var t := At();
      var addr;
      ok, addr := BmapAt(i, src, tot, off, s, off0, bn);
      m, end := 0, 0;
      if ok {
        m := PartSize(|src| - tot, off);
        end := tot + m;
        StorePart(i, src, tot, off, m, end, addr, s, off0, t, bn);
      }
    }

    /** Its bmap. */
    method BmapAt(i: nat, src: seq<Byte>, tot: nat, off: nat, ghost s: Moment, ghost off0: nat, ghost bn: nat)
        returns (ok: bool, addr: nat)
      requires At() in AfterBytes(sb, s, i, off0, src, tot) && off0 + |src| <= MAXFILE * BSIZE
      requires tot < |src| && off == off0 + tot && bn == off / BSIZE
      modifies this`blocks, this`inodes, this`owner, this`logged
      ensures bn < MAXFILE && (ok ==> At() in AfterMapping(sb, old(At()), i, bn, addr))
      ensures !ok ==> At() in AfterRunningOut(sb, old(At()), i, bn, bn + 1)
    {
      ghost var t := At();
      WritingInodes(sb, s, t, i, off0, src, tot);
      ok, addr := Bmap(i, off / BSIZE);
      if !ok {
        FullIsNone();
        BmapRanOut(sb, t, At(), i, bn);
      }
    }

    lemma FullIsNone()
      requires Full()
      ensures FreeBlocks(sb, blocks) == {}
    {
    }

    /** The memmove and log_write of that turn; t is from before bmap. */
    method StorePart(i: nat, src: seq<Byte>, tot: nat, off: nat, m: nat, ghost end: nat, addr: nat, ghost s: Moment,
                     ghost off0: nat,
                     ghost t: Moment, ghost bn: nat)
      requires off == off0 + tot && bn == off / BSIZE && end == tot + m <= |src| && m > 0 && off % BSIZE + m <= BSIZE
      requires t in AfterBytes(sb, s, i, off0, src, tot) && bn < MAXFILE
      requires At() in AfterMapping(sb, t, i, bn, addr)
      modifies this`blocks, this`logged
      ensures At() in AfterBytes(sb, s, i, off0, src, end) && At() in AfterBlocks(sb, t, i, bn, bn + 1)
    {
      MappingSlot(sb, t, At(), i, bn, addr);
      ghost var u, x := At(), Patch(blocks[addr], off % BSIZE, src[tot..end]);
      blocks := blocks[addr := Patch(blocks[addr], off % BSIZE, src[tot..tot + m])];
      logged := logged + [Data(addr, blocks[addr])];
      WritingMore(sb, s, t, u, At(), i, off0, src, tot, off, bn, m, end, addr, x);
      TurnProgress(sb, t, u, At(), i, bn, addr, x);
    }

    /** writei's loop, over the file's blocks lo to hi - 1; s is from before it. */
    method WriteBlocks(i: nat, src: seq<Byte>, off0: nat, ghost s: Moment, ghost lo: nat, ghost hi: nat)
        returns (ok: bool)
      requires At() in AfterBytes(sb, s, i, off0, src, 0) && At() in AfterBlocks(sb, s, i, lo, lo)
      requires Covers(off0, |src|, lo, hi) && off0 + |src| <= MAXFILE * BSIZE
      modifies this`blocks, this`inodes, this`owner, this`logged
      ensures !ok ==> At() in AfterRunningOut(sb, s, i, lo, hi)
      ensures ok ==> At() in AfterBytes(sb, s, i, off0, src, |src|) && At() in AfterBlocks(sb, s, i, lo, hi)
    {
      var tot, off := 0, off0;
      ghost var bn := lo;
      while tot < |src|
        invariant off == off0 + tot && AtBlock(off0, |src|, tot, lo, bn)
        invariant At() in AfterBytes(sb, s, i, off0, src, tot) && At() in AfterBlocks(sb, s, i, lo, bn)
      {
        var m;
        ghost var next, end := bn + 1, 0;
        ok, m, end := WriteTurn(i, src, tot, off, s, off0, lo, bn, next, hi);
        if !ok {
          return;
        }
        tot, off := tot + m, off + m;
        bn := next;
        assert tot == end;
      }
      assert tot == |src|;
      CoversOnce(off0, |src|, lo, bn, hi);
      ok := true;
    }

    /** ... one turn of it; s is from before the loop. */
    method WriteTurn(i: nat, src: seq<Byte>, tot: nat, off: nat, ghost s: Moment, ghost off0: nat, ghost lo: nat,
                     ghost bn: nat, ghost next: nat, ghost hi: nat) returns (ok: bool, m: nat, ghost end: nat)
      requires At() in AfterBytes(sb, s, i, off0, src, tot) && At() in AfterBlocks(sb, s, i, lo, bn)
      requires AtBlock(off0, |src|, tot, lo, bn) && tot < |src| && off == off0 + tot && next == bn + 1
      requires Covers(off0, |src|, lo, hi) && off0 + |src| <= MAXFILE * BSIZE
      modifies this`blocks, this`inodes, this`owner, this`logged
      ensures !ok ==> At() in AfterRunningOut(sb, s, i, lo, hi)
      ensures ok ==> 0 < m <= |src| - tot && end == tot + m && AtBlock(off0, |src|, end, lo, next)
      ensures ok ==> At() in AfterBytes(sb, s, i, off0, src, end) && At() in AfterBlocks(sb, s, i, lo, next)
    {
      ghost var t := At();
      TurnsBlock(off0, |src|, tot, lo, bn, hi, off, PartSize(|src| - tot, off));
      ok, m, end := WriteBlock(i, src, tot, off, s, off0, bn);
      if ok {
        TurnTwice(sb, s, t, At(), i, off0, src, tot, end, lo, bn, next);
      } else {
        RanOutThere(sb, s, t, At(), i, lo, bn, hi);
      }
    }

    /** writei past its argument checks. */
    method WriteAll(i: nat, src: seq<Byte>, off: nat, ghost lo: nat, ghost hi: nat) returns (ok: bool)
      requires Valid() && i in inodes && off <= inodes[i].size && off + |src| <= MAXFILE * BSIZE
      requires lo == off / BSIZE && hi == BlockEnd(off, |src|)
      modifies this`blocks, this`inodes, this`dinodes, this`owner, this`logged
      ensures ok <==> Enough(sb, old(Now()), i, lo, hi)
      ensures !ok ==> At() in AfterRunningOut(sb, old(At()), i, lo, hi)
      ensures ok ==> dinodes == inodes && At() in AfterWrite(sb, old(At()), i, off, src)
    {
      ghost var s := At();
      WriteBegins(sb, s, i, off, src, lo, hi);
      ok := WriteFrom(i, src, off, s, lo, hi);
      EndsEnough(sb, s, At(), i, off, src, lo, hi, ok);
    }

    method WriteFrom(i: nat, src: seq<Byte>, off: nat, ghost s: Moment, ghost lo: nat, ghost hi: nat)
        returns (ok: bool)
      requires At() in AfterBytes(sb, s, i, off, src, 0) && At() in AfterBlocks(sb, s, i, lo, lo)
      requires Sound(sb, s.now) && dinodes == s.now.inodes && Covers(off, |src|, lo, hi)
      requires off + |src| <= MAXFILE * BSIZE && lo == off / BSIZE && hi == BlockEnd(off, |src|)
      modifies this`blocks, this`inodes, this`dinodes, this`owner, this`logged
      ensures !ok ==> At() in AfterRunningOut(sb, s, i, lo, hi)
      ensures ok ==> dinodes == inodes && At() in AfterWrite(sb, s, i, off, src)
    {
      ok := WriteBlocks(i, src, off, s, lo, hi);
      if ok {
        FinishWrite(i, src, off, s, lo, hi);
      }
    }

    /** ... and what follows its loop; s is from before it. */
    method FinishWrite(i: nat, src: seq<Byte>, off: nat, ghost s: Moment, ghost lo: nat, ghost hi: nat)
      requires Sound(sb, s.now) && At() in AfterBytes(sb, s, i, off, src, |src|) && dinodes == s.now.inodes
      requires off + |src| <= MAXFILE * BSIZE && lo == off / BSIZE && hi == BlockEnd(off, |src|)
      requires At() in AfterBlocks(sb, s, i, lo, hi)
      modifies this`inodes, this`dinodes, this`logged
      ensures dinodes == inodes && At() in AfterWrite(sb, s, i, off, src)
    {
      ghost var u := At();
      WritingInodes(sb, s, u, i, off, src, |src|);
      UpdateSize(i, |src|, off + |src|);
      WriteEnds(sb, s, u, At(), i, off, src, off + |src|, lo, hi);
    }

    /** writei's last step: the inode on the disk is again the one in memory. */
    method UpdateSize(i: nat, n: nat, off: nat)
      requires i in inodes && dinodes.Keys == inodes.Keys && (off > inodes[i].size ==> n > 0)
      requires forall j | j in inodes && j != i :: dinodes[j] == inodes[j]
      requires off <= inodes[i].size ==> dinodes == inodes
      modifies this`inodes, this`dinodes, this`logged
      ensures dinodes == inodes
      ensures i in inodes
      ensures logged == if off > old(inodes[i].size) then old(logged) + [Dinode(i, inodes[i])] else old(logged)
      ensures Now() == Resized(old(Now()), i, Longer(off, old(inodes[i].size)))
    {
      if n > 0 && off > inodes[i].size {
        inodes := inodes[i := inodes[i].(size := off)];
        Iupdate(i);
      }
    }

    /** writei, on a file that is not a device: r is -1, and nothing changes, when off lies past the
        end or the write would pass the largest file; otherwise src is spliced in at off and r is
        its length. ok is false, where balloc panics, exactly when too few blocks are free. */
    method Writei(i: nat, src: seq<Byte>, off: nat) returns (ok: bool, r: int)
      requires Valid() && i in inodes && |src| < UINT && off < UINT
      modifies this`blocks, this`inodes, this`dinodes, this`owner, this`logged
      ensures ok <==> Refused(old(Now()), i, off, |src|) || Enough(sb, old(Now()), i, off / BSIZE, BlockEnd(off, |src|))
      ensures !ok ==> At() in AfterRunningOut(sb, old(At()), i, off / BSIZE, BlockEnd(off, |src|))
      ensures ok ==> Valid() && (r == -1 <==> Refused(old(Now()), i, off, |src|))
      ensures ok && r == -1 ==> Now() == old(Now()) && dinodes == old(dinodes) && logged == old(logged)
      ensures ok && r != -1 ==> r == |src| && At() in AfterWrite(sb, old(At()), i, off, src)
      ensures ok ==> i in inodes && |inodes[i].addrs| == NDIRECT + 1
      ensures ok && r != -1 ==>
                && Altered(old(Content(blocks, inodes[i])), off, src, Content(blocks, inodes[i]))
                && OthersSame(old(Now()), Now(), i)
    {
      var n := |src|;
      Wraps(off, n);
      if off > inodes[i].size || (off + n) % UINT < off {
        return true, -1;
      }
      if (off + n) % UINT > MAXFILE * BSIZE {
        return true, -1;
      }
      ghost var s := At();
      ok := WriteAll(i, src, off, off / BSIZE, BlockEnd(off, n));
      r := n;
      if ok {
        AfterWriteSound(sb, s, At(), i, off, src);
        SpliceAlters(Content(s.now.blocks, s.now.inodes[i]), off, src);
      }
    }

    /** iupdate: write the in-memory inode through to its inode block. */
    method Iupdate(i: nat)
      requires i in inodes
      modifies this`dinodes, this`logged
      ensures dinodes == old(dinodes)[i := inodes[i]] && logged == old(logged) + [Dinode(i, inodes[i])]
    {
      dinodes := dinodes[i := inodes[i]];
      logged := logged + [Dinode(i, inodes[i])];
    }

    /** One turn of readi's loop. */
    method ReadBlock(i: nat, off: nat, left: nat) returns (part: seq<Byte>)
      requires Valid() && i in inodes && off + left <= inodes[i].size && left > 0
      modifies this`blocks, this`inodes, this`owner, this`logged
      ensures Now() == old(Now()) && logged == old(logged)
      ensures |part| == PartSize(left, off) && part == Content(blocks, inodes[i])[off..off + PartSize(left, off)]
    {
      ghost var s, bn := Now(), off / BSIZE;
      var addr := ReadAt(i, off, bn);
      var m := PartSize(left, off);
      PartRead(s, i, off, bn, m, addr);
      part := blocks[addr][off % BSIZE..off % BSIZE + m];
    }

    /** Its bmap, which allocates nothing. */
    method ReadAt(i: nat, off: nat, ghost bn: nat) returns (addr: nat)
      requires Valid() && i in inodes && off < inodes[i].size && bn == off / BSIZE
      modifies this`blocks, this`inodes, this`owner, this`logged
      ensures At() == old(At()) && SlotRef(blocks, inodes, Slot(i, SlotOf(bn))) == addr < |blocks|
    {
      ReadFilled(sb, Now(), i, off, bn);
      var ok;
      ok, addr := Bmap(i, off / BSIZE);
    }

    /** readi's loop. */
    method ReadBlocks(i: nat, off0: nat, n: nat) returns (dst: seq<Byte>)
      requires Valid() && i in inodes && off0 + n <= inodes[i].size
      modifies this`blocks, this`inodes, this`owner, this`logged
      ensures Now() == old(Now()) && logged == old(logged) && dst == Content(blocks, inodes[i])[off0..off0 + n]
    {
      ghost var c := Content(blocks, inodes[i]);
      var off, tot := off0, 0;
      dst := [];
      while tot < n
        invariant Now() == old(Now()) && logged == old(logged)
        invariant tot <= n && off == off0 + tot && dst == c[off0..off]
      {
        var part := ReadBlock(i, off, n - tot);
        assert c[off0..off] + c[off..off + |part|] == c[off0..off + |part|];
        dst := dst + part;
        tot, off := tot + |part|, off + |part|;
      }
    }

    /** readi, on a file that is not a device: exactly the file's bytes from off on, at most n of
        them, or -1 for an offset past the end; it allocates nothing. */
    method Readi(i: nat, off: nat, n: nat) returns (r: int, dst: seq<Byte>)
      requires Valid() && i in inodes && n < UINT && off < UINT
      modifies this`blocks, this`inodes, this`owner, this`logged
      ensures Now() == old(Now()) && logged == old(logged)
      ensures r == -1 <==> off > inodes[i].size || off + n >= UINT
      ensures r != -1 ==>
                var c := Content(blocks, inodes[i]);
                r == |dst| && dst == c[off..if off + n < |c| then off + n else |c|]
    {
      Wraps(off, n);
      if off > inodes[i].size || (off + n) % UINT < off {
        return -1, [];
      }
      var len := if (off + n) % UINT > inodes[i].size then inodes[i].size - off else n;
      dst := ReadBlocks(i, off, len);
      r := len;
    }

    /** One turn of itrunc's first loop. */
    method TruncSlot(i: nat, k: nat) returns (ok: bool)
      requires SoundBut(sb, Now(), i) && i in inodes && k < NDIRECT
      modifies this`blocks, this`inodes, this`owner, this`logged
      ensures ok && SoundBut(sb, Now(), i) && Shrunk(old(Now()), Now(), i)
      ensures inodes[i].addrs == old(inodes[i].addrs)[k := 0] && Logs(sb, old(blocks), old(logged), blocks, logged)
    {
      ghost var s := Now();
      var b := inodes[i].addrs[k];
      ok := true;
      if b != 0 {
        assert SlotRef(blocks, inodes, Slot(i, k)) == b;
        ok := Bfree(b);
        if ok {
          FreedDirect(sb, s, blocks, i, k);
          inodes := inodes[i := inodes[i].(addrs := inodes[i].addrs[k := 0])];
          owner := owner - {b};
        }
      }
    }

    /** itrunc's first loop: free the direct blocks. */
    method TruncDirect(i: nat) returns (ok: bool)
      requires Sound(sb, Now()) && i in inodes
      modifies this`blocks, this`inodes, this`owner, this`logged
      ensures ok && SoundBut(sb, Now(), i) && Shrunk(old(Now()), Now(), i)
      ensures (forall k | 0 <= k < NDIRECT :: inodes[i].addrs[k] == 0)
              && Logs(sb, old(blocks), old(logged), blocks, logged)
    {
      var k := 0;
      ok := true;
      while k < NDIRECT && ok
        invariant 0 <= k <= NDIRECT && ok
        invariant SoundBut(sb, Now(), i) && Shrunk(old(Now()), Now(), i)
        invariant (forall l | 0 <= l < k :: inodes[i].addrs[l] == 0)
                  && Logs(sb, old(blocks), old(logged), blocks, logged)
      {
        ghost var s, l := Now(), logged;
        ok := TruncSlot(i, k);
        ShrunkTwice(old(Now()), s, Now(), i);
        LogsTwice(sb, old(blocks), old(logged), s.blocks, l, blocks, logged);
        k := k + 1;
      }
    }

    /** itrunc's second part: free the blocks of the indirect block, then the indirect block. */
    method TruncIndirect(i: nat) returns (ok: bool)
      requires SoundBut(sb, Now(), i) && i in inodes
      modifies this`blocks, this`logged
      ensures ok && Geometry(sb, blocks) && Logs(sb, old(blocks), old(logged), blocks, logged)
      ensures UsedSet(sb, blocks) == old(UsedSet(sb, blocks)) - old(IndirectBlocks(Now(), i))
      ensures forall c | sb.datastart <= c < sb.size :: blocks[c] == old(blocks[c])
    {
      var ind := inodes[i].addrs[NDIRECT];
      assert SlotRef(blocks, inodes, Slot(i, NDIRECT)) == ind;
      if ind == 0 {
        return true;
      }
      ghost var s := Now();
      var j := 0;
      while j < NINDIRECT
        invariant 0 <= j <= NINDIRECT && Geometry(sb, blocks) && Logs(sb, old(blocks), old(logged), blocks, logged)
        invariant UsedSet(sb, blocks) == UsedSet(sb, s.blocks) - Entries(s.blocks[ind], j)
        invariant forall c | sb.datastart <= c < sb.size :: blocks[c] == s.blocks[c]
      {
        var a := Word(blocks[ind], j);
        if a != 0 {
          EntryFresh(sb, s, i, j);
          ghost var b1, l1 := blocks, logged;
          ok := Bfree(a);
          if !ok {
            return;
          }
          LogsTwice(sb, old(blocks), old(logged), b1, l1, blocks, logged);
        }
        assert Entries(s.blocks[ind], j + 1) == Entries(s.blocks[ind], j) + if a != 0 then {a} else {};
        j := j + 1;
      }
      IndirectFresh(sb, s, i);
      ghost var b1, l1 := blocks, logged;
      ok := Bfree(ind);
      LogsTwice(sb, old(blocks), old(logged), b1, l1, blocks, logged);
    }

    /** itrunc's two parts; s is the state between them. */
    method TruncBlocks(i: nat) returns (ok: bool, ghost s: State)
      requires Sound(sb, Now()) && i in inodes
      modifies this`blocks, this`inodes, this`owner, this`logged
      ensures ok && SoundBut(sb, s, i) && Shrunk(old(Now()), s, i) && inodes == s.inodes && owner == s.owner
      ensures (forall k | 0 <= k < NDIRECT :: inodes[i].addrs[k] == 0) && Geometry(sb, blocks)
      ensures UsedSet(sb, blocks) == UsedSet(sb, s.blocks) - IndirectBlocks(s, i)
      ensures forall c | sb.datastart <= c < sb.size :: blocks[c] == s.blocks[c]
      ensures Logs(sb, old(blocks), old(logged), blocks, logged)
    {
      ok := TruncDirect(i);
      s := Now();
      if !ok {
        return;
      }
      ghost var l := logged;
      ok := TruncIndirect(i);
      LogsTwice(sb, old(blocks), old(logged), s.blocks, l, blocks, logged);
    }

    /** itrunc: every block of the file is freed, none of them twice, and the file is empty; the
        other files keep their blocks and contents. ok, false where bfree panics, is always true. */
    method Itrunc(i: nat) returns (ok: bool)
      requires Valid() && i in inodes
      modifies this`blocks, this`inodes, this`dinodes, this`owner, this`logged
      ensures ok && Valid() && inodes == old(inodes)[i := EmptyInode]
      ensures Content(blocks, inodes[i]) == [] && OthersSame(old(Now()), Now(), i)
      ensures UsedSet(sb, blocks) == Metadata(sb) + old(Without(owner, i)).Keys
      ensures Logged(sb, old(At()), At(), BitmapLength(sb) + 1)
    {
      ghost var s0 := At();
      ghost var s;
      ok, s := TruncBlocks(i);
      if !ok {
        return;
      }
      inodes := inodes[i := Inode(0, seq(NDIRECT + 1, _ => 0))];
      owner := Without(owner, i);
      ghost var u := At();
      Iupdate(i);
      TruncEnds(sb, s0.now, s, Now(), i);
      TruncLogged(sb, s0, u, At(), i, inodes[i]);
    }
  }
}
