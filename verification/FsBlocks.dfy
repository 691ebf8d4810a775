/** Blocks as fs.c sees them: 512 bytes, read as file data, as bitmap bits or as the
    little-endian block numbers of an indirect block. */
module FsBlocks {
  import opened Common

  const BSIZE: nat := 512
  const BPB: nat := BSIZE * 8          // bitmap bits per block
  const NINDIRECT: nat := BSIZE / 4

  type Block = b: seq<Byte> | |b| == BSIZE witness seq(BSIZE, _ => 0)

  const ZeroBlock: Block := seq(BSIZE, _ => 0)

  // ---------------------------------------------------------------- words

  function Word(b: Block, i: nat): (w: nat)
    requires i < NINDIRECT
    ensures w < UINT
  {
    var b0: nat, b1: nat, b2: nat, b3: nat := b[4 * i], b[4 * i + 1], b[4 * i + 2], b[4 * i + 3];
    b0 + 0x100 * b1 + 0x1_0000 * b2 + 0x100_0000 * b3
  }

  function WithWord(b: Block, i: nat, w: nat): Block
    requires i < NINDIRECT && w < UINT
  {
    b[..4 * i] + [w % 0x100, w / 0x100 % 0x100, w / 0x1_0000 % 0x100, w / 0x100_0000] + b[4 * i + 4..]
  }

  lemma WordWritten(b: Block, i: nat, w: nat, j: nat)
    requires i < NINDIRECT && w < UINT && j < NINDIRECT
    ensures Word(WithWord(b, i, w), j) == if j == i then w else Word(b, j)
  {
    var c := WithWord(b, i, w);
    if j == i {
      Digits(w);
    } else {
      assert c[4 * j] == b[4 * j] && c[4 * j + 1] == b[4 * j + 1];
      assert c[4 * j + 2] == b[4 * j + 2] && c[4 * j + 3] == b[4 * j + 3];
    }
  }

  // ---------------------------------------------------------------- bits

  function Pow2(w: nat): (p: nat)
    ensures p > 0
  {
    if w == 0 then 1 else 2 * Pow2(w - 1)
  }

  /** Bit k of x, the value of x & 1 << k. */
  predicate Bit(x: nat, k: nat) {
    if k == 0 then x % 2 == 1 else Bit(x / 2, k - 1)
  }

  /** The w-bit number x with bit k turned on or off. */
  function Flip(x: nat, k: nat, on: bool, w: nat): (r: nat)
    requires k < w && x < Pow2(w)
    ensures r < Pow2(w)
  {
    if k == 0 then x - x % 2 + (if on then 1 else 0) else 2 * Flip(x / 2, k - 1, on, w - 1) + x % 2
  }

  lemma {:induction false} Flipped(x: nat, k: nat, on: bool, w: nat, j: nat)
    requires k < w && x < Pow2(w)
    ensures Bit(Flip(x, k, on, w), j) == if j == k then on else Bit(x, j)
  {
    if k > 0 && j > 0 {
      Flipped(x / 2, k - 1, on, w - 1, j - 1);
    }
  }

  // ---------------------------------------------------------------- bitmap blocks

  predicate BlockBit(b: Block, i: nat)
    requires i < BPB
  {
    Bit(b[i / 8], i % 8)
  }

  /** bp->data[i/8] |= 1 << i%8, or &= ~(1 << i%8). */
  function WithBit(b: Block, i: nat, on: bool): Block
    requires i < BPB
  {
    b[i / 8 := Flip(b[i / 8], i % 8, on, 8)]
  }

  lemma BitWritten(b: Block, i: nat, on: bool, j: nat)
    requires i < BPB && j < BPB
    ensures BlockBit(WithBit(b, i, on), j) == if j == i then on else BlockBit(b, j)
  {
    Flipped(b[i / 8], i % 8, on, 8, j % 8);
  }

  // ---------------------------------------------------------------- the encodings

  /** Words are little-endian. */
  lemma LittleEndian(b: Block, i: nat, w: nat)
    requires i < NINDIRECT && w < UINT
    ensures var p := WithWord(b, i, w);
            && p[4 * i] as int + 256 * (p[4 * i + 1] as int) + 65536 * (p[4 * i + 2] as int)
                 + 16777216 * (p[4 * i + 3] as int) == w
            && forall k | 0 <= k < BSIZE && !(4 * i <= k < 4 * i + 4) :: p[k] == b[k]
    ensures Word(b, i) == b[4 * i] as int + 256 * (b[4 * i + 1] as int) + 65536 * (b[4 * i + 2] as int)
                          + 16777216 * (b[4 * i + 3] as int)
  {
    Digits(w);
  }

  lemma Powers()
    ensures Pow2(0) == 1 && Pow2(1) == 2 && Pow2(2) == 4 && Pow2(3) == 8
    ensures Pow2(4) == 16 && Pow2(5) == 32 && Pow2(6) == 64 && Pow2(7) == 128
  {
    assert Pow2(2) == 4;
    assert Pow2(4) == 16;
    assert Pow2(6) == 64;
  }

  lemma Halves(x: nat, k: nat)
    requires 1 <= k < 8
    ensures x / 2 / Pow2(k - 1) == x / Pow2(k)
  {
    Powers();
    assert x / 2 / 1 == x / 2 && x / 2 / 2 == x / 4;
    assert x / 2 / 4 == x / 8 && x / 2 / 8 == x / 16;
    assert x / 2 / 16 == x / 32 && x / 2 / 32 == x / 64;
    assert x / 2 / 64 == x / 128;
  }

  lemma {:induction false} BitIs(x: nat, k: nat)
    requires k < 8
    ensures Bit(x, k) <==> x / Pow2(k) % 2 == 1
  {
    if k > 0 {
      BitIs(x / 2, k - 1);
      Halves(x, k);
    }
  }

  /** Bit i of a block is bit i mod 8, from the low end, of its byte i / 8, and writing it touches no other byte. */
  lemma BlockBitIs(b: Block, i: nat, on: bool)
    requires i < BPB
    ensures BlockBit(b, i) <==> b[i / 8] / Pow2(i % 8) % 2 == 1
    ensures forall k | 0 <= k < BSIZE && k != i / 8 :: WithBit(b, i, on)[k] == b[k]
  {
    BitIs(b[i / 8], i % 8);
  }
}
