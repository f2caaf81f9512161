/** Disk blocks as raw bytes, with the two typed readings xv6 uses:
    little-endian 32-bit words (log headers, indirect blocks) and bits (the free map). */
module Disk {

  const BSIZE := 512
  const WORDS := 128  // 32-bit words per block

  type byte = x: int | 0 <= x < 256
  type word = x: int | 0 <= x < 0x1_0000_0000

  /** One disk block; the disk transfers and writes it as a unit. */
  type Block = b: seq<byte> | |b| == BSIZE witness seq(BSIZE, (_: nat) => 0)

  const ZeroByte: byte := 0

  function ZeroBlock(): (b: Block)
    ensures forall i | 0 <= i < BSIZE :: b[i] == 0
  {
    seq(BSIZE, (_: nat) => ZeroByte)
  }

  /** The j-th little-endian word of a block, as `((uint*)data)[j]` reads it. */
  function Word(b: Block, j: nat): (w: word)
    requires j < WORDS
  {
    var b0: int, b1: int, b2: int, b3: int := b[4*j], b[4*j+1], b[4*j+2], b[4*j+3];
    b0 + 256 * b1 + 65536 * b2 + 16777216 * b3
  }

  function SetWord(b: Block, j: nat, w: word): (r: Block)
    requires j < WORDS
  {
    b[4*j := w % 256][4*j+1 := w / 256 % 256][4*j+2 := w / 65536 % 256][4*j+3 := w / 16777216]
  }

  /** The number in len little-endian bytes at position k. */
  function LittleEndian(b: Block, k: nat, len: nat): (n: nat)
    requires k + len <= BSIZE
    decreases len
  {
    if len == 0 then 0 else (b[k] as int) + 256 * LittleEndian(b, k + 1, len - 1)
  }

  /** A word is its four bytes, least significant first. */
  lemma {:induction false} WordBytes(b: Block, j: nat)
    requires j < WORDS
    ensures Word(b, j) == LittleEndian(b, 4 * j, 4)
    ensures Word(b, j) % 0x10000 == LittleEndian(b, 4 * j, 2) && Word(b, j) / 0x10000 == LittleEndian(b, 4 * j + 2, 2)
  {
    var k := 4 * j;
    assert LittleEndian(b, k + 3, 1) == b[k + 3] as int;
    assert LittleEndian(b, k + 2, 2) == (b[k + 2] as int) + 256 * LittleEndian(b, k + 3, 1);
    assert LittleEndian(b, k + 1, 1) == b[k + 1] as int;
    assert LittleEndian(b, k + 1, 3) == (b[k + 1] as int) + 256 * LittleEndian(b, k + 2, 2);
    assert LittleEndian(b, k, 2) == (b[k] as int) + 256 * LittleEndian(b, k + 1, 1);
  }

  /** Storing a word changes that word and no other. */
  lemma {:induction false} WordAfterSet(b: Block, j: nat, w: word, k: nat)
    requires j < WORDS && k < WORDS
    ensures Word(SetWord(b, j, w), k) == if k == j then w else Word(b, k)
  {
    var r := SetWord(b, j, w);
    if k == j {
      SplitWord(w);
      assert r[4*j] == w % 256 && r[4*j+1] == w / 256 % 256;
      assert r[4*j+2] == w / 65536 % 256 && r[4*j+3] == w / 16777216;
    } else {
      assert forall i | 4*k <= i < 4*k + 4 :: r[i] == b[i];
    }
  }

  lemma {:induction false} SplitWord(w: word)
    ensures w == w % 256 + 256 * (w / 256 % 256) + 65536 * (w / 65536 % 256) + 16777216 * (w / 16777216)
  {
    var a := w / 256;
    var c := w / 65536;
    assert a / 256 == c && c / 256 == w / 16777216;
  }

  lemma {:induction false} ZeroWord(j: nat)
    requires j < WORDS
    ensures Word(ZeroBlock(), j) == 0
  {
  }

  /** Bit k of a number; a byte has bits 0 to 7. */
  predicate Bit(x: nat, k: nat)
    decreases k
  {
    if k == 0 then x % 2 == 1 else Bit(x / 2, k - 1)
  }

  function Pow2(k: nat): (n: nat)
    ensures n > 0
  {
    if k == 0 then 1 else 2 * Pow2(k - 1)
  }

  lemma {:induction false} BitIsDigit(x: nat, k: nat)
    ensures Bit(x, k) <==> x / Pow2(k) % 2 == 1
    decreases k
  {
    if k > 0 {
      BitIsDigit(x / 2, k - 1);
      Halves(x, Pow2(k - 1));
    }
  }

  lemma {:induction false} Halves(x: nat, m: nat)
    requires m > 0
    ensures x / (2 * m) == x / 2 / m
  {
    var q, d := x / 2 / m, x / (2 * m);
    var r, s := 2 * (x / 2 % m) + x % 2, x % (2 * m);
    assert x == q * (2 * m) + r;
    assert x == d * (2 * m) + s;
    Unique(2 * m, q, r, d, s);
  }

  lemma {:induction false} Unique(m: nat, q: nat, r: nat, d: nat, s: nat)
    requires r < m && s < m && q * m + r == d * m + s
    ensures d == q
  {
    if d > q {
      Multiples(m, q, d);
    } else if d < q {
      Multiples(m, d, q);
    }
  }

  lemma {:induction false} Multiples(m: nat, q: nat, d: nat)
    requires q < d
    ensures q * m + m <= d * m
    decreases d
  {
    if q + 1 < d {
      Multiples(m, q, d - 1);
    }
    assert d * m == (d - 1) * m + m;
  }

  /** The w-bit number with bit k set (`x | 1 << k`) or cleared (`x & ~(1 << k)`). */
  function PutBit(x: nat, k: nat, on: bool, w: nat): (r: nat)
    requires k < w && x < Pow2(w)
    ensures r < Pow2(w)
    decreases k
  {
    if k == 0 then x - x % 2 + (if on then 1 else 0)
    else 2 * PutBit(x / 2, k - 1, on, w - 1) + x % 2
  }

  /** Putting bit k changes that bit and no other. */
  lemma {:induction false} BitAfterPut(x: nat, k: nat, on: bool, w: nat, j: nat)
    requires k < w && x < Pow2(w)
    ensures Bit(PutBit(x, k, on, w), j) == if j == k then on else Bit(x, j)
    decreases k
  {
    var r := PutBit(x, k, on, w);
    if k == 0 {
      assert r / 2 == x / 2;
    } else {
      var h := PutBit(x / 2, k - 1, on, w - 1);
      assert r / 2 == h && r % 2 == x % 2;
      if j > 0 {
        BitAfterPut(x / 2, k - 1, on, w - 1, j - 1);
      }
    }
  }

  /** Bit i of the free map held in a block: `data[i/8] & (1 << i%8)`. */
  predicate MapBit(b: Block, i: nat)
    requires i < 8 * BSIZE
  {
    Bit(b[i / 8], i % 8)
  }

  lemma {:induction false} MapBitDigit(b: Block, i: nat)
    requires i < 8 * BSIZE
    ensures MapBit(b, i) <==> b[i / 8] / Pow2(i % 8) % 2 == 1
  {
    hide Bit, Pow2;
    BitIsDigit(b[i / 8], i % 8);
  }

  function SetMapBit(b: Block, i: nat, on: bool): (r: Block)
    requires i < 8 * BSIZE
  {
    assert Pow2(8) == 256;
    b[i / 8 := PutBit(b[i / 8], i % 8, on, 8)]
  }

  /** Marking one block in the free map leaves every other block's mark alone. */
  lemma {:induction false} MapBitAfterSet(b: Block, i: nat, on: bool, j: nat)
    requires i < 8 * BSIZE && j < 8 * BSIZE
    ensures MapBit(SetMapBit(b, i, on), j) == if j == i then on else MapBit(b, j)
  {
    assert Pow2(8) == 256;
    BitAfterPut(b[i / 8], i % 8, on, 8, j % 8);
  }
}
