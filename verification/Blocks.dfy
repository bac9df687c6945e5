/** Disk blocks as bytes, with the three ways the kernel reads them: as
    little-endian 32-bit words, as a bit map, and as plain bytes. */
module Blocks {
  const BSIZE := 512
  const WORDS := 128

  type Byte = b: int | 0 <= b < 256
  type Word32 = w: int | 0 <= w < 0x1_0000_0000
  type Block = s: seq<Byte> | |s| == BSIZE witness seq(BSIZE, i => 0)

  function ZeroBlock(): (z: Block)
    ensures forall i :: 0 <= i < BSIZE ==> z[i] == 0
  {
    seq(BSIZE, i => 0)
  }

  // ---- 32-bit words ----

  function Pow256(n: nat): (p: nat)
    ensures p >= 1
  {
    if n == 0 then 1 else 256 * Pow256(n - 1)
  }

  /** The `n` bytes from `at` on, little-endian. */
  function Pack(b: Block, at: nat, n: nat): (w: nat)
    requires at + n <= BSIZE
    ensures w < Pow256(n)
    decreases n
  {
    if n == 0 then 0 else b[at] + 256 * Pack(b, at + 1, n - 1)
  }

  /** `b` with the `n` bytes from `at` on holding `w`. */
  function Unpack(b: Block, at: nat, n: nat, w: nat): (r: Block)
    requires at + n <= BSIZE
    ensures forall i :: 0 <= i < BSIZE && !(at <= i < at + n) ==> r[i] == b[i]
    decreases n
  {
    if n == 0 then b else Unpack(b[at := w % 256], at + 1, n - 1, w / 256)
  }

  lemma {:induction false} PackOfUnpack(b: Block, at: nat, n: nat, w: nat)
    requires at + n <= BSIZE && w < Pow256(n)
    ensures Pack(Unpack(b, at, n, w), at, n) == w
    decreases n
  {
    if n > 0 {
      PackOfUnpack(b[at := w % 256], at + 1, n - 1, w / 256);
    }
  }

  lemma {:induction false} PackSame(b: Block, c: Block, at: nat, n: nat)
    requires at + n <= BSIZE
    requires forall i :: at <= i < at + n ==> b[i] == c[i]
    ensures Pack(b, at, n) == Pack(c, at, n)
    decreases n
  {
    if n > 0 { PackSame(b, c, at + 1, n - 1); }
  }

  const WORDSIZE: nat := 4

  lemma Pow256Word()
    ensures Pow256(WORDSIZE) == 0x1_0000_0000
  {
    assert Pow256(2) == 0x1_0000;
  }

  function Word(b: Block, i: nat): (w: Word32)
    requires i < WORDS
  {
    Pow256Word();
    Pack(b, 4 * i, WORDSIZE)
  }

  function PutWord(b: Block, i: nat, w: Word32): (r: Block)
    requires i < WORDS
  {
    Unpack(b, 4 * i, WORDSIZE, w)
  }

  /** Storing word `i` and reading word `j` back: the stored value, or the old word. */
  lemma WordOfPutWord(b: Block, i: nat, w: Word32, j: nat)
    requires i < WORDS && j < WORDS
    ensures Word(PutWord(b, i, w), j) == if i == j then w else Word(b, j)
  {
    Pow256Word();
    if i == j {
      PackOfUnpack(b, 4 * i, WORDSIZE, w);
    } else {
      PackSame(b, PutWord(b, i, w), 4 * j, WORDSIZE);
    }
  }

  /** The `n` words from `at` on. */
  function WordsIn(b: Block, at: nat, n: nat): (ws: seq<Word32>)
    requires at + n <= WORDS
    ensures |ws| == n && forall k :: 0 <= k < n ==> ws[k] == Word(b, at + k)
  {
    if n == 0 then [] else WordsIn(b, at, n - 1) + [Word(b, at + n - 1)]
  }

  /** Words `at`, `at + 1`, ... overwritten with `ws`. */
  function PutWords(b: Block, at: nat, ws: seq<Word32>): (r: Block)
    requires at + |ws| <= WORDS
  {
    if ws == [] then b
    else PutWord(PutWords(b, at, ws[..|ws| - 1]), at + |ws| - 1, ws[|ws| - 1])
  }

  lemma {:induction false} WordOfPutWords(b: Block, at: nat, ws: seq<Word32>, i: nat)
    requires at + |ws| <= WORDS && i < WORDS
    ensures Word(PutWords(b, at, ws), i) == if at <= i < at + |ws| then ws[i - at] else Word(b, i)
  {
    if ws != [] {
      var n := |ws| - 1;
      WordOfPutWords(b, at, ws[..n], i);
      WordOfPutWord(PutWords(b, at, ws[..n]), at + n, ws[n], i);
    }
  }

  lemma {:induction false} PackZero(b: Block, at: nat, n: nat)
    requires at + n <= BSIZE && forall i :: at <= i < at + n ==> b[i] == 0
    ensures Pack(b, at, n) == 0
    decreases n
  {
    if n > 0 { PackZero(b, at + 1, n - 1); }
  }

  lemma ZeroWord(i: nat)
    requires i < WORDS
    ensures Word(ZeroBlock(), i) == 0
  {
    PackZero(ZeroBlock(), 4 * i, WORDSIZE);
  }

  // ---- bits ----

  const BPB := 4096

  /** Bit `k` of `x`: shift right `k` times and look at the low bit. */
  predicate ByteBit(x: nat, k: nat) {
    if k == 0 then x % 2 == 1 else ByteBit(x / 2, k - 1)
  }

  /** `x` with bit `k` set to `v`. */
  function PutByteBit(x: nat, k: nat, v: bool): (y: nat) {
    if k == 0 then 2 * (x / 2) + (if v then 1 else 0)
    else 2 * PutByteBit(x / 2, k - 1, v) + x % 2
  }

  lemma {:induction false} ByteBitOfPut(x: nat, k: nat, v: bool, j: nat)
    ensures ByteBit(PutByteBit(x, k, v), j) == if j == k then v else ByteBit(x, j)
  {
    if k > 0 && j > 0 {
      ByteBitOfPut(x / 2, k - 1, v, j - 1);
      assert PutByteBit(x, k, v) / 2 == PutByteBit(x / 2, k - 1, v);
    }
  }

  /** `x` has at most `n` bits. */
  predicate Bits(x: nat, n: nat) {
    if n == 0 then x == 0 else Bits(x / 2, n - 1)
  }

  lemma {:induction false} PutByteBitKeepsBits(x: nat, k: nat, v: bool, n: nat)
    requires k < n && Bits(x, n)
    ensures Bits(PutByteBit(x, k, v), n)
  {
    assert PutByteBit(x, k, v) / 2 == if k == 0 then x / 2 else PutByteBit(x / 2, k - 1, v);
    if k > 0 { PutByteBitKeepsBits(x / 2, k - 1, v, n - 1); }
  }

  lemma BytesHave8Bits(x: nat)
    ensures x < 256 <==> Bits(x, 8)
  {
    var x1 := x / 2; var x2 := x1 / 2; var x3 := x2 / 2; var x4 := x3 / 2;
    var x5 := x4 / 2; var x6 := x5 / 2; var x7 := x6 / 2;
    assert Bits(x7, 1) <==> x7 < 2;
    assert Bits(x6, 2) <==> x6 < 4;
    assert Bits(x5, 3) <==> x5 < 8;
    assert Bits(x4, 4) <==> x4 < 16;
    assert Bits(x3, 5) <==> x3 < 32;
    assert Bits(x2, 6) <==> x2 < 64;
    assert Bits(x1, 7) <==> x1 < 128;
  }

  predicate Bit(b: Block, i: nat)
    requires i < BPB
  {
    ByteBit(b[i / 8], i % 8)
  }

  /** `b` with bit `i` set to `v`. */
  function PutBit(b: Block, i: nat, v: bool): (r: Block)
    requires i < BPB
  {
    var x := b[i / 8];
    BytesHave8Bits(x);
    PutByteBitKeepsBits(x, i % 8, v, 8);
    BytesHave8Bits(PutByteBit(x, i % 8, v));
    b[i / 8 := PutByteBit(x, i % 8, v)]
  }

  /** Writing bit `i` and reading bit `j` back: the written value, or the old bit. */
  lemma BitOfPutBit(b: Block, i: nat, v: bool, j: nat)
    requires i < BPB && j < BPB
    ensures Bit(PutBit(b, i, v), j) == if j == i then v else Bit(b, j)
  {
    ByteBitOfPut(b[i / 8], i % 8, v, j % 8);
    assert j == 8 * (j / 8) + j % 8;
  }
}
