/** The free bitmap's bit operations on bytes and blocks (kernel/fs/fs.c balloc and bfree). */
module Bits {
  import opened Params
  import opened Words

  /** `(x & (1 << k)) != 0` */
  predicate HasBit(x: nat, k: nat)
    decreases k
  {
    if k == 0 then x % 2 == 1 else HasBit(x / 2, k - 1)
  }

  /** `x | (1 << k)` when `on`, `x & ~(1 << k)` when not. */
  function PutBit(x: nat, k: nat, on: bool): (r: nat)
    decreases k
  {
    if k == 0 then x - x % 2 + (if on then 1 else 0) else x % 2 + 2 * PutBit(x / 2, k - 1, on)
  }

  lemma {:induction false} PutBitReads(x: nat, k: nat, on: bool, j: nat)
    ensures HasBit(PutBit(x, k, on), j) == if j == k then on else HasBit(x, j)
    decreases k
  {
    if k > 0 && j > 0 {
      PutBitReads(x / 2, k - 1, on, j - 1);
    }
  }

  function Pow2(w: nat): (r: nat) {
    if w == 0 then 1 else 2 * Pow2(w - 1)
  }

  lemma {:induction false} PutBitFits(x: nat, k: nat, on: bool, w: nat)
    requires x < Pow2(w) && k < w
    ensures PutBit(x, k, on) < Pow2(w)
    decreases k
  {
    var q, h := Pow2(w - 1), x / 2;
    assert x == 2 * h + x % 2 && h < q;
    if k > 0 {
      PutBitFits(h, k - 1, on, w - 1);
    }
  }

  lemma PutBitByte(x: nat, k: nat, on: bool)
    requires x < 256 && k < 8
    ensures PutBit(x, k, on) < 256
  {
    assert Pow2(8) == 256 by {
      assert Pow2(4) == 16;
    }
    PutBitFits(x, k, on, 8);
  }

  /** Bit `i` of a bitmap block. */
  predicate BitAt(b: Block, i: nat)
    requires i < BPB
  {
    HasBit(b[i / 8], i % 8)
  }

  function WithBit(b: Block, i: nat, on: bool): (r: Block)
    requires i < BPB
  {
    PutBitByte(b[i / 8], i % 8, on);
    b[i / 8 := PutBit(b[i / 8], i % 8, on)]
  }

  lemma WithBitReads(b: Block, i: nat, on: bool, j: nat)
    requires i < BPB && j < BPB
    ensures BitAt(WithBit(b, i, on), j) == if i == j then on else BitAt(b, j)
  {
    PutBitReads(b[i / 8], i % 8, on, j % 8);
  }
}
