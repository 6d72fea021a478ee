/** Disk blocks as byte sequences, and the 32-bit little-endian words the kernel reads and writes in them
    when it casts `bp->data` to `uint *` or `struct logheader *`. */
module Words {
  import opened Params

  type Byte = x: int | 0 <= x < 256
  type Block = b: seq<Byte> | |b| == BSIZE witness seq(BSIZE, _ => 0)
  type Uint = x: int | 0 <= x < WORD

  function ZeroBlock(): (r: Block) {
    seq(BSIZE, _ => 0)
  }

  function Word(b: Block, i: nat): (r: Uint)
    requires i < BSIZE / 4
  {
    var b0: int, b1: int, b2: int, b3: int := b[4 * i], b[4 * i + 1], b[4 * i + 2], b[4 * i + 3];
    b0 + 0x100 * b1 + 0x1_0000 * b2 + 0x100_0000 * b3
  }

  function PutWord(b: Block, i: nat, v: Uint): (r: Block)
    requires i < BSIZE / 4
  {
    var v1 := v / 0x100;
    var v2 := v1 / 0x100;
    b[4 * i := v % 0x100][4 * i + 1 := v1 % 0x100][4 * i + 2 := v2 % 0x100][4 * i + 3 := v2 / 0x100]
  }

  /** Storing a word reads back as stored and leaves every other word of the block alone. */
  lemma PutWordReads(b: Block, i: nat, v: Uint, j: nat)
    requires i < BSIZE / 4 && j < BSIZE / 4
    ensures Word(PutWord(b, i, v), j) == if i == j then v else Word(b, j)
  {
  }

  lemma ZeroBlockReads(i: nat)
    requires i < BSIZE / 4
    ensures Word(ZeroBlock(), i) == 0
  {
  }
}
