/** The file system as blocks on a disk: the inodes in their blocks, everything else as it is. */
module DiskImage {
  import opened Params
  import opened Words
  import opened Crash
  import opened Inodes

  /** How a block of inodes looks on disk: any function of the inodes in it. */
  type Encoding = seq<Inode> -> Block

  /** The order of the areas: log, inodes, bitmap. */
  predicate Layout(sb: Super) {
    && SuperOk(sb)
    && sb.logstart + LOGBLOCKS < sb.inodestart
    && sb.inodestart * IPB + sb.ninodes <= sb.bmapstart * IPB
  }

  /** Block `b` holds the inodes from number (b - inodestart) * IPB on. */
  predicate HasInodes(sb: Super, b: nat) {
    sb.inodestart <= b && (b - sb.inodestart) * IPB < sb.ninodes
  }

  function InodesIn(sb: Super, dino: seq<Inode>, b: nat): (r: seq<Inode>)
    requires |dino| == sb.ninodes && HasInodes(sb, b)
  {
    var lo := (b - sb.inodestart) * IPB;
    dino[lo..if lo + IPB < |dino| then lo + IPB else |dino|]
  }

  function BlockOf(sb: Super, enc: Encoding, blk: Blocks, dino: seq<Inode>, b: nat): (r: Block)
    requires |dino| == sb.ninodes && b < |blk|
  {
    if HasInodes(sb, b) then enc(InodesIn(sb, dino, b)) else blk[b]
  }

  ghost function Image(sb: Super, enc: Encoding, blk: Blocks, dino: seq<Inode>): (r: Disk)
    requires |dino| == sb.ninodes
    ensures |r| == |blk|
  {
    seq(|blk|, b requires 0 <= b < |blk| => BlockOf(sb, enc, blk, dino, b))
  }

  function IBlock(sb: Super, i: nat): (r: nat) {
    i / IPB + sb.inodestart
  }

  /** From the bitmap on, a block on disk is the block itself. */
  lemma ImagePut(sb: Super, enc: Encoding, blk: Blocks, dino: seq<Inode>, b: nat, data: Block)
    requires Layout(sb) && |dino| == sb.ninodes && sb.bmapstart <= b < |blk|
    ensures Image(sb, enc, blk[b := data], dino) == Image(sb, enc, blk, dino)[b := data]
    ensures !InLog(sb.logstart, b)
  {
  }

  /** An inode goes to its place in its block. */
  lemma ImagePutInode(sb: Super, enc: Encoding, blk: Blocks, dino: seq<Inode>, i: nat, ip: Inode)
    requires Layout(sb) && |dino| == sb.ninodes && |blk| == sb.size && i < |dino|
    ensures IBlock(sb, i) < |blk| && HasInodes(sb, IBlock(sb, i)) && !InLog(sb.logstart, IBlock(sb, i))
    ensures Image(sb, enc, blk, dino[i := ip])
         == Image(sb, enc, blk, dino)[IBlock(sb, i) := enc(InodesIn(sb, dino[i := ip], IBlock(sb, i)))]
  {
    var b := IBlock(sb, i);
    assert b * IPB <= i + sb.inodestart * IPB && sb.bmapstart < sb.datastart;
    forall c | 0 <= c < |blk| && HasInodes(sb, c) && c != b
      ensures InodesIn(sb, dino[i := ip], c) == InodesIn(sb, dino, c)
    {
    }
  }
}
