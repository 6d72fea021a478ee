/** Block ownership in kernel/fs/fs.c: which blocks the free bitmap marks, and which inode slot points at each. */
module Inodes {
  import opened Params
  import opened Words
  import opened Bits

  /** Layout: everything below `datastart` (boot, super, log, inode and bitmap blocks) is reserved. */
  datatype Super = Super(size: nat, logstart: nat, inodestart: nat, ninodes: nat, bmapstart: nat, datastart: nat)

  predicate SuperOk(sb: Super) {
    0 < sb.datastart <= sb.size <= WORD && (sb.size - 1) / BPB + sb.bmapstart < sb.datastart
  }

  datatype Inode = Inode(typ: int, major: int, minor: int, nlink: int, size: nat, addrs: seq<nat>)

  /** What memset leaves of an inode. */
  const FreeInode := Inode(0, 0, 0, 0, 0, seq(NDIRECT + 1, _ => 0))

  type Blocks = seq<Block>

  // ---------- the bitmap ----------

  function BBlock(sb: Super, b: nat): (r: nat)
    requires SuperOk(sb) && b < sb.size
    ensures sb.bmapstart <= r < sb.datastart
  {
    b / BPB + sb.bmapstart
  }

  predicate Bit(sb: Super, blk: Blocks, b: nat)
    requires SuperOk(sb) && |blk| == sb.size && b < sb.size
  {
    BitAt(blk[BBlock(sb, b)], b % BPB)
  }

  /** The bitmap with the bit of block `b` changed. */
  function PutMark(sb: Super, blk: Blocks, b: nat, on: bool): (r: Blocks)
    requires SuperOk(sb) && |blk| == sb.size && b < sb.size
    ensures |r| == |blk|
  {
    blk[BBlock(sb, b) := WithBit(blk[BBlock(sb, b)], b % BPB, on)]
  }

  lemma PutMarkReads(sb: Super, blk: Blocks, b: nat, on: bool, c: nat)
    requires SuperOk(sb) && |blk| == sb.size && b < sb.size && c < sb.size
    ensures Bit(sb, PutMark(sb, blk, b, on), c) == if c == b then on else Bit(sb, blk, c)
  {
    if BBlock(sb, b) == BBlock(sb, c) {
      assert b == c || b % BPB != c % BPB;
      WithBitReads(blk[BBlock(sb, b)], b % BPB, on, c % BPB);
    }
  }

  /** The bitmap lives in the reserved blocks. */
  lemma BitsKept(sb: Super, blk: Blocks, blk': Blocks, c: nat)
    requires SuperOk(sb) && |blk| == |blk'| == sb.size && c < sb.size
    requires forall x | 0 <= x < sb.datastart :: blk'[x] == blk[x]
    ensures Bit(sb, blk', c) == Bit(sb, blk, c)
  {
  }

  // ---------- slots: 12 direct addresses, the indirect block, and the entries in it ----------

  const NSLOT: nat := NDIRECT + 1 + NINDIRECT

  function Addr(blk: Blocks, ip: Inode, k: nat): (r: nat)
    requires |ip.addrs| == NDIRECT + 1 && k < NSLOT
  {
    if k <= NDIRECT then ip.addrs[k]
    else if ip.addrs[NDIRECT] == 0 || ip.addrs[NDIRECT] >= |blk| then 0
    else Word(blk[ip.addrs[NDIRECT]], k - NDIRECT - 1)
  }

  /** The slot of the `bn`th data block. */
  function DataSlot(bn: nat): (k: nat)
    requires bn < MAXFILE
    ensures k < NSLOT && k != NDIRECT
  {
    if bn < NDIRECT then bn else bn + 1
  }

  function DataAddr(blk: Blocks, ip: Inode, bn: nat): (r: nat)
    requires |ip.addrs| == NDIRECT + 1 && bn < MAXFILE
  {
    Addr(blk, ip, DataSlot(bn))
  }

  /** Who owns each block: an inode number and a slot. */
  type Own = map<nat, (nat, nat)>

  ghost predicate Shape(sb: Super, blk: Blocks, ino: seq<Inode>) {
    && SuperOk(sb) && |blk| == sb.size
    && forall i | 0 <= i < |ino| :: |ino[i].addrs| == NDIRECT + 1
  }

  /** `own` is exactly the nonzero slots: every nonzero slot of every inode is the one owner of the block it names. */
  ghost predicate Owns(sb: Super, blk: Blocks, ino: seq<Inode>, own: Own)
    requires Shape(sb, blk, ino)
  {
    && (forall b {:trigger own[b]} | b in own ::
          && sb.datastart <= b < sb.size && own[b].0 < |ino| && own[b].1 < NSLOT
          && Addr(blk, ino[own[b].0], own[b].1) == b)
    && (forall i, k {:trigger Addr(blk, ino[i], k)} | 0 <= i < |ino| && 0 <= k < NSLOT && Addr(blk, ino[i], k) != 0 ::
          Addr(blk, ino[i], k) in own && own[Addr(blk, ino[i], k)] == (i, k))
  }

  /** The bitmap marks the reserved blocks, the owned ones, and those in `pend`, allocated but not yet linked. */
  ghost predicate Marked(sb: Super, blk: Blocks, own: Own, pend: set<nat>)
    requires SuperOk(sb) && |blk| == sb.size
  {
    && (forall b | 0 <= b < sb.size :: Bit(sb, blk, b) <==> b < sb.datastart || b in own || b in pend)
    && (forall b | b in pend :: sb.datastart <= b < sb.size && b !in own)
  }

  /** Every block below the file size is there. */
  ghost predicate HoleFree(blk: Blocks, ip: Inode)
    requires |ip.addrs| == NDIRECT + 1
  {
    && ip.size <= MAXFILE * BSIZE
    && forall bn {:trigger DataAddr(blk, ip, bn)} | 0 <= bn < MAXFILE && bn * BSIZE < ip.size :: DataAddr(blk, ip, bn) != 0
  }

  ghost predicate AllHoleFree(blk: Blocks, ino: seq<Inode>)
    requires forall i | 0 <= i < |ino| :: |ino[i].addrs| == NDIRECT + 1
  {
    forall i {:trigger ino[i]} | 0 <= i < |ino| :: HoleFree(blk, ino[i])
  }

  ghost predicate Inv(sb: Super, blk: Blocks, ino: seq<Inode>, own: Own, pend: set<nat>) {
    && Shape(sb, blk, ino)
    && Owns(sb, blk, ino, own)
    && Marked(sb, blk, own, pend)
    && AllHoleFree(blk, ino)
  }

  /** The indirect blocks are as they were. */
  ghost predicate SameIndirect(blk: Blocks, blk': Blocks, ino: seq<Inode>)
    requires forall i | 0 <= i < |ino| :: |ino[i].addrs| == NDIRECT + 1
  {
    && |blk| == |blk'|
    && forall i | 0 <= i < |ino| && 0 < ino[i].addrs[NDIRECT] < |blk| ::
         blk'[ino[i].addrs[NDIRECT]] == blk[ino[i].addrs[NDIRECT]]
  }

  /** Then so are all slots. */
  lemma SlotsKept(sb: Super, blk: Blocks, blk': Blocks, ino: seq<Inode>, own: Own)
    requires Shape(sb, blk, ino) && SameIndirect(blk, blk', ino)
    ensures forall i, k {:trigger Addr(blk', ino[i], k)} | 0 <= i < |ino| && 0 <= k < NSLOT ::
              Addr(blk', ino[i], k) == Addr(blk, ino[i], k)
    ensures Owns(sb, blk, ino, own) ==> Owns(sb, blk', ino, own)
    ensures AllHoleFree(blk, ino) ==> AllHoleFree(blk', ino)
  {
    assert forall i, k | 0 <= i < |ino| && 0 <= k < NSLOT :: Addr(blk', ino[i], k) == Addr(blk, ino[i], k);
    if AllHoleFree(blk, ino) {
      forall i | 0 <= i < |ino|
        ensures HoleFree(blk', ino[i])
      {
        HoleFreeGrows(blk, ino[i], blk', ino[i]);
      }
    }
  }

  // ---------- allocating and freeing ----------

  /** balloc's effect on block `b`: marked, then zeroed. */
  function Alloc(sb: Super, blk: Blocks, b: nat): (r: Blocks)
    requires SuperOk(sb) && |blk| == sb.size && b < sb.size
    ensures |r| == |blk|
  {
    PutMark(sb, blk, b, true)[b := ZeroBlock()]
  }

  lemma MarkedMore(sb: Super, blk: Blocks, own: Own, pend: set<nat>, b: nat)
    requires SuperOk(sb) && |blk| == sb.size && Marked(sb, blk, own, pend) && b < sb.size && !Bit(sb, blk, b)
    ensures Marked(sb, Alloc(sb, blk, b), own, pend + {b})
  {
    forall c | 0 <= c < sb.size
      ensures Bit(sb, Alloc(sb, blk, b), c) == (c == b || Bit(sb, blk, c))
    {
      PutMarkReads(sb, blk, b, true, c);
      BitsKept(sb, PutMark(sb, blk, b, true), Alloc(sb, blk, b), c);
    }
  }

  lemma AllocKeepsInv(sb: Super, blk: Blocks, ino: seq<Inode>, own: Own, pend: set<nat>, b: nat)
    requires Inv(sb, blk, ino, own, pend) && b < sb.size && !Bit(sb, blk, b)
    ensures Inv(sb, Alloc(sb, blk, b), ino, own, pend + {b})
    ensures b !in own && b !in pend && sb.datastart <= b
    ensures SameIndirect(blk, Alloc(sb, blk, b), ino)
  {
    var blk' := Alloc(sb, blk, b);
    forall i | 0 <= i < |ino| && 0 < ino[i].addrs[NDIRECT] < |blk|
      ensures blk'[ino[i].addrs[NDIRECT]] == blk[ino[i].addrs[NDIRECT]]
    {
      assert Addr(blk, ino[i], NDIRECT) in own;
    }
    SlotsKept(sb, blk, blk', ino, own);
    MarkedMore(sb, blk, own, pend, b);
  }

  lemma MarkedLinked(sb: Super, blk: Blocks, blk': Blocks, own: Own, pend: set<nat>, b: nat, o: (nat, nat))
    requires SuperOk(sb) && |blk| == |blk'| == sb.size && Marked(sb, blk, own, pend) && b in pend
    requires forall x | 0 <= x < sb.datastart :: blk'[x] == blk[x]
    ensures Marked(sb, blk', own[b := o], pend - {b})
  {
    forall c | 0 <= c < sb.size
      ensures Bit(sb, blk', c) == Bit(sb, blk, c)
    {
      BitsKept(sb, blk, blk', c);
    }
  }

  /** One empty slot comes to name block `b`; the others stay. */
  lemma OwnsGrow(sb: Super, blk: Blocks, ino: seq<Inode>, own: Own, blk': Blocks, ino': seq<Inode>, b: nat, i: nat, k: nat)
    requires Shape(sb, blk, ino) && Shape(sb, blk', ino') && |ino'| == |ino| && Owns(sb, blk, ino, own)
    requires sb.datastart <= b < sb.size && b !in own && i < |ino| && k < NSLOT && Addr(blk, ino[i], k) == 0
    requires forall i', k' {:trigger Addr(blk', ino'[i'], k')} {:trigger Addr(blk, ino[i'], k')} | 0 <= i' < |ino| && 0 <= k' < NSLOT ::
               Addr(blk', ino'[i'], k') == if i' == i && k' == k then b else Addr(blk, ino[i'], k')
    ensures Owns(sb, blk', ino', own[b := (i, k)])
  {
  }

  /** An allocated block becomes a direct block or an empty indirect block of inode `i`. */
  lemma LinkDirect(sb: Super, blk: Blocks, ino: seq<Inode>, own: Own, pend: set<nat>, b: nat, i: nat, k: nat)
    requires Inv(sb, blk, ino, own, pend) && b in pend
    requires i < |ino| && k <= NDIRECT && ino[i].addrs[k] == 0
    requires k == NDIRECT ==> blk[b] == ZeroBlock()
    ensures var ino' := ino[i := ino[i].(addrs := ino[i].addrs[k := b])];
            && Inv(sb, blk, ino', own[b := (i, k)], pend - {b})
            && forall j {:trigger Addr(blk, ino'[i], j)} | 0 <= j < NSLOT && j != k :: Addr(blk, ino'[i], j) == Addr(blk, ino[i], j)
  {
    var ino', own' := ino[i := ino[i].(addrs := ino[i].addrs[k := b])], own[b := (i, k)];
    forall j | 0 <= j < NSLOT
      ensures Addr(blk, ino'[i], j) == if j == k then b else Addr(blk, ino[i], j)
    {
      if k == NDIRECT < j {
        ZeroBlockReads(j - NDIRECT - 1);
      }
    }
    assert forall j, x {:trigger Addr(blk, ino'[j], x)} {:trigger Addr(blk, ino[j], x)} | 0 <= j < |ino| && 0 <= x < NSLOT ::
        Addr(blk, ino'[j], x) == if j == i && x == k then b else Addr(blk, ino[j], x);
    OwnsGrow(sb, blk, ino, own, blk, ino', b, i, k);
    HoleFreeGrows(blk, ino[i], blk, ino'[i]);
    MarkedLinked(sb, blk, blk, own, pend, b, (i, k));
  }

  /** The slots after entry `j` of inode i's indirect block is stored. */
  lemma SlotsAfterEntry(sb: Super, blk: Blocks, ino: seq<Inode>, own: Own, b: Uint, i: nat, j: nat, i': nat, k: nat)
    requires Shape(sb, blk, ino) && Owns(sb, blk, ino, own)
    requires i < |ino| && j < NINDIRECT && 0 < ino[i].addrs[NDIRECT] < |blk| && i' < |ino| && k < NSLOT
    ensures var ind := ino[i].addrs[NDIRECT];
            Addr(blk[ind := PutWord(blk[ind], j, b)], ino[i'], k) ==
            if i' == i && k == NDIRECT + 1 + j then b else Addr(blk, ino[i'], k)
  {
    var ind := ino[i].addrs[NDIRECT];
    if i' == i && k > NDIRECT {
      PutWordReads(blk[ind], j, b, k - NDIRECT - 1);
    } else {
      assert Addr(blk, ino[i], NDIRECT) == ind;
      assert Addr(blk, ino[i'], NDIRECT) == ind ==> i' == i;
    }
  }

  /** An allocated block becomes entry `j` of inode i's indirect block. */
  lemma LinkIndirect(sb: Super, blk: Blocks, ino: seq<Inode>, own: Own, pend: set<nat>, b: nat, i: nat, j: nat)
    requires Inv(sb, blk, ino, own, pend) && b in pend
    requires i < |ino| && j < NINDIRECT && ino[i].addrs[NDIRECT] != 0
    requires Addr(blk, ino[i], NDIRECT + 1 + j) == 0
    ensures var ind := ino[i].addrs[NDIRECT];
            && ind < |blk| && b < WORD && ind in own && own[ind] == (i, NDIRECT)
            && Inv(sb, blk[ind := PutWord(blk[ind], j, b)], ino, own[b := (i, NDIRECT + 1 + j)], pend - {b})
  {
    var ind := ino[i].addrs[NDIRECT];
    assert ind == Addr(blk, ino[i], NDIRECT);
    var blk', own' := blk[ind := PutWord(blk[ind], j, b)], own[b := (i, NDIRECT + 1 + j)];
    forall i', k {:trigger Addr(blk', ino[i'], k)} {:trigger Addr(blk, ino[i'], k)} | 0 <= i' < |ino| && 0 <= k < NSLOT
      ensures Addr(blk', ino[i'], k) == if i' == i && k == NDIRECT + 1 + j then b else Addr(blk, ino[i'], k)
    {
      SlotsAfterEntry(sb, blk, ino, own, b, i, j, i', k);
    }
    OwnsGrow(sb, blk, ino, own, blk', ino, b, i, NDIRECT + 1 + j);
    MarkedLinked(sb, blk, blk', own, pend, b, (i, NDIRECT + 1 + j));
    forall i' | 0 <= i' < |ino|
      ensures HoleFree(blk', ino[i'])
    {
      HoleFreeGrows(blk, ino[i'], blk', ino[i']);
    }
  }

  lemma HoleFreeGrows(blk: Blocks, ip: Inode, blk': Blocks, ip': Inode)
    requires |ip.addrs| == |ip'.addrs| == NDIRECT + 1 && ip'.size == ip.size && HoleFree(blk, ip)
    requires forall k | 0 <= k < NSLOT && Addr(blk, ip, k) != 0 :: Addr(blk', ip', k) != 0
    ensures HoleFree(blk', ip')
  {
    forall bn | 0 <= bn < MAXFILE && bn * BSIZE < ip.size
      ensures DataAddr(blk', ip', bn) != 0
    {
      assert DataAddr(blk, ip, bn) != 0;
    }
  }

  /** The data block at (i, bn) gets new content: no slot changes. */
  lemma PutDataKeepsInv(sb: Super, blk: Blocks, ino: seq<Inode>, own: Own, pend: set<nat>, i: nat, bn: nat, data: Block)
    requires Inv(sb, blk, ino, own, pend) && i < |ino| && bn < MAXFILE && DataAddr(blk, ino[i], bn) != 0
    ensures var a := DataAddr(blk, ino[i], bn);
            && a < |blk| && sb.datastart <= a
            && Inv(sb, blk[a := data], ino, own, pend)
            && SameIndirect(blk, blk[a := data], ino)
  {
    var a := DataAddr(blk, ino[i], bn);
    var blk' := blk[a := data];
    assert a == Addr(blk, ino[i], DataSlot(bn)) && own[a] == (i, DataSlot(bn));
    forall j | 0 <= j < |ino| && 0 < ino[j].addrs[NDIRECT] < |blk|
      ensures blk'[ino[j].addrs[NDIRECT]] == blk[ino[j].addrs[NDIRECT]]
    {
      assert Addr(blk, ino[j], NDIRECT) != a;
    }
    SlotsKept(sb, blk, blk', ino, own);
    forall c | 0 <= c < sb.size
      ensures Bit(sb, blk', c) == Bit(sb, blk, c)
    {
      BitsKept(sb, blk, blk', c);
    }
  }

  // ---------- truncation ----------

  /** The blocks held by slots [lo, hi) of an inode. */
  ghost function Held(blk: Blocks, ip: Inode, lo: nat, hi: nat): (r: set<nat>)
    requires |ip.addrs| == NDIRECT + 1 && hi <= NSLOT
  {
    set k | lo <= k < hi && Addr(blk, ip, k) != 0 :: Addr(blk, ip, k)
  }

  /** `blk'` is `blk` with the marks of the blocks in `freed` cleared. */
  ghost predicate Cleared(sb: Super, blk: Blocks, blk': Blocks, freed: set<nat>)
    requires SuperOk(sb) && |blk| == sb.size
  {
    && |blk'| == |blk|
    && (forall c {:trigger Bit(sb, blk', c)} | 0 <= c < sb.size :: Bit(sb, blk', c) <==> Bit(sb, blk, c) && c !in freed)
    && (forall c | sb.datastart <= c < sb.size :: blk'[c] == blk[c])
  }

  lemma ClearOne(sb: Super, blk: Blocks, blk': Blocks, freed: set<nat>, b: nat)
    requires SuperOk(sb) && |blk| == sb.size && Cleared(sb, blk, blk', freed) && b < sb.size
    ensures Cleared(sb, blk, PutMark(sb, blk', b, false), freed + {b})
  {
    forall c | 0 <= c < sb.size
      ensures Bit(sb, PutMark(sb, blk', b, false), c) == (c != b && Bit(sb, blk', c))
    {
      PutMarkReads(sb, blk', b, false, c);
    }
  }

  lemma {:induction false} HeldNext(blk: Blocks, ip: Inode, lo: nat, hi: nat)
    requires |ip.addrs| == NDIRECT + 1 && lo <= hi < NSLOT
    ensures Held(blk, ip, lo, hi + 1) == Held(blk, ip, lo, hi) + (if Addr(blk, ip, hi) == 0 then {} else {Addr(blk, ip, hi)})
  {
  }

  /** A block held in one slot is not among those held in others. */
  lemma HeldOnce(sb: Super, blk: Blocks, ino: seq<Inode>, own: Own, i: nat, lo: nat, hi: nat, k: nat)
    requires Shape(sb, blk, ino) && Owns(sb, blk, ino, own)
    requires i < |ino| && hi <= NSLOT && k < NSLOT && !(lo <= k < hi) && Addr(blk, ino[i], k) != 0
    ensures Addr(blk, ino[i], k) !in Held(blk, ino[i], lo, hi)
    ensures Addr(blk, ino[i], k) in own
  {
  }

  /** Clearing the marks of everything an inode holds, and emptying it, releases exactly its blocks. */
  lemma TruncKeepsInv(sb: Super, blk: Blocks, ino: seq<Inode>, own: Own, pend: set<nat>, i: nat, blk': Blocks, ip: Inode)
    requires Inv(sb, blk, ino, own, pend) && i < |ino|
    requires Cleared(sb, blk, blk', Held(blk, ino[i], 0, NSLOT))
    requires ip.size == 0 && ip.addrs == FreeInode.addrs
    ensures Inv(sb, blk', ino[i := ip], own - Held(blk, ino[i], 0, NSLOT), pend)
  {
    var held, ino' := Held(blk, ino[i], 0, NSLOT), ino[i := ip];
    var own' := own - held;
    forall j, k | 0 <= j < |ino| && 0 <= k < NSLOT
      ensures Addr(blk', ino'[j], k) == if j == i then 0 else Addr(blk, ino[j], k)
    {
      if j != i && k > NDIRECT && ino[j].addrs[NDIRECT] != 0 {
        assert Addr(blk, ino[j], NDIRECT) in own;
      }
    }
    forall b | b in own && own[b].0 == i
      ensures b in held
    {
      assert Addr(blk, ino[i], own[b].1) == b;
    }
    forall j, k | 0 <= j < |ino| && 0 <= k < NSLOT && Addr(blk', ino'[j], k) != 0
      ensures Addr(blk', ino'[j], k) in own' && own'[Addr(blk', ino'[j], k)] == (j, k)
    {
      assert Addr(blk, ino[j], k) in own;
    }
    assert forall b | b in held :: b in own;
    forall j | 0 <= j < |ino|
      ensures HoleFree(blk', ino'[j])
    {
      if j != i {
        HoleFreeGrows(blk, ino[j], blk', ino'[j]);
      }
    }
  }

  /** Only the size of an inode changes. */
  lemma ResizeKeepsInv(sb: Super, blk: Blocks, ino: seq<Inode>, own: Own, pend: set<nat>, i: nat, ip: Inode)
    requires Inv(sb, blk, ino, own, pend) && i < |ino| && ip.addrs == ino[i].addrs && HoleFree(blk, ip)
    ensures Inv(sb, blk, ino[i := ip], own, pend)
  {
    var ino' := ino[i := ip];
    forall j, k | 0 <= j < |ino| && 0 <= k < NSLOT
      ensures Addr(blk, ino'[j], k) == Addr(blk, ino[j], k)
    {
    }
  }

  lemma HeldSplit(blk: Blocks, ip: Inode)
    requires |ip.addrs| == NDIRECT + 1
    ensures Held(blk, ip, 0, NSLOT) ==
            Held(blk, ip, 0, NDIRECT) + Held(blk, ip, NDIRECT + 1, NSLOT) +
            (if ip.addrs[NDIRECT] == 0 then {} else {ip.addrs[NDIRECT]})
    ensures ip.addrs[NDIRECT] == 0 ==> Held(blk, ip, NDIRECT + 1, NSLOT) == {}
  {
    assert Addr(blk, ip, NDIRECT) == ip.addrs[NDIRECT];
  }

  /** Conservation: a data block is marked exactly when some inode slot names it, and no block is named twice. */
  lemma Conservation(sb: Super, blk: Blocks, ino: seq<Inode>, own: Own)
    requires Inv(sb, blk, ino, own, {})
    ensures forall b | 0 <= b < sb.size ::
              Bit(sb, blk, b) <==> b < sb.datastart || exists i, k :: 0 <= i < |ino| && 0 <= k < NSLOT && Addr(blk, ino[i], k) == b
    ensures forall i, k, i', k' | 0 <= i < |ino| && 0 <= k < NSLOT && 0 <= i' < |ino| && 0 <= k' < NSLOT &&
                                  Addr(blk, ino[i], k) == Addr(blk, ino[i'], k') != 0 :: i == i' && k == k'
  {
  }
}
