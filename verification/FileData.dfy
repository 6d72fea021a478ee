/** A file as a byte sequence, and how block-by-block writing (writei in kernel/fs/fs.c) changes it. */
module FileData {
  import opened Params
  import opened Words
  import opened Inodes

  const MAXBYTES: nat := MAXFILE * BSIZE

  /** Byte `p` of the inode's data, wherever its block is; 0 where there is no block. */
  function ByteAt(blk: Blocks, ip: Inode, p: nat): (r: Byte)
    requires |ip.addrs| == NDIRECT + 1 && p < MAXBYTES
  {
    var a := DataAddr(blk, ip, p / BSIZE);
    if 0 < a < |blk| then blk[a][p % BSIZE] else 0
  }

  function Content(blk: Blocks, ip: Inode): (r: seq<Byte>)
    requires |ip.addrs| == NDIRECT + 1 && ip.size <= MAXBYTES
    ensures |r| == ip.size
  {
    seq(ip.size, p requires 0 <= p < ip.size => ByteAt(blk, ip, p))
  }

  /** The byte-sequence meaning of writing `d` at offset `off`. */
  function Overwrite(c: seq<Byte>, off: nat, d: seq<Byte>): (r: seq<Byte>)
    requires off <= |c|
  {
    c[..off] + d + (if off + |d| < |c| then c[off + |d|..] else [])
  }

  /** The copy into one block. */
  function Splice(b: Block, o: nat, d: seq<Byte>): (r: Block)
    requires o + |d| <= BSIZE
  {
    b[..o] + d + b[o + |d|..]
  }

  /** Every data block that was there is there, unchanged. */
  ghost predicate SameFile(blk: Blocks, ip: Inode, blk': Blocks, ip': Inode)
    requires |ip.addrs| == |ip'.addrs| == NDIRECT + 1
  {
    && ip'.size == ip.size && |blk'| == |blk|
    && forall bn {:trigger DataAddr(blk', ip', bn)} {:trigger DataAddr(blk, ip, bn)} | 0 <= bn < MAXFILE && 0 < DataAddr(blk, ip, bn) < |blk| ::
         DataAddr(blk', ip', bn) == DataAddr(blk, ip, bn) && blk'[DataAddr(blk, ip, bn)] == blk[DataAddr(blk, ip, bn)]
  }

  /** An address that is present is a block of the disk. */
  ghost predicate InRange(blk: Blocks, ip: Inode)
    requires |ip.addrs| == NDIRECT + 1
  {
    forall bn {:trigger DataAddr(blk, ip, bn)} | 0 <= bn < MAXFILE :: DataAddr(blk, ip, bn) == 0 || DataAddr(blk, ip, bn) < |blk|
  }

  lemma InvInRange(sb: Super, blk: Blocks, ino: seq<Inode>, own: Own, pend: set<nat>, i: nat)
    requires Inv(sb, blk, ino, own, pend) && i < |ino|
    ensures InRange(blk, ino[i])
  {
  }

  /** A write in progress: of `src`, the first `tot` bytes are in place from `off` on, every byte below both the old size
      and the point reached has a block, and the other bytes of the file are as they were. */
  ghost predicate Writing(blk0: Blocks, ip0: Inode, blk: Blocks, ip: Inode, off: nat, src: seq<Byte>, tot: nat)
    requires |ip0.addrs| == |ip.addrs| == NDIRECT + 1
  {
    && off <= ip0.size == ip.size <= MAXBYTES && off + |src| <= MAXBYTES && tot <= |src|
    && |blk| == |blk0|
    && (forall bn {:trigger DataAddr(blk, ip, bn)} | 0 <= bn < MAXFILE && (bn * BSIZE < ip.size || bn * BSIZE < off + tot) ::
          DataAddr(blk, ip, bn) != 0)
    && (forall p {:trigger ByteAt(blk, ip, p)} | off <= p < off + tot :: ByteAt(blk, ip, p) == src[p - off])
    && (forall p {:trigger ByteAt(blk, ip, p)} | 0 <= p < ip.size && !(off <= p < off + tot) ::
          ByteAt(blk, ip, p) == ByteAt(blk0, ip0, p))
  }

  lemma WritingStarts(blk: Blocks, ip: Inode, off: nat, src: seq<Byte>)
    requires |ip.addrs| == NDIRECT + 1 && HoleFree(blk, ip) && off <= ip.size && off + |src| <= MAXBYTES
    ensures Writing(blk, ip, blk, ip, off, src, 0)
  {
  }

  /** Allocating blocks does not disturb it. */
  lemma WritingKept(blk0: Blocks, ip0: Inode, blk: Blocks, ip: Inode, off: nat, src: seq<Byte>, tot: nat, blk': Blocks, ip': Inode)
    requires |ip0.addrs| == |ip.addrs| == |ip'.addrs| == NDIRECT + 1
    requires Writing(blk0, ip0, blk, ip, off, src, tot) && SameFile(blk, ip, blk', ip') && InRange(blk, ip)
    ensures Writing(blk0, ip0, blk', ip', off, src, tot)
  {
    forall p | 0 <= p < MAXBYTES && (p < ip.size || p < off + tot)
      ensures ByteAt(blk', ip', p) == ByteAt(blk, ip, p)
    {
      var bn := p / BSIZE;
      assert bn * BSIZE <= p;
      assert 0 < DataAddr(blk, ip, bn) < |blk|;
    }
    forall bn | 0 <= bn < MAXFILE && (bn * BSIZE < ip.size || bn * BSIZE < off + tot)
      ensures DataAddr(blk', ip', bn) != 0
    {
      assert 0 < DataAddr(blk, ip, bn) < |blk|;
    }
  }

  /** No other block number of the file leads to the same block. */
  ghost predicate Alone(blk: Blocks, ip: Inode, bn: nat)
    requires |ip.addrs| == NDIRECT + 1 && bn < MAXFILE
  {
    forall c {:trigger DataAddr(blk, ip, c)} | 0 <= c < MAXFILE && c != bn :: DataAddr(blk, ip, c) != DataAddr(blk, ip, bn)
  }

  /** How much one turn of the loop copies: the rest of the source or of the block. */
  function Piece(off: nat, n: nat, tot: nat): (m: nat)
    requires tot < n
    ensures 0 < m <= n - tot && (off + tot) % BSIZE + m <= BSIZE
  {
    var room := BSIZE - (off + tot) % BSIZE;
    if n - tot < room then n - tot else room
  }

  /** One turn of the loop: the next piece is copied into its block. */
  lemma WritingNext(blk0: Blocks, ip0: Inode, blk: Blocks, ip: Inode, off: nat, src: seq<Byte>, tot: nat, a: nat, blk': Blocks)
    requires |ip0.addrs| == |ip.addrs| == NDIRECT + 1
    requires Writing(blk0, ip0, blk, ip, off, src, tot) && tot < |src|
    requires a == DataAddr(blk, ip, (off + tot) / BSIZE) && 0 < a < |blk| && Alone(blk, ip, (off + tot) / BSIZE)
    requires blk' == blk[a := Splice(blk[a], (off + tot) % BSIZE, src[tot..tot + Piece(off, |src|, tot)])]
    requires forall c | 0 <= c < MAXFILE :: DataAddr(blk', ip, c) == DataAddr(blk, ip, c)
    ensures Writing(blk0, ip0, blk', ip, off, src, tot + Piece(off, |src|, tot))
  {
    var m := Piece(off, |src|, tot);
    forall p | 0 <= p < MAXBYTES
      ensures ByteAt(blk', ip, p) == if off + tot <= p < off + tot + m then src[p - off] else ByteAt(blk, ip, p)
    {
      PieceByte(blk, ip, off, src, tot, a, blk', p);
    }
    forall bn | 0 <= bn < MAXFILE && (bn * BSIZE < ip.size || bn * BSIZE < off + tot + m)
      ensures DataAddr(blk', ip, bn) != 0
    {
      assert off + tot <= bn * BSIZE < off + tot + m ==> bn == (off + tot) / BSIZE;
    }
  }

  lemma PieceByte(blk: Blocks, ip: Inode, off: nat, src: seq<Byte>, tot: nat, a: nat, blk': Blocks, p: nat)
    requires |ip.addrs| == NDIRECT + 1 && off + |src| <= MAXBYTES && tot < |src| && p < MAXBYTES
    requires a == DataAddr(blk, ip, (off + tot) / BSIZE) && 0 < a < |blk| && Alone(blk, ip, (off + tot) / BSIZE)
    requires blk' == blk[a := Splice(blk[a], (off + tot) % BSIZE, src[tot..tot + Piece(off, |src|, tot)])]
    requires forall c | 0 <= c < MAXFILE :: DataAddr(blk', ip, c) == DataAddr(blk, ip, c)
    ensures var m := Piece(off, |src|, tot);
            ByteAt(blk', ip, p) == if off + tot <= p < off + tot + m then src[p - off] else ByteAt(blk, ip, p)
  {
  }

  /** The finished write, with the size brought up to date, is the byte-sequence write of what was copied. */
  lemma WritingEnds(blk0: Blocks, ip0: Inode, blk: Blocks, ip: Inode, off: nat, src: seq<Byte>, tot: nat, ip': Inode)
    requires |ip0.addrs| == |ip.addrs| == NDIRECT + 1
    requires Writing(blk0, ip0, blk, ip, off, src, tot)
    requires ip' == ip.(size := if off + tot > ip.size then off + tot else ip.size)
    ensures HoleFree(blk, ip')
    ensures Content(blk, ip') == Overwrite(Content(blk0, ip0), off, src[..tot])
  {
    assert forall p | 0 <= p < MAXBYTES :: ByteAt(blk, ip', p) == ByteAt(blk, ip, p);
    forall bn | 0 <= bn < MAXFILE && bn * BSIZE < ip'.size
      ensures DataAddr(blk, ip', bn) != 0
    {
      assert DataAddr(blk, ip, bn) != 0;
    }
    var c, d := Content(blk0, ip0), src[..tot];
    forall p | 0 <= p < ip'.size
      ensures Content(blk, ip')[p] == Overwrite(c, off, d)[p]
    {
      assert ByteAt(blk, ip, p) == ByteAt(blk, ip', p);
    }
  }

  // ---------- allocation leaves every file's data alone ----------

  ghost predicate AllSame(blk: Blocks, ino: seq<Inode>, blk': Blocks, ino': seq<Inode>)
    requires forall j | 0 <= j < |ino| :: |ino[j].addrs| == NDIRECT + 1
    requires forall j | 0 <= j < |ino'| :: |ino'[j].addrs| == NDIRECT + 1
  {
    |ino'| == |ino| && forall j {:trigger ino'[j]} {:trigger ino[j]} | 0 <= j < |ino| :: SameFile(blk, ino[j], blk', ino'[j])
  }

  lemma AllSameTrans(blk: Blocks, ino: seq<Inode>, blk': Blocks, ino': seq<Inode>, blk'': Blocks, ino'': seq<Inode>)
    requires forall j | 0 <= j < |ino| :: |ino[j].addrs| == NDIRECT + 1
    requires forall j | 0 <= j < |ino'| :: |ino'[j].addrs| == NDIRECT + 1
    requires forall j | 0 <= j < |ino''| :: |ino''[j].addrs| == NDIRECT + 1
    requires AllSame(blk, ino, blk', ino') && AllSame(blk', ino', blk'', ino'')
    ensures AllSame(blk, ino, blk'', ino'')
  {
  }

  /** Changes to blocks that are no file's data, and to slots that were empty. */
  lemma SameData(sb: Super, blk: Blocks, ino: seq<Inode>, own: Own, blk': Blocks, ino': seq<Inode>)
    requires Shape(sb, blk, ino) && Owns(sb, blk, ino, own) && Shape(sb, blk', ino') && |ino'| == |ino|
    requires forall j | 0 <= j < |ino| :: ino'[j].size == ino[j].size
    requires forall j, k {:trigger Addr(blk, ino[j], k)} | 0 <= j < |ino| && 0 <= k < NSLOT && Addr(blk, ino[j], k) != 0 ::
               Addr(blk', ino'[j], k) == Addr(blk, ino[j], k)
    requires forall b | b in own && own[b].1 != NDIRECT :: blk'[b] == blk[b]
    ensures AllSame(blk, ino, blk', ino')
  {
  }

  lemma AllocSame(sb: Super, blk: Blocks, ino: seq<Inode>, own: Own, b: nat)
    requires Shape(sb, blk, ino) && Owns(sb, blk, ino, own) && sb.datastart <= b < sb.size && b !in own
    requires SameIndirect(blk, Alloc(sb, blk, b), ino)
    ensures AllSame(blk, ino, Alloc(sb, blk, b), ino)
  {
  }

  lemma LinkDirectSame(sb: Super, blk: Blocks, ino: seq<Inode>, own: Own, b: nat, i: nat, k: nat)
    requires Shape(sb, blk, ino) && Owns(sb, blk, ino, own)
    requires i < |ino| && k <= NDIRECT && ino[i].addrs[k] == 0
    ensures AllSame(blk, ino, blk, ino[i := ino[i].(addrs := ino[i].addrs[k := b])])
  {
  }

  lemma LinkIndirectSame(sb: Super, blk: Blocks, ino: seq<Inode>, own: Own, b: Uint, i: nat, j: nat)
    requires Shape(sb, blk, ino) && Owns(sb, blk, ino, own)
    requires i < |ino| && j < NINDIRECT && 0 < ino[i].addrs[NDIRECT] < |blk| && Addr(blk, ino[i], NDIRECT + 1 + j) == 0
    ensures var ind := ino[i].addrs[NDIRECT];
            AllSame(blk, ino, blk[ind := PutWord(blk[ind], j, b)], ino)
  {
    var ind := ino[i].addrs[NDIRECT];
    var blk' := blk[ind := PutWord(blk[ind], j, b)];
    assert ind == Addr(blk, ino[i], NDIRECT) && own[ind] == (i, NDIRECT);
    forall i', k | 0 <= i' < |ino| && 0 <= k < NSLOT && Addr(blk, ino[i'], k) != 0
      ensures Addr(blk', ino[i'], k) == Addr(blk, ino[i'], k)
    {
      SlotsAfterEntry(sb, blk, ino, own, b, i, j, i', k);
    }
    SameData(sb, blk, ino, own, blk', ino);
  }

  /** A free block allocated into an empty direct slot, or as a new indirect block. */
  lemma FillDirect(sb: Super, blk: Blocks, ino: seq<Inode>, own: Own, b: nat, i: nat, k: nat)
    requires Inv(sb, blk, ino, own, {}) && b < sb.size && !Bit(sb, blk, b)
    requires i < |ino| && k <= NDIRECT && ino[i].addrs[k] == 0
    ensures var blk', ino' := Alloc(sb, blk, b), ino[i := ino[i].(addrs := ino[i].addrs[k := b])];
            && Inv(sb, blk', ino', own[b := (i, k)], {})
            && AllSame(blk, ino, blk', ino')
  {
    var blk', ino' := Alloc(sb, blk, b), ino[i := ino[i].(addrs := ino[i].addrs[k := b])];
    AllocKeepsInv(sb, blk, ino, own, {}, b);
    assert AllSame(blk, ino, blk', ino') by {
      AllocSame(sb, blk, ino, own, b);
      LinkDirectSame(sb, blk', ino, own, b, i, k);
      AllSameTrans(blk, ino, blk', ino, blk', ino');
    }
    LinkDirect(sb, blk', ino, own, {} + {b}, b, i, k);
    assert {} + {b} - {b} == {};
  }

  /** A free block allocated into an empty entry of the indirect block. */
  lemma FillIndirect(sb: Super, blk: Blocks, ino: seq<Inode>, own: Own, b: nat, i: nat, k: nat)
    requires Inv(sb, blk, ino, own, {}) && b < sb.size && !Bit(sb, blk, b)
    requires i < |ino| && NDIRECT < k < NSLOT && ino[i].addrs[NDIRECT] != 0 && Addr(blk, ino[i], k) == 0
    ensures var ind, blk1 := ino[i].addrs[NDIRECT], Alloc(sb, blk, b);
            && ind < sb.size && b < WORD
            && var blk' := blk1[ind := PutWord(blk1[ind], k - NDIRECT - 1, b)];
            && Inv(sb, blk', ino, own[b := (i, k)], {})
            && AllSame(blk, ino, blk', ino)
            && Addr(blk', ino[i], k) == b
  {
    var ind, blk1, j := ino[i].addrs[NDIRECT], Alloc(sb, blk, b), k - NDIRECT - 1;
    assert ind == Addr(blk, ino[i], NDIRECT) && ind in own;
    AllocKeepsInv(sb, blk, ino, own, {}, b);
    SlotsKept(sb, blk, blk1, ino, own);
    assert Addr(blk1, ino[i], k) == 0;
    var blk' := blk1[ind := PutWord(blk1[ind], j, b)];
    assert AllSame(blk, ino, blk', ino) by {
      AllocSame(sb, blk, ino, own, b);
      LinkIndirectSame(sb, blk1, ino, own, b, i, j);
      AllSameTrans(blk, ino, blk1, ino, blk', ino);
    }
    LinkIndirect(sb, blk1, ino, own, {} + {b}, b, i, j);
    assert {} + {b} - {b} == {};
    SlotsAfterEntry(sb, blk1, ino, own, b, i, j, i, k);
  }

  /** Every file but the `i`th is as it was. */
  ghost predicate OthersSame(blk: Blocks, ino: seq<Inode>, blk': Blocks, ino': seq<Inode>, i: nat)
    requires forall j | 0 <= j < |ino| :: |ino[j].addrs| == NDIRECT + 1
    requires forall j | 0 <= j < |ino'| :: |ino'[j].addrs| == NDIRECT + 1
  {
    && |ino'| == |ino|
    && forall j {:trigger ino'[j]} | 0 <= j < |ino| && j != i :: ino'[j] == ino[j] && SameFile(blk, ino[j], blk', ino'[j])
  }

  lemma OthersSameTrans(blk: Blocks, ino: seq<Inode>, blk': Blocks, ino': seq<Inode>, blk'': Blocks, ino'': seq<Inode>, i: nat)
    requires forall j | 0 <= j < |ino| :: |ino[j].addrs| == NDIRECT + 1
    requires forall j | 0 <= j < |ino'| :: |ino'[j].addrs| == NDIRECT + 1
    requires forall j | 0 <= j < |ino''| :: |ino''[j].addrs| == NDIRECT + 1
    requires OthersSame(blk, ino, blk', ino', i)
    requires |ino''| == |ino'| && forall j | 0 <= j < |ino'| && j != i :: ino''[j] == ino'[j] && SameFile(blk', ino'[j], blk'', ino''[j])
    ensures OthersSame(blk, ino, blk'', ino'', i)
  {
  }

  /** New data in one block of file `i` touches no other block of any file. */
  lemma PutDataSame(sb: Super, blk: Blocks, ino: seq<Inode>, own: Own, i: nat, bn: nat, data: Block)
    requires Shape(sb, blk, ino) && Owns(sb, blk, ino, own) && i < |ino| && bn < MAXFILE && DataAddr(blk, ino[i], bn) != 0
    requires DataAddr(blk, ino[i], bn) < |blk| && SameIndirect(blk, blk[DataAddr(blk, ino[i], bn) := data], ino)
    ensures Alone(blk, ino[i], bn)
    ensures var blk' := blk[DataAddr(blk, ino[i], bn) := data];
            && (forall c {:trigger DataAddr(blk', ino[i], c)} | 0 <= c < MAXFILE :: DataAddr(blk', ino[i], c) == DataAddr(blk, ino[i], c))
            && OthersSame(blk, ino, blk', ino, i)
  {
  }

  // ---------- how many blocks a write touches ----------

  /** The turns the loop still has to make. */
  ghost function Turns(off: nat, n: nat, tot: nat): (r: nat)
    decreases n - tot
  {
    if tot >= n then 0 else 1 + Turns(off, n, tot + Piece(off, n, tot))
  }

  lemma {:induction false} TurnsAligned(off: nat, n: nat, tot: nat)
    requires tot <= n && (off + tot) % BSIZE == 0
    ensures Turns(off, n, tot) == (n - tot + BSIZE - 1) / BSIZE
    decreases n - tot
  {
    if n - tot > BSIZE {
      assert Piece(off, n, tot) == BSIZE;
      TurnsAligned(off, n, tot + BSIZE);
    }
  }

  /** A filewrite chunk is at most three blocks long, so it touches four only when it starts inside the first. */
  lemma TurnsChunk(off: nat, n: nat)
    requires n <= 3 * BSIZE
    ensures Turns(off, n, 0) <= 4
    ensures off % BSIZE == 0 ==> Turns(off, n, 0) <= 3
  {
    if off % BSIZE == 0 {
      TurnsAligned(off, n, 0);
    } else if n > 0 {
      var m := Piece(off, n, 0);
      if m < n {
        TurnsAligned(off, n, m);
      }
    }
  }

  /** What a write that has touched `t` blocks may have added to the log: one data block per block touched, one bitmap
      block per block allocated (the first block touched is not, when it was entered in the middle), the indirect block. */
  ghost predicate Budget(logged: set<nat>, logged0: set<nat>, data: set<nat>, marks: set<nat>, ind: set<nat>, ind0: set<nat>,
                         t: nat, aligned: bool) {
    && logged <= logged0 + data + marks + ind
    && |data| <= t
    && |marks| <= t - (if !aligned && t > 0 then 1 else 0) + |ind| - |ind0|
  }

  lemma {:induction false} UnionSize(a: set<nat>, b: set<nat>)
    ensures |a + b| <= |a| + |b|
  {
  }

  lemma LoggedTwice(l0: set<nat>, l1: set<nat>, l2: set<nat>, m1: set<nat>, m2: set<nat>, r: set<nat>, ind: set<nat>)
    requires l1 <= l0 + m1 + ind && l2 <= l1 + m2 + r + ind
    ensures l2 <= l0 + (m1 + m2) + r + ind
    ensures |m1 + m2| <= |m1| + |m2|
  {
  }

  lemma BudgetBmap(logged: set<nat>, logged0: set<nat>, data: set<nat>, marks: set<nat>, ind: set<nat>, ind0: set<nat>,
                   t: nat, aligned: bool, logged': set<nat>, more: set<nat>, ind': set<nat>, r: nat, missing: bool)
    requires Budget(logged, logged0, data, marks, ind, ind0, t, aligned) && ind <= ind'
    requires logged' <= logged + more + (if r == 0 then {} else {r}) + ind'
    requires |more| <= (if missing && r != 0 then 1 else 0) + |ind'| - |ind|
    requires missing && t == 0 ==> aligned
    ensures r == 0 ==> Budget(logged', logged0, data, marks + more, ind', ind0, t, aligned)
    ensures r != 0 ==> Budget(logged', logged0, data + {r}, marks + more, ind', ind0, t + 1, aligned)
  {
  }

  /** A chunk's whole transaction, with the inode block, fits in the per-operation reservation. */
  lemma BudgetChunk(logged: set<nat>, data: set<nat>, marks: set<nat>, ind: set<nat>, ind0: set<nat>, t: nat, off: nat, n: nat, iblock: nat)
    requires Budget(logged, {}, data, marks, ind, ind0, t, off % BSIZE == 0) && t <= Turns(off, n, 0) && n <= 3 * BSIZE && |ind| <= 1
    ensures |logged + {iblock}| <= MAXOPBLOCKS
  {
    TurnsChunk(off, n);
    UnionSize(data, marks);
    UnionSize(data + marks, ind);
    UnionSize(data + marks + ind, {iblock});
    var all := data + marks + ind + {iblock};
    assert logged + {iblock} <= all;
    assert all == (logged + {iblock}) + (all - (logged + {iblock}));
  }

  /** A piece of one block is a piece of the file. */
  lemma PieceRead(blk: Blocks, ip: Inode, p: nat, m: nat)
    requires |ip.addrs| == NDIRECT + 1 && ip.size <= MAXBYTES && p + m <= ip.size && 0 < m && p % BSIZE + m <= BSIZE
    requires 0 < DataAddr(blk, ip, p / BSIZE) < |blk|
    ensures blk[DataAddr(blk, ip, p / BSIZE)][p % BSIZE..p % BSIZE + m] == Content(blk, ip)[p..p + m]
  {
  }

  lemma SliceAppend(c: seq<Byte>, a: nat, b: nat, d: nat)
    requires a <= b <= d <= |c|
    ensures c[a..b] + c[b..d] == c[a..d]
  {
  }

  /** Reading back what was written, and nothing else disturbed. */
  lemma OverwriteReads(c: seq<Byte>, off: nat, d: seq<Byte>)
    requires off <= |c|
    ensures |Overwrite(c, off, d)| == if off + |d| > |c| then off + |d| else |c|
    ensures Overwrite(c, off, d)[off..off + |d|] == d
    ensures Overwrite(c, off, d)[..off] == c[..off]
    ensures off + |d| <= |c| ==> Overwrite(c, off, d)[off + |d|..] == c[off + |d|..]
  {
  }

  /** Two writes end to end are one. */
  lemma OverwriteTwice(c: seq<Byte>, off: nat, d: seq<Byte>, e: seq<Byte>)
    requires off <= |c|
    ensures |Overwrite(c, off, d)| >= off + |d|
    ensures Overwrite(Overwrite(c, off, d), off + |d|, e) == Overwrite(c, off, d + e)
  {
  }
}
