/** Block allocation, the block map, reading, writing and truncating of inodes, from kernel/fs/fs.c. */
module Fs {
  import opened Collections
  import opened Params
  import opened Words
  import opened Bits
  import opened Crash
  import opened Inodes
  import opened FileData
  import opened DiskImage
  import opened Edits

  /** The indirect block of an inode, if it has one. */
  ghost function IndirectOf(ip: Inode): (r: set<nat>)
    requires |ip.addrs| == NDIRECT + 1
  {
    if ip.addrs[NDIRECT] == 0 then {} else {ip.addrs[NDIRECT]}
  }

  /** `blk` is the current content of every block, as bread() returns it. `ino` holds the inodes as the kernel currently
      sees them (the in-core copy of a cached inode), `dino` their on-disk copies. `edits` is what the transaction in
      progress has passed to log_write(), block by block. Ghost fields record who owns each block, the disk as it was when
      the transaction began, and the blocks edited since. */
  class FileSystem {
    const sb: Super
    const enc: Encoding
    var blk: Blocks
    var ino: seq<Inode>
    var dino: seq<Inode>
    var edits: seq<Write>
    ghost var own: Own
    ghost var base: Disk
    ghost var logged: set<nat>

    constructor (sb: Super, enc: Encoding, blk: Blocks, dino: seq<Inode>, ghost own: Own)
      requires Layout(sb) && |dino| == sb.ninodes && Inv(sb, blk, dino, own, {})
      ensures Valid() && this.sb == sb && this.enc == enc && this.blk == blk && ino == this.dino == dino && edits == []
    {
      this.sb, this.enc, this.blk, this.ino, this.dino, this.own := sb, enc, blk, dino, dino, own;
      edits, base, logged := [], Image(sb, enc, blk, dino), {};
    }

    ghost predicate Valid()
      reads this
    {
      Inv(sb, blk, ino, own, {}) && |dino| == |ino| && OnlyLogged()
    }

    /** The file system as it is on disk once the current edits are. */
    ghost function OnDisk(): Disk
      reads this
      requires |dino| == sb.ninodes
    {
      Image(sb, enc, blk, dino)
    }

    /** The edits since the transaction began are all that has changed, and none is in the log area. */
    ghost predicate OnlyLogged()
      reads this
    {
      && Layout(sb) && |blk| == sb.size && |dino| == sb.ninodes
      && OnDisk() == Apply(base, edits)
      && logged == BlocksOf(edits) && Loggable(edits, sb.size, sb.logstart)
    }

    /** begin_op(): from here on changes are counted. */
    method Begin()
      requires Valid()
      modifies this`edits, this`base, this`logged, this`edits
      ensures Valid() && edits == [] && logged == {} && base == OnDisk()
    {
      edits, base, logged := [], OnDisk(), {};
    }

    /** A block, not of inodes, is changed and logged. */
    method LogBlock(b: nat, data: Block)
      requires OnlyLogged() && sb.bmapstart <= b < |blk|
      modifies this`blk, this`logged, this`edits
      ensures OnlyLogged()
      ensures blk == old(blk)[b := data] && logged == old(logged) + {b}
    {
      ImagePut(sb, enc, blk, dino, b, data);
      EditMore(base, edits, Write(b, data), sb.size, sb.logstart);
      blk := blk[b := data];
      edits := edits + [Write(b, data)];
      logged := logged + {b};
    }

    /** The block of an inode is changed and logged. */
    method LogInode(i: nat, ip: Inode)
      requires OnlyLogged() && i < |dino|
      modifies this`dino, this`logged, this`edits
      ensures OnlyLogged()
      ensures dino == old(dino)[i := ip] && logged == old(logged) + {IBlock(sb, i)}
    {
      ImagePutInode(sb, enc, blk, dino, i, ip);
      var b := IBlock(sb, i);
      var data := enc(InodesIn(sb, dino[i := ip], b));
      EditMore(base, edits, Write(b, data), sb.size, sb.logstart);
      dino := dino[i := ip];
      edits := edits + [Write(b, data)];
      logged := logged + {b};
    }

    ghost predicate Full()
      reads this
      requires SuperOk(sb) && |blk| == sb.size
    {
      forall b | 0 <= b < sb.size :: Bit(sb, blk, b)
    }

    /** balloc(): the lowest unmarked block, marked and zeroed; 0 when every block is marked. */
    method Balloc(ghost pend: set<nat>) returns (r: nat)
      requires Inv(sb, blk, ino, own, pend) && OnlyLogged()
      modifies this`blk, this`logged, this`edits
      ensures OnlyLogged()
      ensures r == 0 <==> old(Full())
      ensures r == 0 ==> blk == old(blk) && logged == old(logged) && edits == old(edits)
      ensures r != 0 ==>
        && r < sb.size && !Bit(sb, old(blk), r) && (forall c | 0 <= c < r :: Bit(sb, old(blk), c))
        && blk == Alloc(sb, old(blk), r) && logged == old(logged) + {BBlock(sb, r), r}
    {
      var b := 0;
      while b < sb.size
        invariant blk == old(blk) && logged == old(logged) && edits == old(edits) && b % BPB == 0
        invariant forall c | 0 <= c < b && c < sb.size :: Bit(sb, blk, c)
      {
        var bi := FirstClear(b);
        if bi < BPB && b + bi < sb.size {
          assert Bit(sb, blk, 0);
          Take(b + bi, pend);
          return b + bi;
        }
        b := b + BPB;
      }
      return 0;
    }

    /** balloc()'s inner loop, over the bitmap block of `b`. */
    method FirstClear(b: nat) returns (bi: nat)
      requires SuperOk(sb) && |blk| == sb.size && b < sb.size && b % BPB == 0
      ensures bi <= BPB && (forall c | b <= c < b + bi && c < sb.size :: Bit(sb, blk, c))
      ensures if bi < BPB && b + bi < sb.size then !Bit(sb, blk, b + bi) else bi == BPB || b + bi == sb.size
    {
      var bp := blk[BBlock(sb, b)];
      bi := 0;
      while bi < BPB && b + bi < sb.size
        invariant bi <= BPB && b + bi <= sb.size && forall c | b <= c < b + bi && c < sb.size :: Bit(sb, blk, c)
      {
        SameMark(b, bi);
        if !BitAt(bp, bi) {
          return;
        }
        bi := bi + 1;
      }
    }

    /** A clear bit is set and its block zeroed. */
    method Take(b: nat, ghost pend: set<nat>)
      requires Inv(sb, blk, ino, own, pend) && OnlyLogged() && b < sb.size && !Bit(sb, blk, b)
      modifies this`blk, this`logged, this`edits
      ensures OnlyLogged()
      ensures blk == Alloc(sb, old(blk), b) && logged == old(logged) + {BBlock(sb, b), b}
    {
      LogBlock(BBlock(sb, b), WithBit(blk[BBlock(sb, b)], b % BPB, true));
      assert blk == PutMark(sb, old(blk), b, true);
      Bzero(b);
    }

    /** A block an inode points to lies past the bitmap. */
    lemma PastBitmap(i: nat, k: nat)
      requires Inv(sb, blk, ino, own, {}) && i < |ino| && k < NSLOT && Addr(blk, ino[i], k) != 0
      ensures sb.bmapstart <= Addr(blk, ino[i], k) < |blk|
    {
      assert Addr(blk, ino[i], k) in own;
    }

    lemma SameMark(b: nat, bi: nat)
      requires SuperOk(sb) && |blk| == sb.size && b % BPB == 0 && bi < BPB && b + bi < sb.size
      ensures BBlock(sb, b + bi) == BBlock(sb, b) && (b + bi) % BPB == bi
      ensures Bit(sb, blk, b + bi) == BitAt(blk[BBlock(sb, b)], bi)
    {
    }

    method Bzero(b: nat)
      requires sb.bmapstart <= b < |blk| && OnlyLogged()
      modifies this`blk, this`logged, this`edits
      ensures OnlyLogged()
      ensures blk == old(blk)[b := ZeroBlock()] && logged == old(logged) + {b}
    {
      LogBlock(b, ZeroBlock());
    }

    /** Fill an empty direct slot, or the slot of the indirect block; 0 when the disk is full. */
    method AllocSlot(i: nat, k: nat) returns (r: nat)
      requires Valid() && i < |ino| && k <= NDIRECT && ino[i].addrs[k] == 0
      modifies this`blk, this`ino, this`own, this`logged, this`edits
      ensures Valid()
      ensures AllSame(old(blk), old(ino), blk, ino)
      ensures ino == old(ino)[i := old(ino)[i].(addrs := old(ino)[i].addrs[k := r])]
      ensures r == 0 ==> Full() && blk == old(blk) && logged == old(logged) && edits == old(edits)
      ensures r != 0 ==> r < sb.size && logged == old(logged) + {BBlock(sb, r), r}
    {
      r := Balloc({});
      if r != 0 {
        FillDirect(sb, old(blk), ino, own, r, i, k);
        ino := ino[i := ino[i].(addrs := ino[i].addrs[k := r])];
        own := own[r := (i, k)];
      } else {
        assert ino[i].addrs[k := 0] == ino[i].addrs;
      }
    }

    /** Fill an empty entry of the indirect block; 0 when the disk is full. */
    method AllocEntry(i: nat, k: nat) returns (r: nat)
      requires Valid() && i < |ino| && NDIRECT < k < NSLOT && ino[i].addrs[NDIRECT] != 0
      requires Addr(blk, ino[i], k) == 0
      modifies this`blk, this`own, this`logged, this`edits
      ensures Valid()
      ensures AllSame(old(blk), ino, blk, ino)
      ensures r == Addr(blk, ino[i], k)
      ensures r == 0 ==> Full() && blk == old(blk) && logged == old(logged) && edits == old(edits)
      ensures r != 0 ==> r < sb.size && logged == old(logged) + {BBlock(sb, r), r, ino[i].addrs[NDIRECT]}
    {
      ghost var blk0 := blk;
      PastBitmap(i, NDIRECT);
      r := Balloc({});
      if r != 0 {
        EnterBlock(i, k, r, blk0);
      }
    }

    /** The new block `b` is entered in the indirect block. */
    method EnterBlock(i: nat, k: nat, b: nat, ghost blk0: Blocks)
      requires Inv(sb, blk0, ino, own, {}) && |dino| == |ino| && OnlyLogged() && b < sb.size && !Bit(sb, blk0, b)
      requires i < |ino| && NDIRECT < k < NSLOT && ino[i].addrs[NDIRECT] != 0 && Addr(blk0, ino[i], k) == 0
      requires blk == Alloc(sb, blk0, b) && sb.bmapstart <= ino[i].addrs[NDIRECT] < |blk|
      modifies this`blk, this`own, this`logged, this`edits
      ensures Valid() && AllSame(blk0, ino, blk, ino)
      ensures b == Addr(blk, ino[i], k)
      ensures logged == old(logged) + {ino[i].addrs[NDIRECT]}
    {
      FillIndirect(sb, blk0, ino, own, b, i, k);
      var ind := ino[i].addrs[NDIRECT];
      LogBlock(ind, PutWord(blk[ind], k - NDIRECT - 1, b));
      own := own[b := (i, k)];
    }

    /** The address in a direct slot or of the indirect block, allocated if it was missing. */
    method EnsureSlot(i: nat, k: nat) returns (r: nat, ghost marks: set<nat>)
      requires Valid() && i < |ino| && k <= NDIRECT
      modifies this`blk, this`ino, this`own, this`logged, this`edits
      ensures Valid() && AllSame(old(blk), old(ino), blk, ino)
      ensures ino == old(ino)[i := old(ino)[i].(addrs := old(ino)[i].addrs[k := r])]
      ensures r == 0 ==> Full()
      ensures old(ino)[i].addrs[k] != 0 ==> blk == old(blk) && ino == old(ino) && logged == old(logged) && edits == old(edits) && marks == {}
      ensures logged <= old(logged) + marks + (if r == 0 then {} else {r})
      ensures |marks| <= if old(ino)[i].addrs[k] == 0 && r != 0 then 1 else 0
    {
      marks := {};
      r := ino[i].addrs[k];
      if r == 0 {
        r := AllocSlot(i, k);
        if r != 0 {
          marks := {BBlock(sb, r)};
        }
      } else {
        assert ino[i].addrs[k := r] == ino[i].addrs;
      }
    }

    /** The address in an entry of the indirect block, allocated if it was missing. */
    method EnsureEntry(i: nat, k: nat) returns (r: nat, ghost marks: set<nat>)
      requires Valid() && i < |ino| && NDIRECT < k < NSLOT && ino[i].addrs[NDIRECT] != 0
      modifies this`blk, this`own, this`logged, this`edits
      ensures Valid() && AllSame(old(blk), ino, blk, ino)
      ensures r == Addr(blk, ino[i], k)
      ensures r == 0 ==> Full()
      ensures old(Addr(blk, ino[i], k)) != 0 ==> blk == old(blk) && logged == old(logged) && edits == old(edits) && marks == {}
      ensures logged <= old(logged) + marks + (if r == 0 then {} else {r}) + {ino[i].addrs[NDIRECT]}
      ensures |marks| <= if old(Addr(blk, ino[i], k)) == 0 && r != 0 then 1 else 0
    {
      marks := {};
      var ind := ino[i].addrs[NDIRECT];
      assert Addr(blk, ino[i], NDIRECT) == ind;
      r := Word(blk[ind], k - NDIRECT - 1);
      if r == 0 {
        r := AllocEntry(i, k);
        if r != 0 {
          marks := {BBlock(sb, r)};
        }
      }
    }

    /** bmap() past the direct blocks. */
    method BmapIndirect(i: nat, k: nat) returns (r: nat, ghost marks: set<nat>)
      requires Valid() && i < |ino| && NDIRECT < k < NSLOT
      modifies this`blk, this`ino, this`own, this`logged, this`edits
      ensures Valid() && AllSame(old(blk), old(ino), blk, ino)
      ensures ino == old(ino)[i := old(ino)[i].(addrs := old(ino)[i].addrs[NDIRECT := ino[i].addrs[NDIRECT]])]
      ensures r == Addr(blk, ino[i], k)
      ensures r == 0 ==> Full()
      ensures old(Addr(blk, ino[i], k)) != 0 ==>
        blk == old(blk) && ino == old(ino) && logged == old(logged) && edits == old(edits) && marks == {}
      ensures old(ino)[i].addrs[NDIRECT] != 0 ==> ino[i].addrs[NDIRECT] == old(ino)[i].addrs[NDIRECT]
      ensures logged <= old(logged) + marks + (if r == 0 then {} else {r}) + IndirectOf(ino[i])
      ensures |marks| <= (if old(Addr(blk, ino[i], k)) == 0 && r != 0 then 1 else 0)
                         + |IndirectOf(ino[i])| - |IndirectOf(old(ino)[i])|
    {
      if ino[i].addrs[NDIRECT] == 0 {
        r, marks := FirstIndirect(i, k);
      } else {
        r, marks := EnsureEntry(i, k);
        assert ino[i].addrs[NDIRECT := ino[i].addrs[NDIRECT]] == ino[i].addrs;
      }
    }

    /** The same, for an inode without an indirect block so far. */
    method FirstIndirect(i: nat, k: nat) returns (r: nat, ghost marks: set<nat>)
      requires Valid() && i < |ino| && NDIRECT < k < NSLOT && ino[i].addrs[NDIRECT] == 0
      modifies this`blk, this`ino, this`own, this`logged, this`edits
      ensures Valid() && AllSame(old(blk), old(ino), blk, ino)
      ensures ino == old(ino)[i := old(ino)[i].(addrs := old(ino)[i].addrs[NDIRECT := ino[i].addrs[NDIRECT]])]
      ensures r == Addr(blk, ino[i], k)
      ensures r == 0 ==> Full()
      ensures logged <= old(logged) + marks + (if r == 0 then {} else {r}) + IndirectOf(ino[i])
      ensures |marks| <= (if r != 0 then 1 else 0) + |IndirectOf(ino[i])|
    {
      var ind;
      ind, marks := EnsureSlot(i, NDIRECT);
      if ind == 0 {
        return 0, marks;
      }
      ghost var blk1, ino1, logged1, more := blk, ino, logged, {};
      r, more := EnsureEntry(i, k);
      AllSameTrans(old(blk), old(ino), blk1, ino1, blk, ino);
      LoggedTwice(old(logged), logged1, logged, marks, more, if r == 0 then {} else {r}, IndirectOf(ino[i]));
      marks := marks + more;
    }

    /** bmap(): the address of the `bn`th block, allocated if it was missing; 0 when the disk is full. `marks` is the set
        of bitmap blocks it may have logged: one per block allocated. */
    method Bmap(i: nat, bn: nat) returns (r: nat, ghost marks: set<nat>)
      requires Valid() && i < |ino| && bn < MAXFILE
      modifies this`blk, this`ino, this`own, this`logged, this`edits
      ensures Valid() && AllSame(old(blk), old(ino), blk, ino)
      ensures ino == old(ino)[i := old(ino)[i].(addrs := ino[i].addrs)]
      ensures r == DataAddr(blk, ino[i], bn)
      ensures r == 0 ==> Full()
      ensures old(DataAddr(blk, ino[i], bn)) != 0 ==>
        r != 0 && blk == old(blk) && ino == old(ino) && logged == old(logged) && edits == old(edits) && marks == {}
      ensures old(ino)[i].addrs[NDIRECT] != 0 ==> ino[i].addrs[NDIRECT] == old(ino)[i].addrs[NDIRECT]
      ensures logged <= old(logged) + marks + (if r == 0 then {} else {r}) + IndirectOf(ino[i])
      ensures |marks| <= (if old(DataAddr(blk, ino[i], bn)) == 0 && r != 0 then 1 else 0) + |IndirectOf(ino[i])| - |IndirectOf(old(ino)[i])|
    {
      if bn < NDIRECT {
        r, marks := EnsureSlot(i, bn);
      } else {
        r, marks := BmapIndirect(i, DataSlot(bn));
      }
    }

    /** iupdate(): the in-core inode goes to its place on disk. */
    method Iupdate(i: nat)
      requires i < |ino| == |dino| && OnlyLogged()
      modifies this`dino, this`logged, this`edits
      ensures OnlyLogged() && dino == old(dino)[i := ino[i]]
      ensures logged == old(logged) + {IBlock(sb, i)}
    {
      LogInode(i, ino[i]);
    }

    /** A write to inode `i` that has copied `tot` bytes. */
    ghost predicate Progress(i: nat, off: nat, src: seq<Byte>, tot: nat, blk0: Blocks, ino0: seq<Inode>)
      reads this
    {
      && Valid() && i < |ino| == |ino0| && (forall j | 0 <= j < |ino0| :: |ino0[j].addrs| == NDIRECT + 1)
      && Writing(blk0, ino0[i], blk, ino[i], off, src, tot)
      && OthersSame(blk0, ino0, blk, ino, i)
      && ino[i] == ino0[i].(addrs := ino[i].addrs)
    }

    /** The bmap call of one turn of writei()'s loop. */
    method MapTurn(i: nat, off: nat, src: seq<Byte>, tot: nat, ghost blk0: Blocks, ghost ino0: seq<Inode>)
        returns (addr: nat, ghost more: set<nat>)
      requires tot < |src| && Progress(i, off, src, tot, blk0, ino0)
      modifies this`blk, this`ino, this`own, this`logged, this`edits
      ensures Progress(i, off, src, tot, blk0, ino0)
      ensures addr == DataAddr(blk, ino[i], (off + tot) / BSIZE)
      ensures addr == 0 ==> Full()
      ensures IndirectOf(old(ino)[i]) <= IndirectOf(ino[i])
      ensures logged <= old(logged) + more + (if addr == 0 then {} else {addr}) + IndirectOf(ino[i])
      ensures |more| <= (if old(DataAddr(blk, ino[i], (off + tot) / BSIZE)) == 0 && addr != 0 then 1 else 0)
                        + |IndirectOf(ino[i])| - |IndirectOf(old(ino)[i])|
    {
      ghost var blk1, ino1 := blk, ino;
      InvInRange(sb, blk, ino, own, {}, i);
      addr, more := Bmap(i, (off + tot) / BSIZE);
      WritingKept(blk0, ino0[i], blk1, ino1[i], off, src, tot, blk, ino[i]);
      OthersSameTrans(blk0, ino0, blk1, ino1, blk, ino, i);
    }

    /** One turn of writei()'s loop: map the block, copy into it, log it. Returns 0 when the disk is full. `more` is the set
        of bitmap blocks it may have logged. */
    method WriteTurn(i: nat, off: nat, src: seq<Byte>, tot: nat, ghost blk0: Blocks, ghost ino0: seq<Inode>)
        returns (next: nat, ghost addr: nat, ghost more: set<nat>)
      requires tot < |src| && Progress(i, off, src, tot, blk0, ino0)
      modifies this`blk, this`ino, this`own, this`logged, this`edits
      ensures next == if addr == 0 then tot else tot + Piece(off, |src|, tot)
      ensures Progress(i, off, src, next, blk0, ino0)
      ensures addr == 0 ==> Full()
      ensures IndirectOf(old(ino)[i]) <= IndirectOf(ino[i])
      ensures logged <= old(logged) + more + (if addr == 0 then {} else {addr}) + IndirectOf(ino[i])
      ensures |more| <= (if old(DataAddr(blk, ino[i], (off + tot) / BSIZE)) == 0 && addr != 0 then 1 else 0)
                        + |IndirectOf(ino[i])| - |IndirectOf(old(ino)[i])|
    {
      var a;
      a, more := MapTurn(i, off, src, tot, blk0, ino0);
      addr := a;
      if a == 0 {
        return tot, addr, more;
      }
      next := tot + Piece(off, |src|, tot);
      PutPiece(i, off, src, tot, a, blk0, ino0);
    }

    /** The copy and log_write of one turn. */
    method PutPiece(i: nat, off: nat, src: seq<Byte>, tot: nat, addr: nat, ghost blk0: Blocks, ghost ino0: seq<Inode>)
      requires tot < |src| && Progress(i, off, src, tot, blk0, ino0)
      requires addr == DataAddr(blk, ino[i], (off + tot) / BSIZE) != 0
      modifies this`blk, this`logged, this`edits
      ensures Progress(i, off, src, tot + Piece(off, |src|, tot), blk0, ino0)
      ensures logged == old(logged) + {addr}
    {
      var bn, o := (off + tot) / BSIZE, (off + tot) % BSIZE;
      InvInRange(sb, blk, ino, own, {}, i);
      var bp := Splice(blk[addr], o, src[tot..tot + Piece(off, |src|, tot)]);
      PutDataKeepsInv(sb, blk, ino, own, {}, i, bn, bp);
      PutDataSame(sb, blk, ino, own, i, bn, bp);
      ghost var blk1 := blk;
      LogBlock(addr, bp);
      WritingNext(blk0, ino0[i], blk1, ino[i], off, src, tot, addr, blk);
      OthersSameTrans(blk0, ino0, blk1, ino, blk, ino, i);
    }

    /** The size update at the end of writei(). */
    method SetSize(i: nat, off: nat, src: seq<Byte>, tot: nat, ghost blk0: Blocks, ghost ino0: seq<Inode>)
      requires Progress(i, off, src, tot, blk0, ino0)
      modifies this`ino
      ensures Valid()
      ensures ino == old(ino)[i := old(ino)[i].(size := ino[i].size)]
      ensures Content(blk, ino[i]) == Overwrite(Content(blk0, ino0[i]), off, src[..tot])
      ensures OthersSame(blk0, ino0, blk, ino, i)
    {
      ghost var ip := ino[i].(size := if off + tot > ino[i].size then off + tot else ino[i].size);
      WritingEnds(blk0, ino0[i], blk, ino[i], off, src, tot, ip);
      ResizeKeepsInv(sb, blk, ino, own, {}, i, ip);
      if off + tot > ino[i].size {
        ino := ino[i := ino[i].(size := off + tot)];
      } else {
        assert ino[i := ip] == ino;
      }
    }

    /** writei()'s loop. */
    method WriteLoop(i: nat, off: nat, src: seq<Byte>)
        returns (tot: nat, ghost data: set<nat>, ghost marks: set<nat>, ghost t: nat)
      requires Valid() && i < |ino| && off <= ino[i].size && off + |src| <= MAXBYTES
      modifies this`blk, this`ino, this`own, this`logged, this`edits
      ensures Progress(i, off, src, tot, old(blk), old(ino))
      ensures Budget(logged, old(logged), data, marks, IndirectOf(ino[i]), IndirectOf(old(ino)[i]), t, off % BSIZE == 0)
      ensures t <= Turns(off, |src|, 0)
      ensures tot <= |src| && (tot < |src| ==> Full())
    {
      ghost var blk0, ino0, logged0 := blk, ino, logged;
      data, marks, t := {}, {}, 0;
      WritingStarts(blk, ino[i], off, src);
      tot := 0;
      while tot < |src|
        invariant tot <= |src| && t + Turns(off, |src|, tot) == Turns(off, |src|, 0) && (t == 0 ==> tot == 0)
        invariant Progress(i, off, src, tot, blk0, ino0)
        invariant Budget(logged, logged0, data, marks, IndirectOf(ino[i]), IndirectOf(ino0[i]), t, off % BSIZE == 0)
      {
        var next;
        next, data, marks := WriteStep(i, off, src, tot, blk0, ino0, logged0, data, marks, t);
        if next == tot {
          return;
        }
        tot, t := next, t + 1;
      }
    }

    /** A turn with its share of the log accounted for: `data` and `marks` cover what `t` turns have logged. */
    method WriteStep(i: nat, off: nat, src: seq<Byte>, tot: nat, ghost blk0: Blocks, ghost ino0: seq<Inode>,
                     ghost logged0: set<nat>, ghost data: set<nat>, ghost marks: set<nat>, ghost t: nat)
        returns (next: nat, ghost data': set<nat>, ghost marks': set<nat>)
      requires tot < |src| && (t == 0 ==> tot == 0) && Progress(i, off, src, tot, blk0, ino0)
      requires Budget(logged, logged0, data, marks, IndirectOf(ino[i]), IndirectOf(ino0[i]), t, off % BSIZE == 0)
      modifies this`blk, this`ino, this`own, this`logged, this`edits
      ensures tot <= next <= |src|
      ensures next != tot ==> Turns(off, |src|, tot) == 1 + Turns(off, |src|, next)
      ensures Progress(i, off, src, next, blk0, ino0)
      ensures next == tot ==> Full()
      ensures Budget(logged, logged0, data', marks', IndirectOf(ino[i]), IndirectOf(ino0[i]),
                     if next == tot then t else t + 1, off % BSIZE == 0)
    {
      ghost var ind, logged1, missing := IndirectOf(ino[i]), logged, Missing(i, off + tot);
      NotMissing(i, off, src, tot, blk0, ino0);
      ghost var addr, more;
      next, addr, more := WriteTurn(i, off, src, tot, blk0, ino0);
      BudgetBmap(logged1, logged0, data, marks, ind, IndirectOf(ino0[i]), t, off % BSIZE == 0,
                 logged, more, IndirectOf(ino[i]), addr, missing);
      data', marks' := if addr == 0 then data else data + {addr}, marks + more;
    }

    ghost predicate Missing(i: nat, p: nat)
      reads this
      requires i < |ino| && |ino[i].addrs| == NDIRECT + 1 && p < MAXBYTES
    {
      DataAddr(blk, ino[i], p / BSIZE) == 0
    }

    lemma NotMissing(i: nat, off: nat, src: seq<Byte>, tot: nat, blk0: Blocks, ino0: seq<Inode>)
      requires tot < |src| && Progress(i, off, src, tot, blk0, ino0)
      ensures tot == 0 && off % BSIZE != 0 ==> !Missing(i, off + tot)
    {
    }

    /** writei(): the number of bytes written, or -1 for an offset past the end, a 32-bit overflow or a file that would
        grow too large. */
    method Writei(i: nat, off: nat, src: seq<Byte>) returns (r: int)
      requires Valid() && i < |ino| && off < WORD && |src| < WORD
      modifies this`blk, this`ino, this`dino, this`own, this`logged, this`edits
      ensures Valid() && |ino| == old(|ino|)
      ensures r == -1 <==> off > old(ino)[i].size || (off + |src|) % WORD < off || off + |src| > MAXBYTES
      ensures r == -1 ==> blk == old(blk) && ino == old(ino) && dino == old(dino) && logged == old(logged) && edits == old(edits)
      ensures r != -1 ==>
        && 0 <= r <= |src|
        && Content(blk, ino[i]) == Overwrite(Content(old(blk), old(ino)[i]), off, src[..r])
        && ino[i] == old(ino)[i].(size := ino[i].size, addrs := ino[i].addrs)
        && OthersSame(old(blk), old(ino), blk, ino, i)
        && dino == old(dino)[i := ino[i]]
        && (r < |src| ==> Full())
      ensures r != -1 && |src| <= 3 * BSIZE && old(logged) == {} ==> |logged| <= MAXOPBLOCKS
    {
      if off > ino[i].size || (off + |src|) % WORD < off {
        return -1;
      }
      if off + |src| > MAXBYTES {
        return -1;
      }
      ghost var blk0, ino0, logged0 := blk, ino, logged;
      var tot, data, marks, t := WriteLoop(i, off, src);
      if logged0 == {} && |src| <= 3 * BSIZE {
        BudgetChunk(logged, data, marks, IndirectOf(ino[i]), IndirectOf(ino0[i]), t, off, |src|, IBlock(sb, i));
      }
      SetSize(i, off, src, tot, blk0, ino0);
      Iupdate(i);
      return tot;
    }

    /** readi(): the bytes of the file in the range. Every block below the size is there, so nothing is allocated or
        logged. */
    method Readi(i: nat, off: nat, n: nat) returns (r: seq<Byte>)
      requires Valid() && i < |ino| && off < WORD && n < WORD
      modifies this`blk, this`ino, this`own, this`logged, this`edits
      ensures Valid() && blk == old(blk) && ino == old(ino) && logged == old(logged) && edits == old(edits)
      ensures r == if off > ino[i].size || (off + n) % WORD < off then []
                   else Content(blk, ino[i])[off..if off + n > ino[i].size then ino[i].size else off + n]
    {
      if off > ino[i].size || (off + n) % WORD < off {
        return [];
      }
      var end := if off + n > ino[i].size then ino[i].size else off + n;
      ghost var c := Content(blk, ino[i]);
      r := [];
      var p := off;
      while p < end
        invariant Valid() && blk == old(blk) && ino == old(ino) && logged == old(logged) && edits == old(edits)
        invariant off <= p <= end && r == c[off..p]
      {
        var d, next := ReadTurn(i, p, end);
        if next == p {
          break;
        }
        SliceAppend(c, off, p, next);
        r, p := r + d, next;
      }
    }

    /** One turn of readi()'s loop. */
    method ReadTurn(i: nat, p: nat, end: nat) returns (d: seq<Byte>, next: nat)
      requires Valid() && i < |ino| && p < end <= ino[i].size
      modifies this`blk, this`ino, this`own, this`logged, this`edits
      ensures Valid() && blk == old(blk) && ino == old(ino) && logged == old(logged) && edits == old(edits)
      ensures p < next <= end && d == Content(blk, ino[i])[p..next]
    {
      ReadableBlock(i, p);
      var addr := BmapPresent(i, p / BSIZE);
      if addr == 0 {
        return [], p;
      }
      var o, m := p % BSIZE, Piece(p, end - p, 0);
      PieceRead(blk, ino[i], p, m);
      return blk[addr][o..o + m], p + m;
    }

    /** bmap() of a block that is there only reads. */
    method BmapPresent(i: nat, bn: nat) returns (r: nat)
      requires Valid() && i < |ino| && bn < MAXFILE && DataAddr(blk, ino[i], bn) != 0
      modifies this`blk, this`ino, this`own, this`logged, this`edits
      ensures Valid() && blk == old(blk) && ino == old(ino) && logged == old(logged) && edits == old(edits)
      ensures r == DataAddr(blk, ino[i], bn) && 0 < r < |blk|
    {
      InvInRange(sb, blk, ino, own, {}, i);
      ghost var marks;
      r, marks := Bmap(i, bn);
    }

    lemma ReadableBlock(i: nat, p: nat)
      requires Valid() && i < |ino| && p < ino[i].size
      ensures p / BSIZE < MAXFILE && DataAddr(blk, ino[i], p / BSIZE) != 0
    {
    }

    /** bfree(): false is the panic "freeing free block". */
    method Bfree(b: nat) returns (ok: bool)
      requires SuperOk(sb) && |blk| == sb.size && b < sb.size && OnlyLogged()
      modifies this`blk, this`logged, this`edits
      ensures OnlyLogged()
      ensures ok <==> Bit(sb, old(blk), b)
      ensures !ok ==> blk == old(blk) && logged == old(logged) && edits == old(edits)
      ensures ok ==> blk == PutMark(sb, old(blk), b, false) && logged == old(logged) + {BBlock(sb, b)}
    {
      var bp, bi := blk[BBlock(sb, b)], b % BPB;
      if !BitAt(bp, bi) {
        return false;
      }
      LogBlock(BBlock(sb, b), WithBit(bp, bi, false));
      return true;
    }

    /** One bfree() call of itrunc() on the block in slot `k`, after the blocks in `freed`. It does not panic. */
    method FreeSlot(i: nat, k: nat, b: nat, ghost blk0: Blocks, ghost ino0: seq<Inode>, ghost freed: set<nat>) returns (ok: bool)
      requires Inv(sb, blk0, ino0, own, {}) && i < |ino0| && k < NSLOT && b == Addr(blk0, ino0[i], k) != 0
      requires Cleared(sb, blk0, blk, freed) && b !in freed && OnlyLogged()
      modifies this`blk, this`logged, this`edits
      ensures ok && Cleared(sb, blk0, blk, freed + {b}) && OnlyLogged()
    {
      ClearOne(sb, blk0, blk, freed, b);
      assert Bit(sb, blk0, b);
      ok := Bfree(b);
    }

    /** itrunc(): every block the inode holds is released, and nothing else; bfree() never panics. */
    method Itrunc(i: nat) returns (ok: bool)
      requires Valid() && i < |ino|
      modifies this`blk, this`ino, this`dino, this`own, this`logged, this`edits
      ensures ok && Valid()
      ensures ino == old(ino)[i := old(ino)[i].(size := 0, addrs := FreeInode.addrs)]
      ensures dino == old(dino)[i := ino[i]]
      ensures Cleared(sb, old(blk), blk, Held(old(blk), old(ino)[i], 0, NSLOT))
      ensures own == old(own) - Held(old(blk), old(ino)[i], 0, NSLOT)
    {
      ghost var blk0, ino0, ip0 := blk, ino, ino[i];
      ok := FreeDirect(i);
      if !ok {
        return;
      }
      ok := FreeIndirect(i, blk0, ino0);
      if !ok {
        return;
      }
      assert FreeInode.addrs[NDIRECT := ip0.addrs[NDIRECT]][NDIRECT := 0] == FreeInode.addrs;
      ino := ino[i := ino[i].(size := 0)];
      assert ino == ino0[i := ip0.(size := 0, addrs := FreeInode.addrs)];
      TruncKeepsInv(sb, blk0, ino0, own, {}, i, blk, ip0.(size := 0, addrs := FreeInode.addrs));
      own := own - Held(blk0, ip0, 0, NSLOT);
      Iupdate(i);
    }

    /** itrunc()'s first loop, over the direct blocks. */
    method FreeDirect(i: nat) returns (ok: bool)
      requires Valid() && i < |ino|
      modifies this`blk, this`ino, this`logged, this`edits
      ensures ok
      ensures Cleared(sb, old(blk), blk, Held(old(blk), old(ino)[i], 0, NDIRECT)) && OnlyLogged()
      ensures ino == old(ino)[i := old(ino)[i].(addrs := FreeInode.addrs[NDIRECT := old(ino)[i].addrs[NDIRECT]])]
    {
      ghost var blk0, ino0, ip0 := blk, ino, ino[i];
      var k := 0;
      while k < NDIRECT
        invariant k <= NDIRECT && |ino| == |ino0|
        invariant ino == ino0[i := ip0.(addrs := ino[i].addrs)] && |ino[i].addrs| == NDIRECT + 1
        invariant forall j | 0 <= j <= NDIRECT :: ino[i].addrs[j] == if j < k then 0 else ip0.addrs[j]
        invariant Cleared(sb, blk0, blk, Held(blk0, ip0, 0, k)) && OnlyLogged()
      {
        HeldNext(blk0, ip0, 0, k);
        if ino[i].addrs[k] != 0 {
          HeldOnce(sb, blk0, ino0, own, i, 0, k, k);
          ok := FreeSlot(i, k, ino[i].addrs[k], blk0, ino0, Held(blk0, ip0, 0, k));
          if !ok {
            return;
          }
          ino := ino[i := ino[i].(addrs := ino[i].addrs[k := 0])];
        }
        k := k + 1;
      }
      assert ino[i].addrs == FreeInode.addrs[NDIRECT := ip0.addrs[NDIRECT]];
      return true;
    }

    /** The rest of itrunc(): the entries of the indirect block, then the block itself. */
    method FreeIndirect(i: nat, ghost blk0: Blocks, ghost ino0: seq<Inode>) returns (ok: bool)
      requires Inv(sb, blk0, ino0, own, {}) && i < |ino| == |ino0| && |ino[i].addrs| == NDIRECT + 1
      requires ino[i].addrs[NDIRECT] == ino0[i].addrs[NDIRECT]
      requires Cleared(sb, blk0, blk, Held(blk0, ino0[i], 0, NDIRECT)) && OnlyLogged()
      modifies this`blk, this`ino, this`logged, this`edits
      ensures ok
      ensures Cleared(sb, blk0, blk, Held(blk0, ino0[i], 0, NSLOT)) && OnlyLogged()
      ensures ino == old(ino)[i := old(ino)[i].(addrs := old(ino)[i].addrs[NDIRECT := 0])]
    {
      ghost var ip0, freed := ino0[i], Held(blk0, ino0[i], 0, NDIRECT);
      var ind := ino[i].addrs[NDIRECT];
      HeldSplit(blk0, ip0);
      if ind == 0 {
        assert ino[i].addrs[NDIRECT := 0] == ino[i].addrs;
        return true;
      }
      assert ind == Addr(blk0, ip0, NDIRECT);
      ok := FreeEntries(i, ind, blk0, ino0);
      if !ok {
        return;
      }
      freed := freed + Held(blk0, ip0, NDIRECT + 1, NSLOT);
      HeldOnce(sb, blk0, ino0, own, i, 0, NDIRECT, NDIRECT);
      HeldOnce(sb, blk0, ino0, own, i, NDIRECT + 1, NSLOT, NDIRECT);
      ok := FreeSlot(i, NDIRECT, ind, blk0, ino0, freed);
      ino := ino[i := ino[i].(addrs := ino[i].addrs[NDIRECT := 0])];
    }

    /** itrunc()'s second loop, over the entries of the indirect block. */
    method FreeEntries(i: nat, ind: nat, ghost blk0: Blocks, ghost ino0: seq<Inode>) returns (ok: bool)
      requires Inv(sb, blk0, ino0, own, {}) && i < |ino0| && ind == ino0[i].addrs[NDIRECT] != 0
      requires Cleared(sb, blk0, blk, Held(blk0, ino0[i], 0, NDIRECT)) && OnlyLogged()
      modifies this`blk, this`logged, this`edits
      ensures ok
      ensures Cleared(sb, blk0, blk, Held(blk0, ino0[i], 0, NDIRECT) + Held(blk0, ino0[i], NDIRECT + 1, NSLOT))
      ensures OnlyLogged()
    {
      assert ind == Addr(blk0, ino0[i], NDIRECT);
      var a := blk[ind];
      var k := NDIRECT + 1;
      while k < NSLOT
        invariant NDIRECT < k <= NSLOT
        invariant Cleared(sb, blk0, blk, Held(blk0, ino0[i], 0, NDIRECT) + Held(blk0, ino0[i], NDIRECT + 1, k))
        invariant OnlyLogged()
      {
        ok := FreeEntry(i, k, Word(a, k - NDIRECT - 1), blk0, ino0);
        if !ok {
          return;
        }
        k := k + 1;
      }
      return true;
    }

    method FreeEntry(i: nat, k: nat, b: nat, ghost blk0: Blocks, ghost ino0: seq<Inode>) returns (ok: bool)
      requires Inv(sb, blk0, ino0, own, {}) && i < |ino0| && NDIRECT < k < NSLOT && b == Addr(blk0, ino0[i], k)
      requires Cleared(sb, blk0, blk, Held(blk0, ino0[i], 0, NDIRECT) + Held(blk0, ino0[i], NDIRECT + 1, k)) && OnlyLogged()
      modifies this`blk, this`logged, this`edits
      ensures ok
      ensures Cleared(sb, blk0, blk, Held(blk0, ino0[i], 0, NDIRECT) + Held(blk0, ino0[i], NDIRECT + 1, k + 1))
      ensures OnlyLogged()
    {
      ghost var direct, before := Held(blk0, ino0[i], 0, NDIRECT), Held(blk0, ino0[i], NDIRECT + 1, k);
      HeldNext(blk0, ino0[i], NDIRECT + 1, k);
      if b == 0 {
        return true;
      }
      HeldOnce(sb, blk0, ino0, own, i, 0, NDIRECT, k);
      HeldOnce(sb, blk0, ino0, own, i, NDIRECT + 1, k, k);
      ok := FreeSlot(i, k, b, blk0, ino0, direct + before);
      assert direct + before + {b} == direct + (before + {b});
    }

    /** ialloc(): the lowest free inode but the 0th, cleared and typed. */
    method Ialloc(typ: int) returns (r: Option<nat>)
      requires Valid() && typ != 0 && FreeInodesEmpty()
      modifies this`ino, this`dino, this`logged, this`edits
      ensures Valid() && FreeInodesEmpty()
      ensures r.None? <==> forall j | 1 <= j < |old(dino)| :: old(dino)[j].typ != 0
      ensures r.None? ==> ino == old(ino) && dino == old(dino)
      ensures r.Some? ==>
        && 1 <= r.value < |old(dino)| && old(dino)[r.value].typ == 0
        && (forall j | 1 <= j < r.value :: old(dino)[j].typ != 0)
        && dino == old(dino)[r.value := FreeInode.(typ := typ)]
        && ino == old(ino)[r.value := FreeInode.(typ := typ)]
    {
      var inum := 1;
      while inum < |dino|
        invariant forall j | 1 <= j < inum && j < |dino| :: dino[j].typ != 0
        invariant ino == old(ino) && dino == old(dino)
      {
        if dino[inum].typ == 0 {
          LogInode(inum, FreeInode.(typ := typ));
          ResizeKeepsInv(sb, blk, ino, own, {}, inum, FreeInode.(typ := typ));
          ino := ino[inum := dino[inum]];
          return Some(inum);
        }
        inum := inum + 1;
      }
      return None;
    }

    /** An inode of type 0 holds nothing, in core and on disk alike. */
    ghost predicate FreeInodesEmpty()
      reads this
    {
      && |dino| == |ino|
      && (forall j | 0 <= j < |ino| :: (ino[j].typ == 0 || dino[j].typ == 0) ==>
            ino[j].typ == dino[j].typ && ino[j].size == 0 && ino[j].addrs == FreeInode.addrs)
    }

    /** iput() for inode `i`, which is in core (`valid`) with `ref` references: the last reference to an inode without
        links frees it and its blocks. */
    method Iput(i: nat, ref: nat, valid: bool) returns (ok: bool, freed: bool)
      requires Valid() && FreeInodesEmpty() && i < |ino| && ref >= 1
      modifies this`blk, this`ino, this`dino, this`own, this`logged, this`edits
      ensures ok && Valid() && FreeInodesEmpty()
      ensures freed <==> ref == 1 && valid && old(ino)[i].nlink == 0
      ensures !freed ==> blk == old(blk) && ino == old(ino) && dino == old(dino)
      ensures freed ==>
        && ino == old(ino)[i := old(ino)[i].(typ := 0, size := 0, addrs := FreeInode.addrs)]
        && dino == old(dino)[i := ino[i]]
        && Cleared(sb, old(blk), blk, Held(old(blk), old(ino)[i], 0, NSLOT))
    {
      if ref == 1 && valid && ino[i].nlink == 0 {
        ok := Itrunc(i);
        ghost var ip := ino[i].(typ := 0);
        ResizeKeepsInv(sb, blk, ino, own, {}, i, ip);
        ino := ino[i := ino[i].(typ := 0)];
        Iupdate(i);
        return true, true;
      }
      return true, false;
    }
  }
}
