/** Reading and writing through an open file, from kernel/fs/file.c, down to the disk: filewrite() is a sequence of
    transactions, and whatever crashes there are, the disk after recovery is the one between two of them. */
module File {
  import opened Collections
  import opened Params
  import opened Words
  import opened Crash
  import opened Inodes
  import opened FileData
  import opened DiskImage
  import opened Edits
  import opened Transactions
  import opened Fs
  import opened Readers
  import opened Log

  /** `max` in filewrite(). */
  const CHUNK: nat := (MAXOPBLOCKS - 1 - 1 - 2) / 2 * BSIZE

  class OpenFile {
    const ip: nat
    const readable: bool
    const writable: bool
    var off: nat

    constructor (ip: nat, readable: bool, writable: bool)
      ensures this.ip == ip && this.readable == readable && this.writable == writable && off == 0
    {
      this.ip, this.readable, this.writable, off := ip, readable, writable, 0;
    }
  }

  /** fileread() of an inode: the next bytes of the file, and the offset past them. None is the return value -1. */
  method Fileread(fs: FileSystem, f: OpenFile, n: nat) returns (r: Option<seq<Byte>>)
    requires fs.Valid() && f.ip < |fs.ino| && f.off < WORD && n < WORD
    modifies f`off, fs`blk, fs`ino, fs`own, fs`logged, fs`edits
    ensures fs.Valid() && fs.blk == old(fs.blk) && fs.ino == old(fs.ino) && fs.edits == old(fs.edits)
    ensures r.None? <==> !f.readable
    ensures f.off == old(f.off) + if r.Some? then |r.value| else 0
    ensures r.Some? && (old(f.off) > fs.ino[f.ip].size || old(f.off) + n >= WORD) ==> r.value == []
    ensures r.Some? && old(f.off) <= fs.ino[f.ip].size && old(f.off) + n < WORD ==>
      && f.off <= fs.ino[f.ip].size
      && r.value == Content(fs.blk, fs.ino[f.ip])[old(f.off)..f.off]
      && (|r.value| == n || f.off == fs.ino[f.ip].size)
  {
    if !f.readable {
      return None;
    }
    var d := fs.Readi(f.ip, f.off, n);
    f.off := f.off + |d|;
    return Some(d);
  }

  /** The file after the first `w` bytes of `src` were written at `off`, or nothing if `off` is past its end. */
  ghost predicate Holds(c: seq<Byte>, c0: seq<Byte>, off: nat, src: seq<Byte>, w: nat) {
    && w <= |src|
    && (off <= |c0| ==> c == Overwrite(c0, off, src[..w]))
    && (off > |c0| ==> c == c0 && w == 0)
  }

  lemma HoldsMore(c: seq<Byte>, c0: seq<Byte>, off: nat, at: nat, src: seq<Byte>, w: nat, chunk: seq<Byte>, r: nat, next: nat,
                  c': seq<Byte>)
    requires Holds(c, c0, off, src, w) && at == off + w <= |c| && w + |chunk| <= |src| && chunk == src[w..w + |chunk|]
    requires r <= |chunk| && next == w + r && c' == Overwrite(c, at, chunk[..r])
    ensures Holds(c', c0, off, src, next)
  {
    if off <= |c0| {
      OverwriteTwice(c0, off, src[..w], chunk[..r]);
      assert src[..w] + chunk[..r] == src[..next];
    }
  }

  /** What was written reads back, after what was there. */
  lemma ReadBack(c: seq<Byte>, c0: seq<Byte>, off: nat, src: seq<Byte>, w: nat)
    requires Holds(c, c0, off, src, w) && off <= |c0|
    ensures off + w <= |c| && c[off..off + w] == src[..w] && c[..off] == c0[..off]
    ensures off + w <= |c0| ==> c[off + w..] == c0[off + w..]
  {
    OverwriteReads(c0, off, src[..w]);
  }

  lemma HoldsNothing(c: seq<Byte>, off: nat, src: seq<Byte>)
    ensures Holds(c, c, off, src, 0)
  {
  }

  /** The file system on disk between two transactions, with `w` bytes of the call written. */
  datatype Snap = Snap(blk: Blocks, dino: seq<Inode>, own: Own, w: nat)

  /** In the snapshot the bitmap and the inodes agree, file `ip` is the old one with the first `w` bytes of `src` written at
      `off`, and every other file is as it was. */
  ghost predicate SnapOk(sb: Super, s: Snap, blk0: Blocks, ino0: seq<Inode>, ip: nat, off: nat, src: seq<Byte>)
    requires forall j | 0 <= j < |ino0| :: |ino0[j].addrs| == NDIRECT + 1
  {
    && Inv(sb, s.blk, s.dino, s.own, {}) && ip < |s.dino| == |ino0| == sb.ninodes && ino0[ip].size <= MAXBYTES
    && Holds(Content(s.blk, s.dino[ip]), Content(blk0, ino0[ip]), off, src, s.w)
    && OthersSame(blk0, ino0, s.blk, s.dino, ip)
  }

  /** The log is idle, and since the disk was `d0` it has committed the transactions `txs`, which are the steps from one
      of the disks `imgs` to the next. */
  ghost predicate Committed(log: LogBuf, me: nat, d0: Disk, h0: seq<Write>, txs: seq<Tx>, imgs: seq<Disk>)
    reads log, log.cache, log.cache.ring, log.cache.ring.next, log.cache.ring.prev, log.cache.disk, log.others
  {
    && log.Idle(me) && AllOk(d0, log.start, txs) && Chain(imgs, txs, log.start)
    && SameHome(log.cache.disk.blocks, imgs[|txs|], log.start)
    && WroteAll(d0, h0, log.cache.disk.blocks, log.cache.disk.history, RunWrites(d0, log.start, txs))
  }

  /** The first `k` writes of those commits were made. */
  ghost predicate Wrote(d0: Disk, h0: seq<Write>, d: Disk, h: seq<Write>, start: nat, txs: seq<Tx>, k: nat) {
    && AllOk(d0, start, txs) && k <= |RunWrites(d0, start, txs)|
    && WroteAll(d0, h0, d, h, RunWrites(d0, start, txs)[..k])
  }

  lemma RunWritesNext(d0: Disk, start: nat, txs: seq<Tx>, d: Disk, t: Tx)
    requires AllOk(d0, start, txs) && d == Apply(d0, RunWrites(d0, start, txs)) && TxOk(d, start, t)
    ensures AllOk(d0, start, txs + [t])
    ensures RunWrites(d0, start, txs + [t]) == RunWrites(d0, start, txs) + CommitWrites(d, start, t)
  {
    assert (txs + [t])[..|txs|] == txs;
    assert TxOk(d0, start, t);
  }

  lemma WroteNext(d0: Disk, h0: seq<Write>, d: Disk, h: seq<Write>, d': Disk, h': seq<Write>, start: nat, txs: seq<Tx>, t: Tx,
                  k: nat, next: nat)
    requires AllOk(d0, start, txs) && WroteAll(d0, h0, d, h, RunWrites(d0, start, txs))
    requires TxOk(d, start, t) && Geometry(d, start) && Reached(d, h, d', h', start, t, k)
    requires next == |RunWrites(d0, start, txs)| + k
    ensures Wrote(d0, h0, d', h', start, txs + [t], next)
    ensures k == |CommitWrites(d, start, t)| ==>
      AllOk(d0, start, txs + [t]) && WroteAll(d0, h0, d', h', RunWrites(d0, start, txs + [t]))
  {
    var ws, cs := RunWrites(d0, start, txs), CommitWrites(d, start, t);
    RunWritesNext(d0, start, txs, d, t);
    WroteBoth(d0, h0, d, h, ws, d', h', cs[..k]);
    assert (ws + cs)[..next] == ws + cs[..k];
    assert cs[..|cs|] == cs;
  }

  /** The transaction of some edits is the step from one disk to the next. */
  lemma EditsStep(d: Disk, imgs: seq<Disk>, txs: seq<Tx>, start: nat, es: seq<Write>, img: Disk)
    requires Chain(imgs, txs, start) && SameHome(d, imgs[|txs|], start) && Loggable(es, |d|, start)
    requires img == Apply(imgs[|txs|], es) && TxOk(d, start, EditsTx(d, es))
    ensures Chain(imgs + [img], txs + [EditsTx(d, es)], start) && SameHome(Apply(d, es), img, start)
  {
    EditsTxSame(d, imgs[|txs|], es);
    InstallEdits(imgs[|txs|], es);
    ChainMore(imgs, txs, start, EditsTx(d, es), img);
    ApplySameHome(d, imgs[|txs|], start, es);
  }

  lemma SameHomeTrans(a: Disk, b: Disk, c: Disk, start: nat)
    requires SameHome(a, b, start) && SameHome(b, c, start)
    ensures SameHome(a, c, start)
  {
  }

  /** A chunk goes to the log: begin_op() to end_op() around the edits that writei() made. */
  method CommitChunk(log: LogBuf, me: nat, es: seq<Write>, ghost img: Disk, ghost d0: Disk, ghost h0: seq<Write>,
                     ghost txs: seq<Tx>, ghost imgs: seq<Disk>) returns (r: Outcome, ghost t: Tx, ghost k: nat)
    requires Committed(log, me, d0, h0, txs, imgs) && |d0| == |log.cache.disk.blocks|
    requires img == Apply(imgs[|txs|], es) && Loggable(es, |d0|, log.start) && |BlocksOf(es)| <= MAXOPBLOCKS
    modifies log, log.others`refs, log.others`plan, log.cache
    modifies log.cache.ring, log.cache.ring.next, log.cache.ring.prev, log.cache.disk
    ensures r != LogFull && Chain(imgs + [img], txs + [t], log.start)
    ensures r == NoBuffers ==> NBUF <= Sum(log.others.refs) + MAXOPBLOCKS
    ensures r == Asleep ==> log.Blocked(me)
    ensures Wrote(d0, h0, log.cache.disk.blocks, log.cache.disk.history, log.start, txs + [t], k)
    ensures r == Done ==> Committed(log, me, d0, h0, txs + [t], imgs + [img]) && |d0| == |log.cache.disk.blocks|
  {
    ghost var d, h, j := log.cache.disk.blocks, log.cache.disk.history, 0;
    r, t, j := log.Transact(me, es);
    k := |RunWrites(d0, log.start, txs)| + j;
    EditsStep(d, imgs, txs, log.start, es, img);
    WroteNext(d0, h0, d, h, log.cache.disk.blocks, log.cache.disk.history, log.start, txs, t, j, k);
    if r == Done {
      SameHomeTrans(log.cache.disk.blocks, Apply(d, es), img, log.start);
    }
  }

  /** A snapshot as blocks on a disk. */
  ghost function ImageOf(sb: Super, enc: Encoding, s: Snap): (r: Disk) {
    if |s.dino| == sb.ninodes then Image(sb, enc, s.blk, s.dino) else []
  }

  /** A call of filewrite() that has written `i` bytes so far. */
  ghost predicate Going(fs: FileSystem, f: OpenFile, blk0: Blocks, ino0: seq<Inode>, off0: nat, src: seq<Byte>, i: nat)
    reads fs, f
  {
    && fs.Valid() && f.ip < |fs.ino| == |ino0| && fs.dino == fs.ino && i <= |src| < 0x8000_0000
    && (forall j | 0 <= j < |ino0| :: |ino0[j].addrs| == NDIRECT + 1) && ino0[f.ip].size <= MAXBYTES
    && f.off == off0 + i && f.off < WORD
    && Holds(Content(fs.blk, fs.ino[f.ip]), Content(blk0, ino0[f.ip]), off0, src, i)
    && OthersSame(blk0, ino0, fs.blk, fs.ino, f.ip)
  }

  /** writei() of the next chunk, between begin_op() and end_op(). */
  method WriteChunk(fs: FileSystem, f: OpenFile, src: seq<Byte>, i: nat, n1: nat, ghost blk0: Blocks, ghost ino0: seq<Inode>,
                    ghost off0: nat) returns (done: bool, ghost w: nat)
    requires Going(fs, f, blk0, ino0, off0, src, i) && i + n1 <= |src| && 0 < n1 <= CHUNK
    modifies f`off, fs`blk, fs`ino, fs`dino, fs`own, fs`base, fs`logged, fs`edits
    ensures Going(fs, f, blk0, ino0, off0, src, w) && i <= w <= i + n1 && (done <==> w == i + n1)
    ensures !done ==> fs.Full() || f.off > fs.ino[f.ip].size || off0 + |src| > MAXBYTES
    ensures fs.base == old(fs.OnDisk()) && |fs.logged| <= MAXOPBLOCKS
  {
    ghost var blk1, ino1, c0, c1 := fs.blk, fs.ino, Content(blk0, ino0[f.ip]), Content(fs.blk, fs.ino[f.ip]);
    var chunk := src[i..i + n1];
    var r := WriteAtOffset(fs, f, chunk);
    done := r == n1;
    w := if r > 0 then i + r else i;
    if r >= 0 {
      ghost var c2 := Content(fs.blk, fs.ino[f.ip]);
      HoldsMore(c1, c0, off0, old(f.off), src, i, chunk, r, w, c2);
      OthersSameTrans(blk0, ino0, blk1, ino1, fs.blk, fs.ino, f.ip);
    }
  }

  /** writei() at the file's offset, which moves by what was written, as a transaction. */
  method WriteAtOffset(fs: FileSystem, f: OpenFile, chunk: seq<Byte>) returns (r: int)
    requires fs.Valid() && f.ip < |fs.ino| && f.off < WORD && |chunk| <= CHUNK && fs.dino == fs.ino
    modifies f`off, fs`blk, fs`ino, fs`dino, fs`own, fs`base, fs`logged, fs`edits
    ensures fs.Valid() && |fs.ino| == |old(fs.ino)| && |fs.logged| <= MAXOPBLOCKS && fs.dino == fs.ino
    ensures fs.base == old(fs.OnDisk())
    ensures f.off == old(f.off) + (if r > 0 then r else 0) && f.off < WORD
    ensures r < 0 ==> r == -1 && fs.blk == old(fs.blk) && fs.ino == old(fs.ino)
    ensures r < 0 ==> f.off > fs.ino[f.ip].size || f.off + |chunk| > MAXBYTES
    ensures r >= 0 ==>
      && r <= |chunk| && old(f.off) <= old(fs.ino)[f.ip].size
      && Content(fs.blk, fs.ino[f.ip]) == Overwrite(old(Content(fs.blk, fs.ino[f.ip])), old(f.off), chunk[..r])
      && OthersSame(old(fs.blk), old(fs.ino), fs.blk, fs.ino, f.ip)
      && (r < |chunk| ==> fs.Full())
  {
    fs.Begin();
    r := fs.Writei(f.ip, f.off, chunk);
    assert fs.dino == fs.ino;
    if r > 0 {
      f.off := f.off + r;
    }
  }

  /** The snapshots so far, as file systems and as disks, with the transactions between them. */
  ghost predicate Snapped(sb: Super, enc: Encoding, snaps: seq<Snap>, txs: seq<Tx>, imgs: seq<Disk>, blk0: Blocks,
                          ino0: seq<Inode>, ip: nat, off0: nat, src: seq<Byte>)
    requires forall j | 0 <= j < |ino0| :: |ino0[j].addrs| == NDIRECT + 1
  {
    && |imgs| == |snaps| == |txs| + 1 && Chain(imgs, txs, sb.logstart)
    && |ino0| == sb.ninodes && imgs[0] == Image(sb, enc, blk0, ino0) && snaps[0].w == 0
    && (forall j {:trigger snaps[j]} | 0 <= j < |snaps| ::
          SnapOk(sb, snaps[j], blk0, ino0, ip, off0, src) && imgs[j] == ImageOf(sb, enc, snaps[j]))
  }

  lemma SnappedMore(sb: Super, enc: Encoding, snaps: seq<Snap>, txs: seq<Tx>, imgs: seq<Disk>, blk0: Blocks, ino0: seq<Inode>,
                    ip: nat, off0: nat, src: seq<Byte>, s: Snap, t: Tx, img: Disk)
    requires forall j | 0 <= j < |ino0| :: |ino0[j].addrs| == NDIRECT + 1
    requires Snapped(sb, enc, snaps, txs, imgs, blk0, ino0, ip, off0, src) && Chain(imgs + [img], txs + [t], sb.logstart)
    requires SnapOk(sb, s, blk0, ino0, ip, off0, src) && img == ImageOf(sb, enc, s)
    ensures Snapped(sb, enc, snaps + [s], txs + [t], imgs + [img], blk0, ino0, ip, off0, src)
  {
  }

  lemma GoingSnap(fs: FileSystem, f: OpenFile, blk0: Blocks, ino0: seq<Inode>, off0: nat, src: seq<Byte>, i: nat)
    requires Going(fs, f, blk0, ino0, off0, src, i)
    ensures SnapOk(fs.sb, Snap(fs.blk, fs.dino, fs.own, i), blk0, ino0, f.ip, off0, src)
    ensures fs.OnDisk() == ImageOf(fs.sb, fs.enc, Snap(fs.blk, fs.dino, fs.own, i))
  {
  }

  /** One turn of filewrite()'s loop: begin_op(), writei(), end_op(). */
  method FileTurn(fs: FileSystem, log: LogBuf, f: OpenFile, src: seq<Byte>, me: nat, i: nat, n1: nat, ghost blk0: Blocks,
                  ghost ino0: seq<Inode>, ghost off0: nat, ghost d0: Disk, ghost h0: seq<Write>, ghost snaps: seq<Snap>,
                  ghost txs: seq<Tx>, ghost imgs: seq<Disk>)
      returns (done: bool, r: Outcome, ghost s: Snap, ghost t: Tx, ghost img: Disk, ghost k: nat)
    requires Going(fs, f, blk0, ino0, off0, src, i) && i + n1 <= |src| && 0 < n1 <= CHUNK
    requires Snapped(fs.sb, fs.enc, snaps, txs, imgs, blk0, ino0, f.ip, off0, src) && fs.OnDisk() == imgs[|txs|]
    requires Committed(log, me, d0, h0, txs, imgs) && log.start == fs.sb.logstart && |d0| == |log.cache.disk.blocks|
    modifies f`off, fs`blk, fs`ino, fs`dino, fs`own, fs`base, fs`logged, fs`edits
    modifies log, log.others`refs, log.others`plan, log.cache
    modifies log.cache.ring, log.cache.ring.next, log.cache.ring.prev, log.cache.disk
    ensures Going(fs, f, blk0, ino0, off0, src, s.w) && i <= s.w <= i + n1 && (done <==> s.w == i + n1)
    ensures !done ==> fs.Full() || f.off > fs.ino[f.ip].size || off0 + |src| > MAXBYTES
    ensures s == Snap(fs.blk, fs.dino, fs.own, s.w) && img == fs.OnDisk()
    ensures Snapped(fs.sb, fs.enc, snaps + [s], txs + [t], imgs + [img], blk0, ino0, f.ip, off0, src)
    ensures r != LogFull
    ensures r == NoBuffers ==> NBUF <= Sum(log.others.refs) + MAXOPBLOCKS
    ensures r == Asleep ==> log.Blocked(me)
    ensures Wrote(d0, h0, log.cache.disk.blocks, log.cache.disk.history, log.start, txs + [t], k)
    ensures r == Done ==> Committed(log, me, d0, h0, txs + [t], imgs + [img]) && |d0| == |log.cache.disk.blocks|
  {
    ghost var w;
    done, w := WriteChunk(fs, f, src, i, n1, blk0, ino0, off0);
    s, img := Snap(fs.blk, fs.dino, fs.own, w), fs.OnDisk();
    GoingSnap(fs, f, blk0, ino0, off0, src, w);
    r, t, k := CommitChunk(log, me, fs.edits, img, d0, h0, txs, imgs);
    SnappedMore(fs.sb, fs.enc, snaps, txs, imgs, blk0, ino0, f.ip, off0, src, s, t, img);
  }

  /** filewrite()'s loop. */
  method FileLoop(fs: FileSystem, log: LogBuf, f: OpenFile, src: seq<Byte>, me: nat, ghost blk0: Blocks, ghost ino0: seq<Inode>,
                  ghost off0: nat, ghost d0: Disk, ghost h0: seq<Write>, ghost snaps0: seq<Snap>, ghost imgs0: seq<Disk>)
      returns (ret: int, r: Outcome, ghost w: nat, ghost snaps: seq<Snap>, ghost txs: seq<Tx>, ghost imgs: seq<Disk>, ghost k: nat)
    requires Going(fs, f, blk0, ino0, off0, src, 0)
    requires Snapped(fs.sb, fs.enc, snaps0, [], imgs0, blk0, ino0, f.ip, off0, src)
    requires snaps0[0] == Snap(fs.blk, fs.dino, fs.own, 0) && fs.OnDisk() == imgs0[0]
    requires Committed(log, me, d0, h0, [], imgs0) && log.start == fs.sb.logstart && |d0| == |log.cache.disk.blocks|
    modifies f`off, fs`blk, fs`ino, fs`dino, fs`own, fs`base, fs`logged, fs`edits
    modifies log, log.others`refs, log.others`plan, log.cache
    modifies log.cache.ring, log.cache.ring.next, log.cache.ring.prev, log.cache.disk
    ensures Going(fs, f, blk0, ino0, off0, src, w)
    ensures r != LogFull
    ensures r == NoBuffers ==> NBUF <= Sum(log.others.refs) + MAXOPBLOCKS
    ensures r == Asleep ==> log.Blocked(me)
    ensures r == Done ==> ret == if w == |src| then |src| else -1
    ensures r == Done && w < |src| ==> fs.Full() || f.off > fs.ino[f.ip].size || off0 + |src| > MAXBYTES
    ensures Snapped(fs.sb, fs.enc, snaps, txs, imgs, blk0, ino0, f.ip, off0, src)
    ensures snaps[|txs|] == Snap(fs.blk, fs.dino, fs.own, w)
    ensures Wrote(d0, h0, log.cache.disk.blocks, log.cache.disk.history, log.start, txs, k)
    ensures r == Done ==> Committed(log, me, d0, h0, txs, imgs)
  {
    var i := 0;
    var done := true;
    r, w, snaps, txs, imgs, k := Done, 0, snaps0, [], imgs0, 0;
    while i < |src| && done && r == Done
      invariant Going(fs, f, blk0, ino0, off0, src, w) && 0 <= i <= w <= |src| && (done ==> i == w) && (!done ==> w < |src|)
      invariant Snapped(fs.sb, fs.enc, snaps, txs, imgs, blk0, ino0, f.ip, off0, src)
      invariant snaps[|txs|] == Snap(fs.blk, fs.dino, fs.own, w) && fs.OnDisk() == imgs[|txs|]
      invariant Wrote(d0, h0, log.cache.disk.blocks, log.cache.disk.history, log.start, txs, k)
      invariant r == Done ==> Committed(log, me, d0, h0, txs, imgs) && |d0| == |log.cache.disk.blocks|
      invariant !done ==> fs.Full() || f.off > fs.ino[f.ip].size || off0 + |src| > MAXBYTES
      invariant r != LogFull && (r == NoBuffers ==> NBUF <= Sum(log.others.refs) + MAXOPBLOCKS)
      invariant r == Asleep ==> log.Blocked(me)
      decreases |src| - i, done
    {
      var n1 := if |src| - i > CHUNK then CHUNK else |src| - i;
      ghost var s, t, img;
      done, r, s, t, img, k := FileTurn(fs, log, f, src, me, i, n1, blk0, ino0, off0, d0, h0, snaps, txs, imgs);
      w, snaps, txs, imgs := s.w, snaps + [s], txs + [t], imgs + [img];
      if done {
        i := i + n1;
      }
    }
    ret := if i == |src| then |src| else -1;
  }

  /** filewrite() of an inode, alone among the writers. `r` is Done unless a commit stops the kernel or sleeps for good, in
      which case no more is said of the result. However the call is cut into chunks, the file ends up as after one
      byte-sequence write of the `w` bytes that were written; the result is the length of `src` exactly when all of it
      was. On disk each chunk is one transaction: after every crash and recovery the disk is one of the snapshots, in
      which the file has a first part of `src` written, every other file is as it was, and bitmap and inodes agree. */
  method Filewrite(fs: FileSystem, log: LogBuf, f: OpenFile, src: seq<Byte>, me: nat)
    returns (ret: int, r: Outcome, ghost w: nat, ghost snaps: seq<Snap>, ghost txs: seq<Tx>, ghost imgs: seq<Disk>, ghost k: nat)
    requires fs.Valid() && f.ip < |fs.ino| && f.off < WORD && |src| < 0x8000_0000 && fs.dino == fs.ino
    requires log.Idle(me) && log.start == fs.sb.logstart && SameHome(log.cache.disk.blocks, fs.OnDisk(), log.start)
    modifies f`off, fs`blk, fs`ino, fs`dino, fs`own, fs`base, fs`logged, fs`edits
    modifies log, log.others`refs, log.others`plan, log.cache
    modifies log.cache.ring, log.cache.ring.next, log.cache.ring.prev, log.cache.disk
    ensures Going(fs, f, old(fs.blk), old(fs.ino), old(f.off), src, w)
    ensures r != LogFull
    ensures r == NoBuffers ==> NBUF <= Sum(log.others.refs) + MAXOPBLOCKS
    ensures r == Asleep ==> log.Blocked(me)
    ensures !f.writable ==> ret == -1 && r == Done && w == 0 && fs.blk == old(fs.blk) && fs.ino == old(fs.ino)
    ensures f.writable && r == Done ==> ret == if w == |src| then |src| else -1
    ensures f.writable && r == Done && w < |src| ==>
      fs.Full() || f.off > fs.ino[f.ip].size || old(f.off) + |src| > MAXBYTES
    ensures |snaps| == |txs| + 1 && snaps[|txs|] == Snap(fs.blk, fs.dino, fs.own, w)
    ensures Snapped(fs.sb, fs.enc, snaps, txs, imgs, old(fs.blk), old(fs.ino), f.ip, old(f.off), src)
    ensures Survives(old(log.cache.disk.blocks), log.start, imgs, txs)
    ensures CrashSafe(old(log.cache.disk.blocks), log.start, imgs, txs)
    ensures Wrote(old(log.cache.disk.blocks), old(log.cache.disk.history), log.cache.disk.blocks, log.cache.disk.history,
                  log.start, txs, k)
    ensures r == Done ==> Committed(log, me, old(log.cache.disk.blocks), old(log.cache.disk.history), txs, imgs)
  {
    ghost var blk0, ino0, off0, d0, h0 := fs.blk, fs.ino, f.off, log.cache.disk.blocks, log.cache.disk.history;
    HoldsNothing(Content(blk0, ino0[f.ip]), off0, src);
    GoingSnap(fs, f, blk0, ino0, off0, src, 0);
    w, snaps, txs, imgs, k := 0, [Snap(fs.blk, fs.dino, fs.own, 0)], [], [fs.OnDisk()], 0;
    ret, r := -1, Done;
    if f.writable {
      ret, r, w, snaps, txs, imgs, k := FileLoop(fs, log, f, src, me, blk0, ino0, off0, d0, h0, snaps, imgs);
    }
    ChainSurvives(d0, log.start, imgs, txs);
    ChainCrashSafe(d0, log.start, imgs, txs);
  }
}
