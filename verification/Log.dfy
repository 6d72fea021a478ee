/** The in-memory side of kernel/fs/log.c: logging through the buffer cache, commit and recovery. */
module Log {
  import opened Collections
  import opened Params
  import opened Words
  import opened Crash
  import opened Bio
  import opened Edits
  import opened Readers
  import Reservation

  /** Header entries: blocks of a disk of `size` blocks, none of them in the log itself. */
  ghost predicate AllHome(lh: seq<nat>, size: nat, start: nat) {
    forall i | 0 <= i < |lh| :: lh[i] < size && !InLog(start, lh[i])
  }

  ghost function Pins(b: Buf, pinned: set<nat>): nat {
    if b.dev == ROOTDEV && b.blockno in pinned then 1 else 0
  }

  ghost function Holds(held: set<nat>, i: nat): nat {
    if i in held then 1 else 0
  }

  /** Every reference to a buffer is one of the `refs` of other processes, a pin of the log, or that of the caller, who
      has locked the buffers in `held`. */
  ghost predicate Counts(bufs: seq<Buf>, refs: seq<nat>, held: set<nat>, pinned: set<nat>) {
    && |refs| == |bufs|
    && forall i {:trigger bufs[i]} | 0 <= i < |bufs| ::
         bufs[i].refcnt == refs[i] + Pins(bufs[i], pinned) + Holds(held, i)
  }

  /** `me` has locked the buffers in `held`. Every other locked buffer is locked by one of the other processes. */
  ghost predicate Locks(bufs: seq<Buf>, refs: seq<nat>, me: nat, held: set<nat>) {
    && |refs| == |bufs|
    && forall i {:trigger bufs[i]} | 0 <= i < |bufs| ::
         && (bufs[i].owner == me <==> i in held)
         && (bufs[i].owner != 0 && i !in held ==> refs[i] > 0)
  }

  ghost predicate Busy(bufs: seq<Buf>, refs: seq<nat>, me: nat, held: set<nat>, pinned: set<nat>) {
    Counts(bufs, refs, held, pinned) && Locks(bufs, refs, me, held)
  }

  /** The buffers in `held` still hold the same blocks with the same data. */
  ghost predicate Keeps(bufs: seq<Buf>, bufs': seq<Buf>, held: set<nat>) {
    && |bufs'| == |bufs|
    && forall i {:trigger bufs'[i]} | 0 <= i < |bufs| && i in held ::
         && bufs'[i].dev == bufs[i].dev && bufs'[i].blockno == bufs[i].blockno
         && (bufs[i].valid ==> bufs'[i].valid && bufs'[i].data == bufs[i].data)
  }

  /** What decides whether bget() finds a buffer. `alone`: the other processes do nothing for the time being, and none of
      them has locked a buffer that a commit needs. */
  datatype Scene = Scene(alone: bool, me: nat, bufs: seq<Buf>, refs: seq<nat>, pinned: set<nat>)

  ghost predicate Taken(s: Scene, i: nat) {
    i < |s.refs| == |s.bufs| ==> s.refs[i] + Pins(s.bufs[i], s.pinned) > 0
  }

  /** Every buffer is pinned or referenced by another process. */
  ghost predicate Full(s: Scene) {
    |s.refs| == |s.bufs| && forall i | 0 <= i < |s.bufs| :: Taken(s, i)
  }

  /** bread(x) finds no buffer. */
  ghost predicate Starved(s: Scene, x: nat) {
    Full(s) && !Cached(s.bufs, ROOTDEV, x)
  }

  /** bread() finds no buffer for one of the blocks from `lo` to `hi`. */
  ghost predicate StarvedIn(s: Scene, lo: nat, hi: nat) {
    exists x | lo <= x <= hi :: Starved(s, x)
  }

  lemma StarvedSplit(s: Scene, lo: nat, hi: nat)
    requires lo <= hi
    ensures StarvedIn(s, lo, hi) <==> Starved(s, lo) || StarvedIn(s, lo + 1, hi)
  {
  }

  lemma StarvedMore(s: Scene, lo: nat, hi: nat, x: nat)
    requires x == hi + 1 && lo <= x
    ensures StarvedIn(s, lo, x) <==> StarvedIn(s, lo, hi) || Starved(s, x)
  {
  }

  ghost predicate SameBlocks(bufs: seq<Buf>, bufs': seq<Buf>) {
    && |bufs'| == |bufs|
    && forall i {:trigger bufs'[i]} | 0 <= i < |bufs| :: bufs'[i].dev == bufs[i].dev && bufs'[i].blockno == bufs[i].blockno
  }

  /** A process that runs alone leaves a buffer free where one was free, and recycles none where none was. */
  ghost predicate Follows(s: Scene, s': Scene) {
    s.alone ==>
      && s'.alone && s'.me == s.me && s'.refs == s.refs && s'.pinned <= s.pinned && |s'.bufs| == |s.bufs|
      && (Full(s') ==> Full(s) && SameBlocks(s.bufs, s'.bufs))
      && (s'.pinned == s.pinned && Full(s) ==> Full(s'))
  }

  lemma CachedAs(bufs: seq<Buf>, bufs': seq<Buf>, x: nat)
    requires SameBlocks(bufs, bufs')
    ensures Cached(bufs', ROOTDEV, x) <==> Cached(bufs, ROOTDEV, x)
  {
    if i :| IsAt(bufs, i, ROOTDEV, x) {
      assert IsAt(bufs', i, ROOTDEV, x);
    }
    if i :| IsAt(bufs', i, ROOTDEV, x) {
      assert IsAt(bufs, i, ROOTDEV, x);
    }
  }

  /** No process but `me` has locked a pinned block or a block of the log. */
  ghost predicate Clear(bufs: seq<Buf>, me: nat, start: nat, pinned: set<nat>) {
    forall i {:trigger bufs[i]} | 0 <= i < |bufs| && bufs[i].owner != 0 && bufs[i].owner != me && bufs[i].dev == ROOTDEV ::
      !InLog(start, bufs[i].blockno) && bufs[i].blockno !in pinned
  }

  /** The current content of the blocks listed in the log header. */
  ghost function TxOf(bufs: seq<Buf>, d: Disk, lh: seq<nat>): (t: Tx)
    requires forall i | 0 <= i < |lh| :: lh[i] < |d|
    ensures |t.blocks| == |t.data|
  {
    Tx(lh, seq(|lh|, i requires 0 <= i < |lh| => View(bufs, d, lh[i])))
  }

  // ---------- how many buffers the pins leave over ----------

  /** What is still pinned when install_trans() reaches entry `k`. */
  lemma PinnedSuffix(lh: seq<nat>, k: nat, skip: bool, size: nat, start: nat)
    requires k < |lh| && (skip || NoDup(lh)) && AllHome(lh, size, start)
    ensures !skip ==>
      && |SetOf(lh[k..])| == |lh| - k
      && lh[k] in SetOf(lh[k..])
      && SetOf(lh[k..]) - {lh[k]} == SetOf(lh[k + 1..])
    ensures forall b | b in SetOf(lh[k..]) :: !InLog(start, b)
  {
    assert lh[k..][0] == lh[k];
    if !skip {
      NoDupSize(lh[k..]);
    }
  }

  /** The pinned blocks among those in the first `n` buffers. */
  ghost function PinnedBlocks(bufs: seq<Buf>, pinned: set<nat>, n: nat): (r: set<nat>)
    requires n <= |bufs|
  {
    set i | 0 <= i < n && Pins(bufs[i], pinned) > 0 :: bufs[i].blockno
  }

  lemma PinnedNext(bufs: seq<Buf>, pinned: set<nat>, n: nat)
    requires Unique(bufs) && n < |bufs|
    ensures |PinnedBlocks(bufs, pinned, n + 1)| == |PinnedBlocks(bufs, pinned, n)| + Pins(bufs[n], pinned)
  {
    var b, p := bufs[n].blockno, PinnedBlocks(bufs, pinned, n);
    if Pins(bufs[n], pinned) > 0 {
      assert PinnedBlocks(bufs, pinned, n + 1) == p + {b};
      forall i | 0 <= i < n && Pins(bufs[i], pinned) > 0
        ensures bufs[i].blockno != b
      {
        assert IsAt(bufs, i, ROOTDEV, bufs[i].blockno) && IsAt(bufs, n, ROOTDEV, b);
      }
    } else {
      assert PinnedBlocks(bufs, pinned, n + 1) == p;
    }
  }

  lemma {:induction false} PinnedCount(bufs: seq<Buf>, pinned: set<nat>, n: nat)
    requires Unique(bufs) && n <= |bufs|
    ensures |PinnedBlocks(bufs, pinned, n)| <= n
    ensures |PinnedBlocks(bufs, pinned, n)| == n <==> forall i | 0 <= i < n :: Pins(bufs[i], pinned) > 0
  {
    if n > 0 {
      PinnedCount(bufs, pinned, n - 1);
      PinnedNext(bufs, pinned, n - 1);
    }
  }

  ghost function Below(held: set<nat>, n: nat): set<nat> {
    set i | i in held && i < n
  }

  lemma {:induction false} CountRefs(bufs: seq<Buf>, refs: seq<nat>, held: set<nat>, pinned: set<nat>, n: nat)
    requires Unique(bufs) && n <= |bufs| && Counts(bufs, refs, held, pinned)
    requires forall i | 0 <= i < n :: bufs[i].refcnt > 0
    ensures n <= Sum(refs[..n]) + |PinnedBlocks(bufs, pinned, n)| + |Below(held, n)|
  {
    if n > 0 {
      var m := n - 1;
      CountRefs(bufs, refs, held, pinned, m);
      PinnedNext(bufs, pinned, m);
      SumLast(refs[..n]);
      assert refs[..n][..m] == refs[..m];
      assert Below(held, n) == if m in held then Below(held, m) + {m} else Below(held, m);
    }
  }

  /** How many references it takes until bget() finds no buffer. Without other processes the log's pins alone suffice
      exactly when NBUF blocks are pinned. */
  lemma FreeBuffer(bufs: seq<Buf>, d: Disk, refs: seq<nat>, held: set<nat>, pinned: set<nat>)
    requires Counts(bufs, refs, held, pinned) && Unique(bufs) && |bufs| == NBUF
    requires Coherent(bufs, d, pinned)
    ensures |pinned| <= NBUF
    ensures (forall i | 0 <= i < NBUF :: bufs[i].refcnt > 0) ==> NBUF <= Sum(refs) + |pinned| + |held|
    ensures Sum(refs) == 0 && held == {} ==>
      ((forall i | 0 <= i < NBUF :: bufs[i].refcnt > 0) <==> |pinned| == NBUF)
  {
    var p := PinnedBlocks(bufs, pinned, NBUF);
    PinnedCount(bufs, pinned, NBUF);
    forall b | b in pinned
      ensures b in p
    {
      assert DirtyAt(bufs, b);
    }
    assert p == pinned;
    SumZero(refs);
    if forall i | 0 <= i < NBUF :: bufs[i].refcnt > 0 {
      CountRefs(bufs, refs, held, pinned, NBUF);
      assert refs[..NBUF] == refs;
      SubsetSize(Below(held, NBUF), held);
    }
  }

  lemma {:induction false} PinnedBut(bufs: seq<Buf>, pinned: set<nat>, n: nat, i: nat)
    requires Unique(bufs) && i < n <= |bufs| && Pins(bufs[i], pinned) == 0 && |PinnedBlocks(bufs, pinned, n)| == n - 1
    ensures forall j | 0 <= j < n && j != i :: Pins(bufs[j], pinned) > 0
  {
    PinnedNext(bufs, pinned, n - 1);
    PinnedCount(bufs, pinned, n - 1);
    if i < n - 1 {
      PinnedBut(bufs, pinned, n - 1, i);
    }
  }

  /** With all but one buffer pinned, one reader of that buffer is enough. */
  lemma OneReader(s: Scene, d: Disk, i: nat)
    requires Unique(s.bufs) && Coherent(s.bufs, d, s.pinned) && |s.refs| == |s.bufs| == NBUF
    requires |s.pinned| == NBUF - 1 && i < NBUF && Pins(s.bufs[i], s.pinned) == 0
    ensures Full(s) <==> s.refs[i] > 0
  {
    forall b | b in s.pinned
      ensures b in PinnedBlocks(s.bufs, s.pinned, NBUF)
    {
      assert DirtyAt(s.bufs, b);
    }
    assert PinnedBlocks(s.bufs, s.pinned, NBUF) == s.pinned;
    PinnedBut(s.bufs, s.pinned, NBUF, i);
    assert forall j | 0 <= j < NBUF && j != i :: Taken(s, j);
    assert Taken(s, i) <==> s.refs[i] > 0;
  }

  /** Pinning or unpinning a block changes the references to its one buffer. */
  lemma Repin(bufs: seq<Buf>, refs: seq<nat>, me: nat, held: set<nat>, pinned: set<nat>, b: nat, refcnt: nat, pinned': set<nat>)
    requires Unique(bufs) && Busy(bufs, refs, me, held, pinned) && b < |bufs| && b in held && bufs[b].dev == ROOTDEV
    requires pinned' - {bufs[b].blockno} == pinned - {bufs[b].blockno}
    requires refcnt == refs[b] + Pins(bufs[b], pinned') + 1
    ensures Busy(bufs[b := bufs[b].(refcnt := refcnt)], refs, me, held, pinned')
  {
    var bufs', blockno := bufs[b := bufs[b].(refcnt := refcnt)], bufs[b].blockno;
    forall i | 0 <= i < |bufs| && i != b
      ensures Pins(bufs'[i], pinned') == Pins(bufs[i], pinned)
    {
      if bufs[i].dev == ROOTDEV {
        assert IsAt(bufs, b, ROOTDEV, blockno) && IsAt(bufs, i, ROOTDEV, bufs[i].blockno);
        assert bufs[i].blockno in pinned' <==> bufs[i].blockno in pinned' - {blockno};
        assert bufs[i].blockno in pinned <==> bufs[i].blockno in pinned - {blockno};
      }
    }
  }

  /** Block `b` was written once, with `data`. */
  ghost predicate Wrote(d: Disk, h: seq<Write>, d': Disk, h': seq<Write>, b: nat, data: Block) {
    b < |d| && d' == d[b := data] && h' == h + [Write(b, data)]
  }

  /** The transaction that the log blocks on disk hold for these header entries. */
  ghost function LogTx(d: Disk, start: nat, blocks: seq<nat>): (t: Tx)
    requires Geometry(d, start) && |blocks| <= LOGBLOCKS
    ensures t.blocks == blocks && |t.data| == |blocks|
  {
    Tx(blocks, seq(|blocks|, i requires 0 <= i < |blocks| => d[start + 1 + i]))
  }

  /** The writes `ws` took the disk from `d` to `d'`, and are what was added to the history. */
  ghost predicate WroteAll(d: Disk, h: seq<Write>, d': Disk, h': seq<Write>, ws: seq<Write>) {
    d' == Apply(d, ws) && h' == h + ws
  }

  lemma WroteMore(d: Disk, h: seq<Write>, d1: Disk, h1: seq<Write>, ws: seq<Write>, d2: Disk, h2: seq<Write>,
                  b: nat, data: Block)
    requires WroteAll(d, h, d1, h1, ws) && Wrote(d1, h1, d2, h2, b, data)
    ensures WroteAll(d, h, d2, h2, ws + [Write(b, data)])
  {
  }

  /** Writing outside the header's blocks leaves the transaction alone. */
  lemma TxKept(bufs: seq<Buf>, d: Disk, bufs': seq<Buf>, d': Disk, lh: seq<nat>, start: nat, x: nat, data: Block)
    requires ViewBecomes(bufs, d, bufs', d', x, data) && InLog(start, x)
    requires AllHome(lh, |d|, start)
    ensures TxOf(bufs', d', lh) == TxOf(bufs, d, lh)
  {
  }

  /** Installing home blocks leaves the log blocks still to be read alone. */
  lemma LogBlockKept(d: Disk, start: nat, t: Tx, k: nat)
    requires TxOk(d, start, t) && k < |t.blocks| && Geometry(d, start)
    ensures Apply(d, HomeWrites(t, k))[start + 1 + k] == d[start + 1 + k]
  {
    ApplyHomeWrites(d, t, k);
    InstallKeepsLog(d, start, t, k);
  }

  lemma LogWritesMore(d: Disk, h: seq<Write>, d1: Disk, h1: seq<Write>, d2: Disk, h2: seq<Write>, start: nat, t: Tx, k: nat)
    requires k < |t.blocks| == |t.data|
    requires WroteAll(d, h, d1, h1, LogWrites(start, t, k)) && Wrote(d1, h1, d2, h2, start + 1 + k, t.data[k])
    ensures WroteAll(d, h, d2, h2, LogWrites(start, t, k + 1))
  {
    WroteMore(d, h, d1, h1, LogWrites(start, t, k), d2, h2, start + 1 + k, t.data[k]);
    assert LogWrites(start, t, k + 1) == LogWrites(start, t, k) + [Write(start + 1 + k, t.data[k])];
  }

  lemma HomeWritesMore(d: Disk, h: seq<Write>, d1: Disk, h1: seq<Write>, d2: Disk, h2: seq<Write>, t: Tx, k: nat)
    requires k < |t.blocks| == |t.data|
    requires WroteAll(d, h, d1, h1, HomeWrites(t, k)) && Wrote(d1, h1, d2, h2, t.blocks[k], t.data[k])
    ensures WroteAll(d, h, d2, h2, HomeWrites(t, k + 1))
  {
    WroteMore(d, h, d1, h1, HomeWrites(t, k), d2, h2, t.blocks[k], t.data[k]);
    assert HomeWrites(t, k + 1) == HomeWrites(t, k) + [Write(t.blocks[k], t.data[k])];
  }

  lemma WroteBoth(d: Disk, h: seq<Write>, d1: Disk, h1: seq<Write>, u: seq<Write>, d2: Disk, h2: seq<Write>, v: seq<Write>)
    requires WroteAll(d, h, d1, h1, u) && WroteAll(d1, h1, d2, h2, v)
    ensures WroteAll(d, h, d2, h2, u + v)
  {
    ApplyConcat(d, u, v);
  }

  // ---------- the phases of commit() make the writes that the crash argument is about, one after the other ----------

  /** Of the writes that commit `t`, the first `k` took the disk from `d` to `d'`. */
  ghost predicate Reached(d: Disk, h: seq<Write>, d': Disk, h': seq<Write>, start: nat, t: Tx, k: nat)
    requires Geometry(d, start) && TxOk(d, start, t)
  {
    k <= |CommitWrites(d, start, t)| && WroteAll(d, h, d', h', CommitWrites(d, start, t)[..k])
  }

  lemma LogPhase(d: Disk, h: seq<Write>, d1: Disk, h1: seq<Write>, start: nat, t: Tx, k: nat)
    requires Geometry(d, start) && TxOk(d, start, t) && k <= |t.blocks| && t.blocks != []
    requires WroteAll(d, h, d1, h1, LogWrites(start, t, k))
    ensures Reached(d, h, d1, h1, start, t, k)
  {
    assert CommitWrites(d, start, t)[..k] == LogWrites(start, t, k);
  }

  lemma HeadPhase(d: Disk, h: seq<Write>, d1: Disk, h1: seq<Write>, d2: Disk, h2: seq<Write>, start: nat, t: Tx)
    requires Geometry(d, start) && TxOk(d, start, t) && t.blocks != []
    requires WroteAll(d, h, d1, h1, LogWrites(start, t, |t.blocks|))
    requires Wrote(d1, h1, d2, h2, start, PutHead(d1[start], t.blocks))
    ensures |CommitWrites(d, start, t)| == 2 * |t.blocks| + 2
    ensures Reached(d, h, d2, h2, start, t, |t.blocks| + 1)
    ensures Geometry(d2, start) && LogTx(d2, start, t.blocks) == t && d2[start] == PutHead(d[start], t.blocks)
  {
    var n, head := |t.blocks|, PutHead(d[start], t.blocks);
    ApplyLogWrites(d, start, t, n);
    assert LogTx(d2, start, t.blocks).data == t.data;
    WroteMore(d, h, d1, h1, LogWrites(start, t, n), d2, h2, start, head);
    assert CommitWrites(d, start, t)[..n + 1] == LogWrites(start, t, n) + [Write(start, head)];
  }

  lemma InstallPhase(d: Disk, h: seq<Write>, d2: Disk, h2: seq<Write>, d3: Disk, h3: seq<Write>, start: nat, t: Tx, k: nat,
                     next: nat)
    requires Geometry(d, start) && TxOk(d, start, t) && t.blocks != [] && k <= |t.blocks|
    requires |CommitWrites(d, start, t)| == 2 * |t.blocks| + 2 && |d2| == |d|
    requires Reached(d, h, d2, h2, start, t, |t.blocks| + 1)
    requires WroteAll(d2, h2, d3, h3, HomeWrites(t, k)) && next == |t.blocks| + 1 + k
    ensures Reached(d, h, d3, h3, start, t, next)
    ensures |d3| == |d| && d3[start] == d2[start]
  {
    var n, ws := |t.blocks|, CommitWrites(d, start, t);
    WroteBoth(d, h, d2, h2, ws[..n + 1], d3, h3, HomeWrites(t, k));
    ApplyHomeWrites(d2, t, k);
    InstallKeepsLog(d2, start, t, k);
    assert HomeWrites(t, n)[..k] == HomeWrites(t, k);
    assert ws[..n + 1 + k] == ws[..n + 1] + HomeWrites(t, k);
  }

  lemma ClearPhase(d: Disk, h: seq<Write>, d3: Disk, h3: seq<Write>, d4: Disk, h4: seq<Write>, start: nat, t: Tx)
    requires Geometry(d, start) && TxOk(d, start, t) && t.blocks != []
    requires |CommitWrites(d, start, t)| == 2 * |t.blocks| + 2
    requires Reached(d, h, d3, h3, start, t, 2 * |t.blocks| + 1)
    requires |d3| == |d| && d3[start] == PutHead(d[start], t.blocks)
    requires Wrote(d3, h3, d4, h4, start, PutHead(d3[start], []))
    ensures Reached(d, h, d4, h4, start, t, 2 * |t.blocks| + 2)
  {
    var n, ws := |t.blocks|, CommitWrites(d, start, t);
    WroteMore(d, h, d3, h3, ws[..2 * n + 1], d4, h4, start, PutHead(d3[start], []));
    assert ws[..2 * n + 2] == ws[..2 * n + 1] + [ws[2 * n + 1]];
  }

  /** After all of them the log is empty and the home blocks are the transaction's. */
  lemma CommitMeans(d: Disk, h: seq<Write>, d': Disk, h': seq<Write>, start: nat, t: Tx)
    requires LogOk(d, start) && HeadCount(d, start) == 0 && TxOk(d, start, t)
    requires Reached(d, h, d', h', start, t, |CommitWrites(d, start, t)|)
    ensures LogOk(d', start) && HeadCount(d', start) == 0 && SameHome(d', Install(d, t, |t.blocks|), start)
  {
    var ws := CommitWrites(d, start, t);
    assert ws[..|ws|] == ws;
    CommitCrash(d, start, t, |ws|);
    assert Replay(d', start) == d';
    if t.blocks != [] {
      CommitShape(d, start, t, |ws|);
    }
  }

  lemma RecoverCompose(d: Disk, h: seq<Write>, d1: Disk, h1: seq<Write>, d2: Disk, h2: seq<Write>, start: nat)
    requires LogOk(d, start)
    requires WroteAll(d, h, d1, h1, HomeWrites(LoggedTx(d, start), HeadCount(d, start)))
    requires Wrote(d1, h1, d2, h2, start, PutHead(d1[start], []))
    ensures WroteAll(d, h, d2, h2, RecoverWrites(d, start))
  {
    var t, n := LoggedTx(d, start), HeadCount(d, start);
    ApplyHomeWrites(d, t, n);
    InstallKeepsLog(d, start, t, n);
    WroteMore(d, h, d1, h1, HomeWrites(t, n), d2, h2, start, PutWord(d[start], 0, 0));
  }

  lemma {:induction false} InstallIsView(bufs: seq<Buf>, d: Disk, lh: seq<nat>, k: nat, b: nat)
    requires forall i | 0 <= i < |lh| :: lh[i] < |d|
    requires k <= |lh| && b < |d| && b in lh[..k]
    ensures Install(d, TxOf(bufs, d, lh), k)[b] == View(bufs, d, b)
  {
    if lh[k - 1] != b {
      assert b in lh[..k - 1];
      InstallIsView(bufs, d, lh, k - 1, b);
    }
  }

  /** A completed commit leaves every block outside the log on disk as readers of the cache saw it before: the header
      covers every modified block. */
  lemma CommitIsDurable(bufs: seq<Buf>, d: Disk, lh: seq<nat>, start: nat, b: nat)
    requires LogOk(d, start) && HeadCount(d, start) == 0 && |lh| <= LOGBLOCKS && AllHome(lh, |d|, start)
    requires Coherent(bufs, d, SetOf(lh)) && IsHome(d, start, b)
    ensures Apply(d, CommitWrites(d, start, TxOf(bufs, d, lh)))[b] == View(bufs, d, b)
  {
    var t := TxOf(bufs, d, lh);
    var ws := CommitWrites(d, start, t);
    CommitCrash(d, start, t, |ws|);
    var e := After(d, ws, |ws|);
    if |lh| > 0 {
      CommitShape(d, start, t, |ws|);
    }
    assert Replay(e, start) == e;
    if b in lh {
      assert lh[..|lh|] == lh;
      InstallIsView(bufs, d, lh, |lh|, b);
    } else {
      InstallOutside(d, t, |lh|, b);
      ViewClean(bufs, d, SetOf(lh), b);
    }
  }

  lemma NotLogged(lh: seq<nat>, size: nat, start: nat, x: nat)
    requires AllHome(lh, size, start) && InLog(start, x)
    ensures x !in SetOf(lh)
  {
  }

  /** Other processes recycle no buffer of a pinned block, and get none for one. */
  lemma PinsStay(bufs: seq<Buf>, d: Disk, bufs': seq<Buf>, base: seq<nat>, me: nat, pinned: set<nat>, i: nat)
    requires Stays(bufs, bufs', base, me) && Unique(bufs') && Coherent(bufs, d, pinned) && Guarded(bufs, base, pinned)
    requires i < |bufs|
    ensures Pins(bufs'[i], pinned) == Pins(bufs[i], pinned)
  {
    var b := bufs'[i].blockno;
    if base[i] == 0 && bufs'[i].dev == ROOTDEV && b in pinned {
      assert DirtyAt(bufs, b);
      var j :| IsAt(bufs, j, ROOTDEV, b);
      assert IsAt(bufs', j, ROOTDEV, b) && IsAt(bufs', i, ROOTDEV, b);
    }
  }

  /** A step that recycles no buffer, and at most drops pins. */
  lemma SameFollows(s: Scene, s': Scene, s'': Scene)
    requires Follows(s, s') && (s'.alone ==> s''.alone)
    requires s''.me == s'.me && s''.refs == s'.refs && s''.pinned <= s'.pinned && SameBlocks(s'.bufs, s''.bufs)
    ensures Follows(s, s'')
  {
    assert forall i | 0 <= i < |s'.bufs| :: Taken(s'', i) ==> Taken(s', i);
    assert s''.pinned == s'.pinned ==> forall i | 0 <= i < |s'.bufs| :: Taken(s', i) ==> Taken(s'', i);
  }

  lemma FollowsThen(s: Scene, s': Scene, s'': Scene)
    requires Follows(s, s') && Follows(s', s'')
    ensures Follows(s, s'')
  {
  }

  lemma StarvedBack(s: Scene, s': Scene, x: nat)
    requires Follows(s, s') && s.alone
    ensures Starved(s', x) ==> Starved(s, x)
    ensures s'.pinned == s.pinned && Starved(s, x) ==> Starved(s', x)
  {
    if Full(s') {
      CachedAs(s.bufs, s'.bufs, x);
    }
  }

  lemma AllTaken(s: Scene)
    requires Counts(s.bufs, s.refs, {}, s.pinned)
    ensures Full(s) <==> forall i | 0 <= i < |s.bufs| :: s.bufs[i].refcnt > 0
  {
    assert forall i | 0 <= i < |s.bufs| :: Taken(s, i) <==> s.bufs[i].refcnt > 0;
  }

  /** The references of the others, with one more while the caller waits for buffer `w`. */
  ghost function Waiting(refs: seq<nat>, w: int): seq<nat> {
    if 0 <= w < |refs| then refs[w := refs[w] + 1] else refs
  }

  /** bread() gave `me` a reference to buffer `b`, and the lock if nobody had it. */
  ghost predicate Took(bufs: seq<Buf>, bufs': seq<Buf>, me: nat, b: nat, blockno: nat) {
    && |bufs'| == |bufs| && b < |bufs| && IsAt(bufs', b, ROOTDEV, blockno)
    && (forall i {:trigger bufs'[i]} | 0 <= i < |bufs| && i != b :: bufs'[i] == bufs[i])
    && (if Cached(bufs, ROOTDEV, blockno) then IsAt(bufs, b, ROOTDEV, blockno) else bufs[b].refcnt == 0)
    && bufs'[b].refcnt == bufs[b].refcnt + 1
    && bufs'[b].owner == if bufs[b].owner == 0 then me else bufs[b].owner
  }

  lemma TookCounts(bufs: seq<Buf>, d: Disk, refs: seq<nat>, bufs': seq<Buf>, me: nat, b: nat, blockno: nat,
                   held: set<nat>, pinned: set<nat>)
    requires Coherent(bufs, d, pinned) && Busy(bufs, refs, me, held, pinned) && me != 0
    requires Took(bufs, bufs', me, b, blockno) && (forall i | i in held && i < |bufs| :: bufs[i].blockno != blockno)
    requires bufs[b].owner != 0 ==> bufs[b].refcnt > 0
    ensures b !in held
    ensures bufs[b].owner == 0 ==> Busy(bufs', refs, me, held + {b}, pinned)
    ensures bufs[b].owner != 0 ==> Counts(bufs', Waiting(refs, b), held, pinned) && Locks(bufs', refs, me, held)
    ensures Pins(bufs'[b], pinned) == Pins(bufs[b], pinned)
  {
    assert blockno in pinned ==> DirtyAt(bufs, blockno);
  }

  /** The wait for buffer `b` is over. */
  lemma GotLock(bufs: seq<Buf>, refs: seq<nat>, bufs': seq<Buf>, me: nat, b: nat, held: set<nat>, pinned: set<nat>)
    requires Counts(bufs, Waiting(refs, b), held, pinned) && Locks(bufs, refs, me, held) && b < |bufs| && b !in held
    requires |bufs'| == |bufs| && forall i {:trigger bufs'[i]} | 0 <= i < |bufs| && i != b :: bufs'[i] == bufs[i]
    requires bufs'[b].(valid := bufs[b].valid, data := bufs[b].data) == bufs[b].(owner := me)
    ensures Busy(bufs', refs, me, held + {b}, pinned) && Keeps(bufs, bufs', held)
  {
  }

  lemma KeepsThen(bufs: seq<Buf>, bufs': seq<Buf>, bufs'': seq<Buf>, held: set<nat>)
    requires Keeps(bufs, bufs', held) && Keeps(bufs', bufs'', held)
    ensures Keeps(bufs, bufs'', held)
  {
  }

  lemma TookFollows(bufs: seq<Buf>, refs: seq<nat>, bufs': seq<Buf>, me: nat, b: nat, blockno: nat, held: set<nat>,
                    pinned: set<nat>, alone: bool, start: nat)
    requires Counts(bufs, refs, held, pinned) && Took(bufs, bufs', me, b, blockno) && Pins(bufs'[b], pinned) == Pins(bufs[b], pinned)
    requires bufs[b].owner != 0 ==> bufs[b].refcnt > 0
    requires alone ==> Clear(bufs, me, start, pinned)
    ensures Follows(Scene(alone, me, bufs, refs, pinned), Scene(alone, me, bufs', refs, pinned))
    ensures alone ==> Clear(bufs', me, start, pinned)
    ensures alone && bufs[b].owner != 0 && bufs[b].owner != me ==> !InLog(start, blockno) && blockno !in pinned
  {
    var s, s' := Scene(alone, me, bufs, refs, pinned), Scene(alone, me, bufs', refs, pinned);
    if !Cached(bufs, ROOTDEV, blockno) {
      assert !Taken(s, b) && !Taken(s', b);
    } else {
      assert forall i | 0 <= i < |bufs| :: Taken(s', i) == Taken(s, i);
    }
  }

  datatype LogResult = Logged | TooBig | OutsideTransaction

  /** How a use of the cache ends: a panic in bget(), a panic in log_write(), or still asleep on a buffer that another
      process has locked. */
  datatype Outcome = Done | NoBuffers | LogFull | Asleep

  class LogBuf {
    const cache: Bcache
    const others: Others
    const start: nat
    var block: seq<nat>
    var n: nat
    var outstanding: int
    var committing: bool

    constructor (cache: Bcache, others: Others, start: nat)
      ensures this.cache == cache && this.others == others && this.start == start && |block| == LOGBLOCKS
      ensures n == 0 && outstanding == 0 && !committing
    {
      this.cache, this.others := cache, others;
      this.start := start;
      block := seq(LOGBLOCKS, _ => 0);
      n, outstanding, committing := 0, 0, false;
    }

    ghost function Lh(): (r: seq<nat>)
      reads this
      requires n <= |block|
    {
      block[..n]
    }

    ghost predicate Attached()
      reads this, cache, cache.ring, cache.ring.next, cache.ring.prev, cache.disk, others
    {
      cache.Valid() && others.cache == cache && |others.refs| == NBUF && Sum(others.refs) <= others.limit
    }

    /** `me` has locked the buffers in `held`, the log has pinned `pinned`, and other processes have the rest. */
    ghost predicate Shared(me: nat, held: set<nat>, pinned: set<nat>)
      reads this, cache, cache.ring, cache.ring.next, cache.ring.prev, cache.disk, others
    {
      Attached() && me != 0 && Busy(cache.bufs, others.refs, me, held, pinned)
    }

    /** Another process has locked a buffer, and the others do nothing any more: `me` sleeps for good. */
    ghost predicate Blocked(me: nat)
      reads this, cache, others
    {
      others.plan == [] && exists i :: 0 <= i < |cache.bufs| && cache.bufs[i].owner != 0 && cache.bufs[i].owner != me
    }

    ghost function Now(me: nat, pinned: set<nat>): Scene
      reads this, cache, others
    {
      Scene(others.plan == [] && Clear(cache.bufs, me, start, pinned), me, cache.bufs, others.refs, pinned)
    }

    /** The header lists loggable blocks and fits in the log. */
    ghost predicate Sane()
      reads this, cache, cache.ring, cache.ring.next, cache.ring.prev, cache.disk
    {
      && cache.Valid()
      && |block| == LOGBLOCKS && n <= LOGBLOCKS
      && Geometry(cache.disk.blocks, start)
      && AllHome(Lh(), |cache.disk.blocks|, start)
    }

    /** What log_write() maintains besides: absorption keeps the entries distinct. */
    ghost predicate Valid()
      reads this, cache, cache.ring, cache.ring.next, cache.ring.prev, cache.disk
    {
      Sane() && NoDup(Lh())
    }

    /** The pinned blocks, the dirty blocks and the header entries are the same; `me` has the buffers in `held`. */
    ghost predicate Settled(me: nat, held: set<nat>)
      reads this, cache, cache.ring, cache.ring.next, cache.ring.prev, cache.disk, others
    {
      Valid() && Shared(me, held, SetOf(Lh())) && cache.dirty == SetOf(Lh())
    }

    /** The counters as the reservation argument sees them, for given open operations. */
    ghost function Ops(used: map<nat, nat>): Reservation.State
      reads this
      requires n <= |block|
    {
      Reservation.State(Lh(), outstanding, committing, used)
    }

    /** One pass of begin_op()'s loop: false means the process sleeps and tries again. */
    method BeginOp(ghost p: nat, ghost used: map<nat, nat>) returns (entered: bool)
      requires n <= |block| && p !in used
      modifies this`outstanding
      ensures entered <==> old(Reservation.Enabled(Ops(used), Reservation.Begin(p)))
      ensures entered ==> Ops(used[p := 0]) == old(Reservation.Next(Ops(used), Reservation.Begin(p)))
      ensures !entered ==> outstanding == old(outstanding)
    {
      if committing {
        return false;
      }
      if n + (outstanding + 1) * MAXOPBLOCKS > LOGBLOCKS {
        return false;
      }
      outstanding := outstanding + 1;
      return true;
    }

    /** end_op() up to the release of the lock: None is the panic "log.committing", Some(true) means commit next. */
    method EndOp(ghost p: nat, ghost used: map<nat, nat>) returns (r: Option<bool>)
      requires n <= |block| && p in used
      modifies this`outstanding, this`committing
      ensures r.None? <==> old(Reservation.Panics(Ops(used), Reservation.End(p)))
      ensures r.Some? ==> Ops(used - {p}) == old(Reservation.Next(Ops(used), Reservation.End(p)))
      ensures r.Some? ==> (r.value <==> committing)
    {
      outstanding := outstanding - 1;
      if committing {
        return None;
      }
      if outstanding == 0 {
        committing := true;
        return Some(true);
      }
      return Some(false);
    }

    /** log_write(): the limit is checked before the search for an entry to absorb into. */
    method LogWrite(b: nat) returns (r: LogResult)
      requires Valid() && b < NBUF && cache.bufs[b].valid
      requires IsHome(cache.disk.blocks, start, cache.bufs[b].blockno)
      modifies this`n, this`block, cache`bufs
      ensures Valid()
      ensures r == if old(n) >= LOGBLOCKS then TooBig else if old(outstanding) < 1 then OutsideTransaction else Logged
      ensures r != Logged ==> Lh() == old(Lh()) && cache.bufs == old(cache.bufs)
      ensures r == Logged && cache.bufs[b].blockno in old(Lh()) ==> Lh() == old(Lh()) && cache.bufs == old(cache.bufs)
      ensures r == Logged && cache.bufs[b].blockno !in old(Lh()) ==>
        && Lh() == old(Lh()) + [cache.bufs[b].blockno]
        && cache.bufs == old(cache.bufs)[b := old(cache.bufs)[b].(refcnt := old(cache.bufs)[b].refcnt + 1)]
      ensures SameView(old(cache.bufs), cache.disk.blocks, cache.bufs, cache.disk.blocks)
    {
      if n >= LOGBLOCKS {
        return TooBig;
      }
      if outstanding < 1 {
        return OutsideTransaction;
      }
      var blockno := cache.bufs[b].blockno;
      var i := 0;
      while i < n && block[i] != blockno
        invariant 0 <= i <= n
        invariant forall j | 0 <= j < i :: block[j] != blockno
      {
        i := i + 1;
      }
      ghost var lh := Lh();
      block := block[i := blockno];
      if i == n {
        cache.Bpin(b);
        n := n + 1;
        assert Lh() == lh + [blockno];
      } else {
        assert Lh() == lh;
      }
      return Logged;
    }

    /** The other processes run, while `me` has the buffers in `held` and waits for buffer `w`, if that is one. */
    method Yield(me: nat, ghost w: int, ghost held: set<nat>, ghost pinned: set<nat>)
      requires Attached() && me != 0 && cache.dirty == pinned
      requires Counts(cache.bufs, Waiting(others.refs, w), held, pinned) && Locks(cache.bufs, others.refs, me, held)
      modifies others`refs, others`plan, cache`bufs, cache.ring, cache.ring.next, cache.ring.prev
      ensures Attached()
      ensures Counts(cache.bufs, Waiting(others.refs, w), held, pinned) && Locks(cache.bufs, others.refs, me, held)
      ensures Keeps(old(cache.bufs), cache.bufs, held) && (0 <= w < NBUF ==> Keeps(old(cache.bufs), cache.bufs, {w}))
      ensures SameView(old(cache.bufs), cache.disk.blocks, cache.bufs, cache.disk.blocks)
      ensures others.plan == if old(others.plan) == [] then [] else old(others.plan)[1..]
      ensures old(others.plan) == [] ==> cache.bufs == old(cache.bufs) && others.refs == old(others.refs)
    {
      ghost var bufs := cache.bufs;
      ghost var base := seq(NBUF, i requires 0 <= i < NBUF =>
        Pins(bufs[i], pinned) + Holds(held, i) + if i == w then 1 else 0);
      others.Run(me, base);
      forall i | 0 <= i < NBUF
        ensures Pins(cache.bufs[i], pinned) == Pins(bufs[i], pinned)
      {
        PinsStay(bufs, cache.disk.blocks, cache.bufs, base, me, pinned, i);
      }
    }

    /** `me` has a reference to the buffer of `blockno` and sleeps on its lock, which another process has. */
    ghost predicate Sleeping(me: nat, b: nat, blockno: nat, held: set<nat>, pinned: set<nat>)
      reads this, cache, cache.ring, cache.ring.next, cache.ring.prev, cache.disk, others
    {
      && Attached() && b < NBUF && b !in held && IsAt(cache.bufs, b, ROOTDEV, blockno) && cache.bufs[b].owner != 0
      && Counts(cache.bufs, Waiting(others.refs, b), held, pinned) && Locks(cache.bufs, others.refs, me, held)
    }

    /** acquiresleep() in bread(), for a process with a reference to buffer `b`. */
    method Wait(me: nat, b: nat, blockno: nat, ghost held: set<nat>, ghost pinned: set<nat>) returns (r: Outcome)
      requires Sleeping(me, b, blockno, held, pinned) && me != 0 && cache.dirty == pinned && blockno < |cache.disk.blocks|
      modifies others`refs, others`plan, cache`bufs, cache.ring, cache.ring.next, cache.ring.prev
      ensures r == Done || r == Asleep
      ensures r == Done ==> Shared(me, held + {b}, pinned) && old(others.plan) != []
      ensures r == Done ==> cache.bufs[b].valid && cache.bufs[b].data == old(cache.Current(blockno))
      ensures old(others.plan) == [] ==> cache.bufs == old(cache.bufs) && others.refs == old(others.refs)
      ensures r == Asleep ==> Sleeping(me, b, blockno, held, pinned) && others.plan == []
      ensures IsAt(cache.bufs, b, ROOTDEV, blockno) && Keeps(old(cache.bufs), cache.bufs, held)
      ensures SameView(old(cache.bufs), cache.disk.blocks, cache.bufs, cache.disk.blocks)
    {
      ghost var bufs, d := cache.bufs, cache.disk.blocks;
      while others.plan != []
        invariant Sleeping(me, b, blockno, held, pinned)
        invariant Keeps(bufs, cache.bufs, held) && SameView(bufs, d, cache.bufs, d)
        invariant old(others.plan) == [] ==> cache.bufs == bufs && others.refs == old(others.refs)
        decreases |others.plan|
      {
        ghost var bufs1 := cache.bufs;
        Yield(me, b, held, pinned);
        ghost var bufs2 := cache.bufs;
        KeepsThen(bufs, bufs1, bufs2, held);
        var locked := cache.Acquire(me, b);
        if locked {
          GotLock(bufs2, others.refs, cache.bufs, me, b, held, pinned);
          KeepsThen(bufs, bufs2, cache.bufs, held);
          return Done;
        }
      }
      return Asleep;
    }

    /** bread() up to the point where it may have to sleep. */
    method Grab(me: nat, blockno: nat, ghost held: set<nat>, ghost pinned: set<nat>) returns (found: Option<nat>, locked: bool)
      requires Shared(me, held, pinned) && cache.dirty == pinned && blockno < |cache.disk.blocks|
      requires forall i | i in held && i < NBUF :: cache.bufs[i].blockno != blockno
      modifies cache`bufs
      ensures Attached()
      ensures found.None? <==> !Cached(old(cache.bufs), ROOTDEV, blockno) && forall i | 0 <= i < NBUF :: old(cache.bufs)[i].refcnt > 0
      ensures found.None? ==> cache.bufs == old(cache.bufs) && !locked
      ensures found.Some? ==> found.value < NBUF && found.value !in held && IsAt(cache.bufs, found.value, ROOTDEV, blockno)
      ensures locked ==>
        && Shared(me, held + {found.value}, pinned)
        && cache.bufs[found.value].valid && cache.bufs[found.value].data == old(cache.Current(blockno))
      ensures found.Some? && !locked ==>
        && Sleeping(me, found.value, blockno, held, pinned)
        && (Now(me, pinned).alone ==> !InLog(start, blockno) && blockno !in pinned)
      ensures Keeps(old(cache.bufs), cache.bufs, held)
      ensures SameView(old(cache.bufs), cache.disk.blocks, cache.bufs, cache.disk.blocks)
      ensures Follows(old(Now(me, pinned)), Now(me, pinned))
    {
      ghost var bufs, alone := cache.bufs, Now(me, pinned).alone;
      found, locked := cache.Bread(me, blockno);
      if found.Some? {
        ghost var b := found.value;
        assert Took(bufs, cache.bufs, me, b, blockno);
        TookCounts(bufs, cache.disk.blocks, others.refs, cache.bufs, me, b, blockno, held, pinned);
        TookFollows(bufs, others.refs, cache.bufs, me, b, blockno, held, pinned, alone, start);
      }
    }

    /** bread() once the other processes have run. */
    method Fetch(me: nat, blockno: nat, ghost held: set<nat>, ghost pinned: set<nat>) returns (r: Outcome, b: nat)
      requires Shared(me, held, pinned) && cache.dirty == pinned && blockno < |cache.disk.blocks|
      requires forall i | i in held && i < NBUF :: cache.bufs[i].blockno != blockno
      modifies others`refs, others`plan, cache`bufs, cache.ring, cache.ring.next, cache.ring.prev
      ensures r != LogFull
      ensures r == Asleep ==> Blocked(me)
      ensures r == Done ==>
        && b < NBUF && b !in held && Shared(me, held + {b}, pinned)
        && cache.bufs[b].valid && IsAt(cache.bufs, b, ROOTDEV, blockno)
        && cache.bufs[b].data == old(cache.Current(blockno))
      ensures r == NoBuffers <==> !Cached(cache.bufs, ROOTDEV, blockno)
      ensures r == NoBuffers ==> Shared(me, held, pinned) && forall i | 0 <= i < NBUF :: cache.bufs[i].refcnt > 0
      ensures r == Asleep ==> Sleeping(me, b, blockno, held, pinned) && others.plan == []
      ensures Keeps(old(cache.bufs), cache.bufs, held)
      ensures SameView(old(cache.bufs), cache.disk.blocks, cache.bufs, cache.disk.blocks)
      ensures Follows(old(Now(me, pinned)), Now(me, pinned))
      ensures old(Now(me, pinned)).alone ==>
        && (r == NoBuffers <==> !Cached(old(cache.bufs), ROOTDEV, blockno)
                                && forall i | 0 <= i < NBUF :: old(cache.bufs)[i].refcnt > 0)
        && (r == Asleep ==> !InLog(start, blockno) && blockno !in pinned)
    {
      ghost var bufs := cache.bufs;
      var found, locked := Grab(me, blockno, held, pinned);
      ghost var bufs1 := cache.bufs;
      if found.None? {
        return NoBuffers, 0;
      }
      b := found.value;
      r := Done;
      if !locked {
        r := Wait(me, b, blockno, held, pinned);
        KeepsThen(bufs, bufs1, cache.bufs, held);
      }
    }

    /** bread() by a process that has locked the buffers in `held`. */
    method Open(me: nat, blockno: nat, ghost held: set<nat>, ghost pinned: set<nat>) returns (r: Outcome, b: nat)
      requires Shared(me, held, pinned) && cache.dirty == pinned && blockno < |cache.disk.blocks|
      requires forall i | i in held && i < NBUF :: cache.bufs[i].blockno != blockno
      modifies others`refs, others`plan, cache`bufs, cache.ring, cache.ring.next, cache.ring.prev
      ensures r != LogFull
      ensures r == Asleep ==> Blocked(me)
      ensures r == Done ==>
        && b < NBUF && b !in held && Shared(me, held + {b}, pinned)
        && cache.bufs[b].valid && IsAt(cache.bufs, b, ROOTDEV, blockno)
        && cache.bufs[b].data == old(cache.Current(blockno))
      ensures r == NoBuffers <==> !Cached(cache.bufs, ROOTDEV, blockno)
      ensures r == NoBuffers ==> Shared(me, held, pinned) && forall i | 0 <= i < NBUF :: cache.bufs[i].refcnt > 0
      ensures r == Asleep ==> Sleeping(me, b, blockno, held, pinned) && others.plan == []
      ensures Keeps(old(cache.bufs), cache.bufs, held)
      ensures SameView(old(cache.bufs), cache.disk.blocks, cache.bufs, cache.disk.blocks)
      ensures Follows(old(Now(me, pinned)), Now(me, pinned))
      ensures old(Now(me, pinned)).alone ==>
        && (r == NoBuffers <==> !Cached(old(cache.bufs), ROOTDEV, blockno)
                                && forall i | 0 <= i < NBUF :: old(cache.bufs)[i].refcnt > 0)
        && (r == Asleep ==> !InLog(start, blockno) && blockno !in pinned)
    {
      ghost var bufs := cache.bufs;
      Yield(me, -1, held, pinned);
      ghost var bufs1 := cache.bufs;
      r, b := Fetch(me, blockno, held, pinned);
      KeepsThen(bufs, bufs1, cache.bufs, held);
    }

    /** brelse() of a buffer whose block is on disk or pinned. */
    method Close(me: nat, b: nat, ghost held: set<nat>, ghost pinned: set<nat>, ghost s: Scene)
      requires Follows(s, Now(me, pinned)) && Shared(me, held, pinned) && b < NBUF && b in held && cache.bufs[b].valid
      requires cache.bufs[b].blockno in cache.dirty ==> cache.bufs[b].blockno in pinned
      modifies cache`bufs, cache.ring, cache.ring.next, cache.ring.prev
      ensures Shared(me, held - {b}, pinned)
      ensures forall i | 0 <= i < NBUF && i != b :: cache.bufs[i] == old(cache.bufs)[i]
      ensures SameView(old(cache.bufs), cache.disk.blocks, cache.bufs, cache.disk.blocks)
      ensures Follows(s, Now(me, pinned))
    {
      ghost var s1 := Now(me, pinned);
      var ok := cache.Brelse(me, b);
      SameFollows(s, s1, Now(me, pinned));
    }

    /** The holder of buffer `b` changes it and logs the change. */
    method EditAndLog(me: nat, b: nat, data: Block, ghost held: set<nat>) returns (w: LogResult)
      requires Settled(me, held) && b < NBUF && b in held && cache.bufs[b].valid && outstanding >= 1
      requires IsHome(cache.disk.blocks, start, cache.bufs[b].blockno)
      modifies this`n, this`block, cache`bufs, cache`dirty
      ensures Valid() && (w == Logged <==> old(n) < LOGBLOCKS)
      ensures w != Logged ==> w == TooBig
      ensures w == Logged ==>
        && Settled(me, held)
        && cache.bufs[b].valid && cache.bufs[b].blockno == old(cache.bufs)[b].blockno
        && (forall i | 0 <= i < NBUF && i != b :: cache.bufs[i] == old(cache.bufs)[i])
        && Lh() == Absorb(old(Lh()), cache.bufs[b].blockno)
        && ViewBecomes(old(cache.bufs), cache.disk.blocks, cache.bufs, cache.disk.blocks, cache.bufs[b].blockno, data)
    {
      ghost var s, blockno, bufs0, d := SetOf(Lh()), cache.bufs[b].blockno, cache.bufs, cache.disk.blocks;
      cache.Modify(me, b, data);
      ghost var bufs := cache.bufs;
      assert Busy(bufs, others.refs, me, held, s);
      w := LogWrite(b);
      if w == Logged {
        assert SetOf(Lh()) == s + {blockno};
        assert (s + {blockno}) - {blockno} == s - {blockno};
        Repin(bufs, others.refs, me, held, s, b, cache.bufs[b].refcnt, s + {blockno});
      }
    }

    /** What follows the bread() in such a use. */
    method ChangeAndClose(me: nat, b: nat, data: Block, ghost held: set<nat>) returns (r: Outcome)
      requires Settled(me, held + {b}) && b < NBUF && b !in held && cache.bufs[b].valid && outstanding >= 1
      requires IsHome(cache.disk.blocks, start, cache.bufs[b].blockno)
      modifies this`n, this`block, cache`bufs, cache`dirty, cache.ring, cache.ring.next, cache.ring.prev
      ensures Valid() && r == if old(n) < LOGBLOCKS then Done else LogFull
      ensures r == Done ==>
        && Settled(me, held) && Keeps(old(cache.bufs), cache.bufs, held)
        && Lh() == Absorb(old(Lh()), old(cache.bufs)[b].blockno)
        && ViewBecomes(old(cache.bufs), cache.disk.blocks, cache.bufs, cache.disk.blocks, old(cache.bufs)[b].blockno, data)
    {
      ghost var held' := held + {b};
      var w := EditAndLog(me, b, data, held');
      if w != Logged {
        return LogFull;
      }
      Close(me, b, held', SetOf(Lh()), Now(me, SetOf(Lh())));
      assert held' - {b} == held;
      return Done;
    }

    /** The use log.c prescribes: read a block, change it, log it, release it. The caller may have other buffers locked, as
        bmap() has the indirect block while balloc() runs. */
    method Update(me: nat, blockno: nat, data: Block, ghost held: set<nat>) returns (r: Outcome)
      requires Settled(me, held) && outstanding >= 1 && IsHome(cache.disk.blocks, start, blockno)
      requires forall i | i in held && i < NBUF :: cache.bufs[i].blockno != blockno
      modifies this`n, this`block, others`refs, others`plan, cache, cache.ring, cache.ring.next, cache.ring.prev
      ensures Valid()
      ensures r == Done ==> old(n) < LOGBLOCKS
      ensures r == LogFull ==> old(n) >= LOGBLOCKS
      ensures r == NoBuffers ==>
        && !Cached(cache.bufs, ROOTDEV, blockno) && (forall i | 0 <= i < NBUF :: cache.bufs[i].refcnt > 0)
        && NBUF <= Sum(others.refs) + n + |held|
      ensures r == Asleep ==> Blocked(me) && exists b :: Sleeping(me, b, blockno, held, SetOf(Lh()))
      ensures old(Now(me, SetOf(Lh()))).alone ==>
        (r == NoBuffers <==> !Cached(old(cache.bufs), ROOTDEV, blockno)
                             && forall i | 0 <= i < NBUF :: old(cache.bufs)[i].refcnt > 0)
      ensures r == NoBuffers || r == Asleep ==>
        && Lh() == old(Lh()) && SameView(old(cache.bufs), cache.disk.blocks, cache.bufs, cache.disk.blocks)
      ensures r == Done ==>
        && Settled(me, held) && Keeps(old(cache.bufs), cache.bufs, held)
        && Lh() == Absorb(old(Lh()), blockno)
        && ViewBecomes(old(cache.bufs), cache.disk.blocks, cache.bufs, cache.disk.blocks, blockno, data)
    {
      ghost var d, bufs0 := cache.disk.blocks, cache.bufs;
      NoDupSize(Lh());
      var b;
      r, b := Open(me, blockno, held, SetOf(Lh()));
      if r == NoBuffers {
        FreeBuffer(cache.bufs, d, others.refs, held, SetOf(Lh()));
      }
      if r != Done {
        return;
      }
      ghost var bufs1 := cache.bufs;
      r := ChangeAndClose(me, b, data, held);
      if r == Done {
        ViewThen(bufs0, d, bufs1, d, cache.bufs, d, blockno, data);
        KeepsThen(bufs0, bufs1, cache.bufs, held);
      }
    }

    // ---------- commit and recovery ----------

    /** The holder of a buffer overwrites it and writes it to disk. */
    method WriteThrough(me: nat, b: nat, data: Block, ghost held: set<nat>, ghost pinned: set<nat>, ghost s: Scene)
      requires Follows(s, Now(me, pinned)) && Shared(me, held, pinned) && b < NBUF && b in held && cache.bufs[b].valid
      modifies cache`bufs, cache`dirty, cache.disk
      ensures Shared(me, held, pinned)
      ensures cache.bufs == old(cache.bufs)[b := old(cache.bufs)[b].(data := data)]
      ensures cache.dirty == old(cache.dirty) - {cache.bufs[b].blockno}
      ensures Wrote(old(cache.disk.blocks), old(cache.disk.history), cache.disk.blocks, cache.disk.history,
                    cache.bufs[b].blockno, data)
      ensures ViewBecomes(old(cache.bufs), old(cache.disk.blocks), cache.bufs, cache.disk.blocks,
                          cache.bufs[b].blockno, data)
      ensures Follows(s, Now(me, pinned))
    {
      ghost var s1, bufs, d := Now(me, pinned), cache.bufs, cache.disk.blocks;
      cache.Modify(me, b, data);
      assert ViewBecomes(bufs, d, cache.bufs, d, cache.bufs[b].blockno, data);
      var ok := cache.Bwrite(me, b);
      SameFollows(s, s1, Now(me, pinned));
    }

    /** bread() of a block of the log, with no buffer locked. */
    method OpenLog(me: nat, x: nat, ghost pinned: set<nat>, ghost s: Scene) returns (r: Outcome, b: nat)
      requires Follows(s, Now(me, pinned)) && Shared(me, {}, pinned) && cache.dirty == pinned && x < |cache.disk.blocks| && InLog(start, x)
      modifies others`refs, others`plan, cache`bufs, cache.ring, cache.ring.next, cache.ring.prev
      ensures r != LogFull && Attached()
      ensures r == Asleep ==> Blocked(me)
      ensures r == Done ==>
        && b < NBUF && Shared(me, {b}, pinned)
        && cache.bufs[b].valid && IsAt(cache.bufs, b, ROOTDEV, x) && cache.bufs[b].data == old(cache.Current(x))
      ensures r == NoBuffers ==> Starved(Now(me, pinned), x) && NBUF <= Sum(others.refs) + |pinned|
      ensures s.alone ==>
        && r != Asleep && (r == NoBuffers ==> Starved(s, x))
        && (s.pinned == pinned && Starved(s, x) ==> r == NoBuffers)
      ensures others.limit == 0 ==> r != Asleep
      ensures Follows(s, Now(me, pinned))
      ensures SameView(old(cache.bufs), cache.disk.blocks, cache.bufs, cache.disk.blocks)
    {
      ghost var s1 := Now(me, pinned);
      if s.alone {
        StarvedBack(s, s1, x);
      }
      AllTaken(s1);
      r, b := Open(me, x, {}, pinned);
      FollowsThen(s, s1, Now(me, pinned));
      if r == NoBuffers {
        AllTaken(Now(me, pinned));
        FreeBuffer(cache.bufs, cache.disk.blocks, others.refs, {}, pinned);
      }
      SumZero(others.refs);
      assert {} + {b} == {b};
    }

    /** bread() of a home block, with the buffer `b` of a log block locked. A pinned block has its buffer. */
    method OpenHome(me: nat, y: nat, b: nat, ghost pinned: set<nat>, ghost s: Scene) returns (r: Outcome, c: nat)
      requires Follows(s, Now(me, pinned)) && b < NBUF && Shared(me, {b}, pinned) && cache.bufs[b].blockno != y && cache.bufs[b].valid
      requires cache.dirty == pinned && y < |cache.disk.blocks|
      requires y !in pinned ==> others.limit == 0 && pinned == {}
      modifies others`refs, others`plan, cache`bufs, cache.ring, cache.ring.next, cache.ring.prev
      ensures r == Done || (r == Asleep && others.limit > 0)
      ensures r == Asleep ==> Blocked(me)
      ensures r == Done ==>
        && c < NBUF && c != b && Shared(me, {b, c}, pinned)
        && cache.bufs[c].valid && IsAt(cache.bufs, c, ROOTDEV, y) && cache.bufs[c].data == old(cache.Current(y))
        && Keeps(old(cache.bufs), cache.bufs, {b})
      ensures s.alone && y in pinned ==> r == Done
      ensures Follows(s, Now(me, pinned))
      ensures SameView(old(cache.bufs), cache.disk.blocks, cache.bufs, cache.disk.blocks)
    {
      ghost var s1 := Now(me, pinned);
      r, c := Open(me, y, {b}, pinned);
      FollowsThen(s, s1, Now(me, pinned));
      assert {b} + {c} == {b, c};
      SumZero(others.refs);
      ghost var spare := cache.bufs[if b == 0 then 1 else 0];
      assert y in pinned ==> DirtyAt(cache.bufs, y);
    }

    /** The two breads that start a turn of write_log() and of install_trans(). */
    method OpenTwo(me: nat, x: nat, y: nat, ghost pinned: set<nat>, ghost s: Scene) returns (r: Outcome, b: nat, c: nat)
      requires Shared(me, {}, pinned) && cache.dirty == pinned && Follows(s, Now(me, pinned))
      requires x < |cache.disk.blocks| && y < |cache.disk.blocks| && x != y && InLog(start, x)
      requires y !in pinned ==> others.limit == 0 && pinned == {}
      modifies others`refs, others`plan, cache`bufs, cache.ring, cache.ring.next, cache.ring.prev
      ensures r != LogFull
      ensures r == Asleep ==> Blocked(me)
      ensures r == Done ==>
        && b < NBUF && c < NBUF && b != c && Shared(me, {b, c}, pinned)
        && cache.bufs[b].valid && cache.bufs[b].blockno == x && cache.bufs[b].data == old(cache.Current(x))
        && cache.bufs[c].valid && cache.bufs[c].blockno == y && cache.bufs[c].data == old(cache.Current(y))
      ensures r == NoBuffers ==> Starved(Now(me, pinned), x) && NBUF <= Sum(others.refs) + |pinned|
      ensures s.alone && y in pinned ==>
        && r != Asleep && (r == NoBuffers ==> Starved(s, x))
        && (s.pinned == pinned && Starved(s, x) ==> r == NoBuffers)
      ensures y !in pinned ==> r == Done
      ensures Follows(s, Now(me, pinned))
      ensures SameView(old(cache.bufs), cache.disk.blocks, cache.bufs, cache.disk.blocks)
    {
      c := 0;
      r, b := OpenLog(me, x, pinned, s);
      if r == Done {
        r, c := OpenHome(me, y, b, pinned, s);
      }
    }

    /** The rest of such a turn: copy, write, perhaps unpin, release both. */
    method CopyAndClose(me: nat, dst: nat, src: nat, unpin: bool, ghost pinned: set<nat>, ghost pinned': set<nat>,
                        ghost blockno: nat, ghost data: Block, ghost s: Scene)
      requires Follows(s, Now(me, pinned)) && dst < NBUF && src < NBUF && dst != src && Shared(me, {dst, src}, pinned)
      requires cache.bufs[dst].valid && cache.bufs[src].valid
      requires blockno == cache.bufs[dst].blockno && data == cache.bufs[src].data
      requires cache.dirty <= pinned
      requires if unpin then blockno in pinned && pinned' == pinned - {blockno} else pinned' == pinned
      modifies cache, cache.ring, cache.ring.next, cache.ring.prev, cache.disk
      ensures Shared(me, {}, pinned')
      ensures cache.dirty == old(cache.dirty) - {blockno}
      ensures Wrote(old(cache.disk.blocks), old(cache.disk.history), cache.disk.blocks, cache.disk.history, blockno, data)
      ensures ViewBecomes(old(cache.bufs), old(cache.disk.blocks), cache.bufs, cache.disk.blocks, blockno, data)
      ensures Follows(s, Now(me, pinned'))
    {
      ghost var held := {dst, src};
      WriteThrough(me, dst, cache.bufs[src].data, held, pinned, s);
      if unpin {
        Unpin(me, dst, held, pinned, pinned', s);
      }
      CloseBoth(me, dst, src, pinned', s);
    }

    method Unpin(me: nat, b: nat, ghost held: set<nat>, ghost pinned: set<nat>, ghost pinned': set<nat>, ghost s: Scene)
      requires Follows(s, Now(me, pinned)) && b < NBUF && b in held && Shared(me, held, pinned) && cache.bufs[b].valid
      requires cache.bufs[b].blockno in pinned && pinned' == pinned - {cache.bufs[b].blockno}
      requires cache.bufs[b].blockno !in cache.dirty
      modifies cache`bufs
      ensures Shared(me, held, pinned')
      ensures cache.bufs == old(cache.bufs)[b := old(cache.bufs)[b].(refcnt := old(cache.bufs)[b].refcnt - 1)]
      ensures SameView(old(cache.bufs), cache.disk.blocks, cache.bufs, cache.disk.blocks)
      ensures Follows(s, Now(me, pinned'))
    {
      ghost var s1, bufs := Now(me, pinned), cache.bufs;
      assert pinned' - {bufs[b].blockno} == pinned - {bufs[b].blockno};
      Repin(bufs, others.refs, me, held, pinned, b, bufs[b].refcnt - 1, pinned');
      cache.Bunpin(b);
      SameFollows(s, s1, Now(me, pinned'));
    }

    method CloseBoth(me: nat, b: nat, c: nat, ghost pinned: set<nat>, ghost s: Scene)
      requires Follows(s, Now(me, pinned)) && b < NBUF && c < NBUF && b != c && Shared(me, {b, c}, pinned) && cache.dirty <= pinned
      requires cache.bufs[b].valid && cache.bufs[c].valid
      modifies cache`bufs, cache.ring, cache.ring.next, cache.ring.prev
      ensures Shared(me, {}, pinned)
      ensures SameView(old(cache.bufs), cache.disk.blocks, cache.bufs, cache.disk.blocks)
      ensures Follows(s, Now(me, pinned))
    {
      Close(me, c, {b, c}, pinned, s);
      assert {b, c} - {c} == {b};
      Close(me, b, {b}, pinned, s);
      assert {b} - {b} == {};
    }

    /** One turn of write_log(): the pinned copy of a block goes to its place in the log. */
    method CopyToLog(me: nat, tail: nat, ghost pinned: set<nat>, ghost data: Block, ghost s: Scene) returns (r: Outcome)
      requires Sane() && tail < n && Shared(me, {}, pinned) && cache.dirty == pinned
      requires Follows(s, Now(me, pinned)) && s.pinned == pinned
      requires block[tail] in pinned && start + 1 + tail !in pinned
      requires data == cache.Current(block[tail])
      modifies others`refs, others`plan, cache, cache.ring, cache.ring.next, cache.ring.prev, cache.disk
      ensures r != LogFull
      ensures r == Asleep ==> Blocked(me)
      ensures r == NoBuffers ==> Starved(Now(me, pinned), start + 1 + tail) && NBUF <= Sum(others.refs) + |pinned|
      ensures s.alone ==> (r == NoBuffers <==> Starved(s, start + 1 + tail)) && r != Asleep
      ensures Follows(s, Now(me, pinned))
      ensures r != Done ==>
        cache.disk.blocks == old(cache.disk.blocks) && cache.disk.history == old(cache.disk.history)
      ensures r == Done ==>
        && Sane() && Shared(me, {}, pinned) && cache.dirty == pinned
        && Wrote(old(cache.disk.blocks), old(cache.disk.history), cache.disk.blocks, cache.disk.history,
                 start + 1 + tail, data)
        && ViewBecomes(old(cache.bufs), old(cache.disk.blocks), cache.bufs, cache.disk.blocks, start + 1 + tail, data)
    {
      ghost var bufs, d := cache.bufs, cache.disk.blocks;
      var to, from;
      r, to, from := OpenTwo(me, start + 1 + tail, block[tail], pinned, s);
      if r != Done {
        return;
      }
      ghost var bufs1 := cache.bufs;
      CopyAndClose(me, to, from, false, pinned, pinned, start + 1 + tail, data, s);
      assert pinned - {start + 1 + tail} == pinned;
      ViewThen(bufs, d, bufs1, d, cache.bufs, cache.disk.blocks, start + 1 + tail, data);
    }

    /** One turn of install_trans(): a log block goes home. */
    method InstallOne(me: nat, tail: nat, recovering: bool, ghost pinned: set<nat>, ghost pinned': set<nat>, ghost s: Scene)
        returns (r: Outcome)
      requires Sane() && tail < n && Shared(me, {}, pinned) && cache.dirty == pinned && Follows(s, Now(me, pinned))
      requires if recovering then pinned == {} && others.limit == 0 else block[tail] in pinned
      requires pinned' == pinned - {block[tail]}
      requires forall b | b in pinned :: !InLog(start, b)
      modifies others`refs, others`plan, cache, cache.ring, cache.ring.next, cache.ring.prev, cache.disk
      ensures r != LogFull && (recovering ==> r == Done)
      ensures r == Asleep ==> Blocked(me)
      ensures r == NoBuffers ==> Starved(Now(me, pinned), start + 1 + tail) && NBUF <= Sum(others.refs) + |pinned|
      ensures s.alone && !recovering ==> r != Asleep && (r == NoBuffers ==> Starved(s, start + 1 + tail))
      ensures r == Done ==> Follows(s, Now(me, pinned'))
      ensures r != Done ==>
        cache.disk.blocks == old(cache.disk.blocks) && cache.disk.history == old(cache.disk.history)
      ensures r == Done ==>
        && Sane() && Shared(me, {}, pinned') && cache.dirty == pinned'
        && Wrote(old(cache.disk.blocks), old(cache.disk.history), cache.disk.blocks, cache.disk.history,
                 block[tail], old(cache.disk.blocks)[start + 1 + tail])
    {
      ViewClean(cache.bufs, cache.disk.blocks, pinned, start + 1 + tail);
      var lbuf, dbuf;
      r, lbuf, dbuf := OpenTwo(me, start + 1 + tail, block[tail], pinned, s);
      if r != Done {
        return;
      }
      CopyAndClose(me, dbuf, lbuf, !recovering, pinned, pinned', block[tail], cache.bufs[lbuf].data, s);
    }

    /** write_log(): `k` blocks are written when it ends. */
    method WriteLog(me: nat, ghost t: Tx, ghost s: Scene) returns (r: Outcome, ghost k: nat)
      requires Settled(me, {}) && t == TxOf(cache.bufs, cache.disk.blocks, Lh()) && s == Now(me, SetOf(Lh()))
      modifies others`refs, others`plan, cache, cache.ring, cache.ring.next, cache.ring.prev, cache.disk
      ensures r != LogFull && k <= n && if r == Done then k == n && Settled(me, {}) else k < n
      ensures r == Asleep ==> Blocked(me)
      ensures WroteAll(old(cache.disk.blocks), old(cache.disk.history), cache.disk.blocks, cache.disk.history,
                       LogWrites(start, t, k))
      ensures r == NoBuffers ==> !Cached(cache.bufs, ROOTDEV, start + 1 + k) && NBUF <= Sum(others.refs) + n
      ensures r == Done ==> Follows(s, Now(me, SetOf(Lh())))
      ensures s.alone ==> r != Asleep && (r == NoBuffers <==> StarvedIn(s, start + 1, start + n))
    {
      ghost var d, h := cache.disk.blocks, cache.disk.history;
      var tail := 0;
      ghost var x := start;
      k := 0;
      while tail < n
        invariant k == tail <= n && x == start + tail && Writing(me, d, h, t, k) && Along(me, s, x)
      {
        x := x + 1;
        r := WriteLogTurn(me, tail, x, d, h, t, s);
        if r != Done {
          return;
        }
        tail, k := tail + 1, k + 1;
      }
      r := Done;
    }

    /** write_log() has copied the first `tail` blocks of transaction `t`. */
    ghost predicate Writing(me: nat, d: Disk, h: seq<Write>, t: Tx, tail: nat)
      reads this, cache, cache.ring, cache.ring.next, cache.ring.prev, cache.disk, others
    {
      && Settled(me, {}) && |cache.disk.blocks| == |d| && tail <= n && |t.data| == |t.blocks|
      && TxOf(cache.bufs, cache.disk.blocks, Lh()) == t
      && WroteAll(d, h, cache.disk.blocks, cache.disk.history, LogWrites(start, t, tail))
    }

    /** Since the scene `s` every buffer was found that write_log() asked for, up to the one for block `last`. */
    ghost predicate Along(me: nat, s: Scene, last: nat)
      reads this, cache, others
    {
      && Follows(s, Now(me, s.pinned)) && n <= |block| && s.pinned == SetOf(Lh())
      && (s.alone ==> !StarvedIn(s, start + 1, last))
    }

    method WriteLogTurn(me: nat, tail: nat, ghost x: nat, ghost d: Disk, ghost h: seq<Write>, ghost t: Tx, ghost s: Scene)
        returns (r: Outcome)
      requires tail < n && x == start + 1 + tail && Writing(me, d, h, t, tail) && Along(me, s, x - 1)
      modifies others`refs, others`plan, cache, cache.ring, cache.ring.next, cache.ring.prev, cache.disk
      ensures r != LogFull
      ensures r == Asleep ==> Blocked(me)
      ensures r != Done ==> WroteAll(d, h, cache.disk.blocks, cache.disk.history, LogWrites(start, t, tail))
      ensures r == NoBuffers ==> !Cached(cache.bufs, ROOTDEV, x) && NBUF <= Sum(others.refs) + n
      ensures s.alone ==> r != Asleep && (r == NoBuffers ==> Starved(s, x))
      ensures r == Done ==> Writing(me, d, h, t, tail + 1) && Along(me, s, x)
    {
      ghost var lh, bufs1, d1, h1 := Lh(), cache.bufs, cache.disk.blocks, cache.disk.history;
      assert t.data[tail] == View(bufs1, d1, lh[tail]);
      NoDupSize(lh);
      NotLogged(lh, |d|, start, start + 1 + tail);
      r := CopyToLog(me, tail, SetOf(lh), t.data[tail], s);
      if r == Done {
        StarvedMore(s, start + 1, x - 1, x);
        TxKept(bufs1, d1, cache.bufs, cache.disk.blocks, lh, start, start + 1 + tail, t.data[tail]);
        LogWritesMore(d, h, d1, h1, cache.disk.blocks, cache.disk.history, start, t, tail);
      }
    }

    /** The loop of write_head() over the header buffer. */
    method HeadImage(b: Block) returns (hb: Block)
      requires |block| == LOGBLOCKS && n <= LOGBLOCKS && forall i | 0 <= i < n :: block[i] < WORD
      ensures hb == PutHead(b, Lh())
    {
      ghost var lh := Lh();
      hb := PutWord(b, 0, n);
      for i := 0 to n
        invariant hb == PutEntries(b, lh, i)
      {
        assert block[i] == lh[i];
        hb := PutWord(hb, 1 + i, block[i]);
      }
    }

    method WriteHead(me: nat, ghost pinned: set<nat>, ghost s: Scene) returns (r: Outcome)
      requires Follows(s, Now(me, pinned)) && Sane() && Shared(me, {}, pinned) && cache.dirty == pinned && start !in pinned
      modifies others`refs, others`plan, cache, cache.ring, cache.ring.next, cache.ring.prev, cache.disk
      ensures r != LogFull && (others.limit == 0 && pinned == {} ==> r == Done)
      ensures r == Asleep ==> Blocked(me)
      ensures r == NoBuffers ==> Starved(Now(me, pinned), start) && NBUF <= Sum(others.refs) + |pinned|
      ensures s.alone ==>
        && r != Asleep && (r == NoBuffers ==> Starved(s, start))
        && (s.pinned == pinned && Starved(s, start) ==> r == NoBuffers)
      ensures Follows(s, Now(me, pinned))
      ensures r != Done ==>
        cache.disk.blocks == old(cache.disk.blocks) && cache.disk.history == old(cache.disk.history)
      ensures r == Done ==>
        && Sane() && Shared(me, {}, pinned) && cache.dirty == pinned
        && Wrote(old(cache.disk.blocks), old(cache.disk.history), cache.disk.blocks, cache.disk.history,
                 start, PutHead(old(cache.disk.blocks)[start], Lh()))
    {
      ghost var lh := Lh();
      ViewClean(cache.bufs, cache.disk.blocks, pinned, start);
      var b;
      r, b := OpenLog(me, start, pinned, s);
      if r != Done {
        return;
      }
      assert forall i | 0 <= i < n :: block[i] == lh[i];
      var hb := HeadImage(cache.bufs[b].data);
      WriteThrough(me, b, hb, {b}, pinned, s);
      Close(me, b, {b}, pinned, s);
      assert {b} - {b} == {} && pinned - {start} == pinned && Lh() == lh;
    }

    /** install_trans(): `k` blocks are installed when it ends. In recovery no other process uses the cache. */
    method InstallTrans(me: nat, recovering: bool, ghost t: Tx, ghost s: Scene) returns (r: Outcome, ghost k: nat)
      requires Follows(s, Now(me, cache.dirty)) && Sane() && t == LogTx(cache.disk.blocks, start, Lh())
      requires if recovering then Sane() && Shared(me, {}, {}) && cache.dirty == {} && others.limit == 0 else Settled(me, {})
      modifies others`refs, others`plan, cache, cache.ring, cache.ring.next, cache.ring.prev, cache.disk
      ensures r != LogFull && k <= n && (recovering ==> r == Done) && (r != Done ==> k < n)
      ensures r == Asleep ==> Blocked(me)
      ensures r == Done ==> k == n && Sane() && Shared(me, {}, {}) && cache.dirty == {}
      ensures WroteAll(old(cache.disk.blocks), old(cache.disk.history), cache.disk.blocks, cache.disk.history,
                       HomeWrites(t, k))
      ensures r == NoBuffers ==> !Cached(cache.bufs, ROOTDEV, start + 1 + k) && NBUF <= Sum(others.refs) + n
      ensures r == Done ==> Follows(s, Now(me, {}))
      ensures s.alone && !recovering ==> r != Asleep && (r == NoBuffers ==> StarvedIn(s, start + 1, start + n))
    {
      ghost var d, h := cache.disk.blocks, cache.disk.history;
      var tail := 0;
      assert Lh()[0..] == Lh();
      while tail < n
        invariant tail <= n && Installing(me, d, h, t, recovering, tail)
        invariant Follows(s, Now(me, cache.dirty))
      {
        r := InstallTurn(me, tail, recovering, d, h, t, s);
        if r != Done {
          return r, tail;
        }
        tail := tail + 1;
      }
      assert !recovering ==> SetOf(Lh()[n..]) == {};
      return Done, n;
    }

    /** install_trans() has installed the first `tail` blocks of the logged transaction `t`. */
    ghost predicate Installing(me: nat, d: Disk, h: seq<Write>, t: Tx, recovering: bool, tail: nat)
      reads this, cache, cache.ring, cache.ring.next, cache.ring.prev, cache.disk, others
    {
      && Sane() && (recovering || NoDup(Lh())) && |cache.disk.blocks| == |d| && tail <= n && LogTx(d, start, Lh()) == t
      && cache.dirty == (if recovering then {} else SetOf(Lh()[tail..])) && (recovering ==> others.limit == 0)
      && Shared(me, {}, cache.dirty)
      && WroteAll(d, h, cache.disk.blocks, cache.disk.history, HomeWrites(t, tail))
    }

    method InstallTurn(me: nat, tail: nat, recovering: bool, ghost d: Disk, ghost h: seq<Write>, ghost t: Tx, ghost s: Scene)
        returns (r: Outcome)
      requires tail < n && Installing(me, d, h, t, recovering, tail) && Follows(s, Now(me, cache.dirty))
      modifies others`refs, others`plan, cache, cache.ring, cache.ring.next, cache.ring.prev, cache.disk
      ensures r != LogFull && (recovering ==> r == Done)
      ensures r == Asleep ==> Blocked(me)
      ensures r != Done ==> WroteAll(d, h, cache.disk.blocks, cache.disk.history, HomeWrites(t, tail))
      ensures r == NoBuffers ==> !Cached(cache.bufs, ROOTDEV, start + 1 + tail) && NBUF <= Sum(others.refs) + n
      ensures s.alone && !recovering ==> r != Asleep && (r == NoBuffers ==> Starved(s, start + 1 + tail))
      ensures r == Done ==> Installing(me, d, h, t, recovering, tail + 1) && Follows(s, Now(me, cache.dirty))
    {
      ghost var lh, d1, h1, pinned := Lh(), cache.disk.blocks, cache.disk.history, cache.dirty;
      PinnedSuffix(lh, tail, recovering, |d|, start);
      LogBlockKept(d, start, t, tail);
      r := InstallOne(me, tail, recovering, pinned, pinned - {block[tail]}, s);
      if r == Done {
        HomeWritesMore(d, h, d1, h1, cache.disk.blocks, cache.disk.history, t, tail);
      }
    }

    /** Some block of the log has no buffer, and every buffer has a reference. */
    ghost predicate Short(size: nat)
      reads this, cache, others
    {
      NBUF <= Sum(others.refs) + size && exists x | start <= x <= start + size :: !Cached(cache.bufs, ROOTDEV, x)
    }

    /** commit(): `k` blocks are written when it ends. NoBuffers is the panic "bget: no buffers". */
    method Commit(me: nat) returns (r: Outcome, ghost k: nat)
      requires Settled(me, {})
      requires LogOk(cache.disk.blocks, start) && HeadCount(cache.disk.blocks, start) == 0
      modifies this`n, others`refs, others`plan, cache, cache.ring, cache.ring.next, cache.ring.prev, cache.disk
      ensures r != LogFull
      ensures r == Asleep ==> Blocked(me)
      ensures Reached(old(cache.disk.blocks), old(cache.disk.history), cache.disk.blocks, cache.disk.history, start,
                      old(TxOf(cache.bufs, cache.disk.blocks, Lh())), k)
      ensures r == Done ==>
        && n == 0 && Settled(me, {})
        && k == |CommitWrites(old(cache.disk.blocks), start, old(TxOf(cache.bufs, cache.disk.blocks, Lh())))|
      ensures r == NoBuffers ==> Short(old(n))
      ensures old(Now(me, SetOf(Lh()))).alone ==>
        && r != Asleep && (r == NoBuffers ==> k <= old(n))
        && (r == NoBuffers <==> old(n) > 0 && StarvedIn(old(Now(me, SetOf(Lh()))), start, start + old(n)))
    {
      ghost var d, h, s := cache.disk.blocks, cache.disk.history, Now(me, SetOf(Lh()));
      ghost var t := TxOf(cache.bufs, d, Lh());
      if n == 0 {
        return Done, 0;
      }
      r, k := Prepare(me, d, h, t, s);
      if r == Done {
        r, k := Finish(me, d, h, t, s);
      }
    }

    /** The part of commit() up to the header. */
    method Prepare(me: nat, ghost d: Disk, ghost h: seq<Write>, ghost t: Tx, ghost s: Scene) returns (r: Outcome, ghost k: nat)
      requires Settled(me, {}) && n > 0 && s == Now(me, SetOf(Lh()))
      requires d == cache.disk.blocks && h == cache.disk.history && t == TxOf(cache.bufs, d, Lh()) && TxOk(d, start, t)
      modifies others`refs, others`plan, cache, cache.ring, cache.ring.next, cache.ring.prev, cache.disk
      ensures r != LogFull
      ensures r == Asleep ==> Blocked(me)
      ensures Reached(d, h, cache.disk.blocks, cache.disk.history, start, t, k)
      ensures r == NoBuffers ==> Short(n) && k <= n
      ensures s.alone ==> r != Asleep && (r == NoBuffers <==> StarvedIn(s, start, start + n))
      ensures r == Done ==> Settled(me, {}) && Ready(d, t) && k == n + 1 && Follows(s, Now(me, SetOf(Lh())))
    {
      StarvedSplit(s, start, start + n);
      r, k := WriteLog(me, t, s);
      LogPhase(d, h, cache.disk.blocks, cache.disk.history, start, t, k);
      if r == Done {
        r, k := HeadAfterLog(me, d, h, t, s);
      }
    }

    method HeadAfterLog(me: nat, ghost d: Disk, ghost h: seq<Write>, ghost t: Tx, ghost s: Scene) returns (r: Outcome, ghost k: nat)
      requires Settled(me, {}) && n > 0 && Follows(s, Now(me, SetOf(Lh()))) && s.pinned == SetOf(Lh())
      requires Geometry(d, start) && TxOk(d, start, t) && t.blocks == Lh()
      requires WroteAll(d, h, cache.disk.blocks, cache.disk.history, LogWrites(start, t, n))
      modifies others`refs, others`plan, cache, cache.ring, cache.ring.next, cache.ring.prev, cache.disk
      ensures r != LogFull && Reached(d, h, cache.disk.blocks, cache.disk.history, start, t, k)
      ensures r == Asleep ==> Blocked(me)
      ensures r == NoBuffers ==> Short(n) && k <= n
      ensures s.alone ==> r != Asleep && (r == NoBuffers <==> Starved(s, start))
      ensures r == Done ==> Settled(me, {}) && Ready(d, t) && k == n + 1 && Follows(s, Now(me, SetOf(Lh())))
    {
      ghost var d1, h1 := cache.disk.blocks, cache.disk.history;
      k := n;
      LogPhase(d, h, d1, h1, start, t, k);
      NoDupSize(Lh());
      r := WriteHead(me, SetOf(Lh()), s);
      if r == Done {
        k := |t.blocks| + 1;
        HeadPhase(d, h, d1, h1, cache.disk.blocks, cache.disk.history, start, t);
      }
    }

    /** The log on disk holds `t`, and the header says so. */
    ghost predicate Ready(d: Disk, t: Tx)
      reads this, cache, cache.disk
    {
      && Geometry(d, start) && TxOk(d, start, t) && n <= |block| && t.blocks == Lh() && |cache.disk.blocks| == |d|
      && LogTx(cache.disk.blocks, start, t.blocks) == t && cache.disk.blocks[start] == PutHead(d[start], t.blocks)
      && |CommitWrites(d, start, t)| == 2 * n + 2
    }

    /** The part of commit() after the header is on disk. */
    method Finish(me: nat, ghost d: Disk, ghost h: seq<Write>, ghost t: Tx, ghost s: Scene) returns (r: Outcome, ghost k: nat)
      requires Settled(me, {}) && n > 0 && Ready(d, t)
      requires Reached(d, h, cache.disk.blocks, cache.disk.history, start, t, n + 1)
      requires Follows(s, Now(me, SetOf(Lh()))) && s.pinned == SetOf(Lh())
      requires s.alone ==> !StarvedIn(s, start, start + n)
      modifies this`n, others`refs, others`plan, cache, cache.ring, cache.ring.next, cache.ring.prev, cache.disk
      ensures r != LogFull
      ensures r == Asleep ==> Blocked(me)
      ensures Reached(d, h, cache.disk.blocks, cache.disk.history, start, t, k)
      ensures r == Done ==> n == 0 && Settled(me, {}) && k == |CommitWrites(d, start, t)|
      ensures r == NoBuffers ==> Short(old(n))
      ensures s.alone ==> r == Done
    {
      StarvedSplit(s, start, start + n);
      r, k := InstallAfterHead(me, d, h, t, s);
      if r == Done {
        r, k := ClearAfterInstall(me, d, h, t, s);
      }
    }

    method ClearAfterInstall(me: nat, ghost d: Disk, ghost h: seq<Write>, ghost t: Tx, ghost s: Scene)
        returns (r: Outcome, ghost k: nat)
      requires Sane() && Shared(me, {}, {}) && cache.dirty == {} && Follows(s, Now(me, {}))
      requires Geometry(d, start) && TxOk(d, start, t) && t.blocks != [] && |CommitWrites(d, start, t)| == 2 * |t.blocks| + 2
      requires Reached(d, h, cache.disk.blocks, cache.disk.history, start, t, 2 * |t.blocks| + 1)
      requires |cache.disk.blocks| == |d| && cache.disk.blocks[start] == PutHead(d[start], t.blocks)
      modifies this`n, others`refs, others`plan, cache, cache.ring, cache.ring.next, cache.ring.prev, cache.disk
      ensures r != LogFull && Reached(d, h, cache.disk.blocks, cache.disk.history, start, t, k)
      ensures r == Asleep ==> Blocked(me)
      ensures r == NoBuffers ==> Short(0)
      ensures s.alone ==> r != Asleep && (r == NoBuffers ==> Starved(s, start))
      ensures r == Done ==> n == 0 && Settled(me, {}) && k == 2 * |t.blocks| + 2
    {
      ghost var d3, h3 := cache.disk.blocks, cache.disk.history;
      r := ClearHead(me, s);
      k := 2 * |t.blocks| + 1;
      if r == Done {
        ClearPhase(d, h, d3, h3, cache.disk.blocks, cache.disk.history, start, t);
        k := k + 1;
      }
    }

    method InstallAfterHead(me: nat, ghost d: Disk, ghost h: seq<Write>, ghost t: Tx, ghost s: Scene)
        returns (r: Outcome, ghost k: nat)
      requires Settled(me, {}) && n > 0 && Ready(d, t)
      requires Reached(d, h, cache.disk.blocks, cache.disk.history, start, t, n + 1)
      requires Follows(s, Now(me, SetOf(Lh()))) && s.pinned == SetOf(Lh())
      modifies others`refs, others`plan, cache, cache.ring, cache.ring.next, cache.ring.prev, cache.disk
      ensures r != LogFull && Reached(d, h, cache.disk.blocks, cache.disk.history, start, t, k)
      ensures r == Asleep ==> Blocked(me)
      ensures |cache.disk.blocks| == |d| && cache.disk.blocks[start] == PutHead(d[start], t.blocks)
      ensures r == NoBuffers ==> Short(n)
      ensures s.alone ==> r != Asleep && (r == NoBuffers ==> StarvedIn(s, start + 1, start + n))
      ensures r == Done ==> k == 2 * n + 1 && Sane() && Shared(me, {}, {}) && cache.dirty == {} && Follows(s, Now(me, {}))
    {
      ghost var d2, h2, j := cache.disk.blocks, cache.disk.history, 0;
      r, j := InstallTrans(me, false, t, s);
      k := n + 1 + j;
      InstallPhase(d, h, d2, h2, cache.disk.blocks, cache.disk.history, start, t, j, k);
    }

    method ClearHead(me: nat, ghost s: Scene) returns (r: Outcome)
      requires Sane() && Shared(me, {}, {}) && cache.dirty == {} && Follows(s, Now(me, {}))
      modifies this`n, others`refs, others`plan, cache, cache.ring, cache.ring.next, cache.ring.prev, cache.disk
      ensures r != LogFull && (others.limit == 0 ==> r == Done)
      ensures r == Asleep ==> Blocked(me)
      ensures r == NoBuffers ==> !Cached(cache.bufs, ROOTDEV, start) && NBUF <= Sum(others.refs)
      ensures s.alone ==> r != Asleep && (r == NoBuffers ==> Starved(s, start))
      ensures r != Done ==>
        cache.disk.blocks == old(cache.disk.blocks) && cache.disk.history == old(cache.disk.history)
      ensures r == Done ==>
        && n == 0 && Settled(me, {})
        && Wrote(old(cache.disk.blocks), old(cache.disk.history), cache.disk.blocks, cache.disk.history,
                 start, PutHead(old(cache.disk.blocks)[start], []))
    {
      n := 0;
      assert Lh() == [] && SetOf([]) == {};
      r := WriteHead(me, {}, s);
    }

    method ReadHead(me: nat)
      requires Sane() && Shared(me, {}, {}) && cache.dirty == {} && others.limit == 0 && LogOk(cache.disk.blocks, start)
      modifies this`n, this`block, others`refs, others`plan, cache`bufs, cache.ring, cache.ring.next, cache.ring.prev
      ensures Sane() && Shared(me, {}, {})
      ensures Lh() == LoggedTx(cache.disk.blocks, start).blocks
    {
      ViewClean(cache.bufs, cache.disk.blocks, {}, start);
      var r, b := OpenLog(me, start, {}, Now(me, {}));
      ReadEntries(cache.bufs[b].data);
      Close(me, b, {b}, {}, Now(me, {}));
      assert {b} - {b} == {};
      assert Lh() == LoggedTx(cache.disk.blocks, start).blocks;
    }

    /** The loop of read_head() over the header buffer. */
    method ReadEntries(b: Block)
      requires |block| == LOGBLOCKS && Word(b, 0) <= LOGBLOCKS
      modifies this`n, this`block
      ensures |block| == LOGBLOCKS && n == Word(b, 0)
      ensures forall j | 0 <= j < n :: block[j] == Word(b, 1 + j)
    {
      n := Word(b, 0);
      var i := 0;
      while i < n
        invariant i <= n == Word(b, 0) && |block| == LOGBLOCKS
        invariant forall j | 0 <= j < i :: block[j] == Word(b, 1 + j)
      {
        block := block[i := Word(b, 1 + i)];
        i := i + 1;
      }
    }

    /** recover_from_log(), run at boot before any other process uses the cache. It never runs out of buffers. */
    method Recover(me: nat)
      requires Sane() && Shared(me, {}, {}) && cache.dirty == {} && others.limit == 0 && LogOk(cache.disk.blocks, start)
      modifies this`n, this`block, others`refs, others`plan
      modifies cache, cache.ring, cache.ring.next, cache.ring.prev, cache.disk
      ensures n == 0 && Settled(me, {})
      ensures WroteAll(old(cache.disk.blocks), old(cache.disk.history), cache.disk.blocks, cache.disk.history,
                       RecoverWrites(old(cache.disk.blocks), start))
    {
      ghost var d, h := cache.disk.blocks, cache.disk.history;
      ReadHead(me);
      assert LogTx(d, start, Lh()) == LoggedTx(d, start);
      var r;
      ghost var k;
      r, k := InstallTrans(me, true, LogTx(d, start, Lh()), Now(me, {}));
      ghost var d1, h1 := cache.disk.blocks, cache.disk.history;
      r := ClearHead(me, Now(me, {}));
      RecoverCompose(d, h, d1, h1, cache.disk.blocks, cache.disk.history, start);
    }

    // ---------- a whole transaction ----------

    /** The log is empty and nobody is in an operation. */
    ghost predicate Idle(me: nat)
      reads this, cache, cache.ring, cache.ring.next, cache.ring.prev, cache.disk, others
    {
      && Settled(me, {}) && n == 0 && outstanding == 0 && !committing
      && LogOk(cache.disk.blocks, start) && HeadCount(cache.disk.blocks, start) == 0
    }

    /** Readers of the cache see the disk `d`. */
    ghost predicate Shows(d: Disk)
      reads this, cache, cache.disk
    {
      |d| == |cache.disk.blocks| && forall b {:trigger d[b]} | 0 <= b < |d| :: cache.Current(b) == d[b]
    }

    /** The edits `es`, one after the other. */
    method EditLoop(me: nat, es: seq<Write>) returns (r: Outcome)
      requires Settled(me, {}) && n == 0 && outstanding >= 1 && Shows(cache.disk.blocks)
      requires Loggable(es, |cache.disk.blocks|, start) && |BlocksOf(es)| < LOGBLOCKS
      modifies this`n, this`block, others`refs, others`plan, cache, cache.ring, cache.ring.next, cache.ring.prev
      ensures r != LogFull
      ensures r == NoBuffers ==> NBUF <= Sum(others.refs) + |BlocksOf(es)|
      ensures r == Asleep ==> Blocked(me)
      ensures r == Done ==> Settled(me, {}) && Lh() == Listed(es) && Shows(Apply(cache.disk.blocks, es))
    {
      ghost var d := cache.disk.blocks;
      assert es[..0] == [];
      for i := 0 to |es|
        invariant Settled(me, {}) && Lh() == Listed(es[..i]) && Shows(Apply(d, es[..i]))
      {
        r := EditTurn(me, es, i, d);
        if r != Done {
          return;
        }
      }
      assert es[..|es|] == es;
      return Done;
    }

    method EditTurn(me: nat, es: seq<Write>, i: nat, ghost d: Disk) returns (r: Outcome)
      requires i < |es| && d == cache.disk.blocks && Settled(me, {}) && outstanding >= 1
      requires Lh() == Listed(es[..i]) && Shows(Apply(d, es[..i]))
      requires Loggable(es, |d|, start) && |BlocksOf(es)| < LOGBLOCKS
      modifies this`n, this`block, others`refs, others`plan, cache, cache.ring, cache.ring.next, cache.ring.prev
      ensures r != LogFull
      ensures r == NoBuffers ==> NBUF <= Sum(others.refs) + |BlocksOf(es)|
      ensures r == Asleep ==> Blocked(me)
      ensures r == Done ==> Settled(me, {}) && Lh() == Listed(es[..i + 1]) && Shows(Apply(d, es[..i + 1]))
    {
      ListedFew(es, i);
      assert es[..i + 1] == es[..i] + [es[i]];
      ApplyAppend(d, es[..i], es[i]);
      ghost var bufs := cache.bufs;
      r := Update(me, es[i].block, es[i].data, {});
    }

    /** A transaction on its own: begin_op(), the edits, end_op() with its commit. `k` of the commit's writes are made. */
    method Transact(me: nat, es: seq<Write>) returns (r: Outcome, ghost t: Tx, ghost k: nat)
      requires Idle(me) && Loggable(es, |cache.disk.blocks|, start) && |BlocksOf(es)| <= MAXOPBLOCKS
      modifies this, others`refs, others`plan, cache, cache.ring, cache.ring.next, cache.ring.prev, cache.disk
      ensures r != LogFull && t == EditsTx(old(cache.disk.blocks), es) && TxOk(old(cache.disk.blocks), start, t)
      ensures r == NoBuffers ==> NBUF <= Sum(others.refs) + MAXOPBLOCKS
      ensures r == Asleep ==> Blocked(me)
      ensures Reached(old(cache.disk.blocks), old(cache.disk.history), cache.disk.blocks, cache.disk.history, start, t, k)
      ensures r == Done ==>
        && Idle(me) && k == |CommitWrites(old(cache.disk.blocks), start, t)|
        && SameHome(cache.disk.blocks, Apply(old(cache.disk.blocks), es), start)
    {
      ghost var d, h := cache.disk.blocks, cache.disk.history;
      t, k := EditsTx(d, es), 0;
      EditsTxOk(d, start, es);
      var entered := BeginOp(me, map[]);
      r := EditAll(me, es);
      if r == Done {
        r, k := CommitEdits(me, es, d, h, t);
      }
    }

    /** end_op() after the edits, by the only operation there is. */
    method CommitEdits(me: nat, ghost es: seq<Write>, ghost d: Disk, ghost h: seq<Write>, ghost t: Tx)
        returns (r: Outcome, ghost k: nat)
      requires Settled(me, {}) && outstanding == 1 && !committing
      requires d == cache.disk.blocks && h == cache.disk.history && LogOk(d, start) && HeadCount(d, start) == 0
      requires Loggable(es, |d|, start) && |BlocksOf(es)| <= MAXOPBLOCKS && t == EditsTx(d, es) && TxOk(d, start, t)
      requires Lh() == Listed(es) && Shows(Apply(d, es))
      modifies this, others`refs, others`plan, cache, cache.ring, cache.ring.next, cache.ring.prev, cache.disk
      ensures r != LogFull
      ensures r == NoBuffers ==> NBUF <= Sum(others.refs) + MAXOPBLOCKS
      ensures r == Asleep ==> Blocked(me)
      ensures Reached(d, h, cache.disk.blocks, cache.disk.history, start, t, k)
      ensures r == Done ==>
        && Idle(me) && k == |CommitWrites(d, start, t)| && SameHome(cache.disk.blocks, Apply(d, es), start)
    {
      ShownTx(es, d);
      ListedFew(es, |es|);
      assert es[..|es|] == es;
      var last := EndOp(me, map[me := 0]);
      r, k := Commit(me);
      if r == Done {
        committing := false;
        CommitMeans(d, h, cache.disk.blocks, cache.disk.history, start, t);
        InstallEdits(d, es);
      }
    }

    method EditAll(me: nat, es: seq<Write>) returns (r: Outcome)
      requires Settled(me, {}) && n == 0 && outstanding >= 1
      requires Loggable(es, |cache.disk.blocks|, start) && |BlocksOf(es)| < LOGBLOCKS
      modifies this`n, this`block, others`refs, others`plan, cache, cache.ring, cache.ring.next, cache.ring.prev
      ensures r != LogFull
      ensures r == NoBuffers ==> NBUF <= Sum(others.refs) + |BlocksOf(es)|
      ensures r == Asleep ==> Blocked(me)
      ensures r == Done ==> Settled(me, {}) && Lh() == Listed(es) && Shows(Apply(cache.disk.blocks, es))
    {
      forall b | 0 <= b < |cache.disk.blocks|
        ensures cache.Current(b) == cache.disk.blocks[b]
      {
        ViewClean(cache.bufs, cache.disk.blocks, cache.dirty, b);
      }
      r := EditLoop(me, es);
    }

    lemma ShownTx(es: seq<Write>, d: Disk)
      requires n <= |block| && Lh() == Listed(es) && d == cache.disk.blocks && Shows(Apply(d, es))
      requires forall j | 0 <= j < |es| :: es[j].block < |d|
      ensures (forall j | 0 <= j < n :: Lh()[j] < |d|) && TxOf(cache.bufs, d, Lh()) == EditsTx(d, es)
    {
      ListedRange(es, |d|);
      assert TxOf(cache.bufs, d, Lh()).data == EditsTx(d, es).data;
    }
  }
}
