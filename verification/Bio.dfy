/** The buffer cache of kernel/fs/bio.c. Buffers are recycled without being written back, so what keeps a modified
    block from being lost is that its buffer stays referenced until it is on disk. */
module Bio {
  import opened Collections
  import opened Params
  import opened Words
  import opened Crash
  import opened Ring

  /** `owner` is the process holding the buffer's sleep lock, 0 when it is free. */
  datatype Buf = Buf(valid: bool, dev: nat, blockno: nat, owner: nat, refcnt: nat, data: Block)

  /** The disk behind the driver: synchronous, one block at a time. `history` records every write. */
  class Device {
    var blocks: Disk
    ghost var history: seq<Write>

    constructor (d: Disk)
      ensures blocks == d && history == []
    {
      blocks := d;
      history := [];
    }

    method Put(b: nat, data: Block)
      requires b < |blocks|
      modifies this
      ensures blocks == old(blocks)[b := data]
      ensures history == old(history) + [Write(b, data)]
    {
      blocks := blocks[b := data];
      history := history + [Write(b, data)];
    }
  }

  ghost predicate IsAt(bufs: seq<Buf>, i: int, dev: nat, blockno: nat) {
    0 <= i < |bufs| && bufs[i].dev == dev && bufs[i].blockno == blockno
  }

  ghost predicate Cached(bufs: seq<Buf>, dev: nat, blockno: nat) {
    exists i :: IsAt(bufs, i, dev, blockno)
  }

  /** No block is cached twice. Buffers start out as block 0 of device 0, which is not a real device. */
  ghost predicate Unique(bufs: seq<Buf>) {
    forall i, j, dev, blockno | dev != 0 && IsAt(bufs, i, dev, blockno) && IsAt(bufs, j, dev, blockno) :: i == j
  }

  /** Every valid buffer holds its disk block, except the dirty blocks, whose buffers are referenced. */
  ghost predicate Coherent(bufs: seq<Buf>, d: Disk, dirty: set<nat>) {
    && (forall i | 0 <= i < |bufs| && bufs[i].valid :: bufs[i].dev == ROOTDEV && bufs[i].blockno < |d|)
    && (forall i | 0 <= i < |bufs| && bufs[i].valid && bufs[i].blockno !in dirty :: bufs[i].data == d[bufs[i].blockno])
    && (forall b {:trigger DirtyAt(bufs, b)} | b in dirty :: DirtyAt(bufs, b))
  }

  ghost predicate DirtyAt(bufs: seq<Buf>, b: nat) {
    exists i :: IsAt(bufs, i, ROOTDEV, b) && bufs[i].valid && bufs[i].refcnt > 0
  }

  /** The current content of block `b`: what a reader going through the cache must get. */
  ghost function View(bufs: seq<Buf>, d: Disk, b: nat): Block
    requires b < |d|
  {
    if i :| IsAt(bufs, i, ROOTDEV, b) && bufs[i].valid then bufs[i].data else d[b]
  }

  lemma ViewAt(bufs: seq<Buf>, d: Disk, i: int)
    requires Unique(bufs) && 0 <= i < |bufs| && bufs[i].valid && bufs[i].dev == ROOTDEV && bufs[i].blockno < |d|
    ensures View(bufs, d, bufs[i].blockno) == bufs[i].data
  {
    assert IsAt(bufs, i, ROOTDEV, bufs[i].blockno);
  }

  lemma ViewClean(bufs: seq<Buf>, d: Disk, dirty: set<nat>, b: nat)
    requires Coherent(bufs, d, dirty) && b < |d| && b !in dirty
    ensures View(bufs, d, b) == d[b]
  {
  }

  /** Which buffer bget() recycles: the unreferenced one nearest the tail of the list. */
  ghost predicate IsVictim(bufs: seq<Buf>, order: seq<nat>, k: int) {
    && 0 <= k < |order|
    && (forall i | 0 <= i < |order| :: order[i] < |bufs|)
    && bufs[order[k]].refcnt == 0
    && (forall j | k < j < |order| :: bufs[order[j]].refcnt > 0)
  }

  ghost predicate SameView(bufs: seq<Buf>, d: Disk, bufs': seq<Buf>, d': Disk) {
    && |d| == |d'|
    && forall b {:trigger View(bufs', d', b)} | 0 <= b < |d| :: View(bufs', d', b) == View(bufs, d, b)
  }

  /** The current content of `blockno` becomes `data`, and that of every other block stays. */
  ghost predicate ViewBecomes(bufs: seq<Buf>, d: Disk, bufs': seq<Buf>, d': Disk, blockno: nat, data: Block) {
    && |d| == |d'|
    && forall b {:trigger View(bufs', d', b)} | 0 <= b < |d| ::
         View(bufs', d', b) == if b == blockno then data else View(bufs, d, b)
  }

  lemma ViewThen(bufs: seq<Buf>, d: Disk, bufs': seq<Buf>, d': Disk, bufs'': seq<Buf>, d'': Disk, blockno: nat, data: Block)
    requires SameView(bufs, d, bufs', d') && ViewBecomes(bufs', d', bufs'', d'', blockno, data)
    ensures ViewBecomes(bufs, d, bufs'', d'', blockno, data)
  {
  }

  /** Recycling an unreferenced buffer without writing it back changes no block's current content. */
  lemma Recycle(bufs: seq<Buf>, d: Disk, dirty: set<nat>, v: nat, dev: nat, blockno: nat)
    requires Unique(bufs) && Coherent(bufs, d, dirty) && v < |bufs| && bufs[v].refcnt == 0
    requires dev != 0 && !Cached(bufs, dev, blockno)
    ensures var bufs' := bufs[v := Buf(false, dev, blockno, 0, 1, bufs[v].data)];
            Unique(bufs') && Coherent(bufs', d, dirty) && SameView(bufs, d, bufs', d)
  {
    var bufs' := bufs[v := Buf(false, dev, blockno, 0, 1, bufs[v].data)];
    assert forall i, x, y | i != v && IsAt(bufs', i, x, y) :: IsAt(bufs, i, x, y);
    forall b | b in dirty
      ensures DirtyAt(bufs', b)
    {
      assert DirtyAt(bufs, b);
      var i :| IsAt(bufs, i, ROOTDEV, b) && bufs[i].valid && bufs[i].refcnt > 0;
      assert IsAt(bufs', i, ROOTDEV, b);
    }
    forall b | 0 <= b < |d|
      ensures View(bufs', d, b) == View(bufs, d, b)
    {
      if i :| IsAt(bufs, i, ROOTDEV, b) && bufs[i].valid {
        ViewAt(bufs, d, i);
        if i == v {
          assert b !in dirty;
        } else {
          assert IsAt(bufs', i, ROOTDEV, b);
          ViewAt(bufs', d, i);
        }
      }
    }
  }

  /** Changing who holds or references buffer `i` moves no content, as long as a dirty buffer stays referenced. */
  lemma Rereference(bufs: seq<Buf>, d: Disk, dirty: set<nat>, i: nat, owner: nat, refcnt: nat)
    requires Unique(bufs) && Coherent(bufs, d, dirty) && i < |bufs|
    requires refcnt > 0 || !bufs[i].valid || bufs[i].blockno !in dirty
    ensures var bufs' := bufs[i := bufs[i].(owner := owner, refcnt := refcnt)];
            Unique(bufs') && Coherent(bufs', d, dirty) && SameView(bufs, d, bufs', d)
  {
    var bufs' := bufs[i := bufs[i].(owner := owner, refcnt := refcnt)];
    assert forall j, x, y {:trigger IsAt(bufs', j, x, y)} :: IsAt(bufs', j, x, y) == IsAt(bufs, j, x, y);
    forall b | b in dirty
      ensures DirtyAt(bufs', b)
    {
      assert DirtyAt(bufs, b);
      var j :| IsAt(bufs, j, ROOTDEV, b) && bufs[j].valid && bufs[j].refcnt > 0;
      assert IsAt(bufs', j, ROOTDEV, b);
    }
    forall b | 0 <= b < |d|
      ensures View(bufs', d, b) == View(bufs, d, b)
    {
      if j :| IsAt(bufs, j, ROOTDEV, b) && bufs[j].valid {
        assert IsAt(bufs', j, ROOTDEV, b);
        ViewAt(bufs, d, j);
        ViewAt(bufs', d, j);
      }
    }
  }

  /** New data in buffer `i`, and `d'` on disk, change the current content of that block alone. */
  lemma Refill(bufs: seq<Buf>, d: Disk, dirty: set<nat>, i: nat, data: Block, d': Disk, dirty': set<nat>)
    requires Unique(bufs) && Coherent(bufs, d, dirty) && i < |bufs|
    requires bufs[i].dev == ROOTDEV && bufs[i].blockno < |d| == |d'| && bufs[i].refcnt > 0
    requires forall b | 0 <= b < |d| && b != bufs[i].blockno :: d'[b] == d[b]
    requires dirty' - {bufs[i].blockno} == dirty - {bufs[i].blockno}
    requires bufs[i].blockno in dirty' || d'[bufs[i].blockno] == data
    ensures var bufs' := bufs[i := bufs[i].(valid := true, data := data)];
            && Unique(bufs') && Coherent(bufs', d', dirty')
            && ViewBecomes(bufs, d, bufs', d', bufs[i].blockno, data)
  {
    var bufs' := bufs[i := bufs[i].(valid := true, data := data)];
    var blockno := bufs[i].blockno;
    assert forall j, x, y {:trigger IsAt(bufs', j, x, y)} :: IsAt(bufs', j, x, y) == IsAt(bufs, j, x, y);
    forall j | 0 <= j < |bufs'| && bufs'[j].valid && bufs'[j].blockno !in dirty'
      ensures bufs'[j].data == d'[bufs'[j].blockno]
    {
      if j != i {
        assert IsAt(bufs, j, ROOTDEV, bufs[j].blockno) && IsAt(bufs, i, ROOTDEV, blockno);
        assert bufs[j].blockno !in dirty' - {blockno};
      }
    }
    forall b | b in dirty'
      ensures DirtyAt(bufs', b)
    {
      if b == blockno {
        assert IsAt(bufs', i, ROOTDEV, b);
      } else {
        assert b in dirty' - {blockno};
        assert DirtyAt(bufs, b);
        var j :| IsAt(bufs, j, ROOTDEV, b) && bufs[j].valid && bufs[j].refcnt > 0;
        assert IsAt(bufs', j, ROOTDEV, b);
      }
    }
    ViewAt(bufs', d', i);
    forall b | 0 <= b < |d| && b != blockno
      ensures View(bufs', d', b) == View(bufs, d, b)
    {
      if j :| IsAt(bufs, j, ROOTDEV, b) && bufs[j].valid {
        assert IsAt(bufs', j, ROOTDEV, b);
        ViewAt(bufs, d, j);
        ViewAt(bufs', d', j);
      }
    }
  }

  class Bcache {
    const disk: Device
    const ring: LruRing
    var bufs: seq<Buf>
    ghost var dirty: set<nat>

    ghost predicate Valid()
      reads this, ring, ring.next, ring.prev, disk
    {
      && ring.Valid()
      && |bufs| == NBUF
      && Unique(bufs)
      && (forall i | 0 <= i < NBUF :: bufs[i].owner != 0 ==> bufs[i].refcnt > 0)
      && Coherent(bufs, disk.blocks, dirty)
    }

    ghost function Current(b: nat): Block
      reads this, disk
      requires b < |disk.blocks|
    {
      View(bufs, disk.blocks, b)
    }

    constructor (disk: Device)
      ensures Valid() && fresh(ring) && fresh(ring.next) && fresh(ring.prev) && this.disk == disk
      ensures dirty == {}
      ensures forall i | 0 <= i < NBUF :: bufs[i] == Buf(false, 0, 0, 0, 0, ZeroBlock())
    {
      this.disk := disk;
      ring := new LruRing();
      bufs := seq(NBUF, _ => Buf(false, 0, 0, 0, 0, ZeroBlock()));
      dirty := {};
    }

    /** The first loop of bget(): most recently used first. */
    method Lookup(dev: nat, blockno: nat) returns (r: Option<nat>)
      requires Valid()
      ensures r.Some? ==> IsAt(bufs, r.value, dev, blockno)
      ensures r.None? ==> !Cached(bufs, dev, blockno)
    {
      ghost var k := 0;
      assert At(ring.order, -1) == HEAD;
      var b := ring.next[HEAD];
      while b != HEAD
        invariant 0 <= k <= NBUF && b == At(ring.order, k)
        invariant forall j | 0 <= j < k :: !IsAt(bufs, ring.order[j], dev, blockno)
        decreases NBUF - k
      {
        if bufs[b].dev == dev && bufs[b].blockno == blockno {
          return Some(b);
        }
        assert ring.next[At(ring.order, k)] == At(ring.order, k + 1);
        b := ring.next[b];
        k := k + 1;
      }
      forall i | IsAt(bufs, i, dev, blockno)
        ensures false
      {
        CoversAll(ring.order, i);
      }
      return None;
    }

    /** The second loop of bget(): least recently used first. */
    method Victim() returns (r: Option<nat>, ghost k: int)
      requires Valid()
      ensures r.Some? ==> IsVictim(bufs, ring.order, k) && r.value == ring.order[k]
      ensures r.None? ==> forall i | 0 <= i < NBUF :: bufs[i].refcnt > 0
    {
      k := NBUF - 1;
      assert At(ring.order, NBUF) == HEAD;
      var b := ring.prev[HEAD];
      while b != HEAD
        invariant -1 <= k < NBUF && b == At(ring.order, k)
        invariant forall j | k < j < NBUF :: bufs[ring.order[j]].refcnt > 0
        decreases k
      {
        if bufs[b].refcnt == 0 {
          return Some(b), k;
        }
        assert ring.prev[At(ring.order, k)] == At(ring.order, k - 1);
        b := ring.prev[b];
        k := k - 1;
      }
      forall i | 0 <= i < NBUF
        ensures bufs[i].refcnt > 0
      {
        CoversAll(ring.order, i);
      }
      return None, -1;
    }

    /** bget() up to the release of the cache's lock: a reference to the block's buffer, recycling one on a miss. The
        sleep lock is not asked for. None is the panic "bget: no buffers". */
    method Bget(dev: nat, blockno: nat) returns (r: Option<nat>)
      requires Valid() && dev != 0
      modifies this`bufs
      ensures Valid()
      ensures r.None? <==> !Cached(old(bufs), dev, blockno) && forall i | 0 <= i < NBUF :: old(bufs)[i].refcnt > 0
      ensures r.None? ==> bufs == old(bufs)
      ensures r.Some? ==> r.value < NBUF && IsAt(bufs, r.value, dev, blockno)
      ensures r.Some? && Cached(old(bufs), dev, blockno) ==>
        bufs == old(bufs)[r.value := old(bufs)[r.value].(refcnt := old(bufs)[r.value].refcnt + 1)]
      ensures r.Some? && !Cached(old(bufs), dev, blockno) ==>
        && bufs == old(bufs)[r.value := Buf(false, dev, blockno, 0, 1, old(bufs)[r.value].data)]
        && old(bufs)[r.value].refcnt == 0
        && forall i | 0 <= i < NBUF && old(bufs)[i].refcnt == 0 :: ring.stamp[r.value] <= ring.stamp[i]
      ensures SameView(old(bufs), disk.blocks, bufs, disk.blocks)
    {
      r := Lookup(dev, blockno);
      if r.Some? {
        var b := r.value;
        Rereference(bufs, disk.blocks, dirty, b, bufs[b].owner, bufs[b].refcnt + 1);
        bufs := bufs[b := bufs[b].(refcnt := bufs[b].refcnt + 1)];
        return;
      }
      ghost var k;
      r, k := Victim();
      if r.Some? {
        var b := r.value;
        Recycle(bufs, disk.blocks, dirty, b, dev, blockno);
        OldestVictim(k);
        bufs := bufs[b := Buf(false, dev, blockno, 0, 1, bufs[b].data)];
      }
    }

    lemma OldestVictim(k: int)
      requires Valid() && IsVictim(bufs, ring.order, k)
      ensures forall i | 0 <= i < NBUF && bufs[i].refcnt == 0 :: ring.stamp[ring.order[k]] <= ring.stamp[i]
    {
      forall i | 0 <= i < NBUF && bufs[i].refcnt == 0
        ensures ring.stamp[ring.order[k]] <= ring.stamp[i]
      {
        CoversAll(ring.order, i);
        var j :| 0 <= j < NBUF && ring.order[j] == i;
      }
    }

    /** The virtio read in bread(). */
    method Fill(b: nat)
      requires Valid() && b < NBUF && !bufs[b].valid && bufs[b].refcnt > 0
      requires bufs[b].dev == ROOTDEV && bufs[b].blockno < |disk.blocks|
      modifies this`bufs
      ensures Valid()
      ensures bufs == old(bufs)[b := old(bufs)[b].(valid := true, data := disk.blocks[old(bufs)[b].blockno])]
      ensures bufs[b].data == View(old(bufs), disk.blocks, bufs[b].blockno)
      ensures SameView(old(bufs), disk.blocks, bufs, disk.blocks)
    {
      ghost var blockno := bufs[b].blockno;
      assert IsAt(bufs, b, ROOTDEV, blockno);
      assert blockno !in dirty by {
        assert blockno in dirty ==> DirtyAt(bufs, blockno);
      }
      ViewClean(bufs, disk.blocks, dirty, blockno);
      Refill(bufs, disk.blocks, dirty, b, disk.blocks[blockno], disk.blocks, dirty);
      bufs := bufs[b := bufs[b].(valid := true, data := disk.blocks[bufs[b].blockno])];
    }

    /** The rest of bread(), for a process that has a reference: false means the sleep lock is taken, and the process
        sleeps and tries again. */
    method Acquire(me: nat, b: nat) returns (ok: bool)
      requires Valid() && me != 0 && b < NBUF && bufs[b].refcnt > 0
      requires bufs[b].dev == ROOTDEV && bufs[b].blockno < |disk.blocks|
      modifies this`bufs
      ensures Valid()
      ensures ok <==> old(bufs)[b].owner == 0
      ensures !ok ==> bufs == old(bufs)
      ensures ok ==>
        bufs == old(bufs)[b := old(bufs)[b].(valid := true, owner := me, data := old(Current(bufs[b].blockno)))]
      ensures SameView(old(bufs), disk.blocks, bufs, disk.blocks)
    {
      if bufs[b].owner != 0 {
        return false;
      }
      Rereference(bufs, disk.blocks, dirty, b, me, bufs[b].refcnt);
      bufs := bufs[b := bufs[b].(owner := me)];
      if !bufs[b].valid {
        Fill(b);
      } else {
        ViewAt(bufs, disk.blocks, b);
      }
      return true;
    }

    /** bread(): a buffer holding the current content of the block, locked by the caller unless another process has it. */
    method Bread(me: nat, blockno: nat) returns (r: Option<nat>, locked: bool)
      requires Valid() && me != 0 && blockno < |disk.blocks|
      modifies this`bufs
      ensures Valid()
      ensures r.None? <==> !Cached(old(bufs), ROOTDEV, blockno) && forall i | 0 <= i < NBUF :: old(bufs)[i].refcnt > 0
      ensures r.None? ==> bufs == old(bufs) && !locked
      ensures r.Some? ==>
        && r.value < NBUF && IsAt(bufs, r.value, ROOTDEV, blockno)
        && (forall i | 0 <= i < NBUF && i != r.value :: bufs[i] == old(bufs)[i])
        && (if Cached(old(bufs), ROOTDEV, blockno) then IsAt(old(bufs), r.value, ROOTDEV, blockno)
            else old(bufs)[r.value].refcnt == 0)
        && bufs[r.value].refcnt == old(bufs)[r.value].refcnt + 1
        && (locked <==> old(bufs)[r.value].owner == 0)
      ensures locked ==>
        bufs[r.value].valid && bufs[r.value].owner == me && bufs[r.value].data == View(old(bufs), disk.blocks, blockno)
      ensures r.Some? && !locked ==> bufs[r.value] == old(bufs)[r.value].(refcnt := bufs[r.value].refcnt)
      ensures SameView(old(bufs), disk.blocks, bufs, disk.blocks)
    {
      r := Bget(ROOTDEV, blockno);
      locked := false;
      if r.Some? {
        locked := Acquire(me, r.value);
      }
    }

    /** The holder of a buffer changes its data in memory. */
    method Modify(me: nat, b: nat, data: Block)
      requires Valid() && b < NBUF && me != 0 && bufs[b].owner == me && bufs[b].valid
      modifies this`bufs, this`dirty
      ensures Valid()
      ensures bufs == old(bufs)[b := old(bufs)[b].(data := data)]
      ensures dirty == old(dirty) + {bufs[b].blockno}
      ensures ViewBecomes(old(bufs), disk.blocks, bufs, disk.blocks, bufs[b].blockno, data)
    {
      Refill(bufs, disk.blocks, dirty, b, data, disk.blocks, dirty + {bufs[b].blockno});
      bufs := bufs[b := bufs[b].(data := data)];
      dirty := dirty + {bufs[b].blockno};
    }

    /** bwrite(): false is the panic for a buffer the caller has not locked. */
    method Bwrite(me: nat, b: nat) returns (ok: bool)
      requires Valid() && b < NBUF && me != 0 && bufs[b].valid
      modifies this`dirty, disk
      ensures Valid()
      ensures ok <==> bufs[b].owner == me
      ensures !ok ==> disk.blocks == old(disk.blocks) && disk.history == old(disk.history) && dirty == old(dirty)
      ensures ok ==>
        && disk.blocks == old(disk.blocks)[bufs[b].blockno := bufs[b].data]
        && disk.history == old(disk.history) + [Write(bufs[b].blockno, bufs[b].data)]
        && dirty == old(dirty) - {bufs[b].blockno}
      ensures SameView(bufs, old(disk.blocks), bufs, disk.blocks)
    {
      ok := bufs[b].owner == me;
      if ok {
        var blockno := bufs[b].blockno;
        ViewAt(bufs, disk.blocks, b);
        Refill(bufs, disk.blocks, dirty, b, bufs[b].data, disk.blocks[blockno := bufs[b].data], dirty - {blockno});
        assert bufs == bufs[b := bufs[b].(valid := true, data := bufs[b].data)];
        disk.Put(blockno, bufs[b].data);
        dirty := dirty - {blockno};
      }
    }

    /** brelse(): false is the panic for a buffer the caller has not locked. A modified block must have been written
        or pinned first. */
    method Brelse(me: nat, b: nat) returns (ok: bool)
      requires Valid() && b < NBUF && me != 0
      requires bufs[b].valid && bufs[b].blockno in dirty ==> bufs[b].refcnt > 1
      modifies this`bufs, ring, ring.next, ring.prev
      ensures Valid()
      ensures ok <==> old(bufs)[b].owner == me
      ensures !ok ==> bufs == old(bufs) && ring.order == old(ring.order)
      ensures ok ==> bufs == old(bufs)[b := old(bufs)[b].(owner := 0, refcnt := old(bufs)[b].refcnt - 1)]
      ensures ok && bufs[b].refcnt > 0 ==> ring.order == old(ring.order)
      ensures ok && bufs[b].refcnt == 0 ==>
        && ring.order[0] == b
        && ring.stamp == old(ring.stamp)[b := old(ring.clock)]
      ensures SameView(old(bufs), disk.blocks, bufs, disk.blocks)
    {
      ok := bufs[b].owner == me;
      if ok {
        Rereference(bufs, disk.blocks, dirty, b, 0, bufs[b].refcnt - 1);
        bufs := bufs[b := bufs[b].(owner := 0, refcnt := bufs[b].refcnt - 1)];
        if bufs[b].refcnt == 0 {
          CoversAll(ring.order, b);
          ghost var k :| 0 <= k < NBUF && ring.order[k] == b;
          ring.MoveToFront(b, k);
        }
      }
    }

    method Bpin(b: nat)
      requires Valid() && b < NBUF
      modifies this`bufs
      ensures Valid()
      ensures bufs == old(bufs)[b := old(bufs)[b].(refcnt := old(bufs)[b].refcnt + 1)]
      ensures SameView(old(bufs), disk.blocks, bufs, disk.blocks)
    {
      Rereference(bufs, disk.blocks, dirty, b, bufs[b].owner, bufs[b].refcnt + 1);
      bufs := bufs[b := bufs[b].(refcnt := bufs[b].refcnt + 1)];
    }

    method Bunpin(b: nat)
      requires Valid() && b < NBUF && bufs[b].refcnt > 0
      requires bufs[b].owner != 0 || (bufs[b].valid && bufs[b].blockno in dirty) ==> bufs[b].refcnt > 1
      modifies this`bufs
      ensures Valid()
      ensures bufs == old(bufs)[b := old(bufs)[b].(refcnt := old(bufs)[b].refcnt - 1)]
      ensures SameView(old(bufs), disk.blocks, bufs, disk.blocks)
    {
      Rereference(bufs, disk.blocks, dirty, b, bufs[b].owner, bufs[b].refcnt - 1);
      bufs := bufs[b := bufs[b].(refcnt := bufs[b].refcnt - 1)];
    }
  }
}
