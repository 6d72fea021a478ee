/** The other processes that use the buffer cache while one process is busy with it. fileread() takes no part in the
    logging protocol, so such processes may get, lock and release buffers at any time, during a commit too. */
module Readers {
  import opened Params
  import opened Words
  import opened Crash
  import opened Ring
  import opened Bio

  /** A step of another process: bget()'s critical section, getting the sleep lock of a buffer and reading the block
      into it, or brelse(). */
  datatype Act = Get(blockno: nat) | Lock(p: nat, buf: nat) | Release(p: nat, buf: nat)

  function Sum(s: seq<nat>): nat {
    if s == [] then 0 else s[0] + Sum(s[1..])
  }

  lemma {:induction false} SumPut(s: seq<nat>, i: nat, x: nat)
    requires i < |s|
    ensures Sum(s[i := x]) == Sum(s) - s[i] + x
  {
    if i == 0 {
      assert s[0 := x][1..] == s[1..];
    } else {
      SumPut(s[1..], i - 1, x);
      assert s[i := x][1..] == s[1..][i - 1 := x];
    }
  }

  lemma {:induction false} SumLast(s: seq<nat>)
    requires s != []
    ensures Sum(s) == Sum(s[..|s| - 1]) + s[|s| - 1]
  {
    if |s| > 1 {
      SumLast(s[1..]);
      assert s[1..][..|s| - 2] == s[..|s| - 1][1..];
    } else {
      assert s[1..] == [];
    }
  }

  lemma {:induction false} SumZero(s: seq<nat>)
    ensures Sum(s) == 0 <==> forall i | 0 <= i < |s| :: s[i] == 0
  {
    if s != [] {
      SumZero(s[1..]);
      assert forall i | 0 < i < |s| :: s[i] == s[1..][i - 1];
      assert forall i | 0 <= i < |s[1..]| :: s[1..][i] == s[i + 1];
    }
  }

  /** Buffer `i` has `refs[i]` references of other processes, holders and waiters, and `base[i]` that are not theirs.
      Only a process with a reference has the sleep lock. */
  ghost predicate Shares(bufs: seq<Buf>, refs: seq<nat>, base: seq<nat>, me: nat) {
    && |refs| == |base| == |bufs|
    && forall i {:trigger bufs[i]} | 0 <= i < |bufs| ::
         && bufs[i].refcnt == base[i] + refs[i]
         && (bufs[i].owner != 0 && bufs[i].owner != me ==> refs[i] > 0)
  }

  /** What the others leave alone: a buffer that somebody else refers to keeps its block and its data, and `me` keeps
      its locks and gets no new one. */
  ghost predicate Stays(bufs: seq<Buf>, bufs': seq<Buf>, base: seq<nat>, me: nat) {
    && |base| == |bufs| == |bufs'|
    && forall i {:trigger bufs'[i]} | 0 <= i < |bufs| ::
         && (base[i] > 0 ==> bufs'[i].dev == bufs[i].dev && bufs'[i].blockno == bufs[i].blockno)
         && (base[i] > 0 && bufs[i].valid ==> bufs'[i].valid && bufs'[i].data == bufs[i].data)
         && (bufs'[i].owner == me <==> bufs[i].owner == me)
  }

  /** A modified block has a reference besides those of the readers. */
  ghost predicate Guarded(bufs: seq<Buf>, base: seq<nat>, dirty: set<nat>) {
    && |base| == |bufs|
    && forall i {:trigger bufs[i]} | 0 <= i < |bufs| && bufs[i].dev == ROOTDEV && bufs[i].blockno in dirty ::
         base[i] > 0
  }

  class Others {
    const cache: Bcache
    const limit: nat           // how many references the other processes have at most at a time
    var refs: seq<nat>
    var plan: seq<seq<Act>>    // what they do at each point where they get to run; a step that is not possible is void

    constructor (cache: Bcache, limit: nat, plan: seq<seq<Act>>)
      ensures this.cache == cache && this.limit == limit && this.plan == plan && refs == seq(NBUF, _ => 0)
      ensures Sum(refs) == 0
    {
      this.cache, this.limit, this.plan := cache, limit, plan;
      refs := seq(NBUF, _ => 0);
      new;
      SumZero(refs);
    }

    ghost predicate Beside(me: nat, base: seq<nat>)
      reads this, cache, cache.ring, cache.ring.next, cache.ring.prev, cache.disk
    {
      && cache.Valid()
      && Sum(refs) <= limit
      && Shares(cache.bufs, refs, base, me)
      && Guarded(cache.bufs, base, cache.dirty)
    }

    method Get(ghost me: nat, ghost base: seq<nat>, blockno: nat)
      requires me != 0 && Beside(me, base) && Sum(refs) < limit
      modifies this`refs, cache`bufs
      ensures Beside(me, base) && Stays(old(cache.bufs), cache.bufs, base, me)
      ensures SameView(old(cache.bufs), cache.disk.blocks, cache.bufs, cache.disk.blocks)
    {
      assert blockno in cache.dirty ==> DirtyAt(cache.bufs, blockno);
      var r := cache.Bget(ROOTDEV, blockno);
      if r.Some? {
        SumPut(refs, r.value, refs[r.value] + 1);
        refs := refs[r.value := refs[r.value] + 1];
      }
    }

    method Lock(ghost me: nat, ghost base: seq<nat>, p: nat, b: nat)
      requires me != 0 && Beside(me, base) && p != 0 && p != me && b < NBUF && refs[b] > 0
      requires cache.bufs[b].dev == ROOTDEV && cache.bufs[b].blockno < |cache.disk.blocks|
      modifies cache`bufs
      ensures Beside(me, base) && Stays(old(cache.bufs), cache.bufs, base, me)
      ensures SameView(old(cache.bufs), cache.disk.blocks, cache.bufs, cache.disk.blocks)
    {
      ghost var bufs := cache.bufs;
      var ok := cache.Acquire(p, b);
      if bufs[b].valid {
        ViewAt(bufs, cache.disk.blocks, b);
      }
    }

    method Release(ghost me: nat, ghost base: seq<nat>, p: nat, b: nat)
      requires me != 0 && Beside(me, base) && p != 0 && p != me && b < NBUF && cache.bufs[b].owner == p
      modifies this`refs, cache`bufs, cache.ring, cache.ring.next, cache.ring.prev
      ensures Beside(me, base) && Stays(old(cache.bufs), cache.bufs, base, me)
      ensures SameView(old(cache.bufs), cache.disk.blocks, cache.bufs, cache.disk.blocks)
    {
      var ok := cache.Brelse(p, b);
      SumPut(refs, b, refs[b] - 1);
      refs := refs[b := refs[b] - 1];
    }

    /** The steps of the others up to the next point where the process `me` runs. */
    method Run(me: nat, ghost base: seq<nat>)
      requires me != 0 && Beside(me, base)
      modifies this`refs, this`plan, cache`bufs, cache.ring, cache.ring.next, cache.ring.prev
      ensures Beside(me, base) && Stays(old(cache.bufs), cache.bufs, base, me)
      ensures SameView(old(cache.bufs), cache.disk.blocks, cache.bufs, cache.disk.blocks)
      ensures plan == if old(plan) == [] then [] else old(plan)[1..]
      ensures old(plan) == [] ==> cache.bufs == old(cache.bufs) && refs == old(refs)
    {
      if plan == [] {
        return;
      }
      var acts := plan[0];
      plan := plan[1..];
      ghost var bufs, d, rest := cache.bufs, cache.disk.blocks, plan;
      for k := 0 to |acts|
        invariant Beside(me, base) && Stays(bufs, cache.bufs, base, me)
        invariant SameView(bufs, d, cache.bufs, d) && plan == rest
      {
        Step(me, base, acts[k]);
      }
    }

    method Step(me: nat, ghost base: seq<nat>, act: Act)
      requires me != 0 && Beside(me, base)
      modifies this`refs, cache`bufs, cache.ring, cache.ring.next, cache.ring.prev
      ensures Beside(me, base) && Stays(old(cache.bufs), cache.bufs, base, me)
      ensures SameView(old(cache.bufs), cache.disk.blocks, cache.bufs, cache.disk.blocks)
    {
      match act
      case Get(blockno) =>
        if Sum(refs) < limit {
          Get(me, base, blockno);
        }
      case Lock(p, b) =>
        if p != 0 && p != me && b < NBUF && refs[b] > 0 && cache.bufs[b].dev == ROOTDEV
           && cache.bufs[b].blockno < |cache.disk.blocks| {
          Lock(me, base, p, b);
        }
      case Release(p, b) =>
        if p != 0 && p != me && b < NBUF && cache.bufs[b].owner == p {
          Release(me, base, p, b);
        }
    }
  }
}
