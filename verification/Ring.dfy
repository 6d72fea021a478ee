/** The doubly linked ring of buffers in kernel/fs/bio.c. Buffers are named by their index in `bcache.buf`, and the
    sentinel `bcache.head` by the index one past the last buffer. */
module Ring {
  import opened Params

  const HEAD: nat := NBUF

  /** The node at position `i` of the list, with the sentinel on both sides of it. */
  function At(order: seq<nat>, i: int): (r: nat) {
    if 0 <= i < |order| then order[i] else HEAD
  }

  ghost predicate Distinct(order: seq<nat>) {
    && (forall i | 0 <= i < |order| :: order[i] < NBUF)
    && (forall i, j | 0 <= i < j < |order| :: order[i] != order[j])
  }

  /** Following `next` from the sentinel visits `order` and returns; following `prev` visits it backwards. */
  ghost predicate Linked(next: seq<nat>, prev: seq<nat>, order: seq<nat>) {
    && |next| == |prev| == NBUF + 1
    && Distinct(order)
    && (forall i {:trigger next[At(order, i)]} | -1 <= i < |order| :: next[At(order, i)] == At(order, i + 1))
    && (forall i {:trigger prev[At(order, i)]} | 0 <= i <= |order| :: prev[At(order, i)] == At(order, i - 1))
  }

  function Without(order: seq<nat>, k: nat): (r: seq<nat>)
    requires k < |order|
  {
    order[..k] + order[k + 1..]
  }

  lemma Shift(order: seq<nat>, k: nat, i: int)
    requires k < |order| && -1 <= i <= |order|
    ensures At(Without(order, k), i) == At(order, if i < k then i else i + 1)
  {
  }

  lemma UnlinkNext(next: seq<nat>, prev: seq<nat>, order: seq<nat>, k: nat, i: int)
    requires Linked(next, prev, order) && k < |order| && -1 <= i < |order| - 1
    ensures var b, order' := order[k], Without(order, k);
            prev[b] <= NBUF && next[prev[b] := next[b]][At(order', i)] == At(order', i + 1)
  {
    var b := order[k];
    assert At(order, k) == b && prev[b] == At(order, k - 1) && next[b] == At(order, k + 1);
    Shift(order, k, i);
    Shift(order, k, i + 1);
    var j := if i < k then i else i + 1;
    assert next[At(order, j)] == At(order, j + 1);
  }

  lemma UnlinkPrev(next: seq<nat>, prev: seq<nat>, order: seq<nat>, k: nat, i: int)
    requires Linked(next, prev, order) && k < |order| && 0 <= i <= |order| - 1
    ensures var b, order' := order[k], Without(order, k);
            next[b] <= NBUF && prev[next[b] := prev[b]][At(order', i)] == At(order', i - 1)
  {
    var b := order[k];
    assert At(order, k) == b && prev[b] == At(order, k - 1) && next[b] == At(order, k + 1);
    Shift(order, k, i);
    Shift(order, k, i - 1);
    var j := if i < k then i else i + 1;
    assert prev[At(order, j)] == At(order, j - 1);
  }

  lemma Unlink(next: seq<nat>, prev: seq<nat>, order: seq<nat>, k: nat)
    requires Linked(next, prev, order) && k < |order|
    ensures var b := order[k];
            next[b] <= NBUF && prev[b] <= NBUF &&
            Linked(next[prev[b] := next[b]], prev[next[b] := prev[b]], Without(order, k))
  {
    var b, order' := order[k], Without(order, k);
    assert At(order, k) == b && At(order, k - 1) == prev[b] && At(order, k + 1) == next[b];
    forall i | -1 <= i < |order'|
      ensures next[prev[b] := next[b]][At(order', i)] == At(order', i + 1)
    {
      UnlinkNext(next, prev, order, k, i);
    }
    forall i | 0 <= i <= |order'|
      ensures prev[next[b] := prev[b]][At(order', i)] == At(order', i - 1)
    {
      UnlinkPrev(next, prev, order, k, i);
    }
  }

  lemma PushFront(next: seq<nat>, prev: seq<nat>, order: seq<nat>, b: nat)
    requires Linked(next, prev, order) && b < NBUF && b !in order
    ensures next[HEAD] <= NBUF &&
            Linked(next[b := next[HEAD]][HEAD := b], prev[b := HEAD][next[HEAD] := b], [b] + order)
  {
    var order' := [b] + order;
    assert At(order, -1) == HEAD && At(order, 0) == next[HEAD];
    var next', prev' := next[b := next[HEAD]][HEAD := b], prev[b := HEAD][next[HEAD] := b];
    forall i | -1 <= i < |order'|
      ensures next'[At(order', i)] == At(order', i + 1)
    {
      assert i >= 0 ==> At(order', i + 1) == At(order, i);
      assert i >= 1 ==> At(order', i) == At(order, i - 1);
    }
    forall i | 0 <= i <= |order'|
      ensures prev'[At(order', i)] == At(order', i - 1)
    {
      assert i >= 1 ==> At(order', i) == At(order, i - 1);
      assert i >= 2 ==> At(order', i - 1) == At(order, i - 2);
    }
  }

  /** A list of NBUF distinct buffers is a permutation of all of them. */
  lemma CoversAll(order: seq<nat>, b: nat)
    requires Distinct(order) && |order| == NBUF && b < NBUF
    ensures b in order
  {
    if b !in order {
      var s := [b] + order;
      assert Distinct(s);
      DistinctBound(s, NBUF);
    }
  }

  lemma {:induction false} DistinctBound(s: seq<nat>, n: nat)
    requires forall i | 0 <= i < |s| :: s[i] < n
    requires forall i, j | 0 <= i < j < |s| :: s[i] != s[j]
    ensures |s| <= n
  {
    if |s| > 0 {
      assert s[0] < n;
      if k :| 0 <= k < |s| && s[k] == n - 1 {
        DistinctBound(s[..k] + s[k + 1..], n - 1);
      } else {
        DistinctBound(s, n - 1);
      }
    }
  }

  /** The links, with two ghost fields: the list they spell, and when each buffer was last put at its front. */
  class LruRing {
    const next: array<nat>
    const prev: array<nat>
    ghost var order: seq<nat>
    ghost var stamp: seq<nat>
    ghost var clock: nat

    ghost predicate Valid()
      reads this, next, prev
    {
      && next != prev
      && Linked(next[..], prev[..], order)
      && |order| == NBUF
      && Recent(order)
    }

    /** Most recently used first. */
    ghost predicate Recent(order: seq<nat>)
      reads this
    {
      && |stamp| == NBUF
      && Distinct(order)
      && (forall i | 0 <= i < |order| :: stamp[order[i]] < clock)
      && (forall i, j | 0 <= i < j < |order| :: stamp[order[i]] > stamp[order[j]])
    }

    /** binit(): every buffer in turn is inserted at the front. */
    constructor ()
      ensures Valid() && fresh(next) && fresh(prev)
      ensures forall i | 0 <= i < NBUF :: order[i] == NBUF - 1 - i
    {
      next := new nat[NBUF + 1](_ => HEAD);
      prev := new nat[NBUF + 1](_ => HEAD);
      order := [];
      stamp := seq(NBUF, i => i);
      clock := 0;
      new;
      var b := 0;
      while b < NBUF
        invariant b <= NBUF && |order| == b && clock == b && stamp == seq(NBUF, i => i)
        invariant next != prev && fresh(next) && fresh(prev)
        invariant Linked(next[..], prev[..], order)
        invariant forall i | 0 <= i < b :: order[i] == b - 1 - i
      {
        PutFirst(b, order);
        order := [b] + order;
        clock := clock + 1;
        b := b + 1;
      }
    }

    /** The first half of the relinking in brelse(): `b` leaves the list. */
    method Cut(b: nat, ghost k: nat)
      requires next != prev && Linked(next[..], prev[..], order) && k < |order| && order[k] == b
      modifies next, prev
      ensures Linked(next[..], prev[..], Without(order, k))
    {
      ghost var next0: seq<nat>, prev0: seq<nat> := next[..], prev[..];
      Unlink(next0, prev0, order, k);
      prev[next[b]] := prev[b];
      next[prev[b]] := next[b];
      assert prev[..] == prev0[next0[b] := prev0[b]];
      assert next[..] == next0[prev0[b] := next0[b]];
    }

    /** The second half, shared with binit(): `b` is linked in behind the sentinel. */
    method PutFirst(b: nat, ghost rest: seq<nat>)
      requires next != prev && Linked(next[..], prev[..], rest) && b < NBUF && b !in rest
      modifies next, prev
      ensures Linked(next[..], prev[..], [b] + rest)
    {
      ghost var next0: seq<nat>, prev0: seq<nat> := next[..], prev[..];
      PushFront(next0, prev0, rest, b);
      next[b] := next[HEAD];
      prev[b] := HEAD;
      prev[next[HEAD]] := b;
      next[HEAD] := b;
      assert next[..] == next0[b := next0[HEAD]][HEAD := b];
      assert prev[..] == prev0[b := HEAD][next0[HEAD] := b];
    }

    /** The relinking in brelse(): `b` leaves its place and becomes the most recently used buffer. */
    method MoveToFront(b: nat, ghost k: nat)
      requires Valid() && k < NBUF && order[k] == b
      modifies this, next, prev
      ensures Valid()
      ensures order == [b] + Without(old(order), k)
      ensures stamp == old(stamp)[b := old(clock)] && clock == old(clock) + 1
    {
      Cut(b, k);
      PutFirst(b, Without(order, k));
      order := [b] + Without(order, k);
      stamp := stamp[b := clock];
      clock := clock + 1;
    }
  }
}
