/** The physical page allocator of kernel/mm/kalloc.c: a free list sorted by address, threaded through the free pages
    themselves, with a small pool of pages in front of it. */
module Kalloc {
  import opened Params

  const POOLCAP: nat := 16
  /** The first words of a page after memset(1), memset(5) and memset(3). */
  const FREED: nat := 0x0101_0101_0101_0101
  const ALLOCATED: nat := 0x0505_0505_0505_0505
  const ALLOCATEDRUN: nat := 0x0303_0303_0303_0303

  datatype Result = Null | Pages(start: nat) | Panic

  // ---------- the list ----------

  /** Position `i` of the list, and the null pointer past its end. */
  function At(list: seq<nat>, i: nat): (r: nat) {
    if i < |list| then list[i] else 0
  }

  /** The `next` words thread `list`, from `head` to the null pointer. */
  ghost predicate Linked(next: map<nat, nat>, head: nat, list: seq<nat>) {
    && head == At(list, 0)
    && (forall i {:trigger next[At(list, i)]} {:trigger At(list, i) in next} | 0 <= i < |list| ::
          0 < At(list, i) && At(list, i) in next && next[At(list, i)] == At(list, i + 1))
  }

  ghost predicate Sorted(list: seq<nat>) {
    forall i, j | 0 <= i < j < |list| :: list[i] < list[j]
  }

  ghost function Elems(s: seq<nat>): (r: set<nat>) {
    set x | x in s
  }

  ghost predicate Distinct(s: seq<nat>) {
    && (forall i, j | 0 <= i < j < |s| :: s[i] != s[j])
    && (forall i | 0 <= i < |s| :: 0 < s[i])
  }

  /** The page addresses from `lo` up to `hi`. */
  ghost function AllPages(lo: nat, hi: nat): (r: set<nat>) {
    set p | lo <= p < hi && p % PAGESIZE == 0
  }

  /** Every page is in the pool, on the list or handed out, and in one place only. */
  ghost predicate Partition(pool: seq<nat>, list: seq<nat>, out: set<nat>, all: set<nat>) {
    && Distinct(pool)
    && Elems(pool) !! Elems(list) && Elems(pool) !! out && Elems(list) !! out
    && Elems(pool) + Elems(list) + out == all
  }

  ghost predicate Inv(next: map<nat, nat>, head: nat, list: seq<nat>, pool: seq<nat>, out: set<nat>, all: set<nat>) {
    && 0 !in all && next.Keys == all
    && Linked(next, head, list) && Sorted(list) && |pool| <= POOLCAP
    && Partition(pool, list, out, all)
  }

  // ---------- free_page ----------

  function InsertAt(list: seq<nat>, k: nat, page: nat): (r: seq<nat>)
    requires k <= |list|
  {
    list[..k] + [page] + list[k..]
  }

  lemma InsertElems(list: seq<nat>, k: nat, page: nat)
    requires k <= |list|
    ensures Elems(InsertAt(list, k, page)) == Elems(list) + {page}
  {
  }

  lemma InsertSorted(list: seq<nat>, k: nat, page: nat)
    requires k <= |list| && Sorted(list) && (k > 0 ==> list[k - 1] < page) && (k < |list| ==> page < list[k])
    ensures Sorted(InsertAt(list, k, page))
  {
  }

  /** Relinking around position `k`. */
  lemma InsertLinked(next: map<nat, nat>, head: nat, list: seq<nat>, k: nat, page: nat, next': map<nat, nat>, head': nat)
    requires Linked(next, head, list) && Sorted(list) && k <= |list| && page !in list && 0 < page
    requires k == 0 ==> head' == page && next' == next[page := head]
    requires k > 0 ==> head' == head && list[k - 1] in next && next' == next[page := At(list, k)][list[k - 1] := page]
    ensures Linked(next', head', InsertAt(list, k, page))
  {
    var list' := InsertAt(list, k, page);
    forall i | 0 <= i < |list'|
      ensures 0 < At(list', i) && At(list', i) in next' && next'[At(list', i)] == At(list', i + 1)
    {
      if i != k {
        var j := if i < k then i else i - 1;
        assert At(list', i) == At(list, j);
        assert At(list, j) in next && next[At(list, j)] == At(list, j + 1);
      }
    }
  }

  // ---------- alloc_pages ----------

  ghost predicate Adjacent(list: seq<nat>, k: int) {
    0 < k < |list| && list[k] == list[k - 1] + PAGESIZE
  }

  /** `n` pages in a row start at position `i`. */
  ghost predicate RunAt(list: seq<nat>, i: int, n: int) {
    0 <= i && i + n <= |list| && forall k {:trigger Adjacent(list, k)} | i < k < i + n :: Adjacent(list, k)
  }

  lemma {:induction false} RunAddress(list: seq<nat>, i: nat, n: nat, k: nat)
    requires RunAt(list, i, n) && k < n
    ensures list[i + k] == list[i] + k * PAGESIZE
  {
    if k > 0 {
      RunAddress(list, i, n, k - 1);
      assert Adjacent(list, i + k);
    }
  }

  /** The search stands at `j` with a candidate run from `s`; no run of `n` ends by `j`. */
  ghost predicate Searching(list: seq<nat>, s: int, j: int, n: int) {
    && 0 <= s <= j <= |list| && j - s < n && RunAt(list, s, j - s) && (0 < j ==> s < j)
    && !Adjacent(list, s)
    && (forall i {:trigger RunAt(list, i, n)} :: RunAt(list, i, n) ==> j < i + n)
  }

  /** One more page: where the candidate starts then, and what its reaching length `n` means. */
  lemma SearchStep(list: seq<nat>, s: int, j: int, n: int, s': int)
    requires Searching(list, s, j, n) && j < |list| && 0 < n
    requires s' == if Adjacent(list, j) then s else j
    ensures j + 1 - s' < n ==> Searching(list, s', j + 1, n)
    ensures j + 1 - s' == n ==> LowestRun(list, s', n)
    ensures j + 1 - s' <= n
  {
  }

  /** The first `n` pages in a row. */
  ghost predicate LowestRun(list: seq<nat>, s: int, n: int) {
    RunAt(list, s, n) && forall i {:trigger RunAt(list, i, n)} | RunAt(list, i, n) :: s <= i
  }

  ghost predicate HasRun(list: seq<nat>, n: int) {
    exists i :: RunAt(list, i, n)
  }

  /** `n` pages in a row from address `start`. */
  ghost function RunFrom(start: nat, n: nat): (r: set<nat>)
    ensures forall k | 0 <= k < n :: start + k * PAGESIZE in r
  {
    if n == 0 then {} else RunFrom(start, n - 1) + {start + (n - 1) * PAGESIZE}
  }

  lemma {:induction false} RunPages(list: seq<nat>, s: nat, n: nat)
    requires RunAt(list, s, n) && 0 < n
    ensures Elems(list[s..s + n]) == RunFrom(list[s], n)
  {
    RunAddress(list, s, n, n - 1);
    var last := s + n - 1;
    assert list[s..s + n] == list[s..last] + [list[last]];
    assert Elems(list[s..s + n]) == Elems(list[s..last]) + {list[last]};
    if n > 1 {
      RunPages(list, s, n - 1);
    }
  }

  function Cut(list: seq<nat>, s: nat, n: nat): (r: seq<nat>)
    requires s + n <= |list|
  {
    list[..s] + list[s + n..]
  }

  lemma CutLinked(next: map<nat, nat>, head: nat, list: seq<nat>, s: nat, n: nat, next': map<nat, nat>, head': nat)
    requires Linked(next, head, list) && Sorted(list) && s + n <= |list| && 0 < n
    requires Relinked(next, head, list, s, n, next', head')
    ensures Linked(next', head', Cut(list, s, n))
  {
    var list' := Cut(list, s, n);
    forall i | 0 <= i < |list'|
      ensures 0 < At(list', i) && At(list', i) in next' && next'[At(list', i)] == At(list', i + 1)
    {
      var j := if i < s then i else i + n;
      assert At(list', i) == At(list, j);
      assert At(list, j) in next && next[At(list, j)] == At(list, j + 1);
    }
  }

  /** The pages around the cut point past it; the rest of the list is as it was. */
  ghost predicate Relinked(next: map<nat, nat>, head: nat, list: seq<nat>, s: nat, n: nat, next': map<nat, nat>, head': nat) {
    && next'.Keys == next.Keys
    && head' == (if s == 0 then At(list, n) else head)
    && (forall i {:trigger next'[At(list, i)]} | 0 <= i < |list| && (i < s || s + n <= i) && At(list, i) in next ::
          next'[At(list, i)] == if i + 1 == s then At(list, s + n) else next[At(list, i)])
  }

  lemma CutElems(list: seq<nat>, s: nat, n: nat)
    requires s + n <= |list| && Sorted(list)
    ensures Sorted(Cut(list, s, n))
    ensures Elems(Cut(list, s, n)) == Elems(list) - Elems(list[s..s + n])
    ensures Elems(list[s..s + n]) <= Elems(list)
  {
  }

  // ---------- pages change place ----------

  lemma ToPool(next: map<nat, nat>, head: nat, list: seq<nat>, pool: seq<nat>, out: set<nat>, all: set<nat>, p: nat)
    requires Inv(next, head, list, pool, out, all) && p in out && |pool| < POOLCAP
    ensures Inv(next, head, list, pool + [p], out - {p}, all)
  {
  }

  lemma FromPool(next: map<nat, nat>, head: nat, list: seq<nat>, pool: seq<nat>, out: set<nat>, all: set<nat>)
    requires Inv(next, head, list, pool, out, all) && pool != []
    ensures var p := pool[|pool| - 1];
            Inv(next, head, list, pool[..|pool| - 1], out + {p}, all) && p !in out && 0 < p
  {
  }

  lemma ToList(next: map<nat, nat>, head: nat, list: seq<nat>, pool: seq<nat>, out: set<nat>, all: set<nat>,
               k: nat, page: nat, next': map<nat, nat>, head': nat)
    requires Inv(next, head, list, pool, out, all) && page in out
    requires k <= |list| && (k > 0 ==> list[k - 1] < page) && (k < |list| ==> page < list[k])
    requires k == 0 ==> head' == page && next' == next[page := head]
    requires k > 0 ==> head' == head && list[k - 1] in next && next' == next[page := At(list, k)][list[k - 1] := page]
    ensures Inv(next', head', InsertAt(list, k, page), pool, out - {page}, all)
    ensures Elems(InsertAt(list, k, page)) == Elems(list) + {page}
  {
    OutIsOff(list, out, page);
    assert page in all;
    InsertLinked(next, head, list, k, page, next', head');
    InsertSorted(list, k, page);
    InsertElems(list, k, page);
    assert next'.Keys == next.Keys;
  }

  /** The run of `n` pages at `s` leaves the list. */
  lemma FromList(next: map<nat, nat>, head: nat, list: seq<nat>, pool: seq<nat>, out: set<nat>, all: set<nat>,
                 s: nat, n: nat, next': map<nat, nat>, head': nat)
    requires Inv(next, head, list, pool, out, all) && s + n <= |list| && 0 < n
    requires Relinked(next, head, list, s, n, next', head')
    ensures Inv(next', head', Cut(list, s, n), pool, out + Elems(list[s..s + n]), all)
    ensures Elems(list[s..s + n]) !! out
  {
    CutLinked(next, head, list, s, n, next', head');
    CutElems(list, s, n);
  }

  /** What a handed-out page holds is nobody's business. */
  lemma FillOut(next: map<nat, nat>, head: nat, list: seq<nat>, pool: seq<nat>, out: set<nat>, all: set<nat>, p: nat, w: nat)
    requires Inv(next, head, list, pool, out, all) && p in out
    ensures Inv(next[p := w], head, list, pool, out, all)
  {
  }

  lemma OutIsOff(list: seq<nat>, out: set<nat>, p: nat)
    requires Elems(list) !! out && p in out
    ensures p !in list
  {
  }

  lemma PagesBelow(lo: nat, left: nat, p: nat)
    requires p + PAGESIZE == left && left % PAGESIZE == 0 && lo <= p
    ensures p % PAGESIZE == 0 && AllPages(lo, left) - {p} == AllPages(lo, p) && p in AllPages(lo, left)
  {
  }

  lemma NoPages(lo: nat, left: nat)
    requires left % PAGESIZE == 0 && left < (lo + PAGESIZE - 1) / PAGESIZE * PAGESIZE + PAGESIZE
    ensures AllPages(lo, left) == {}
  {
  }

  class Allocator {
    const lo: nat
    const hi: nat
    /** The first word of every page. */
    var next: map<nat, nat>
    /** kmem.freelist */
    var head: nat
    /** page_cache.buf[0..n) */
    var pool: seq<nat>
    var initialized: bool
    ghost var list: seq<nat>
    ghost var out: set<nat>

    /** All pages that free_page() accepts. */
    ghost const all: set<nat>

    ghost predicate Valid()
      reads this
    {
      Inv(next, head, list, pool, out, all)
    }

    /** The pages that can be had one by one: all that the page tables of Vm know of the allocator. */
    ghost function Available(): set<nat>
      reads this
    {
      all - out
    }

    ghost predicate Ranged() {
      all == AllPages(lo, hi)
    }

    /** kmem_init(): afterwards every page is free. */
    constructor (lo: nat, hi: nat)
      requires 0 < lo <= hi && hi % PAGESIZE == 0
      ensures Valid() && Ranged() && this.lo == lo && this.hi == hi && out == {}
    {
      this.lo, this.hi, all := lo, hi, AllPages(lo, hi);
      next := map p | lo <= p < hi && p % PAGESIZE == 0 :: 0;
      head, pool, initialized, list, out := 0, [], false, [], AllPages(lo, hi);
      new;
      FreeRange();
      initialized := true;
    }

    /** freerange() over all pages, from the highest down. */
    method FreeRange()
      requires Valid() && Ranged() && out == all && 0 < lo <= hi && hi % PAGESIZE == 0
      modifies this`next, this`head, this`pool, this`list, this`out
      ensures Valid() && out == {}
    {
      var start, top := (lo + PAGESIZE - 1) / PAGESIZE * PAGESIZE, hi;
      while top >= start + PAGESIZE
        invariant Valid() && 0 <= top <= hi && top % PAGESIZE == 0 && out == AllPages(lo, top)
      {
        var p := top - PAGESIZE;
        PagesBelow(lo, top, p);
        var ok := FreePage(p);
        top := p;
      }
      NoPages(lo, top);
    }

    /** The loop of free_page_to_freelist(): the last page on the list below `page`. */
    method FindPrev(page: nat) returns (prev: nat, ghost k: nat)
      requires Valid() && head != 0 && head < page && page !in list
      ensures 1 <= k <= |list| && prev == list[k - 1] < page && (k < |list| ==> page < list[k])
      ensures prev in next && next[prev] == At(list, k)
    {
      prev, k := head, 1;
      assert next[At(list, 0)] == At(list, 1);
      while next[prev] != 0 && next[prev] < page
        invariant 1 <= k <= |list| && prev == At(list, k - 1) < page && prev in next && next[prev] == At(list, k)
        decreases |list| - k
      {
        assert next[At(list, k)] == At(list, k + 1);
        prev, k := next[prev], k + 1;
      }
    }

    /** free_page_to_freelist(): the page goes to its place in the sorted list. */
    method FreeToList(page: nat)
      requires Valid() && page in out
      modifies this`next, this`head, this`list, this`out
      ensures Valid() && out == old(out) - {page} && Elems(list) == Elems(old(list)) + {page}
    {
      OutIsOff(list, out, page);
      ghost var k := 0;
      if head == 0 || page < head {
        next := next[page := head];
        head := page;
      } else {
        var prev;
        prev, k := FindPrev(page);
        next := next[page := next[prev]];
        next := next[prev := page];
      }
      ToList(old(next), old(head), list, pool, out, all, k, page, next, head);
      list, out := InsertAt(list, k, page), out - {page};
    }

    /** free_page(); false is the panic "invalid page". The page must be one that was handed out: a second free is not
        noticed. */
    method FreePage(pa: nat) returns (ok: bool)
      requires Valid() && Ranged() && (pa in all ==> pa in out)
      modifies this`next, this`head, this`pool, this`list, this`out
      ensures Valid() && (ok <==> pa in all) && out == old(out) - {pa}
      ensures Available() == old(Available()) + if ok then {pa} else {}
      ensures !ok ==> pool == old(pool) && list == old(list)
      ensures ok && |old(pool)| < POOLCAP ==> pool == old(pool) + [pa] && list == old(list)
      ensures ok && |old(pool)| >= POOLCAP ==> pool == old(pool) && Elems(list) == Elems(old(list)) + {pa}
    {
      if pa % PAGESIZE != 0 || pa < lo || pa >= hi {
        return false;
      }
      if initialized {
        FillOut(next, head, list, pool, out, all, pa, FREED);
        next := next[pa := FREED];
      }
      if |pool| < POOLCAP {
        ToPool(next, head, list, pool, out, all, pa);
        pool, out := pool + [pa], out - {pa};
        return true;
      }
      FreeToList(pa);
      return true;
    }

    /** alloc_page(): the pool first, then the head of the list; 0 when both are empty. */
    method AllocPage() returns (p: nat)
      requires Valid()
      modifies this`next, this`head, this`pool, this`list, this`out
      ensures Valid() && (p == 0 <==> old(pool) == [] && old(list) == [])
      ensures p != 0 ==> p !in old(out) && out == old(out) + {p}
      ensures p == 0 ==> out == old(out)
      ensures p == 0 <==> old(Available()) == {}
      ensures p != 0 ==> p in old(Available()) && Available() == old(Available()) - {p}
      ensures old(pool) != [] ==> old(pool) == pool + [p] && list == old(list)
      ensures old(pool) == [] && p != 0 ==> pool == [] && old(list) == [p] + list
    {
      if |pool| > 0 {
        p := pool[|pool| - 1];
        FromPool(next, head, list, pool, out, all);
        pool, out := pool[..|pool| - 1], out + {p};
      } else {
        p := head;
        HeadIsPage(next, head, list, pool, out, all);
        if p == 0 {
          return;
        }
        FromHead(next, head, list, pool, out, all);
        head := next[p];
        list, out := list[1..], out + {p};
      }
      FillOut(next, head, list, pool, out, all, p, ALLOCATED);
      next := next[p := ALLOCATED];
    }

    /** The search of alloc_pages(): where the lowest run of `n` pages starts, and the page before it. */
    method FindRun(n: nat) returns (found: bool, segStart: nat, segPrev: nat, ghost s: nat)
      requires Valid() && 0 < n
      ensures found <==> HasRun(list, n)
      ensures found ==> LowestRun(list, s, n) && segStart == list[s] && segPrev == if s == 0 then 0 else list[s - 1]
    {
      var prev, cur, segEnd, segLen := 0, head, 0, 0;
      segStart, segPrev, s := 0, 0, 0;
      ghost var j := 0;
      while cur != 0
        invariant Searching(list, s, j, n) && segLen == j - s
        invariant cur == At(list, j) && prev == if j == 0 then 0 else At(list, j - 1)
        invariant 0 < j ==> segEnd == prev && segStart == At(list, s) && segPrev == if s == 0 then 0 else At(list, s - 1)
        decreases |list| - j
      {
        ghost var s' := if Adjacent(list, j) then s else j;
        SearchStep(list, s, j, n, s');
        if segLen == 0 {
          segStart, segPrev, segEnd, segLen := cur, prev, cur, 1;
        } else if cur == segEnd + PAGESIZE {
          segEnd, segLen := cur, segLen + 1;
        } else {
          segStart, segPrev, segEnd, segLen := cur, prev, cur, 1;
        }
        s := s';
        if segLen == n {
          return true, segStart, segPrev, s;
        }
        assert At(list, j) in next;
        prev, cur, j := cur, next[cur], j + 1;
      }
      EndOfList(next, head, list, j);
      return false, 0, 0, 0;
    }

    method LastOfRun(segStart: nat, n: nat, ghost s: nat) returns (cutEnd: nat)
      requires Valid() && 0 < n && s + n <= |list| && segStart == list[s]
      ensures cutEnd == list[s + n - 1] && cutEnd in next && next[cutEnd] == At(list, s + n)
    {
      cutEnd := segStart;
      assert At(list, s) in next;
      for i := 1 to n
        invariant cutEnd == At(list, s + i - 1) && cutEnd in next
      {
        assert At(list, s + i) in next;
        cutEnd := next[cutEnd];
      }
      assert next[At(list, s + n - 1)] == At(list, s + n);
    }

    /** The run leaves the list: the page before it, or the head, points past it. */
    method CutRun(segStart: nat, segPrev: nat, n: nat, ghost s: nat)
      requires Valid() && 0 < n && s + n <= |list| && segStart == list[s] && segPrev == if s == 0 then 0 else list[s - 1]
      modifies this`next, this`head, this`list, this`out
      ensures Valid() && list == Cut(old(list), s, n) && out == old(out) + Elems(old(list)[s..s + n])
      ensures Elems(old(list)[s..s + n]) !! old(out)
    {
      var cutEnd := LastOfRun(segStart, n, s);
      var rest := next[cutEnd];
      if s > 0 {
        assert At(list, s - 1) in next;
      }
      if segPrev != 0 {
        next := next[segPrev := rest];
      } else {
        head := rest;
      }
      next := next[cutEnd := 0];
      RelinkedCut(old(next), old(head), list, s, n, next, head);
      FromList(old(next), old(head), list, pool, out, all, s, n, next, head);
      list, out := Cut(list, s, n), out + Elems(list[s..s + n]);
    }

    /** alloc_pages(): the lowest run of `n` adjacent free pages, removed from the list; the panic exactly when the list has
        none, whatever the pool holds. */
    method AllocPages(n: int) returns (r: Result, ghost s: nat)
      requires Valid()
      modifies this`next, this`head, this`list, this`out
      ensures Valid() && (r == Null <==> n <= 0) && (r == Panic <==> 0 < n && !HasRun(old(list), n))
      ensures !r.Pages? ==> list == old(list) && out == old(out)
      ensures r.Pages? ==> LowestRun(old(list), s, n) && r.start == old(list)[s] && list == Cut(old(list), s, n)
      ensures r.Pages? ==> out == old(out) + RunFrom(r.start, n)
      ensures r.Pages? ==> RunFrom(r.start, n) !! old(out)
    {
      s := 0;
      if n <= 0 {
        return Null, 0;
      }
      var found, segStart, segPrev;
      found, segStart, segPrev, s := FindRun(n);
      if !found {
        return Panic, 0;
      }
      RunPages(list, s, n);
      CutRun(segStart, segPrev, n, s);
      FillRun(segStart, n);
      return Pages(segStart), s;
    }

    method FillRun(start: nat, n: nat)
      requires Valid() && RunFrom(start, n) <= out
      modifies this`next
      ensures Valid()
    {
      for i := 0 to n
        invariant Valid()
      {
        var page := start + i * PAGESIZE;
        assert page in RunFrom(start, n);
        FillOut(next, head, list, pool, out, all, page, ALLOCATEDRUN);
        next := next[page := ALLOCATEDRUN];
      }
    }
  }

  lemma RelinkedCut(next: map<nat, nat>, head: nat, list: seq<nat>, s: nat, n: nat, next': map<nat, nat>, head': nat)
    requires Linked(next, head, list) && Sorted(list) && s + n <= |list| && 0 < n
    requires list[s + n - 1] in next && (s > 0 ==> list[s - 1] in next)
    requires s == 0 ==> next' == next[list[s + n - 1] := 0] && head' == At(list, s + n)
    requires s > 0 ==> next' == next[list[s - 1] := At(list, s + n)][list[s + n - 1] := 0] && head' == head
    ensures Relinked(next, head, list, s, n, next', head')
  {
  }

  lemma EndOfList(next: map<nat, nat>, head: nat, list: seq<nat>, j: nat)
    requires Linked(next, head, list) && j <= |list| && At(list, j) == 0
    ensures j == |list|
  {
    if j < |list| {
      var b := At(list, j) in next;
      assert false;
    }
  }

  lemma FromHead(next: map<nat, nat>, head: nat, list: seq<nat>, pool: seq<nat>, out: set<nat>, all: set<nat>)
    requires Inv(next, head, list, pool, out, all) && list != []
    ensures head == list[0] && head in next && Inv(next, next[head], list[1..], pool, out + {head}, all) && head !in out
  {
    assert At(list, 0) in next && next[At(list, 0)] == At(list, 1);
    FromList(next, head, list, pool, out, all, 0, 1, next, next[head]);
    assert list[0..1] == [head] && Elems([head]) == {head} && Cut(list, 0, 1) == list[1..];
  }

  lemma HeadIsPage(next: map<nat, nat>, head: nat, list: seq<nat>, pool: seq<nat>, out: set<nat>, all: set<nat>)
    requires Inv(next, head, list, pool, out, all)
    ensures head == 0 <==> list == []
  {
  }
}
