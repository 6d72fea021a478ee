/** The driver side of kernel/driver/virtio_disk.c: eight descriptors, the ring of available requests and the book-keeping,
    as the functions that allocate, format and free descriptor chains change them (sections 2.6 and 5.2 of VIRTIO 1.1). */
module Virtio {
  import opened Collections
  import opened Params

  const NUM: nat := 8
  /** Ring indices are 16 bits wide. */
  const WRAP: nat := 65536
  /** info[].status before the device writes it. */
  const PENDING: nat := 0xff

  /** Each buffer carries at most one request, since its holder has its sleep-lock. */
  type Buf = nat

  /** What a descriptor points at. */
  datatype Addr = NoAddr | Op(i: nat) | Data(b: Buf) | Status(i: nat)

  /** One descriptor; `write` and `more` are the flags WRITE and NEXT. */
  datatype Desc = Desc(addr: Addr, len: nat, write: bool, more: bool, next: nat)

  const ZERO: Desc := Desc(NoAddr, 0, false, false, 0)

  datatype Request = Request(write: bool, sector: nat)

  datatype Info = Info(b: Option<Buf>, status: nat)

  /** The memory the driver owns. */
  datatype Driver = Driver(free: seq<bool>, desc: seq<Desc>, ops: seq<Request>, info: seq<Info>, avail: seq<nat>, availIdx: nat)

  ghost predicate Shape(d: Driver) {
    && |d.free| == NUM && |d.desc| == NUM && |d.ops| == NUM && |d.info| == NUM && |d.avail| == NUM && d.availIdx < WRAP
  }

  // ---------- specification ----------

  /** The first free descriptor from `i` on; NUM if there is none. */
  function NextFree(free: seq<bool>, i: nat): (r: nat)
    requires |free| == NUM && i <= NUM
    ensures i <= r <= NUM && (r < NUM ==> free[r]) && forall k | i <= k < r :: !free[k]
    decreases NUM - i
  {
    if i == NUM || free[i] then i else NextFree(free, i + 1)
  }

  /** The three descriptors alloc3_desc() would take. */
  datatype Triple = Triple(i0: nat, i1: nat, i2: nat)

  ghost predicate Apart(t: Triple) {
    t.i0 < NUM && t.i1 < NUM && t.i2 < NUM && t.i0 != t.i1 && t.i0 != t.i2 && t.i1 != t.i2
  }

  ghost function Three(free: seq<bool>): (r: Option<Triple>)
    requires |free| == NUM
    ensures r.Some? ==> Apart(r.value) && free[r.value.i0] && free[r.value.i1] && free[r.value.i2]
  {
    var i0 := NextFree(free, 0);
    if i0 == NUM then None else
    var i1 := NextFree(free, i0 + 1);
    if i1 == NUM then None else
    var i2 := NextFree(free, i1 + 1);
    if i2 == NUM then None else Some(Triple(i0, i1, i2))
  }

  ghost function FreeSet(free: seq<bool>): (r: set<nat>) {
    set i | 0 <= i < |free| && free[i]
  }

  lemma OneFree(free: seq<bool>, i0: nat)
    requires |free| == NUM && i0 == NextFree(free, 0)
    ensures i0 == NUM ==> FreeSet(free) == {}
    ensures i0 < NUM && NextFree(free, i0 + 1) == NUM ==> FreeSet(free) == {i0}
  {
  }

  lemma ThreeFrom(free: seq<bool>, i0: nat, i1: nat, i2: nat)
    requires |free| == NUM && i0 == NextFree(free, 0) < NUM && i1 == NextFree(free, i0 + 1) < NUM && i2 == NextFree(free, i1 + 1)
    ensures Three(free) == if i2 == NUM then None else Some(Triple(i0, i1, i2))
  {
  }

  lemma TwoFree(free: seq<bool>, i0: nat, i1: nat)
    requires |free| == NUM && i0 == NextFree(free, 0) < NUM && i1 == NextFree(free, i0 + 1) < NUM
    ensures NextFree(free, i1 + 1) == NUM ==> FreeSet(free) == {i0, i1}
  {
  }

  /** alloc3_desc() succeeds exactly when three descriptors are free. */
  lemma ThreeFree(free: seq<bool>)
    requires |free| == NUM
    ensures Three(free).Some? <==> 3 <= |FreeSet(free)|
  {
    var i0 := NextFree(free, 0);
    OneFree(free, i0);
    if i0 < NUM && NextFree(free, i0 + 1) < NUM {
      var i1 := NextFree(free, i0 + 1);
      TwoFree(free, i0, i1);
      if NextFree(free, i1 + 1) < NUM {
        AtLeastThree(FreeSet(free), i0, i1, NextFree(free, i1 + 1));
      }
    }
  }

  lemma AtLeastThree(s: set<nat>, a: nat, b: nat, c: nat)
    requires a in s && b in s && c in s && a != b && a != c && b != c
    ensures 3 <= |s|
  {
    assert |s - {a} - {b}| == |s| - 2 && c in s - {a} - {b};
  }

  /** A chain formatted for buffer `b`, with its head in the next slot of the ring but not yet announced. */
  function Fill(d: Driver, t: Triple, b: Buf, write: bool, sector: nat): (r: Driver)
    requires Shape(d) && Apart(t)
    ensures Shape(r)
  {
    d.(free := d.free[t.i0 := false][t.i1 := false][t.i2 := false],
       desc := d.desc[t.i0 := Desc(Op(t.i0), 16, false, true, t.i1)]
                     [t.i1 := Desc(Data(b), BSIZE, !write, true, t.i2)]
                     [t.i2 := Desc(Status(t.i0), 1, true, false, 0)],
       ops := d.ops[t.i0 := Request(write, sector)],
       info := d.info[t.i0 := Info(Some(b), PENDING)],
       avail := d.avail[d.availIdx % NUM := t.i0])
  }

  function Announce(d: Driver): (r: Driver) {
    d.(availIdx := (d.availIdx + 1) % WRAP)
  }

  /** The chain of three at `t` is given up: no descriptor of it points anywhere and all are free. */
  function Release(d: Driver, t: Triple): (r: Driver)
    requires Shape(d) && Apart(t)
    ensures Shape(r)
  {
    d.(free := d.free[t.i0 := true][t.i1 := true][t.i2 := true],
       desc := d.desc[t.i0 := ZERO][t.i1 := ZERO][t.i2 := ZERO],
       info := d.info[t.i0 := d.info[t.i0].(b := None)])
  }

  /** The descriptors link the chain `t`, and all three are in use. */
  ghost predicate ChainAt(d: Driver, t: Triple)
    requires Shape(d)
  {
    && Apart(t) && !d.free[t.i0] && !d.free[t.i1] && !d.free[t.i2]
    && d.desc[t.i0].more && d.desc[t.i0].next == t.i1
    && d.desc[t.i1].more && d.desc[t.i1].next == t.i2
    && !d.desc[t.i2].more
  }

  /** Descriptors were taken and given back: only free ones are changed. */
  ghost predicate Restored(d: Driver, d': Driver)
    requires Shape(d) && Shape(d')
  {
    d' == d.(desc := d'.desc) && forall k | 0 <= k < NUM && !d.free[k] :: d'.desc[k] == d.desc[k]
  }

  // ---------- the code ----------

  class Disk {
    var d: Driver
    /** Calls of wakeup(&disk.free[0]). */
    var wakeups: nat

    /** The state virtio_disk_init() leaves behind. */
    constructor ()
      ensures Shape(d) && (forall i | 0 <= i < NUM :: d.free[i]) && d.availIdx == 0
    {
      d := Driver(seq(NUM, _ => true), seq(NUM, _ => ZERO), seq(NUM, _ => Request(false, 0)), seq(NUM, _ => Info(None, 0)),
                  seq(NUM, _ => 0), 0);
      wakeups := 0;
    }

    /** alloc_desc(): the first free descriptor, now in use; -1 if there is none. */
    method AllocDesc() returns (r: int)
      requires Shape(d)
      modifies this`d
      ensures NextFree(old(d).free, 0) == NUM ==> r == -1 && d == old(d)
      ensures NextFree(old(d).free, 0) != NUM ==> r == NextFree(old(d).free, 0) && d == old(d).(free := old(d).free[r := false])
    {
      for i := 0 to NUM
        invariant NextFree(d.free, 0) == NextFree(d.free, i)
      {
        if d.free[i] {
          d := d.(free := d.free[i := false]);
          return i;
        }
      }
      return -1;
    }

    /** free_desc(); false is a panic. */
    method FreeDesc(i: nat) returns (ok: bool)
      requires Shape(d)
      modifies this
      ensures ok == (i < NUM && !old(d).free[i])
      ensures ok ==> d == old(d).(free := old(d).free[i := true], desc := old(d).desc[i := ZERO]) && wakeups == old(wakeups) + 1
      ensures !ok ==> d == old(d)
    {
      if i >= NUM {
        return false;
      }
      if d.free[i] {
        return false;
      }
      d := d.(desc := d.desc[i := ZERO], free := d.free[i := true]);
      wakeups := wakeups + 1;
      return true;
    }

    /** free_chain(), after the owner's info entry is cleared: on a chain of three it frees those three and never panics. */
    method FreeChain(head: nat, ghost t: Triple) returns (ok: bool)
      requires Shape(d) && ChainAt(d, t) && head == t.i0
      modifies this
      ensures ok && wakeups == old(wakeups) + 3
      ensures d == Release(old(d), t)
    {
      d := d.(info := d.info[head := d.info[head].(b := None)]);
      ghost var d0 := d;
      var i, more := head, true;
      ghost var n := 0;
      while more
        invariant 0 <= n <= 3 && Shape(d) && wakeups == old(wakeups) + n && (more <==> n < 3)
        invariant n == 0 ==> i == t.i0 && d == d0
        invariant n == 1 ==> i == t.i1 && d == Freed(d0, t.i0)
        invariant n == 2 ==> i == t.i2 && d == Freed(Freed(d0, t.i0), t.i1)
        invariant n == 3 ==> d == Freed(Freed(Freed(d0, t.i0), t.i1), t.i2)
        decreases 3 - n
      {
        var flag, nxt := d.desc[i].more, d.desc[i].next;
        ok := FreeDesc(i);
        if flag {
          i := nxt;
        } else {
          more := false;
        }
        n := n + 1;
      }
      ok := true;
    }

    /** The cleanup loop of alloc3_desc(). */
    method GiveBack(idx: seq<nat>, ghost d0: Driver)
      requires Shape(d0) && Shape(d) && d == d0.(free := d.free)
      requires forall i, j | 0 <= i < j < |idx| :: idx[i] != idx[j]
      requires forall i | 0 <= i < |idx| :: idx[i] < NUM && d0.free[idx[i]]
      requires forall k | 0 <= k < NUM :: d.free[k] == (d0.free[k] && k !in idx)
      modifies this
      ensures Shape(d) && Restored(d0, d) && wakeups == old(wakeups) + |idx|
    {
      for j := 0 to |idx|
        invariant Shape(d) && d == d0.(free := d.free, desc := d.desc) && wakeups == old(wakeups) + j
        invariant forall k | 0 <= k < NUM :: d.free[k] == (d0.free[k] && k !in idx[j..])
        invariant forall k | 0 <= k < NUM && !d0.free[k] :: d.desc[k] == d0.desc[k]
      {
        assert idx[j..] == [idx[j]] + idx[j + 1..];
        var ok := FreeDesc(idx[j]);
      }
      assert d.free == d0.free;
    }

    /** The first two turns of alloc3_desc()'s loop. */
    method Alloc2Desc() returns (ok: bool, i0: int, i1: int)
      requires Shape(d)
      modifies this
      ensures Shape(d)
      ensures ok ==> 0 <= i0 == NextFree(old(d).free, 0) < NUM && 0 <= i1 == NextFree(old(d).free, i0 + 1) < NUM
      ensures ok ==> d == old(d).(free := old(d).free[i0 := false][i1 := false]) && wakeups == old(wakeups)
      ensures !ok ==> Three(old(d).free) == None && Restored(old(d), d)
      ensures !ok ==> (wakeups == old(wakeups) <==> NextFree(old(d).free, 0) == NUM)
    {
      i0 := AllocDesc();
      if i0 < 0 {
        return false, 0, 0;
      }
      SkipTaken(old(d).free, i0);
      i1 := AllocDesc();
      if i1 < 0 {
        GiveBack([i0], old(d));
        return false, 0, 0;
      }
      return true, i0, i1;
    }

    /** alloc3_desc(): three descriptors or none; on failure the ones taken are given back, with a wakeup for each. */
    method Alloc3Desc() returns (ok: bool, t: Triple)
      requires Shape(d)
      modifies this
      ensures Shape(d) && (ok <==> Three(old(d).free).Some?)
      ensures ok ==> Some(t) == Three(old(d).free) && wakeups == old(wakeups)
      ensures ok ==> d == old(d).(free := old(d).free[t.i0 := false][t.i1 := false][t.i2 := false])
      ensures !ok ==> Restored(old(d), d)
      ensures !ok ==> (wakeups == old(wakeups) <==> NextFree(old(d).free, 0) == NUM)
    {
      t := Triple(0, 0, 0);
      var i0, i1;
      ok, i0, i1 := Alloc2Desc();
      if !ok {
        return;
      }
      SkipTaken2(old(d).free, i0, i1);
      ThreeFrom(old(d).free, i0, i1, NextFree(d.free, 0));
      var i2 := AllocDesc();
      if i2 < 0 {
        GiveBack([i0, i1], old(d));
        return false, t;
      }
      return true, Triple(i0, i1, i2);
    }

    /** virtio_disk_rw() from taking the descriptors to the ring entry; false sends the caller to sleep on free[0]. */
    method Submit(b: Buf, write: bool, sector: nat) returns (ok: bool, t: Triple)
      requires Shape(d)
      modifies this
      ensures Shape(d) && (ok <==> Three(old(d).free).Some?)
      ensures ok ==> Some(t) == Three(old(d).free) && d == Fill(old(d), t, b, write, sector)
      ensures !ok ==> Restored(old(d), d)
    {
      ok, t := Alloc3Desc();
      if ok {
        d := d.(ops := d.ops[t.i0 := Request(write, sector)]);
        d := d.(desc := d.desc[t.i0 := Desc(Op(t.i0), 16, false, true, t.i1)]);
        d := d.(desc := d.desc[t.i1 := Desc(Data(b), BSIZE, !write, true, t.i2)]);
        d := d.(info := d.info[t.i0 := d.info[t.i0].(status := PENDING)]);
        d := d.(desc := d.desc[t.i2 := Desc(Status(t.i0), 1, true, false, 0)]);
        d := d.(info := d.info[t.i0 := d.info[t.i0].(b := Some(b))]);
        d := d.(avail := d.avail[d.availIdx % NUM := t.i0]);
      }
    }
  }

  ghost function Freed(d: Driver, i: nat): (r: Driver)
    requires Shape(d) && i < NUM
    ensures Shape(r)
  {
    d.(free := d.free[i := true], desc := d.desc[i := ZERO])
  }

  lemma {:induction false} SkipTaken(free: seq<bool>, i0: nat)
    requires |free| == NUM && i0 == NextFree(free, 0) < NUM
    ensures NextFree(free[i0 := false], 0) == NextFree(free, i0 + 1)
  {
    SkipTo(free, free[i0 := false], 0, i0 + 1);
  }

  lemma {:induction false} SkipTaken2(free: seq<bool>, i0: nat, i1: nat)
    requires |free| == NUM && i0 == NextFree(free, 0) < NUM && i1 == NextFree(free, i0 + 1) < NUM
    ensures NextFree(free[i0 := false][i1 := false], 0) == NextFree(free, i1 + 1)
  {
    SkipTo(free, free[i0 := false][i1 := false], 0, i1 + 1);
  }

  lemma {:induction false} SkipTo(free: seq<bool>, free': seq<bool>, i: nat, j: nat)
    requires |free| == NUM && |free'| == NUM && i <= j <= NUM
    requires (forall k | i <= k < j :: !free'[k]) && (forall k | j <= k < NUM :: free'[k] == free[k])
    ensures NextFree(free', i) == NextFree(free, j)
    decreases NUM - i
  {
  }
}
