/** The protocol between the requesters in virtio_disk_rw(), the device and virtio_disk_intr(), as a state machine: driver
    steps are the stretches of code under vdisk_lock, and the device acts between any two steps. */
module VirtioQueue {
  import opened Collections
  import opened Counters
  import opened Params
  import opened Virtio

  /** Where the request of a buffer stands: not there; wanting descriptors, awake or asleep on free[0]; or with a chain. */
  datatype Pc =
    | Want(write: bool, sector: nat)
    | SleepDesc(write: bool, sector: nat)
    | Filled(t: Triple)
    | Asleep(t: Triple)
    | Awake(t: Triple)

  datatype Lock = Unlocked | By(b: Buf) | Intr

  /** Where a chain stands: formatted, in slot `k` of the available ring, with the device, in slot `k` of the used ring,
      or seen by the interrupt handler. Slots are counted without wrap-around. */
  datatype Stage = Formatted | InAvail(k: nat) | Taken | InUsed(k: nat) | Reaped

  datatype Req = Req(b: Buf, t: Triple, write: bool, sector: nat, stage: Stage)

  /** How many requests were announced, taken by the device, completed and seen by the interrupt handler. */
  datatype Counts = Counts(subs: nat, taks: nat, coms: nat, reas: nat)

  /** `busy` holds the buffers with b->disk set. The device owns `used`, `usedIdx`, `devSeen` and `inflight`; `seen` is the
      driver's used_idx. The rest is history: the live chains by head, the chain of each descriptor, the four counters
      behind the ring indices, and how often each buffer was announced, completed and returned to its caller. */
  datatype State = State(
    d: Driver, busy: set<Buf>, lock: Lock, pc: map<Buf, Pc>,
    used: seq<nat>, usedIdx: nat, devSeen: nat, inflight: set<nat>, seen: nat,
    live: map<nat, Req>, own: map<nat, nat>,
    n: Counts,
    sent: multiset<Buf>, done: multiset<Buf>, ended: multiset<Buf>)

  datatype Action =
    | Start(b: Buf, write: bool, sector: nat)
    | Format(b: Buf, t: Triple)
    | Fail(b: Buf)
    | Publish(b: Buf)
    | Take
    | Complete(h: nat)
    | IntrStart
    | IntrOne
    | IntrEnd
    | Check(b: Buf)
    | Finish(b: Buf)
    | Kill(b: Buf)

  // ---------- steps ----------

  function SetStage(live: map<nat, Req>, h: nat, stage: Stage): (r: map<nat, Req>) {
    if h in live then live[h := live[h].(stage := stage)] else live
  }

  /** wakeup(&disk.free[0]). */
  function WakeAll(pc: map<Buf, Pc>): (r: map<Buf, Pc>) {
    map b | b in pc :: if pc[b].SleepDesc? then Want(pc[b].write, pc[b].sector) else pc[b]
  }

  /** wakeup(b), or a kill. */
  function WakeOne(pc: map<Buf, Pc>, b: Buf): (r: map<Buf, Pc>) {
    if b in pc && pc[b].Asleep? then pc[b := Awake(pc[b].t)] else pc
  }

  /** The device writes the status byte of the chain headed by `h`, wherever its last descriptor says it is. */
  function WithStatus(d: Driver, h: nat): (r: Driver)
    requires Shape(d)
    ensures Shape(r)
  {
    var i1 := if h < NUM then d.desc[h].next else 0;
    var i2 := if i1 < NUM then d.desc[i1].next else 0;
    if i2 < NUM && d.desc[i2].addr.Status? && d.desc[i2].addr.i < NUM then
      d.(info := d.info[d.desc[i2].addr.i := d.info[d.desc[i2].addr.i].(status := 0)])
    else d
  }

  /** The entry virtio_disk_intr() looks at next, and the buffer it finds there. */
  function NextUsed(s: State): (r: nat)
    requires |s.used| == NUM
  {
    s.used[s.seen % NUM]
  }

  predicate NextUsedIsGood(s: State)
    requires |s.used| == NUM && Shape(s.d)
  {
    var id := NextUsed(s);
    id < NUM && s.d.info[id].status == 0 && s.d.info[id].b.Some?
  }

  ghost predicate StartStep(s: State, b: Buf, write: bool, sector: nat, s': State) {
    b !in s.pc && s' == s.(pc := s.pc[b := Want(write, sector)])
  }

  /** Descriptors are found and the chain is formatted; the lock stays held. */
  ghost predicate FormatStep(s: State, b: Buf, t: Triple, s': State)
    requires Shape(s.d)
  {
    && s.lock == Unlocked && b in s.pc && s.pc[b].Want? && Three(s.d.free) == Some(t)
    && var r := Req(b, t, s.pc[b].write, s.pc[b].sector, Formatted);
       s' == s.(d := Fill(s.d, t, b, r.write, r.sector), busy := s.busy + {b}, lock := By(b), pc := s.pc[b := Filled(t)],
                live := s.live[t.i0 := r], own := s.own[t.i0 := t.i0][t.i1 := t.i0][t.i2 := t.i0])
  }

  /** Too few descriptors: those taken are given back, which wakes the others, and the caller sleeps. */
  ghost predicate FailStep(s: State, b: Buf, s': State)
    requires Shape(s.d)
  {
    && s.lock == Unlocked && b in s.pc && s.pc[b].Want? && Three(s.d.free) == None
    && Shape(s'.d) && Restored(s.d, s'.d)
    && var pc := if NextFree(s.d.free, 0) == NUM then s.pc else WakeAll(s.pc);
       s' == s.(d := s'.d, pc := pc[b := SleepDesc(s.pc[b].write, s.pc[b].sector)])
  }

  /** The new ring entry is announced, and the caller sleeps on the buffer. */
  ghost predicate PublishStep(s: State, b: Buf, s': State) {
    && s.lock == By(b) && b in s.pc && s.pc[b].Filled?
    && s' == s.(d := Announce(s.d), lock := Unlocked, pc := s.pc[b := Asleep(s.pc[b].t)],
                live := SetStage(s.live, s.pc[b].t.i0, InAvail(s.n.subs)), n := s.n.(subs := s.n.subs + 1),
                sent := s.sent + multiset{b})
  }

  ghost predicate TakeStep(s: State, s': State)
    requires Shape(s.d)
  {
    && s.devSeen != s.d.availIdx
    && var h := s.d.avail[s.devSeen % NUM];
       s' == s.(devSeen := (s.devSeen + 1) % WRAP, inflight := s.inflight + {h}, live := SetStage(s.live, h, Taken),
                n := s.n.(taks := s.n.taks + 1))
  }

  /** The device finishes any of the requests it has. */
  ghost predicate CompleteStep(s: State, h: nat, s': State)
    requires Shape(s.d) && |s.used| == NUM
  {
    && h in s.inflight
    && s' == s.(d := WithStatus(s.d, h), used := s.used[s.usedIdx % NUM := h], usedIdx := (s.usedIdx + 1) % WRAP,
                inflight := s.inflight - {h}, live := SetStage(s.live, h, InUsed(s.n.coms)), n := s.n.(coms := s.n.coms + 1))
  }

  /** One turn of virtio_disk_intr()'s loop, when it does not panic. */
  ghost predicate IntrStep(s: State, s': State)
    requires Shape(s.d) && |s.used| == NUM
  {
    && s.lock == Intr && s.seen != s.usedIdx && NextUsedIsGood(s)
    && var b := s.d.info[NextUsed(s)].b.value;
       s' == s.(busy := s.busy - {b}, pc := WakeOne(s.pc, b), seen := (s.seen + 1) % WRAP,
                live := SetStage(s.live, NextUsed(s), Reaped), n := s.n.(reas := s.n.reas + 1), done := s.done + multiset{b})
  }

  ghost predicate CheckStep(s: State, b: Buf, s': State) {
    && s.lock == Unlocked && b in s.pc && s.pc[b].Awake? && b in s.busy
    && s' == s.(pc := s.pc[b := Asleep(s.pc[b].t)])
  }

  /** The caller finds b->disk clear, frees its chain and returns, when free_chain() does not panic. */
  ghost predicate FinishStep(s: State, b: Buf, s': State)
    requires Shape(s.d)
  {
    && s.lock == Unlocked && b in s.pc && s.pc[b].Awake? && b !in s.busy && ChainAt(s.d, s.pc[b].t)
    && var t := s.pc[b].t;
       s' == s.(d := Release(s.d, t), pc := WakeAll(s.pc) - {b}, live := s.live - {t.i0},
                own := s.own - {t.i0, t.i1, t.i2}, ended := s.ended + multiset{b})
  }

  ghost predicate KillStep(s: State, b: Buf, s': State) {
    && b in s.pc
    && s' == s.(pc := if s.pc[b].SleepDesc? then s.pc[b := Want(s.pc[b].write, s.pc[b].sector)] else WakeOne(s.pc, b))
  }

  ghost predicate Next(s: State, a: Action, s': State)
    requires Shape(s.d) && |s.used| == NUM
  {
    match a
    case Start(b, write, sector) => StartStep(s, b, write, sector, s')
    case Format(b, t) => FormatStep(s, b, t, s')
    case Fail(b) => FailStep(s, b, s')
    case Publish(b) => PublishStep(s, b, s')
    case Take => TakeStep(s, s')
    case Complete(h) => CompleteStep(s, h, s')
    case IntrStart => s.lock == Unlocked && s' == s.(lock := Intr)
    case IntrOne => IntrStep(s, s')
    case IntrEnd => s.lock == Intr && s.seen == s.usedIdx && s' == s.(lock := Unlocked)
    case Check(b) => CheckStep(s, b, s')
    case Finish(b) => FinishStep(s, b, s')
    case Kill(b) => KillStep(s, b, s')
  }

  ghost predicate Init(s: State) {
    && Shape(s.d) && |s.used| == NUM && (forall i | 0 <= i < NUM :: s.d.free[i]) && s.d.availIdx == 0
    && s.lock == Unlocked && s.pc == map[] && s.busy == {} && s.usedIdx == 0 && s.devSeen == 0 && s.inflight == {} && s.seen == 0
    && s.live == map[] && s.own == map[] && s.n == Counts(0, 0, 0, 0)
    && s.sent == multiset{} && s.done == multiset{} && s.ended == multiset{}
  }

  // ---------- the invariant ----------

  /** The 16-bit indices are the counters, wrapped. */
  ghost predicate Indices(n: Counts, availIdx: nat, devSeen: nat, usedIdx: nat, seen: nat) {
    && n.reas <= n.coms && n.taks <= n.subs
    && availIdx == n.subs % WRAP && devSeen == n.taks % WRAP && usedIdx == n.coms % WRAP && seen == n.reas % WRAP
  }

  /** The live chains are disjoint triples; together with the free descriptors they are all of them. */
  ghost predicate Owners(free: seq<bool>, own: map<nat, nat>, live: map<nat, Req>) {
    && |free| == NUM && (forall i {:trigger free[i]} | 0 <= i < NUM :: free[i] <==> i !in own)
    && Chains(own, live)
  }

  ghost predicate Chains(own: map<nat, nat>, live: map<nat, Req>) {
    && (forall i {:trigger own[i]} | i in own :: i < NUM && own[i] in live && InTriple(i, live[own[i]].t))
    && (forall h {:trigger OwnsChain(own, h, live[h].t)} | h in live :: OwnsChain(own, h, live[h].t))
  }

  ghost predicate InTriple(i: nat, t: Triple) {
    i == t.i0 || i == t.i1 || i == t.i2
  }

  ghost predicate OwnsChain(own: map<nat, nat>, h: nat, t: Triple) {
    && t.i0 == h && Apart(t)
    && t.i0 in own && own[t.i0] == h && t.i1 in own && own[t.i1] == h && t.i2 in own && own[t.i2] == h
  }

  /** The descriptors and entries of a live chain are as they were formatted, and tell the device its buffer and sector. */
  ghost predicate Intact(desc: seq<Desc>, ops: seq<Request>, info: seq<Info>, r: Req) {
    && |desc| == NUM && |ops| == NUM && |info| == NUM && Apart(r.t)
    && desc[r.t.i0] == Desc(Op(r.t.i0), 16, false, true, r.t.i1)
    && desc[r.t.i1] == Desc(Data(r.b), BSIZE, !r.write, true, r.t.i2)
    && desc[r.t.i2] == Desc(Status(r.t.i0), 1, true, false, 0)
    && ops[r.t.i0] == Request(r.write, r.sector)
    && info[r.t.i0].b == Some(r.b)
  }

  ghost predicate AllIntact(desc: seq<Desc>, ops: seq<Request>, info: seq<Info>, live: map<nat, Req>) {
    forall h {:trigger Intact(desc, ops, info, live[h])} | h in live :: Intact(desc, ops, info, live[h])
  }

  /** The buffer's request is at this chain, and waits for it exactly as long as b->disk is set. */
  ghost predicate Waits(pc: map<Buf, Pc>, busy: set<Buf>, r: Req) {
    && r.b in pc
    && (if r.stage == Formatted then pc[r.b] == Filled(r.t) else pc[r.b] == Asleep(r.t) || pc[r.b] == Awake(r.t))
    && (r.b in busy <==> r.stage != Reaped)
    && (r.stage == Reaped ==> pc[r.b] == Awake(r.t))
  }

  ghost predicate AllWait(pc: map<Buf, Pc>, busy: set<Buf>, live: map<nat, Req>) {
    forall h {:trigger Waits(pc, busy, live[h])} | h in live :: Waits(pc, busy, live[h])
  }

  /** Each chain is where its stage says. */
  ghost predicate Placed(avail: seq<nat>, used: seq<nat>, info: seq<Info>, inflight: set<nat>, n: Counts, h: nat, stage: Stage) {
    && |avail| == NUM && |used| == NUM && |info| == NUM && h < NUM
    && match stage
       case Formatted => avail[n.subs % NUM] == h
       case InAvail(k) => n.taks <= k < n.subs && avail[k % NUM] == h
       case Taken => h in inflight
       case InUsed(k) => n.reas <= k < n.coms && used[k % NUM] == h && info[h].status == 0
       case Reaped => true
  }

  ghost predicate AllPlaced(avail: seq<nat>, used: seq<nat>, info: seq<Info>, inflight: set<nat>, n: Counts, live: map<nat, Req>) {
    forall h {:trigger Placed(avail, used, info, inflight, n, h, live[h].stage)} | h in live ::
      Placed(avail, used, info, inflight, n, h, live[h].stage)
  }

  /** What the ring slots in use hold, and what the device holds. */
  ghost predicate Rings(avail: seq<nat>, used: seq<nat>, inflight: set<nat>, n: Counts, live: map<nat, Req>) {
    && |avail| == NUM && |used| == NUM && n.taks == n.coms + |inflight|
    && (forall k {:trigger InAvail(k)} | n.taks <= k < n.subs :: AtStage(live, avail[k % NUM], InAvail(k)))
    && (forall k {:trigger InUsed(k)} | n.reas <= k < n.coms :: AtStage(live, used[k % NUM], InUsed(k)))
    && (forall h | h in inflight :: AtStage(live, h, Taken))
  }

  ghost predicate AtStage(live: map<nat, Req>, h: nat, stage: Stage) {
    h in live && live[h].stage == stage
  }

  /** A request with a chain is live; one asleep on free[0] could not have a chain; the holder of the lock is formatting. */
  ghost predicate Requests(free: seq<bool>, pc: map<Buf, Pc>, lock: Lock, live: map<nat, Req>) {
    && |free| == NUM
    && (forall b {:trigger ItsChain(live, b, pc[b].t)} | b in pc && HasChain(pc[b]) :: ItsChain(live, b, pc[b].t))
    && (forall b {:trigger pc[b].SleepDesc?} | b in pc && pc[b].SleepDesc? :: Three(free) == None)
    && (forall b {:trigger pc[b].Filled?} | b in pc :: pc[b].Filled? <==> lock == By(b))
    && (lock.By? ==> lock.b in pc)
  }

  ghost predicate ItsChain(live: map<nat, Req>, b: Buf, t: Triple) {
    t.i0 in live && live[t.i0].b == b && live[t.i0].t == t
  }

  predicate HasChain(pc: Pc) {
    pc.Filled? || pc.Asleep? || pc.Awake?
  }

  /** Every announcement is completed to its own buffer once, and every completion is returned once. */
  ghost predicate Tally(pc: map<Buf, Pc>, busy: set<Buf>, sent: multiset<Buf>, done: multiset<Buf>, ended: multiset<Buf>) {
    forall b {:trigger ended[b]} ::
      && sent[b] == ended[b] + (if Waiting(pc, b) then 1 else 0)
      && done[b] == ended[b] + (if Waiting(pc, b) && b !in busy then 1 else 0)
  }

  predicate Waiting(pc: map<Buf, Pc>, b: Buf) {
    b in pc && (pc[b].Asleep? || pc[b].Awake?)
  }

  ghost predicate Inv(s: State) {
    && Shape(s.d)
    && Indices(s.n, s.d.availIdx, s.devSeen, s.usedIdx, s.seen)
    && Owners(s.d.free, s.own, s.live)
    && AllIntact(s.d.desc, s.d.ops, s.d.info, s.live)
    && AllWait(s.pc, s.busy, s.live)
    && AllPlaced(s.d.avail, s.used, s.d.info, s.inflight, s.n, s.live)
    && Rings(s.d.avail, s.used, s.inflight, s.n, s.live)
    && Requests(s.d.free, s.pc, s.lock, s.live)
    && Tally(s.pc, s.busy, s.sent, s.done, s.ended)
  }

  lemma InitInv(s: State)
    requires Init(s)
    ensures Inv(s)
  {
  }

  // ---------- at most two chains, and so no ring overflows ----------

  ghost function Below(n: nat): (r: set<nat>)
    ensures |r| == n && forall i :: i in r <==> 0 <= i < n
  {
    if n == 0 then {} else Below(n - 1) + {n - 1}
  }

  ghost function OwnedBy(own: map<nat, nat>, heads: set<nat>): (r: set<nat>) {
    set i | i in own && own[i] in heads
  }

  lemma OneMore(own: map<nat, nat>, live: map<nat, Req>, rest: set<nat>, h: nat)
    requires Chains(own, live) && h in live && h !in rest
    ensures OwnedBy(own, rest + {h}) == OwnedBy(own, rest) + {live[h].t.i0, live[h].t.i1, live[h].t.i2}
    ensures OwnedBy(own, rest) !! {live[h].t.i0, live[h].t.i1, live[h].t.i2}
    ensures |OwnedBy(own, rest + {h})| == |OwnedBy(own, rest)| + 3
  {
    var t := live[h].t;
    assert OwnsChain(own, h, t);
    ThreeOf(t);
    forall i | i in OwnedBy(own, rest + {h}) && i !in OwnedBy(own, rest)
      ensures InTriple(i, t)
    {
      assert own[i] == h;
    }
  }

  lemma {:induction false} TriplesOf(own: map<nat, nat>, live: map<nat, Req>, heads: set<nat>)
    requires Chains(own, live) && heads <= live.Keys
    ensures |OwnedBy(own, heads)| == 3 * |heads|
  {
    if heads == {} {
      assert OwnedBy(own, heads) == {};
    } else {
      var h :| h in heads;
      var rest := heads - {h};
      TriplesOf(own, live, rest);
      OneMore(own, live, rest, h);
      assert rest + {h} == heads;
    }
  }

  lemma ThreeOf(t: Triple)
    requires Apart(t)
    ensures |{t.i0, t.i1, t.i2}| == 3
  {
  }

  lemma AtMostTwo(free: seq<bool>, own: map<nat, nat>, live: map<nat, Req>)
    requires Owners(free, own, live)
    ensures |live| <= 2 && |FreeSet(free)| == NUM - 3 * |live|
  {
    TriplesOf(own, live, live.Keys);
    assert OwnedBy(own, live.Keys) == own.Keys;
    FreeAndOwned(free, own, NUM);
    assert |live| == |live.Keys|;
  }

  lemma FreeAndOwned(free: seq<bool>, own: map<nat, nat>, n: nat)
    requires |free| == n && (forall i {:trigger free[i]} | 0 <= i < n :: free[i] <==> i !in own)
    requires forall i | i in own :: i < n
    ensures |FreeSet(free)| + |own.Keys| == n
  {
    var f, o := FreeSet(free), own.Keys;
    assert f + o == Below(n) && f !! o;
    assert |f + o| == |f| + |o|;
  }

  /** Ring entries in use belong to different live chains. */
  lemma {:induction false} Distinct(live: map<nat, Req>, ring: seq<nat>, lo: nat, n: nat, used: bool) returns (heads: set<nat>)
    requires |ring| == NUM
    requires forall k {:trigger InUsed(k)} | lo <= k < lo + n && used :: AtStage(live, ring[k % NUM], InUsed(k))
    requires forall k {:trigger InAvail(k)} | lo <= k < lo + n && !used :: AtStage(live, ring[k % NUM], InAvail(k))
    ensures |heads| == n && heads <= live.Keys
    ensures forall h | h in heads :: exists k :: lo <= k < lo + n && live[h].stage == if used then InUsed(k) else InAvail(k)
  {
    if n == 0 {
      heads := {};
    } else {
      var rest := Distinct(live, ring, lo, n - 1, used);
      var last := lo + n - 1;
      assert AtStage(live, ring[last % NUM], if used then InUsed(last) else InAvail(last));
      heads := rest + {ring[last % NUM]};
    }
  }

  lemma Windows(s: State)
    requires Inv(s)
    ensures s.n.subs - s.n.taks <= |s.live| <= 2 && s.n.coms - s.n.reas <= |s.live|
  {
    AtMostTwo(s.d.free, s.own, s.live);
    var a := Distinct(s.live, s.d.avail, s.n.taks, s.n.subs - s.n.taks, false);
    SubsetSize(a, s.live.Keys);
    var b := Distinct(s.live, s.used, s.n.reas, s.n.coms - s.n.reas, true);
    SubsetSize(b, s.live.Keys);
  }

  // ---------- every step keeps the invariant ----------

  lemma StartKeeps(s: State, b: Buf, write: bool, sector: nat, s': State)
    requires Inv(s) && StartStep(s, b, write, sector, s')
    ensures Inv(s')
  {
    forall h | h in s.live
      ensures Waits(s'.pc, s.busy, s.live[h])
    {
      assert Waits(s.pc, s.busy, s.live[h]);
    }
    StartRequests(s.d.free, s.pc, s.lock, s.live, b, s'.pc[b]);
  }

  lemma StartRequests(free: seq<bool>, pc: map<Buf, Pc>, lock: Lock, live: map<nat, Req>, b: Buf, p: Pc)
    requires Requests(free, pc, lock, live) && b !in pc && p.Want?
    ensures Requests(free, pc[b := p], lock, live)
  {
  }

  /** How a request may move without its chain changing: between wanting and sleeping on free[0], which takes a lack of
      descriptors, and between sleeping on its buffer, which takes b->disk, and being awake. */
  ghost predicate Moves(p: Pc, p': Pc, busy: bool, none: bool) {
    || p' == p
    || ((p.Want? || p.SleepDesc?) && (p'.Want? || (p'.SleepDesc? && none)))
    || ((p.Asleep? || p.Awake?) && (p' == Awake(p.t) || (p' == Asleep(p.t) && busy)))
  }

  ghost predicate AllMove(free: seq<bool>, pc: map<Buf, Pc>, busy: set<Buf>, pc': map<Buf, Pc>) {
    && |free| == NUM && pc'.Keys == pc.Keys
    && forall b {:trigger pc'[b]} | b in pc :: Moves(pc[b], pc'[b], b in busy, Three(free) == None)
  }

  lemma MoveWaits(free: seq<bool>, pc: map<Buf, Pc>, busy: set<Buf>, pc': map<Buf, Pc>, live: map<nat, Req>)
    requires AllMove(free, pc, busy, pc') && AllWait(pc, busy, live)
    ensures AllWait(pc', busy, live)
  {
    forall h | h in live
      ensures Waits(pc', busy, live[h])
    {
      assert Waits(pc, busy, live[h]);
    }
  }

  lemma MoveRequests(free: seq<bool>, pc: map<Buf, Pc>, busy: set<Buf>, pc': map<Buf, Pc>, lock: Lock, live: map<nat, Req>)
    requires AllMove(free, pc, busy, pc') && Requests(free, pc, lock, live)
    ensures Requests(free, pc', lock, live)
  {
  }

  lemma MoveTally(free: seq<bool>, pc: map<Buf, Pc>, busy: set<Buf>, pc': map<Buf, Pc>, sent: multiset<Buf>, done: multiset<Buf>,
                  ended: multiset<Buf>)
    requires AllMove(free, pc, busy, pc') && Tally(pc, busy, sent, done, ended)
    ensures Tally(pc', busy, sent, done, ended)
  {
  }

  lemma MoveKeeps(s: State, s': State)
    requires Inv(s) && s' == s.(pc := s'.pc) && AllMove(s.d.free, s.pc, s.busy, s'.pc)
    ensures Inv(s')
  {
    MoveWaits(s.d.free, s.pc, s.busy, s'.pc, s.live);
    MoveRequests(s.d.free, s.pc, s.busy, s'.pc, s.lock, s.live);
    MoveTally(s.d.free, s.pc, s.busy, s'.pc, s.sent, s.done, s.ended);
  }

  lemma CheckKeeps(s: State, b: Buf, s': State)
    requires Inv(s) && CheckStep(s, b, s')
    ensures Inv(s')
  {
    MoveKeeps(s, s');
  }

  lemma KillKeeps(s: State, b: Buf, s': State)
    requires Inv(s) && KillStep(s, b, s')
    ensures Inv(s')
  {
    MoveKeeps(s, s');
  }

  lemma FailKeeps(s: State, b: Buf, s': State)
    requires Inv(s) && FailStep(s, b, s')
    ensures Inv(s')
  {
    MoveKeeps(s, s.(pc := s'.pc));
    RestoredIntact(s.d, s'.d, s.own, s.live);
  }

  /** Only free descriptors change, so no chain does. */
  lemma RestoredIntact(d: Driver, d': Driver, own: map<nat, nat>, live: map<nat, Req>)
    requires Shape(d) && Shape(d') && Restored(d, d') && Owners(d.free, own, live) && AllIntact(d.desc, d.ops, d.info, live)
    ensures AllIntact(d'.desc, d'.ops, d'.info, live)
  {
    forall h | h in live
      ensures Intact(d'.desc, d'.ops, d'.info, live[h])
    {
      assert Intact(d.desc, d.ops, d.info, live[h]) && OwnsChain(own, h, live[h].t);
    }
  }

  // ---------- steps that move a chain on ----------

  /** Chains only changed stage. */
  ghost predicate SameChains(live: map<nat, Req>, live': map<nat, Req>) {
    && live'.Keys == live.Keys
    && forall h {:trigger live'[h]} | h in live :: live'[h] == live[h].(stage := live'[h].stage)
  }

  lemma StageOwners(free: seq<bool>, own: map<nat, nat>, live: map<nat, Req>, live': map<nat, Req>)
    requires Owners(free, own, live) && SameChains(live, live')
    ensures Owners(free, own, live')
  {
  }

  lemma StageIntact(d: Driver, live: map<nat, Req>, d': Driver, live': map<nat, Req>)
    requires Shape(d) && Shape(d') && AllIntact(d.desc, d.ops, d.info, live) && SameChains(live, live')
    requires d'.desc == d.desc && d'.ops == d.ops && forall i | 0 <= i < NUM :: d'.info[i].b == d.info[i].b
    ensures AllIntact(d'.desc, d'.ops, d'.info, live')
  {
    forall h | h in live'
      ensures Intact(d'.desc, d'.ops, d'.info, live'[h])
    {
      assert Intact(d.desc, d.ops, d.info, live[h]);
    }
  }

  lemma StageRequests(free: seq<bool>, pc: map<Buf, Pc>, lock: Lock, live: map<nat, Req>, live': map<nat, Req>)
    requires Requests(free, pc, lock, live) && SameChains(live, live')
    ensures Requests(free, pc, lock, live')
  {
    forall b | b in pc && HasChain(pc[b])
      ensures ItsChain(live', b, pc[b].t)
    {
      assert ItsChain(live, b, pc[b].t);
    }
  }

  lemma WrapSame(lo: nat, hi: nat)
    requires lo <= hi < lo + WRAP
    ensures lo % WRAP == hi % WRAP <==> lo == hi
  {
  }

  lemma StageChange(s: State, h: nat, stage: Stage, s': State)
    requires Inv(s) && Shape(s'.d) && s'.live == SetStage(s.live, h, stage) && s'.own == s.own
    requires s'.d.free == s.d.free && s'.d.desc == s.d.desc && s'.d.ops == s.d.ops
    requires forall i | 0 <= i < NUM :: s'.d.info[i].b == s.d.info[i].b
    ensures Owners(s'.d.free, s'.own, s'.live) && AllIntact(s'.d.desc, s'.d.ops, s'.d.info, s'.live)
    ensures Requests(s.d.free, s.pc, s.lock, s'.live)
  {
    StageOwners(s.d.free, s.own, s.live, s'.live);
    StageIntact(s.d, s.live, s'.d, s'.live);
    StageRequests(s.d.free, s.pc, s.lock, s.live, s'.live);
  }

  lemma TakeKeeps(s: State, s': State)
    requires Inv(s) && TakeStep(s, s')
    ensures Inv(s')
  {
    var h, n := s.d.avail[s.devSeen % NUM], s.n;
    WrapSlot(n.taks, WRAP, NUM);
    WrapNext(n.taks, WRAP);
    assert AtStage(s.live, h, InAvail(n.taks));
    StageChange(s, h, Taken, s');
    TakePlaces(s.d.avail, s.used, s.d.info, s.inflight, n, s.live, h, s'.n, s'.live);
    TakeRings(s.d.avail, s.used, s.inflight, n, s.live, h, s'.n, s'.live);
    StageWaits(s.pc, s.busy, s.live, h, Taken, s'.live);
  }

  lemma StageWaits(pc: map<Buf, Pc>, busy: set<Buf>, live: map<nat, Req>, h: nat, stage: Stage, live': map<nat, Req>)
    requires AllWait(pc, busy, live) && h in live && live' == SetStage(live, h, stage)
    requires stage != Reaped && stage != Formatted && live[h].stage != Reaped && live[h].stage != Formatted
    ensures AllWait(pc, busy, live')
  {
    forall x | x in live'
      ensures Waits(pc, busy, live'[x])
    {
      assert Waits(pc, busy, live[x]);
    }
  }

  lemma TakePlaces(avail: seq<nat>, used: seq<nat>, info: seq<Info>, inflight: set<nat>, n: Counts, live: map<nat, Req>,
                   h: nat, n': Counts, live': map<nat, Req>)
    requires AllPlaced(avail, used, info, inflight, n, live) && AtStage(live, h, InAvail(n.taks))
    requires n' == n.(taks := n.taks + 1) && live' == SetStage(live, h, Taken)
    ensures AllPlaced(avail, used, info, inflight + {h}, n', live')
  {
    assert Placed(avail, used, info, inflight, n, h, live[h].stage);
    forall x | x in live'
      ensures Placed(avail, used, info, inflight + {h}, n', x, live'[x].stage)
    {
      assert Placed(avail, used, info, inflight, n, x, live[x].stage);
    }
  }

  lemma TakeRings(avail: seq<nat>, used: seq<nat>, inflight: set<nat>, n: Counts, live: map<nat, Req>,
                  h: nat, n': Counts, live': map<nat, Req>)
    requires Rings(avail, used, inflight, n, live) && AtStage(live, h, InAvail(n.taks))
    requires n' == n.(taks := n.taks + 1) && live' == SetStage(live, h, Taken)
    ensures Rings(avail, used, inflight + {h}, n', live')
  {
  }

  // ---------- announcing ----------

  /** At most one chain is formatted and unannounced: that of the holder of the lock. */
  lemma OnlyFormatted(s: State, h: nat)
    requires Inv(s) && h in s.live && s.live[h].stage == Formatted
    ensures s.lock.By? && s.lock.b in s.pc && s.pc[s.lock.b] == Filled(s.live[h].t) && s.live[h].b == s.lock.b && h == s.live[h].t.i0
  {
    assert Waits(s.pc, s.busy, s.live[h]) && OwnsChain(s.own, h, s.live[h].t);
    assert s.pc[s.live[h].b].Filled?;
  }

  lemma PublishKeeps(s: State, b: Buf, s': State)
    requires Inv(s) && PublishStep(s, b, s')
    ensures Inv(s')
  {
    var t := s.pc[b].t;
    var h := t.i0;
    assert HasChain(s.pc[b]) && ItsChain(s.live, b, t);
    assert Waits(s.pc, s.busy, s.live[h]);
    WrapNext(s.n.subs, WRAP);
    StageChange(s, h, InAvail(s.n.subs), s');
    PublishWaits(s, b, h, s');
    PublishRequests(s, b, h, s');
    PublishPlaces(s, b, h, s');
    PublishRings(s, h, s');
    PublishTally(s.pc, s.busy, s.sent, s.done, s.ended, b, t);
  }

  lemma PublishWaits(s: State, b: Buf, h: nat, s': State)
    requires Inv(s) && PublishStep(s, b, s') && h == s.pc[b].t.i0 && AtStage(s.live, h, Formatted) && s.live[h].b == b
    requires s.live[h].t == s.pc[b].t
    ensures AllWait(s'.pc, s'.busy, s'.live)
  {
    forall x | x in s'.live
      ensures Waits(s'.pc, s'.busy, s'.live[x])
    {
      assert Waits(s.pc, s.busy, s.live[x]) && Waits(s.pc, s.busy, s.live[h]);
      assert OwnsChain(s.own, x, s.live[x].t);
    }
  }

  lemma PublishRequests(s: State, b: Buf, h: nat, s': State)
    requires PublishStep(s, b, s') && Requests(s.d.free, s.pc, s.lock, s'.live)
    ensures Requests(s'.d.free, s'.pc, s'.lock, s'.live)
  {
  }

  lemma PublishPlaces(s: State, b: Buf, h: nat, s': State)
    requires Inv(s) && PublishStep(s, b, s') && h == s.pc[b].t.i0 && AtStage(s.live, h, Formatted) && s.live[h].t == s.pc[b].t
    ensures AllPlaced(s'.d.avail, s'.used, s'.d.info, s'.inflight, s'.n, s'.live)
  {
    forall x | x in s'.live
      ensures Placed(s'.d.avail, s'.used, s'.d.info, s'.inflight, s'.n, x, s'.live[x].stage)
    {
      assert Placed(s.d.avail, s.used, s.d.info, s.inflight, s.n, x, s.live[x].stage);
      if s.live[x].stage == Formatted {
        OnlyFormatted(s, x);
      }
    }
  }

  lemma PublishRings(s: State, h: nat, s': State)
    requires Inv(s) && AtStage(s.live, h, Formatted) && s'.live == SetStage(s.live, h, InAvail(s.n.subs))
    requires s'.d.avail == s.d.avail && s'.used == s.used && s'.inflight == s.inflight && s'.n == s.n.(subs := s.n.subs + 1)
    ensures Rings(s'.d.avail, s'.used, s'.inflight, s'.n, s'.live)
  {
    assert Placed(s.d.avail, s.used, s.d.info, s.inflight, s.n, h, s.live[h].stage);
  }

  lemma PublishTally(pc: map<Buf, Pc>, busy: set<Buf>, sent: multiset<Buf>, done: multiset<Buf>, ended: multiset<Buf>, b: Buf,
                     t: Triple)
    requires Tally(pc, busy, sent, done, ended) && b in pc && pc[b].Filled? && b in busy
    ensures Tally(pc[b := Asleep(t)], busy, sent + multiset{b}, done, ended)
  {
  }

  // ---------- completing ----------

  /** The device finds in the chain it was given the buffer, the sector and the place for the status that the request
      with this head was formatted with. */
  lemma DeviceSees(s: State, h: nat)
    requires Inv(s) && h in s.inflight
    ensures h in s.live && s.live[h].stage == Taken
    ensures Intact(s.d.desc, s.d.ops, s.d.info, s.live[h]) && s.live[h].t.i0 == h
    ensures WithStatus(s.d, h) == s.d.(info := s.d.info[h := s.d.info[h].(status := 0)])
  {
    assert AtStage(s.live, h, Taken);
    assert Intact(s.d.desc, s.d.ops, s.d.info, s.live[h]) && OwnsChain(s.own, h, s.live[h].t);
  }

  lemma CompleteKeeps(s: State, h: nat, s': State)
    requires Inv(s) && CompleteStep(s, h, s')
    ensures Inv(s')
  {
    DeviceSees(s, h);
    Windows(s);
    WrapNext(s.n.coms, WRAP);
    WrapSlot(s.n.coms, WRAP, NUM);
    StageChange(s, h, InUsed(s.n.coms), s');
    StageWaits(s.pc, s.busy, s.live, h, InUsed(s.n.coms), s'.live);
    CompletePlaces(s.d.avail, s.used, s.d.info, s.inflight, s.n, s.live, h, s'.used, s'.d.info, s'.n, s'.live);
    CompleteRings(s.d.avail, s.used, s.inflight, s.n, s.live, h, s'.used, s'.n, s'.live);
  }

  lemma CompletePlaces(avail: seq<nat>, used: seq<nat>, info: seq<Info>, inflight: set<nat>, n: Counts, live: map<nat, Req>,
                       h: nat, used': seq<nat>, info': seq<Info>, n': Counts, live': map<nat, Req>)
    requires AllPlaced(avail, used, info, inflight, n, live) && AtStage(live, h, Taken) && h < |info| && |used| == NUM
    requires n' == n.(coms := n.coms + 1) && live' == SetStage(live, h, InUsed(n.coms)) && n.reas <= n.coms < n.reas + NUM
    requires used' == used[n.coms % NUM := h] && info' == info[h := info[h].(status := 0)]
    ensures AllPlaced(avail, used', info', inflight - {h}, n', live')
  {
    forall x | x in live'
      ensures Placed(avail, used', info', inflight - {h}, n', x, live'[x].stage)
    {
      assert Placed(avail, used, info, inflight, n, x, live[x].stage);
      if live[x].stage.InUsed? {
        SlotApart(live[x].stage.k, n.coms, NUM);
      }
    }
  }

  lemma CompleteRings(avail: seq<nat>, used: seq<nat>, inflight: set<nat>, n: Counts, live: map<nat, Req>,
                      h: nat, used': seq<nat>, n': Counts, live': map<nat, Req>)
    requires Rings(avail, used, inflight, n, live) && AtStage(live, h, Taken) && h in inflight
    requires n' == n.(coms := n.coms + 1) && live' == SetStage(live, h, InUsed(n.coms)) && n.reas <= n.coms < n.reas + NUM
    requires used' == used[n.coms % NUM := h]
    ensures Rings(avail, used', inflight - {h}, n', live')
  {
    forall k | n'.reas <= k < n'.coms
      ensures AtStage(live', used'[k % NUM], InUsed(k))
    {
      if k < n.coms {
        SlotApart(k, n.coms, NUM);
        assert AtStage(live, used[k % NUM], InUsed(k));
      }
    }
  }

  // ---------- the interrupt handler ----------

  /** virtio_disk_intr() never panics: the entry it reads is the chain at the oldest unseen completion. */
  lemma IntrReads(s: State)
    requires Inv(s) && s.seen != s.usedIdx
    ensures NextUsedIsGood(s) && AtStage(s.live, NextUsed(s), InUsed(s.n.reas)) && s.live[NextUsed(s)].t.i0 == NextUsed(s)
    ensures s.d.info[NextUsed(s)].b == Some(s.live[NextUsed(s)].b)
  {
    WrapSlot(s.n.reas, WRAP, NUM);
    var h := NextUsed(s);
    assert AtStage(s.live, h, InUsed(s.n.reas));
    assert Placed(s.d.avail, s.used, s.d.info, s.inflight, s.n, h, s.live[h].stage);
    assert Intact(s.d.desc, s.d.ops, s.d.info, s.live[h]) && OwnsChain(s.own, h, s.live[h].t);
  }

  /** Two live chains never serve one buffer. */
  lemma OneChainEach(pc: map<Buf, Pc>, busy: set<Buf>, own: map<nat, nat>, live: map<nat, Req>, h: nat, x: nat)
    requires AllWait(pc, busy, live) && Chains(own, live) && h in live && x in live && live[h].b == live[x].b
    ensures h == x
  {
    assert Waits(pc, busy, live[h]) && Waits(pc, busy, live[x]);
    assert OwnsChain(own, h, live[h].t) && OwnsChain(own, x, live[x].t);
  }

  lemma IntrKeeps(s: State, s': State)
    requires Inv(s) && IntrStep(s, s')
    ensures Inv(s')
  {
    IntrReads(s);
    WrapNext(s.n.reas, WRAP);
    var h := NextUsed(s);
    var b := s.live[h].b;
    assert Waits(s.pc, s.busy, s.live[h]);
    StageChange(s, h, Reaped, s');
    IntrWaits(s.pc, s.busy, s.own, s.live, h, s'.pc, s'.live);
    MoveRequests(s.d.free, s.pc, s.busy, s'.pc, s.lock, s'.live);
    IntrPlaces(s.d.avail, s.used, s.d.info, s.inflight, s.n, s.live, h, s'.n, s'.live);
    IntrRings(s.d.avail, s.used, s.inflight, s.n, s.live, h, s'.n, s'.live);
    IntrTally(s.pc, s.busy, s.sent, s.done, s.ended, b, s'.pc);
  }

  lemma IntrWaits(pc: map<Buf, Pc>, busy: set<Buf>, own: map<nat, nat>, live: map<nat, Req>, h: nat, pc': map<Buf, Pc>,
                  live': map<nat, Req>)
    requires AllWait(pc, busy, live) && Chains(own, live) && h in live && live[h].stage.InUsed?
    requires pc' == WakeOne(pc, live[h].b) && live' == SetStage(live, h, Reaped)
    ensures AllWait(pc', busy - {live[h].b}, live')
  {
    forall x | x in live'
      ensures Waits(pc', busy - {live[h].b}, live'[x])
    {
      assert Waits(pc, busy, live[x]);
      if live[x].b == live[h].b {
        OneChainEach(pc, busy, own, live, h, x);
      }
    }
  }

  lemma IntrPlaces(avail: seq<nat>, used: seq<nat>, info: seq<Info>, inflight: set<nat>, n: Counts, live: map<nat, Req>,
                   h: nat, n': Counts, live': map<nat, Req>)
    requires AllPlaced(avail, used, info, inflight, n, live) && AtStage(live, h, InUsed(n.reas))
    requires n' == n.(reas := n.reas + 1) && live' == SetStage(live, h, Reaped)
    ensures AllPlaced(avail, used, info, inflight, n', live')
  {
    assert Placed(avail, used, info, inflight, n, h, live[h].stage);
    forall x | x in live'
      ensures Placed(avail, used, info, inflight, n', x, live'[x].stage)
    {
      assert Placed(avail, used, info, inflight, n, x, live[x].stage);
    }
  }

  lemma IntrRings(avail: seq<nat>, used: seq<nat>, inflight: set<nat>, n: Counts, live: map<nat, Req>,
                  h: nat, n': Counts, live': map<nat, Req>)
    requires Rings(avail, used, inflight, n, live) && AtStage(live, h, InUsed(n.reas))
    requires n' == n.(reas := n.reas + 1) && live' == SetStage(live, h, Reaped)
    ensures Rings(avail, used, inflight, n', live')
  {
  }

  lemma IntrTally(pc: map<Buf, Pc>, busy: set<Buf>, sent: multiset<Buf>, done: multiset<Buf>, ended: multiset<Buf>, b: Buf,
                  pc': map<Buf, Pc>)
    requires Tally(pc, busy, sent, done, ended) && Waiting(pc, b) && b in busy && pc' == WakeOne(pc, b)
    ensures Tally(pc', busy - {b}, sent, done + multiset{b}, ended)
  {
  }

  // ---------- taking and freeing descriptors ----------

  lemma FormatKeeps(s: State, b: Buf, t: Triple, s': State)
    requires Inv(s) && FormatStep(s, b, t, s')
    ensures Inv(s')
  {
    Windows(s);
    WrapSlot(s.n.subs, WRAP, NUM);
    FormatOwners(s, b, t, s');
    FormatIntact(s, b, t, s');
    FormatWaits(s, b, t, s');
    FormatPlaces(s, b, t, s');
    FormatRings(s, b, t, s');
    FormatRequests(s, b, t, s');
    FormatTally(s.pc, s.busy, s.sent, s.done, s.ended, b, t);
  }

  lemma FormatFresh(s: State, b: Buf, t: Triple, s': State)
    requires Shape(s.d) && Owners(s.d.free, s.own, s.live) && FormatStep(s, b, t, s')
    ensures t.i0 !in s.live
  {
    if t.i0 in s.live {
      var owns := OwnsChain(s.own, t.i0, s.live[t.i0].t);
      assert false;
    }
  }

  lemma FormatOwners(s: State, b: Buf, t: Triple, s': State)
    requires Shape(s.d) && Owners(s.d.free, s.own, s.live) && FormatStep(s, b, t, s')
    ensures Owners(s'.d.free, s'.own, s'.live) && t.i0 !in s.live
  {
    FormatFresh(s, b, t, s');
    forall h | h in s'.live
      ensures OwnsChain(s'.own, h, s'.live[h].t)
    {
      if h != t.i0 {
        assert OwnsChain(s.own, h, s.live[h].t);
      }
    }
  }

  lemma FormatIntact(s: State, b: Buf, t: Triple, s': State)
    requires Shape(s.d) && Owners(s.d.free, s.own, s.live) && AllIntact(s.d.desc, s.d.ops, s.d.info, s.live)
    requires FormatStep(s, b, t, s')
    ensures AllIntact(s'.d.desc, s'.d.ops, s'.d.info, s'.live)
  {
    forall h | h in s'.live
      ensures Intact(s'.d.desc, s'.d.ops, s'.d.info, s'.live[h])
    {
      if h != t.i0 {
        assert Intact(s.d.desc, s.d.ops, s.d.info, s.live[h]) && OwnsChain(s.own, h, s.live[h].t);
      }
    }
  }

  lemma FormatWaits(s: State, b: Buf, t: Triple, s': State)
    requires Shape(s.d) && AllWait(s.pc, s.busy, s.live) && FormatStep(s, b, t, s')
    ensures AllWait(s'.pc, s'.busy, s'.live)
  {
    forall h | h in s'.live
      ensures Waits(s'.pc, s'.busy, s'.live[h])
    {
      if h != t.i0 {
        assert Waits(s.pc, s.busy, s.live[h]);
      }
    }
  }

  lemma FormatPlaces(s: State, b: Buf, t: Triple, s': State)
    requires Inv(s) && FormatStep(s, b, t, s') && s.n.subs - s.n.taks < NUM && s.d.availIdx % NUM == s.n.subs % NUM
    ensures AllPlaced(s'.d.avail, s'.used, s'.d.info, s'.inflight, s'.n, s'.live)
  {
    forall h | h in s'.live
      ensures Placed(s'.d.avail, s'.used, s'.d.info, s'.inflight, s'.n, h, s'.live[h].stage)
    {
      if h != t.i0 {
        assert Placed(s.d.avail, s.used, s.d.info, s.inflight, s.n, h, s.live[h].stage);
        if s.live[h].stage.InAvail? {
          SlotApart(s.live[h].stage.k, s.n.subs, NUM);
        }
        if s.live[h].stage == Formatted {
          OnlyFormatted(s, h);
        }
      }
    }
  }

  lemma FormatRings(s: State, b: Buf, t: Triple, s': State)
    requires Shape(s.d) && Rings(s.d.avail, s.used, s.inflight, s.n, s.live) && FormatStep(s, b, t, s') && t.i0 !in s.live
    requires s.n.subs - s.n.taks < NUM && s.d.availIdx % NUM == s.n.subs % NUM
    ensures Rings(s'.d.avail, s'.used, s'.inflight, s'.n, s'.live)
  {
    forall k | s.n.taks <= k < s.n.subs
      ensures AtStage(s'.live, s'.d.avail[k % NUM], InAvail(k))
    {
      SlotApart(k, s.n.subs, NUM);
      assert AtStage(s.live, s.d.avail[k % NUM], InAvail(k));
    }
  }

  lemma FormatRequests(s: State, b: Buf, t: Triple, s': State)
    requires Shape(s.d) && Requests(s.d.free, s.pc, s.lock, s.live) && FormatStep(s, b, t, s') && t.i0 !in s.live
    ensures Requests(s'.d.free, s'.pc, s'.lock, s'.live)
  {
    forall c | c in s'.pc
      ensures HasChain(s'.pc[c]) ==> ItsChain(s'.live, c, s'.pc[c].t)
      ensures s'.pc[c].Filled? <==> c == b
      ensures !s'.pc[c].SleepDesc?
    {
      if c != b {
        assert HasChain(s.pc[c]) ==> ItsChain(s.live, c, s.pc[c].t);
        assert s.pc[c].Filled? <==> s.lock == By(c);
        assert !s.pc[c].SleepDesc?;
      }
    }
  }

  lemma FormatTally(pc: map<Buf, Pc>, busy: set<Buf>, sent: multiset<Buf>, done: multiset<Buf>, ended: multiset<Buf>, b: Buf,
                    t: Triple)
    requires Tally(pc, busy, sent, done, ended) && b in pc && pc[b].Want?
    ensures Tally(pc[b := Filled(t)], busy + {b}, sent, done, ended)
  {
  }

  /** free_chain() never panics: the chain of a finished request is the three descriptors it was given. */
  lemma ChainIsWhole(s: State, b: Buf)
    requires Inv(s) && b in s.pc && HasChain(s.pc[b])
    ensures ChainAt(s.d, s.pc[b].t) && ItsChain(s.live, b, s.pc[b].t) && OwnsChain(s.own, s.pc[b].t.i0, s.pc[b].t)
  {
    var t := s.pc[b].t;
    assert ItsChain(s.live, b, t);
    assert OwnsChain(s.own, t.i0, s.live[t.i0].t) && Intact(s.d.desc, s.d.ops, s.d.info, s.live[t.i0]);
  }

  lemma FinishKeeps(s: State, b: Buf, s': State)
    requires Inv(s) && FinishStep(s, b, s')
    ensures Inv(s')
  {
    ChainIsWhole(s, b);
    var t := s.pc[b].t;
    assert Waits(s.pc, s.busy, s.live[t.i0]);
    FinishOwners(s, b, t, s');
    FinishIntact(s, b, t, s');
    FinishWaits(s, b, t, s');
    FinishPlaces(s, b, t, s');
    assert Rings(s'.d.avail, s'.used, s'.inflight, s'.n, s'.live);
    FinishRequests(s, b, t, s');
    FinishTally(s.pc, s.busy, s.sent, s.done, s.ended, b, s'.pc);
  }

  lemma FinishOwners(s: State, b: Buf, t: Triple, s': State)
    requires Shape(s.d) && Owners(s.d.free, s.own, s.live) && FinishStep(s, b, s') && t == s.pc[b].t
    requires t.i0 in s.live && s.live[t.i0].t == t && OwnsChain(s.own, t.i0, t)
    ensures Owners(s'.d.free, s'.own, s'.live)
  {
    forall h | h in s'.live
      ensures OwnsChain(s'.own, h, s'.live[h].t)
    {
      assert OwnsChain(s.own, h, s.live[h].t);
    }
  }

  lemma FinishIntact(s: State, b: Buf, t: Triple, s': State)
    requires Shape(s.d) && Owners(s.d.free, s.own, s.live) && AllIntact(s.d.desc, s.d.ops, s.d.info, s.live)
    requires FinishStep(s, b, s') && t == s.pc[b].t && OwnsChain(s.own, t.i0, t)
    ensures AllIntact(s'.d.desc, s'.d.ops, s'.d.info, s'.live)
  {
    forall h | h in s'.live
      ensures Intact(s'.d.desc, s'.d.ops, s'.d.info, s'.live[h])
    {
      assert Intact(s.d.desc, s.d.ops, s.d.info, s.live[h]) && OwnsChain(s.own, h, s.live[h].t);
    }
  }

  lemma FinishWaits(s: State, b: Buf, t: Triple, s': State)
    requires Inv(s) && FinishStep(s, b, s') && t == s.pc[b].t && t.i0 in s.live && s.live[t.i0].b == b
    ensures AllWait(s'.pc, s'.busy, s'.live)
  {
    forall h | h in s'.live
      ensures Waits(s'.pc, s'.busy, s'.live[h])
    {
      assert Waits(s.pc, s.busy, s.live[h]);
      if s.live[h].b == b {
        OneChainEach(s.pc, s.busy, s.own, s.live, h, t.i0);
      }
    }
  }

  lemma FinishPlaces(s: State, b: Buf, t: Triple, s': State)
    requires Inv(s) && FinishStep(s, b, s')
    ensures AllPlaced(s'.d.avail, s'.used, s'.d.info, s'.inflight, s'.n, s'.live)
  {
    forall h | h in s'.live
      ensures Placed(s'.d.avail, s'.used, s'.d.info, s'.inflight, s'.n, h, s'.live[h].stage)
    {
      assert Placed(s.d.avail, s.used, s.d.info, s.inflight, s.n, h, s.live[h].stage);
    }
  }

  lemma FinishRequests(s: State, b: Buf, t: Triple, s': State)
    requires Shape(s.d) && Requests(s.d.free, s.pc, s.lock, s.live) && FinishStep(s, b, s') && t == s.pc[b].t
    requires t.i0 in s.live && s.live[t.i0].b == b
    ensures Requests(s'.d.free, s'.pc, s'.lock, s'.live)
  {
    forall c | c in s'.pc
      ensures HasChain(s'.pc[c]) ==> ItsChain(s'.live, c, s'.pc[c].t)
      ensures !s'.pc[c].Filled? && !s'.pc[c].SleepDesc?
    {
      assert HasChain(s.pc[c]) ==> ItsChain(s.live, c, s.pc[c].t);
      assert s.pc[c].Filled? <==> s.lock == By(c);
    }
  }

  lemma FinishTally(pc: map<Buf, Pc>, busy: set<Buf>, sent: multiset<Buf>, done: multiset<Buf>, ended: multiset<Buf>, b: Buf,
                    pc': map<Buf, Pc>)
    requires Tally(pc, busy, sent, done, ended) && Waiting(pc, b) && b !in busy && pc' == WakeAll(pc) - {b}
    ensures Tally(pc', busy, sent, done, ended + multiset{b})
  {
  }

  // ---------- every run ----------

  ghost predicate Step(s: State, a: Action, s': State) {
    Shape(s.d) && |s.used| == NUM && Next(s, a, s')
  }

  lemma StepKeeps(s: State, a: Action, s': State)
    requires Inv(s) && Step(s, a, s')
    ensures Inv(s')
  {
    match a
    case Start(b, write, sector) => StartKeeps(s, b, write, sector, s');
    case Format(b, t) => FormatKeeps(s, b, t, s');
    case Fail(b) => FailKeeps(s, b, s');
    case Publish(b) => PublishKeeps(s, b, s');
    case Take => TakeKeeps(s, s');
    case Complete(h) => CompleteKeeps(s, h, s');
    case IntrStart =>
    case IntrOne => IntrKeeps(s, s');
    case IntrEnd =>
    case Check(b) => CheckKeeps(s, b, s');
    case Finish(b) => FinishKeeps(s, b, s');
    case Kill(b) => KillKeeps(s, b, s');
  }

  ghost predicate Run(states: seq<State>, actions: seq<Action>) {
    && |states| == |actions| + 1 && Init(states[0])
    && forall i {:trigger actions[i]} | 0 <= i < |actions| :: Step(states[i], actions[i], states[i + 1])
  }

  lemma {:induction false} RunKeeps(states: seq<State>, actions: seq<Action>)
    requires Run(states, actions)
    ensures Inv(states[|actions|])
  {
    if actions == [] {
      InitInv(states[0]);
    } else {
      var n := |actions| - 1;
      assert forall i | 0 <= i < n :: actions[..n][i] == actions[i];
      RunKeeps(states[..n + 1], actions[..n]);
      StepKeeps(states[n], actions[n], states[n + 1]);
    }
  }

  ghost function TripleSet(t: Triple): (r: set<nat>) {
    {t.i0, t.i1, t.i2}
  }

  /** What holds at the end of every run, without reference to the invariant. */
  ghost predicate Safe(s: State) {
    && Shape(s.d) && |s.used| == NUM
    // live chains are disjoint triples that share out the descriptors with the free set, and at most two
    && (forall h, x | h in s.live && x in s.live && h != x :: TripleSet(s.live[h].t) !! TripleSet(s.live[x].t))
    && |s.live| <= 2 && |FreeSet(s.d.free)| + 3 * |s.live| == NUM
    // the wrapped indices tell exactly whether a ring holds anything
    && (s.devSeen == s.d.availIdx <==> s.n.taks == s.n.subs)
    && (s.seen == s.usedIdx <==> s.n.reas == s.n.coms)
    // a ring slot in use holds the head of the chain that was put there
    && (forall k | s.n.taks <= k < s.n.subs :: AtStage(s.live, s.d.avail[k % NUM], InAvail(k)))
    && (forall k | s.n.reas <= k < s.n.coms :: AtStage(s.live, s.used[k % NUM], InUsed(k)))
    // neither the interrupt handler nor free_chain() panics
    && (s.seen != s.usedIdx ==> NextUsedIsGood(s))
    && (forall b | b in s.pc && HasChain(s.pc[b]) :: ChainAt(s.d, s.pc[b].t))
    // who sleeps has a reason to
    && (forall b | b in s.pc && s.pc[b].SleepDesc? :: |FreeSet(s.d.free)| < 3 && |s.live| == 2)
    && (forall b | b in s.pc && s.pc[b].Asleep? :: b in s.busy)
    // each announced request is completed to its own buffer once, before it returns, and nothing else is
    && (forall b: Buf :: s.ended[b] <= s.done[b] <= s.sent[b] <= s.ended[b] + 1)
    && (forall b: Buf | !Waiting(s.pc, b) :: s.ended[b] == s.done[b] == s.sent[b])
  }

  lemma RunsAreSafe(states: seq<State>, actions: seq<Action>)
    requires Run(states, actions)
    ensures Safe(states[|actions|])
  {
    RunKeeps(states, actions);
    InvIsSafe(states[|actions|]);
  }

  lemma InvIsSafe(s: State)
    requires Inv(s)
    ensures Safe(s)
  {
    AtMostTwo(s.d.free, s.own, s.live);
    Windows(s);
    WrapSame(s.n.taks, s.n.subs);
    WrapSame(s.n.reas, s.n.coms);
    ThreeFree(s.d.free);
    if s.seen != s.usedIdx {
      IntrReads(s);
    }
    forall b | b in s.pc && HasChain(s.pc[b])
      ensures ChainAt(s.d, s.pc[b].t) && (s.pc[b].Asleep? ==> b in s.busy)
    {
      ChainIsWhole(s, b);
      assert Waits(s.pc, s.busy, s.live[s.pc[b].t.i0]);
    }
    forall h, x | h in s.live && x in s.live && h != x
      ensures TripleSet(s.live[h].t) !! TripleSet(s.live[x].t)
    {
      assert OwnsChain(s.own, h, s.live[h].t) && OwnsChain(s.own, x, s.live[x].t);
    }
    forall k | s.n.taks <= k < s.n.subs
      ensures AtStage(s.live, s.d.avail[k % NUM], InAvail(k))
    {
      var stage := InAvail(k);
    }
    forall k | s.n.reas <= k < s.n.coms
      ensures AtStage(s.live, s.used[k % NUM], InUsed(k))
    {
      var stage := InUsed(k);
    }
    forall b: Buf
      ensures s.ended[b] <= s.done[b] <= s.sent[b] <= s.ended[b] + 1
      ensures !Waiting(s.pc, b) ==> s.ended[b] == s.done[b] == s.sent[b]
    {
    }
  }
}
