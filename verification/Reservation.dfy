/** Log space reservation in kernel/fs/log.c: begin_op, log_write and end_op of any number of processes, interleaved at
    the critical sections under `logbuf.lock`, with the commit running outside it. */
module Reservation {
  import opened Collections
  import opened Params

  /** `used` maps each process inside an operation to the number of blocks it has appended to the log header. It is not
      kept by the kernel; the rest of the state is. */
  datatype State = State(lh: seq<nat>, outstanding: int, committing: bool, used: map<nat, nat>)

  /** begin_op past its wait loop, log_write, end_op up to its commit, and the two effects of that commit on the header:
      emptied, then `committing` cleared. */
  datatype Step = Begin(p: nat) | Write(p: nat, b: nat) | End(p: nat) | Empty | Done

  const Initial := State([], 0, false, map[])

  /** The test in begin_op's loop; a process that fails it sleeps. */
  predicate MayBegin(n: nat, outstanding: int, committing: bool) {
    !committing && n + (outstanding + 1) * MAXOPBLOCKS <= LOGBLOCKS
  }

  predicate WritePanics(n: nat, outstanding: int) {
    n >= LOGBLOCKS || outstanding < 1
  }

  /** A process takes a step only where its code is. */
  predicate Enabled(s: State, e: Step) {
    match e
    case Begin(p) => p !in s.used && MayBegin(|s.lh|, s.outstanding, s.committing)
    case Write(p, _) => p in s.used
    case End(p) => p in s.used
    case Empty => s.committing
    case Done => s.committing && s.lh == []
  }

  predicate Panics(s: State, e: Step) {
    match e
    case Write(_, _) => WritePanics(|s.lh|, s.outstanding)
    case End(_) => s.committing
    case _ => false
  }

  function Next(s: State, e: Step): (r: State)
    requires Enabled(s, e) && !Panics(s, e)
  {
    match e
    case Begin(p) => s.(outstanding := s.outstanding + 1, used := s.used[p := 0])
    case Write(p, b) =>
      if b in s.lh then s
      else s.(lh := s.lh + [b], used := s.used[p := s.used[p] + 1])
    case End(p) =>
      s.(outstanding := s.outstanding - 1, committing := s.outstanding == 1, used := s.used - {p})
    case Empty => s.(lh := [])
    case Done => s.(committing := false)
  }

  /** What begin_op's reservation assumes of an operation: at most MAXOPBLOCKS appended blocks. */
  predicate Within(s: State, e: Step) {
    e.Write? && e.p in s.used && e.b !in s.lh ==> s.used[e.p] < MAXOPBLOCKS
  }

  // ---------- unused allowance ----------

  ghost function Unused(used: map<nat, nat>): int {
    if used == map[] then 0
    else
      var p :| p in used;
      MAXOPBLOCKS - used[p] + Unused(used - {p})
  }

  lemma {:induction false} UnusedWithout(used: map<nat, nat>, p: nat)
    requires p in used
    ensures Unused(used) == MAXOPBLOCKS - used[p] + Unused(used - {p})
    decreases |used|
  {
    var q :| q in used && Unused(used) == MAXOPBLOCKS - used[q] + Unused(used - {q});
    if p != q {
      UnusedWithout(used - {q}, p);
      UnusedWithout(used - {p}, q);
      assert used - {p} - {q} == used - {q} - {p};
    }
  }

  lemma UnusedPut(used: map<nat, nat>, p: nat, k: nat)
    ensures Unused(used[p := k]) == MAXOPBLOCKS - k + Unused(used - {p})
    ensures p in used ==> Unused(used) == MAXOPBLOCKS - used[p] + Unused(used - {p})
    ensures p !in used ==> used - {p} == used
  {
    UnusedWithout(used[p := k], p);
    assert used[p := k] - {p} == used - {p};
    if p in used {
      UnusedWithout(used, p);
    }
  }

  lemma {:induction false} UnusedNonneg(used: map<nat, nat>)
    requires forall p | p in used :: used[p] <= MAXOPBLOCKS
    ensures Unused(used) >= 0
    ensures Unused(used) == 0 ==> forall p | p in used :: used[p] == MAXOPBLOCKS
    decreases |used|
  {
    forall p | p in used
      ensures Unused(used) >= MAXOPBLOCKS - used[p]
    {
      UnusedWithout(used, p);
      UnusedNonneg(used - {p});
    }
  }

  // ---------- the invariant and what it rules out ----------

  /** Logged blocks plus the unused allowance of every open operation fit in the log, and a commit runs only when no
      operation is open. */
  ghost predicate Inv(s: State) {
    && s.outstanding == |s.used|
    && (forall p | p in s.used :: s.used[p] <= MAXOPBLOCKS)
    && |s.lh| + Unused(s.used) <= LOGBLOCKS
    && (s.committing ==> s.used == map[])
    && (!s.committing && s.used == map[] ==> s.lh == [])
    && NoDup(s.lh)
  }

  lemma StepKeepsInv(s: State, e: Step)
    requires Inv(s) && Enabled(s, e) && Within(s, e) && !Panics(s, e)
    ensures Inv(Next(s, e))
  {
    match e
    case Begin(p) =>
      UnusedPut(s.used, p, 0);
      UnusedBound(s.used);
    case Write(p, b) =>
      if b !in s.lh {
        UnusedPut(s.used, p, s.used[p] + 1);
      }
    case End(p) =>
      UnusedWithout(s.used, p);
      assert |s.used - {p}| == |s.used| - 1;
    case Empty =>
    case Done =>
  }

  lemma {:induction false} UnusedBound(used: map<nat, nat>)
    ensures Unused(used) <= |used| * MAXOPBLOCKS
    decreases |used|
  {
    if used != map[] {
      var q :| q in used && Unused(used) == MAXOPBLOCKS - used[q] + Unused(used - {q});
      UnusedBound(used - {q});
      assert |used - {q}| == |used| - 1;
    }
  }

  /** In every such state: end_op never panics; log_write panics exactly when the log is full, and the log is full only
      when every open operation has appended its whole allowance; no operation is open during a commit, so nothing
      changes the header then but the commit. */
  lemma InvRulesOut(s: State, e: Step)
    requires Inv(s) && Enabled(s, e)
    ensures e.End? ==> !Panics(s, e)
    ensures e.Write? ==> (Panics(s, e) <==> |s.lh| == LOGBLOCKS)
    ensures |s.lh| == LOGBLOCKS ==> forall p | p in s.used :: s.used[p] == MAXOPBLOCKS
    ensures e.Write? && s.used[e.p] < MAXOPBLOCKS ==> !Panics(s, e)
    ensures s.committing ==> s.outstanding == 0 && !e.Begin? && !e.Write? && !e.End?
  {
    UnusedNonneg(s.used);
    if e.Write? || e.End? {
      assert s.used.Keys != {};
    }
  }

  // ---------- runs ----------

  /** The state after the steps, if every one of them was enabled, within its allowance and did not panic. */
  function Run(s: State, es: seq<Step>): (r: State)
    requires IsRun(s, es)
    decreases |es|
  {
    if es == [] then s else Run(Next(s, es[0]), es[1..])
  }

  predicate IsRun(s: State, es: seq<Step>)
    decreases |es|
  {
    es != [] ==>
      Enabled(s, es[0]) && Within(s, es[0]) && !Panics(s, es[0]) && IsRun(Next(s, es[0]), es[1..])
  }

  /** The reservation holds after every run of operations that keep to their allowance, however interleaved. */
  lemma {:induction false} RunKeepsInv(s: State, es: seq<Step>)
    requires Inv(s) && IsRun(s, es)
    ensures Inv(Run(s, es))
    decreases |es|
  {
    if es != [] {
      StepKeepsInv(s, es[0]);
      RunKeepsInv(Next(s, es[0]), es[1..]);
    }
  }

  lemma {:induction false} RunAppend(s: State, es: seq<Step>, e: Step)
    requires IsRun(s, es)
    requires var r := Run(s, es); Enabled(r, e) && Within(r, e) && !Panics(r, e)
    ensures IsRun(s, es + [e]) && Run(s, es + [e]) == Next(Run(s, es), e)
    decreases |es|
  {
    if es != [] {
      assert (es + [e])[1..] == es[1..] + [e];
      RunAppend(Next(s, es[0]), es[1..], e);
    } else {
      assert (es + [e])[1..] == [];
    }
  }

  /** No operation within its allowance is ever refused log space in a reachable state. */
  lemma NeverTooBig(es: seq<Step>, p: nat, b: nat)
    requires IsRun(Initial, es)
    requires var s := Run(Initial, es); p in s.used && s.used[p] < MAXOPBLOCKS
    ensures !Panics(Run(Initial, es), Write(p, b))
  {
    assert Inv(Initial);
    RunKeepsInv(Initial, es);
    InvRulesOut(Run(Initial, es), Write(p, b));
  }

  // ---------- the limit is tested before absorption ----------

  /** Three operations, process i / 10 appending block i. */
  function FullSteps(k: nat): (es: seq<Step>)
    requires k <= LOGBLOCKS
  {
    if k == 0 then [Begin(0), Begin(1), Begin(2)] else FullSteps(k - 1) + [Write((k - 1) / MAXOPBLOCKS, k - 1)]
  }

  function FullState(k: nat): (s: State)
    requires k <= LOGBLOCKS
  {
    State(seq(k, i => i), 3, false,
          map[0 := if k < 10 then k else 10,
              1 := if k < 10 then 0 else if k < 20 then k - 10 else 10,
              2 := if k < 20 then 0 else k - 20])
  }

  lemma FullStart()
    ensures IsRun(Initial, FullSteps(0)) && Run(Initial, FullSteps(0)) == FullState(0)
  {
    RunAppend(Initial, [], Begin(0));
    RunAppend(Initial, [] + [Begin(0)], Begin(1));
    RunAppend(Initial, [] + [Begin(0)] + [Begin(1)], Begin(2));
    assert FullSteps(0) == [] + [Begin(0)] + [Begin(1)] + [Begin(2)];
    assert FullState(0) == State([], 3, false, map[0 := 0, 1 := 0, 2 := 0]);
  }

  lemma FullNext(k: nat)
    requires k < LOGBLOCKS
    ensures Enabled(FullState(k), Write(k / MAXOPBLOCKS, k)) && !Panics(FullState(k), Write(k / MAXOPBLOCKS, k))
    ensures Next(FullState(k), Write(k / MAXOPBLOCKS, k)) == FullState(k + 1)
  {
    var p := k / MAXOPBLOCKS;
    assert FullState(k + 1).lh == FullState(k).lh + [k];
    assert FullState(k + 1).used == FullState(k).used[p := FullState(k).used[p] + 1];
  }

  lemma {:induction false} FullRun(k: nat)
    requires k <= LOGBLOCKS
    ensures IsRun(Initial, FullSteps(k)) && Run(Initial, FullSteps(k)) == FullState(k)
  {
    if k == 0 {
      FullStart();
    } else {
      FullRun(k - 1);
      FullNext(k - 1);
      RunAppend(Initial, FullSteps(k - 1), Write((k - 1) / MAXOPBLOCKS, k - 1));
    }
  }

  /** An operation that only rewrites a block it has already logged needs no space, and is absorbed while there is room;
      but with the log full it panics. Three operations of ten blocks each reach that. */
  lemma AbsorbedWritePanics()
    ensures IsRun(Initial, FullSteps(LOGBLOCKS))
    ensures var s := Run(Initial, FullSteps(LOGBLOCKS));
            forall p | p in s.used :: exists b :: b in s.lh && Enabled(s, Write(p, b)) && Within(s, Write(p, b)) && Panics(s, Write(p, b))
  {
    FullRun(LOGBLOCKS);
    var s := Run(Initial, FullSteps(LOGBLOCKS));
    assert s.lh[0] == 0;
    forall p | p in s.used
      ensures 0 in s.lh && Enabled(s, Write(p, 0)) && Within(s, Write(p, 0)) && Panics(s, Write(p, 0))
    {
    }
  }
}
