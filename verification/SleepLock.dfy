/** One sleep-lock of kernel/sync/sleeplock.c and the processes that use it, down to the steps of sleep() and wakeup() in
    kernel/proc/proc.c: every acquisition and release of a spin-lock is a step of its own, and any process may move next. */
module SleepLock {
  import opened Collections
  import opened Params

  /** Where a process is. `lk` is the spin-lock inside the sleep-lock, `p->lock` the process's own. */
  datatype Pc =
    | Away                  // not using the sleep-lock
    | Entering              // acquiresleep() is about to acquire lk
    | Testing               // holds lk, at the test of `locked`
    | Sleeping              // in sleep(), holds lk, about to acquire p->lock
    | HandingOver           // holds both, about to release lk
    | GoingDown             // holds p->lock, about to be SLEEPING on the sleep-lock and switch away
    | Asleep                // SLEEPING; the switch has released p->lock
    | Woken                 // RUNNABLE again
    | ComingUp              // scheduled, holds p->lock, about to release it
    | Took                  // has set `locked`, holds lk
    | Holding               // has the sleep-lock
    | Releasing             // releasesleep() is about to acquire lk
    | Clearing              // holds lk, about to clear `locked`
    | Waking(i: nat)        // holds lk, wakeup() has reached process i

  datatype State = State(pc: seq<Pc>, lk: Option<nat>, locked: bool, pid: nat, held: set<nat>)

  datatype Action = Move(p: nat) | Kill(q: nat)

  // ---------- steps ----------

  function To(s: State, p: nat, pc: Pc): (r: State)
    requires p < |s.pc|
  {
    s.(pc := s.pc[p := pc])
  }

  /** wakeup() looks at process `i`: a sleeper becomes RUNNABLE. */
  function WakeAt(s: State, i: nat): (r: State)
    requires i < |s.pc|
  {
    if s.pc[i] == Asleep then To(s, i, Woken) else s
  }

  /** The next step of process `p`, if it can move. */
  ghost predicate MoveStep(s: State, p: nat, s': State)
    requires p < |s.pc|
  {
    match s.pc[p]
    case Away => s' == To(s, p, Entering)
    case Entering => s.lk == None && s' == To(s, p, Testing).(lk := Some(p))
    case Testing =>
      if s.locked then s' == To(s, p, Sleeping) else s' == To(s, p, Took).(locked := true, pid := p)
    case Sleeping => p !in s.held && s' == To(s, p, HandingOver).(held := s.held + {p})
    case HandingOver => s' == To(s, p, GoingDown).(lk := None)
    case GoingDown => s' == To(s, p, Asleep).(held := s.held - {p})
    case Asleep => false
    case Woken => p !in s.held && s' == To(s, p, ComingUp).(held := s.held + {p})
    case ComingUp => s' == To(s, p, Entering).(held := s.held - {p})
    case Took => s' == To(s, p, Holding).(lk := None)
    case Holding => s' == To(s, p, Releasing)
    case Releasing => s.lk == None && s' == To(s, p, Clearing).(lk := Some(p))
    case Clearing => s' == To(s, p, Waking(0)).(locked := false, pid := 0)
    case Waking(i) =>
      if i < |s.pc| then
        (i == p || i !in s.held) && s' == To(if i == p then s else WakeAt(s, i), p, Waking(i + 1))
      else s' == To(s, p, Away).(lk := None)
  }

  /** kill() makes a sleeping process RUNNABLE, whatever it waits for. */
  ghost predicate KillStep(s: State, q: nat, s': State)
    requires q < |s.pc|
  {
    q !in s.held && s' == WakeAt(s, q)
  }

  ghost predicate Step(s: State, a: Action, s': State) {
    match a
    case Move(p) => p < |s.pc| && MoveStep(s, p, s')
    case Kill(q) => q < |s.pc| && KillStep(s, q, s')
  }

  ghost predicate Init(s: State) {
    |s.pc| == NPROC && (forall p | 0 <= p < NPROC :: s.pc[p] == Away) && s.lk == None && !s.locked && s.held == {}
  }

  // ---------- the invariant ----------

  predicate HasSpin(pc: Pc) {
    pc.Testing? || pc.Sleeping? || pc.HandingOver? || pc.Took? || pc.Clearing? || pc.Waking?
  }

  predicate HasOwn(pc: Pc) {
    pc.HandingOver? || pc.GoingDown? || pc.ComingUp?
  }

  predicate IsHolder(pc: Pc) {
    pc.Took? || pc.Holding? || pc.Releasing? || pc.Clearing?
  }

  /** Somebody is in the middle of releasesleep() and its wakeup() has not yet passed process `q`. */
  ghost predicate WillWake(s: State, q: nat) {
    s.lk.Some? && s.lk.value < |s.pc| && s.pc[s.lk.value].Waking? && s.pc[s.lk.value].i <= q
  }

  ghost predicate ProcOk(s: State, p: nat)
    requires p < |s.pc|
  {
    var pc := s.pc[p];
    && (HasSpin(pc) <==> s.lk == Some(p))
    && (HasOwn(pc) <==> p in s.held)
    && (IsHolder(pc) <==> s.locked && s.pid == p)
    && (pc.Sleeping? || pc.HandingOver? ==> s.locked)
    && (pc.GoingDown? || pc.Asleep? ==> s.locked || WillWake(s, p))
    && (pc.Waking? ==> !s.locked && pc.i <= |s.pc|)
  }

  ghost predicate Inv(s: State) {
    && |s.pc| == NPROC && (s.locked ==> s.pid < NPROC) && (s.lk.Some? ==> s.lk.value < NPROC)
    && forall p {:trigger ProcOk(s, p)} | 0 <= p < NPROC :: ProcOk(s, p)
  }

  lemma InitInv(s: State)
    requires Init(s)
    ensures Inv(s)
  {
  }

  lemma MoveSelf(s: State, p: nat, s': State)
    requires |s.pc| == NPROC && p < NPROC && ProcOk(s, p) && MoveStep(s, p, s')
    ensures ProcOk(s', p)
  {
  }

  lemma MoveOther(s: State, p: nat, s': State, q: nat)
    requires |s.pc| == NPROC && p < NPROC && ProcOk(s, p) && MoveStep(s, p, s')
    requires q < NPROC && q != p && ProcOk(s, q)
    ensures ProcOk(s', q)
  {
  }

  lemma MoveKeeps(s: State, p: nat, s': State)
    requires Inv(s) && p < |s.pc| && MoveStep(s, p, s')
    ensures Inv(s')
  {
    assert ProcOk(s, p);
    MoveSelf(s, p, s');
    forall q | 0 <= q < NPROC
      ensures ProcOk(s', q)
    {
      assert ProcOk(s, q);
      if q != p {
        MoveOther(s, p, s', q);
      }
    }
  }

  lemma KillKeeps(s: State, q: nat, s': State)
    requires Inv(s) && q < |s.pc| && KillStep(s, q, s')
    ensures Inv(s')
  {
    forall p | 0 <= p < NPROC
      ensures ProcOk(s', p)
    {
      assert ProcOk(s, p);
    }
  }

  lemma StepKeeps(s: State, a: Action, s': State)
    requires Inv(s) && Step(s, a, s')
    ensures Inv(s')
  {
    match a
    case Move(p) => MoveKeeps(s, p, s');
    case Kill(q) => KillKeeps(s, q, s');
  }

  // ---------- every run ----------

  ghost predicate Run(states: seq<State>, actions: seq<Action>) {
    && |states| == |actions| + 1 && Init(states[0])
    && forall i {:trigger actions[i]} | 0 <= i < |actions| :: Step(states[i], actions[i], states[i + 1])
  }

  lemma {:induction false} RunKeeps(states: seq<State>, actions: seq<Action>)
    requires Run(states, actions)
    ensures Inv(states[|actions|])
  {
    if actions == [] {
      InitInv(states[0]);
    } else {
      var n := |actions| - 1;
      assert forall i | 0 <= i < n :: actions[..n][i] == actions[i];
      RunKeeps(states[..n + 1], actions[..n]);
      StepKeeps(states[n], actions[n], states[n + 1]);
    }
  }

  /** What holdingsleep() answers for process `p`. */
  predicate HoldingSleep(s: State, p: nat) {
    s.locked && s.pid == p
  }

  /** In every state of every run at most one process has the sleep-lock, holdingsleep() says which, and a process is asleep
      on it only while it is held or while its release has yet to come past that process. */
  lemma RunsAreSafe(states: seq<State>, actions: seq<Action>)
    requires Run(states, actions)
    ensures var s := states[|actions|];
            && |s.pc| == NPROC
            && (forall p, q | 0 <= p < NPROC && 0 <= q < NPROC && IsHolder(s.pc[p]) && IsHolder(s.pc[q]) :: p == q)
            && (forall p | 0 <= p < NPROC :: HoldingSleep(s, p) <==> IsHolder(s.pc[p]))
            && (forall q | 0 <= q < NPROC && s.pc[q] == Asleep :: s.locked || WillWake(s, q))
            && (s.lk == None ==> forall q | 0 <= q < NPROC && s.pc[q] == Asleep :: s.locked)
  {
    RunKeeps(states, actions);
    var s := states[|actions|];
    forall p | 0 <= p < NPROC
      ensures IsHolder(s.pc[p]) <==> HoldingSleep(s, p)
      ensures s.pc[p] == Asleep ==> s.locked || WillWake(s, p)
    {
      assert ProcOk(s, p);
    }
  }
}
