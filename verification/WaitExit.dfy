/** wait(), exit() and reparent() of kernel/proc/proc.c with the steps of sleep() and wakeup() inside them: every
    acquisition and release of wait_lock or of a process's own lock is a step of its own, and any process may move next. */
module WaitExit {
  import opened Collections
  import opened Params

  /** Where a process is. */
  datatype Pc =
    | Unused
    | Running                       // anywhere outside wait() and exit()
    | Entering                      // wait() is about to acquire wait_lock
    | Scanning(i: nat, kids: bool)  // holds wait_lock, the scan has reached slot i
    | HandingOver                   // in sleep(), holds wait_lock and its own lock
    | GoingDown                     // holds its own lock, about to be SLEEPING on itself and switch away
    | Asleep                        // SLEEPING; the switch has released its lock
    | Woken                         // RUNNABLE again
    | ComingUp                      // scheduled, holds its own lock
    | Exiting                       // exit() is about to acquire wait_lock
    | Reparenting(i: nat)           // holds wait_lock, reparent() has reached slot i
    | WakingInit(i: nat, j: nat)    // slot i was handed to init; wakeup(init) has reached process j
    | WakingParent(j: nat)          // wakeup(p->parent) has reached process j
    | Zombie                        // ZOMBIE, holds wait_lock and its own lock
    | Leaving                       // ZOMBIE, holds its own lock, about to switch away for good
    | Dead                          // ZOMBIE; the switch has released its lock

  /** `parent` is NPROC for none; `init` is the process that adopts orphans. */
  datatype State = State(pc: seq<Pc>, parent: seq<nat>, init: nat, wlock: Option<nat>, held: set<nat>)

  /** `GiveUp` is a return of wait() with -1, for want of children, because the caller was killed, or because the status
      cannot be copied out; the model allows it anywhere in the scan. */
  datatype Action =
    | Move(p: nat)
    | BeginWait(p: nat)
    | BeginExit(p: nat)
    | Fork(p: nat, c: nat)
    | GiveUp(p: nat)
    | Kill(q: nat)

  predicate IsZombie(pc: Pc) {
    pc.Zombie? || pc.Leaving? || pc.Dead?
  }

  // ---------- steps ----------

  function To(s: State, p: nat, pc: Pc): (r: State)
    requires p < |s.pc|
  {
    s.(pc := s.pc[p := pc])
  }

  /** wakeup(target) by process `p` looks at process `j`; sleepers in wait() sleep on themselves. */
  function WakeAt(s: State, p: nat, target: nat, j: nat): (r: State)
    requires j < |s.pc|
  {
    if j != p && j == target && s.pc[j] == Asleep then To(s, j, Woken) else s
  }

  /** The lock of process `j` can be had by `p`; wakeup() passes over its caller without it. */
  predicate CanLook(s: State, p: nat, j: nat) {
    j == p || j !in s.held
  }

  ghost predicate ScanStep(s: State, p: nat, i: nat, kids: bool, s': State)
    requires |s.pc| == |s.parent| == NPROC && p < NPROC
  {
    if i >= NPROC then kids && p !in s.held && s' == To(s, p, HandingOver).(held := s.held + {p})
    else if s.parent[i] != p then s' == To(s, p, Scanning(i + 1, kids))
    else if i in s.held then false
    else if IsZombie(s.pc[i]) then
      s' == To(To(s, i, Unused), p, Running).(parent := s.parent[i := NPROC], wlock := None)
    else s' == To(s, p, Scanning(i + 1, true))
  }

  ghost predicate ReparentStep(s: State, p: nat, i: nat, s': State)
    requires |s.pc| == |s.parent| == NPROC && p < NPROC
  {
    if i >= NPROC then s' == To(s, p, WakingParent(0))
    else if s.parent[i] == p then s' == To(s, p, WakingInit(i, 0)).(parent := s.parent[i := s.init])
    else s' == To(s, p, Reparenting(i + 1))
  }

  ghost predicate MoveStep(s: State, p: nat, s': State)
    requires |s.pc| == |s.parent| == NPROC && p < NPROC
  {
    match s.pc[p]
    case Entering => s.wlock == None && s' == To(s, p, Scanning(0, false)).(wlock := Some(p))
    case Scanning(i, kids) => ScanStep(s, p, i, kids, s')
    case HandingOver => s' == To(s, p, GoingDown).(wlock := None)
    case GoingDown => s' == To(s, p, Asleep).(held := s.held - {p})
    case Woken => p !in s.held && s' == To(s, p, ComingUp).(held := s.held + {p})
    case ComingUp => s' == To(s, p, Entering).(held := s.held - {p})
    case Exiting => s.wlock == None && s' == To(s, p, Reparenting(0)).(wlock := Some(p))
    case Reparenting(i) => ReparentStep(s, p, i, s')
    case WakingInit(i, j) =>
      if j < NPROC then CanLook(s, p, j) && s' == To(WakeAt(s, p, s.init, j), p, WakingInit(i, j + 1))
      else s' == To(s, p, Reparenting(i + 1))
    case WakingParent(j) =>
      if j < NPROC then CanLook(s, p, j) && s' == To(WakeAt(s, p, s.parent[p], j), p, WakingParent(j + 1))
      else p !in s.held && s' == To(s, p, Zombie).(held := s.held + {p})
    case Zombie => s' == To(s, p, Leaving).(wlock := None)
    case Leaving => s' == To(s, p, Dead).(held := s.held - {p})
    case _ => false
  }

  ghost predicate Step(s: State, a: Action, s': State) {
    && |s.pc| == |s.parent| == NPROC
    && match a
       case Move(p) => p < NPROC && MoveStep(s, p, s')
       case BeginWait(p) => p < NPROC && s.pc[p] == Running && s' == To(s, p, Entering)
       case BeginExit(p) => p < NPROC && p != s.init && s.pc[p] == Running && s' == To(s, p, Exiting)
       case Fork(p, c) =>
         && p < NPROC && c < NPROC && s.pc[p] == Running && s.pc[c] == Unused && s.wlock == None
         && s' == To(s, c, Running).(parent := s.parent[c := p])
       case GiveUp(p) =>
         && p < NPROC && s.pc[p].Scanning? && s' == To(s, p, Running).(wlock := None)
       case Kill(q) => q < NPROC && q !in s.held && s' == if s.pc[q] == Asleep then To(s, q, Woken) else s
  }

  ghost predicate Init(s: State) {
    && |s.pc| == |s.parent| == NPROC && s.init < NPROC && s.wlock == None && s.held == {}
    && (forall p | 0 <= p < NPROC :: s.parent[p] == NPROC && s.pc[p] == if p == s.init then Running else Unused)
  }

  // ---------- the invariant ----------

  predicate HasWait(pc: Pc) {
    pc.Scanning? || pc.HandingOver? || pc.Reparenting? || pc.WakingInit? || pc.WakingParent? || pc.Zombie?
  }

  predicate HasOwn(pc: Pc) {
    pc.HandingOver? || pc.GoingDown? || pc.ComingUp? || pc.Zombie? || pc.Leaving?
  }

  predicate InExit(pc: Pc) {
    pc.Exiting? || pc.Reparenting? || pc.WakingInit? || pc.WakingParent? || IsZombie(pc)
  }

  /** Decided to sleep in wait(), and not yet woken. */
  predicate Committed(pc: Pc) {
    pc.HandingOver? || pc.GoingDown? || pc.Asleep?
  }

  ghost predicate ZombieChild(s: State, q: nat, c: nat)
    requires |s.pc| == |s.parent| == NPROC && c < NPROC
  {
    s.parent[c] == q && IsZombie(s.pc[c])
  }

  ghost predicate NoZombie(s: State, q: nat, n: nat)
    requires |s.pc| == |s.parent| == NPROC
  {
    forall c {:trigger ZombieChild(s, q, c)} | 0 <= c < n && c < NPROC :: !ZombieChild(s, q, c)
  }

  /** reparent() has handed init a child, and its wakeup() has yet to come past init. */
  ghost predicate WillWakeInit(s: State, q: nat)
    requires |s.pc| == NPROC
  {
    && s.wlock.Some? && s.wlock.value < NPROC && s.pc[s.wlock.value].WakingInit?
    && q == s.init && s.pc[s.wlock.value].j <= q
  }

  ghost predicate ProcOk(s: State, q: nat)
    requires |s.pc| == |s.parent| == NPROC && q < NPROC
  {
    var pc := s.pc[q];
    && (HasWait(pc) <==> s.wlock == Some(q))
    && (HasOwn(pc) <==> q in s.held)
    && (InExit(pc) ==> q != s.init)
    && (pc.Scanning? ==> NoZombie(s, q, pc.i))
    && (Committed(pc) ==> NoZombie(s, q, NPROC) || WillWakeInit(s, q))
    && (pc.WakingParent? ==> s.parent[q] < NPROC && Committed(s.pc[s.parent[q]]) ==> pc.j <= s.parent[q])
  }

  ghost predicate Inv(s: State) {
    && |s.pc| == |s.parent| == NPROC && s.init < NPROC
    && forall q {:trigger ProcOk(s, q)} | 0 <= q < NPROC :: ProcOk(s, q)
  }

  lemma InitInv(s: State)
    requires Init(s)
    ensures Inv(s)
  {
  }

  /** The same processes are zombies, with the same parents. */
  ghost predicate SameKids(s: State, s': State)
    requires |s.pc| == |s.parent| == NPROC
  {
    |s'.pc| == NPROC && s'.parent == s.parent && forall c | 0 <= c < NPROC :: IsZombie(s'.pc[c]) == IsZombie(s.pc[c])
  }

  lemma SameZombies(s: State, s': State, q: nat, n: nat)
    requires |s.pc| == |s.parent| == NPROC && SameKids(s, s') && NoZombie(s, q, n)
    ensures NoZombie(s', q, n)
  {
    forall c | 0 <= c < n && c < NPROC
      ensures !ZombieChild(s', q, c)
    {
      assert !ZombieChild(s, q, c);
    }
  }

  /** The scan finds slot `i` not to be a zombie child. */
  lemma ScanOn(s: State, q: nat, i: nat)
    requires |s.pc| == |s.parent| == NPROC && NoZombie(s, q, i) && (i < NPROC ==> !ZombieChild(s, q, i))
    ensures NoZombie(s, q, i + 1)
  {
  }

  lemma QuietSelf(s: State, p: nat, s': State)
    requires Inv(s) && p < NPROC && MoveStep(s, p, s') && SameKids(s, s')
    ensures ProcOk(s', p)
  {
    assert ProcOk(s, p);
    if s.pc[p].WakingParent? && s.parent[p] < NPROC {
      assert ProcOk(s, s.parent[p]);
    }
    if s.pc[p].Scanning? {
      SameZombies(s, s', p, s.pc[p].i);
      if s.pc[p].i < NPROC {
        ScanOn(s', p, s.pc[p].i);
      } else {
        assert NoZombie(s', p, NPROC);
      }
    }
    if Committed(s.pc[p]) && NoZombie(s, p, NPROC) {
      SameZombies(s, s', p, NPROC);
    }
  }

  lemma QuietOther(s: State, p: nat, s': State, q: nat)
    requires Inv(s) && p < NPROC && MoveStep(s, p, s') && SameKids(s, s') && q < NPROC && q != p
    ensures ProcOk(s', q)
  {
    assert ProcOk(s, p) && ProcOk(s, q);
    if s.pc[q].Scanning? {
      SameZombies(s, s', q, s.pc[q].i);
    }
    if Committed(s.pc[q]) && NoZombie(s, q, NPROC) {
      SameZombies(s, s', q, NPROC);
    }
  }

  /** A zombie child is freed: it has switched away for good, and everybody else's children stay. */
  lemma FreeKeeps(s: State, p: nat, s': State)
    requires Inv(s) && p < NPROC && s.pc[p].Scanning? && s.pc[p].i < NPROC && ZombieChild(s, p, s.pc[p].i)
    requires MoveStep(s, p, s')
    ensures Inv(s') && s.pc[s.pc[p].i] == Dead
  {
    var i := s.pc[p].i;
    assert ProcOk(s, p) && ProcOk(s, i);
    forall q | 0 <= q < NPROC
      ensures ProcOk(s', q)
    {
      assert ProcOk(s, q);
      FewerZombies(s, s', q, NPROC);
    }
  }

  lemma FewerZombies(s: State, s': State, q: nat, n: nat)
    requires |s.pc| == |s.parent| == NPROC && |s'.pc| == |s'.parent| == NPROC
    requires forall c {:trigger ZombieChild(s', q, c)} | 0 <= c < NPROC :: ZombieChild(s', q, c) ==> ZombieChild(s, q, c)
    ensures NoZombie(s, q, n) ==> NoZombie(s', q, n)
  {
  }

  /** A child is handed to init, zombie or not. */
  lemma AdoptKeeps(s: State, p: nat, s': State)
    requires Inv(s) && p < NPROC && s.pc[p].Reparenting? && s.pc[p].i < NPROC && s.parent[s.pc[p].i] == p
    requires MoveStep(s, p, s')
    ensures Inv(s')
  {
    assert ProcOk(s, p);
    forall q | 0 <= q < NPROC
      ensures ProcOk(s', q)
    {
      assert ProcOk(s, q);
      if q != s.init {
        FewerZombies(s, s', q, NPROC);
      }
    }
  }

  /** exit() makes its caller a zombie only when the parent is not asleep and cannot fall asleep. */
  lemma DieKeeps(s: State, p: nat, s': State)
    requires Inv(s) && p < NPROC && s.pc[p].WakingParent? && s.pc[p].j >= NPROC && MoveStep(s, p, s')
    ensures Inv(s')
  {
    assert ProcOk(s, p);
    forall q | 0 <= q < NPROC
      ensures ProcOk(s', q)
    {
      assert ProcOk(s, q);
      if q != s.parent[p] {
        FewerZombies(s, s', q, NPROC);
      }
    }
  }

  lemma MoveKeeps(s: State, p: nat, s': State)
    requires Inv(s) && p < NPROC && MoveStep(s, p, s')
    ensures Inv(s')
  {
    if s.pc[p].Scanning? && s.pc[p].i < NPROC && ZombieChild(s, p, s.pc[p].i) {
      FreeKeeps(s, p, s');
    } else if s.pc[p].Reparenting? && s.pc[p].i < NPROC && s.parent[s.pc[p].i] == p {
      AdoptKeeps(s, p, s');
    } else if s.pc[p].WakingParent? && s.pc[p].j >= NPROC {
      DieKeeps(s, p, s');
    } else {
      assert SameKids(s, s');
      QuietSelf(s, p, s');
      forall q | 0 <= q < NPROC
        ensures ProcOk(s', q)
      {
        if q != p {
          QuietOther(s, p, s', q);
        }
      }
    }
  }

  lemma ForkKeeps(s: State, p: nat, c: nat, s': State)
    requires Inv(s) && Step(s, Fork(p, c), s')
    ensures Inv(s')
  {
    forall q | 0 <= q < NPROC
      ensures ProcOk(s', q)
    {
      assert ProcOk(s, q);
      FewerZombies(s, s', q, NPROC);
    }
  }

  lemma OtherKeeps(s: State, a: Action, s': State, p: nat)
    requires Inv(s) && Step(s, a, s') && (a == BeginWait(p) || a == BeginExit(p) || a == GiveUp(p) || a == Kill(p))
    ensures Inv(s')
  {
    assert ProcOk(s, p);
    assert SameKids(s, s');
    forall q | 0 <= q < NPROC
      ensures ProcOk(s', q)
    {
      assert ProcOk(s, q);
      FewerZombies(s, s', q, if s.pc[q].Scanning? then s.pc[q].i else NPROC);
    }
  }

  lemma StepKeeps(s: State, a: Action, s': State)
    requires Inv(s) && Step(s, a, s')
    ensures Inv(s')
  {
    match a
    case Move(p) => MoveKeeps(s, p, s');
    case Fork(p, c) => ForkKeeps(s, p, c, s');
    case BeginWait(p) => OtherKeeps(s, a, s', p);
    case BeginExit(p) => OtherKeeps(s, a, s', p);
    case GiveUp(p) => OtherKeeps(s, a, s', p);
    case Kill(q) => OtherKeeps(s, a, s', q);
  }

  // ---------- every run ----------

  ghost predicate Run(states: seq<State>, actions: seq<Action>) {
    && |states| == |actions| + 1 && Init(states[0])
    && forall i {:trigger actions[i]} | 0 <= i < |actions| :: Step(states[i], actions[i], states[i + 1])
  }

  lemma {:induction false} RunKeeps(states: seq<State>, actions: seq<Action>)
    requires Run(states, actions)
    ensures Inv(states[|actions|])
  {
    if actions == [] {
      InitInv(states[0]);
    } else {
      var n := |actions| - 1;
      assert forall i | 0 <= i < n :: actions[..n][i] == actions[i];
      RunKeeps(states[..n + 1], actions[..n]);
      StepKeeps(states[n], actions[n], states[n + 1]);
    }
  }

  /** Whenever wait_lock is free, no process is asleep in wait() while a child of it, its own or one it adopted, is a
      zombie; and a zombie whose lock can be had has switched away, so that wait() frees no running process. */
  lemma NoLostExit(states: seq<State>, actions: seq<Action>, q: nat, c: nat)
    requires Run(states, actions) && q < NPROC && c < NPROC
    ensures |states[|actions|].pc| == |states[|actions|].parent| == NPROC
    ensures var s := states[|actions|];
            && (s.wlock == None && s.pc[q] == Asleep && s.parent[c] == q ==> !IsZombie(s.pc[c]))
            && (IsZombie(s.pc[c]) && c !in s.held ==> s.pc[c] == Dead)
  {
    RunKeeps(states, actions);
    var s := states[|actions|];
    assert ProcOk(s, q) && ProcOk(s, c);
    assert ZombieChild(s, q, c) <==> s.parent[c] == q && IsZombie(s.pc[c]);
  }
}
