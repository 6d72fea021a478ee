/** The choice of the next process in scheduler_rotate() of kernel/proc/proc.c, and what it means over a run in which
    everything else may happen between two choices. */
module Scheduler {
  import opened Params

  /** The first RUNNABLE slot in the order rr, rr + 1, ... around the table, and the next starting position. */
  method Choose(runnable: seq<bool>, rr: nat) returns (found: bool, chosen: nat, rr': nat)
    requires |runnable| == NPROC && rr < NPROC
    ensures rr' < NPROC && (found <==> exists p :: 0 <= p < NPROC && runnable[p])
    ensures found ==> IsChoice(runnable, rr, chosen) && rr' == (chosen + 1) % NPROC
    ensures !found ==> rr' == rr
  {
    found, chosen, rr' := false, 0, rr;
    for i := 0 to NPROC
      invariant forall p {:trigger Distance(rr, p)} | 0 <= p < NPROC && Distance(rr, p) < i :: !runnable[p]
    {
      var idx := (rr + i) % NPROC;
      DistanceIs(rr, i);
      if runnable[idx] {
        return true, idx, (idx + 1) % NPROC;
      }
      forall p | 0 <= p < NPROC && Distance(rr, p) == i
        ensures p == idx
      {
        DistanceInjective(rr, p, idx);
      }
    }
    forall p | 0 <= p < NPROC
      ensures !runnable[p]
    {
      var d := Distance(rr, p);
    }
  }

  /** How far slot `p` is ahead of position `rr`, going round. */
  function Distance(rr: nat, p: nat): (r: nat)
    requires rr < NPROC && p < NPROC
    ensures r < NPROC
  {
    (p + NPROC - rr) % NPROC
  }

  lemma DistanceCases(rr: nat, p: nat)
    requires rr < NPROC && p < NPROC
    ensures Distance(rr, p) == if rr <= p then p - rr else p + NPROC - rr
  {
  }

  lemma DistanceIs(rr: nat, i: nat)
    requires rr < NPROC && i < NPROC
    ensures Distance(rr, (rr + i) % NPROC) == i
  {
  }

  lemma DistanceInjective(rr: nat, p: nat, q: nat)
    requires rr < NPROC && p < NPROC && q < NPROC && Distance(rr, p) == Distance(rr, q)
    ensures p == q
  {
  }

  ghost predicate IsChoice(runnable: seq<bool>, rr: nat, chosen: nat)
    requires |runnable| == NPROC && rr < NPROC
  {
    && chosen < NPROC && runnable[chosen]
    && forall p | 0 <= p < NPROC && runnable[p] :: Distance(rr, chosen) <= Distance(rr, p)
  }

  /** A RUNNABLE slot that is passed over comes nearer by at least one. */
  lemma ComesNearer(runnable: seq<bool>, rr: nat, chosen: nat, rr': nat, p: nat)
    requires |runnable| == NPROC && rr < NPROC && IsChoice(runnable, rr, chosen) && rr' == (chosen + 1) % NPROC
    requires p < NPROC && runnable[p] && p != chosen
    ensures Distance(rr', p) < Distance(rr, p)
  {
    assert rr' == if chosen + 1 == NPROC then 0 else chosen + 1;
    DistanceCases(rr, chosen);
    DistanceCases(rr, p);
    DistanceCases(rr', p);
  }

  /** A run of selections: the table each one saw, and what it chose; the rest of the table may change at will between
      them. */
  ghost predicate Selections(tables: seq<seq<bool>>, rr: seq<nat>, chosen: seq<nat>) {
    && |chosen| == |tables| && |rr| == |tables| + 1
    && (forall i | 0 <= i < |rr| :: rr[i] < NPROC)
    && (forall i | 0 <= i < |tables| :: |tables[i]| == NPROC)
    && (forall i {:trigger chosen[i]} | 0 <= i < |tables| ::
          IsChoice(tables[i], rr[i], chosen[i]) && rr[i + 1] == (chosen[i] + 1) % NPROC)
  }

  /** A slot that stays RUNNABLE is chosen within NPROC selections, and sooner the nearer it is. */
  lemma {:induction false} BoundedWait(tables: seq<seq<bool>>, rr: seq<nat>, chosen: seq<nat>, p: nat)
    requires Selections(tables, rr, chosen) && p < NPROC && Distance(rr[0], p) < |tables|
    requires forall i | 0 <= i < |tables| :: tables[i][p]
    ensures exists i :: 0 <= i <= Distance(rr[0], p) && chosen[i] == p
    decreases |tables|
  {
    if chosen[0] != p {
      ComesNearer(tables[0], rr[0], chosen[0], rr[1], p);
      var later := chosen[1..];
      assert Selections(tables[1..], rr[1..], later);
      BoundedWait(tables[1..], rr[1..], later, p);
      var i :| 0 <= i <= Distance(rr[1], p) && later[i] == p;
      assert chosen[i + 1] == p;
    }
  }
}
