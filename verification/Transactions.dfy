/** A sequence of transactions across crashes. Whatever is committed, interrupted and recovered, the disk means one of the
    disks between two of them. */
module Transactions {
  import opened Params
  import opened Words
  import opened Crash

  /** Each transaction turns one disk into the next. */
  ghost predicate Chain(imgs: seq<Disk>, txs: seq<Tx>, start: nat) {
    && |imgs| == |txs| + 1
    && forall j {:trigger txs[j]} | 0 <= j < |txs| ::
         TxOk(imgs[j], start, txs[j]) && imgs[j + 1] == Install(imgs[j], txs[j], |txs[j].blocks|)
  }

  lemma ChainMore(imgs: seq<Disk>, txs: seq<Tx>, start: nat, t: Tx, img: Disk)
    requires Chain(imgs, txs, start) && TxOk(imgs[|txs|], start, t) && img == Install(imgs[|txs|], t, |t.blocks|)
    ensures Chain(imgs + [img], txs + [t], start)
  {
  }

  lemma ChainPrefix(imgs: seq<Disk>, txs: seq<Tx>, start: nat)
    requires Chain(imgs, txs, start) && txs != []
    ensures Chain(imgs[..|txs|], txs[..|txs| - 1], start)
    ensures imgs[..|txs|][0] == imgs[0] && imgs[..|txs|][|txs| - 1] == imgs[|txs| - 1]
    ensures TxOk(imgs[|txs| - 1], start, txs[|txs| - 1])
    ensures imgs[|txs|] == Install(imgs[|txs| - 1], txs[|txs| - 1], |txs[|txs| - 1].blocks|)
  {
    var t := txs[|txs| - 1];
  }

  /** The commits of the run whose header reached the disk are the first `m` transactions, in order. */
  ghost predicate Commits(es: seq<Event>, txs: seq<Tx>, m: nat) {
    if es == [] then m == 0
    else
      var e := es[|es| - 1];
      if e.Commit? && e.k > |e.tx.blocks| then 0 < m <= |txs| && e.tx == txs[m - 1] && Commits(es[..|es| - 1], txs, m - 1)
      else Commits(es[..|es| - 1], txs, m)
  }

  lemma {:induction false} DurableIsImage(d: Disk, start: nat, es: seq<Event>, imgs: seq<Disk>, txs: seq<Tx>, m: nat)
    requires Chain(imgs, txs, start) && Commits(es, txs, m) && SameHome(d, imgs[0], start)
    ensures m <= |txs| && SameHome(Durable(d, es), imgs[m], start)
    decreases |es|
  {
    if es != [] {
      var n := |es| - 1;
      if es[n].Commit? && es[n].k > |es[n].tx.blocks| {
        DurableIsImage(d, start, es[..n], imgs, txs, m - 1);
        var t := txs[m - 1];
        InstallSameHome(Durable(d, es[..n]), imgs[m - 1], start, t);
      } else {
        DurableIsImage(d, start, es[..n], imgs, txs, m);
      }
    }
  }

  /** Over every run of commits, power failures and recoveries, each of which may be cut short, in which the committed
      transactions are the first `m`, the disk means `imgs[m]`; when the machine is up, so are the home blocks. */
  ghost predicate Survives(d: Disk, start: nat, imgs: seq<Disk>, txs: seq<Tx>) {
    forall ms: seq<Machine>, es, m: nat {:trigger IsRun(ms, start, es), Commits(es, txs, m)} |
      IsRun(ms, start, es) && ms[0] == Machine(d, true) && Commits(es, txs, m) ::
        && m < |imgs| && Means(ms[|es|], start, imgs[m])
        && (ms[|es|].up ==> SameHome(ms[|es|].disk, imgs[m], start))
  }

  lemma ChainSurvives(d: Disk, start: nat, imgs: seq<Disk>, txs: seq<Tx>)
    requires LogOk(d, start) && HeadCount(d, start) == 0 && Chain(imgs, txs, start) && SameHome(d, imgs[0], start)
    ensures Survives(d, start, imgs, txs)
  {
    forall ms: seq<Machine>, es, m: nat | IsRun(ms, start, es) && ms[0] == Machine(d, true) && Commits(es, txs, m)
      ensures m < |imgs| && Means(ms[|es|], start, imgs[m])
      ensures ms[|es|].up ==> SameHome(ms[|es|].disk, imgs[m], start)
    {
      RunsAreAtomic(ms, start, es);
      DurableIsImage(d, start, es, imgs, txs, m);
    }
  }

  // ---------- the writes of the commits, one after the other ----------

  ghost predicate AllOk(d: Disk, start: nat, txs: seq<Tx>) {
    Geometry(d, start) && forall j | 0 <= j < |txs| :: TxOk(d, start, txs[j])
  }

  ghost function RunWrites(d: Disk, start: nat, txs: seq<Tx>): (ws: seq<Write>)
    requires AllOk(d, start, txs)
  {
    if txs == [] then []
    else
      var n := |txs| - 1;
      var ws := RunWrites(d, start, txs[..n]);
      ws + CommitWrites(Apply(d, ws), start, txs[n])
  }

  lemma RunUnfold(d: Disk, start: nat, txs: seq<Tx>) returns (ws: seq<Write>, d1: Disk)
    requires AllOk(d, start, txs) && txs != []
    ensures AllOk(d, start, txs[..|txs| - 1]) && ws == RunWrites(d, start, txs[..|txs| - 1]) && d1 == Apply(d, ws)
    ensures Geometry(d1, start) && TxOk(d1, start, txs[|txs| - 1])
    ensures RunWrites(d, start, txs) == ws + CommitWrites(d1, start, txs[|txs| - 1])
  {
    var n := |txs| - 1;
    assert forall j | 0 <= j < n :: txs[..n][j] == txs[j];
    assert TxOk(d, start, txs[n]);
    ws := RunWrites(d, start, txs[..n]);
    d1 := Apply(d, ws);
  }

  lemma RunSplit(d: Disk, ws: seq<Write>, cs: seq<Write>, k: nat)
    requires |ws| <= k <= |ws| + |cs|
    ensures Apply(d, (ws + cs)[..k]) == Apply(Apply(d, ws), cs[..k - |ws|])
  {
    assert (ws + cs)[..k] == ws + cs[..k - |ws|];
    ApplyConcat(d, ws, cs[..k - |ws|]);
  }

  lemma LastCommit(d: Disk, start: nat, img: Disk, t: Tx, k: nat, n: nat) returns (m: nat)
    requires Means(Machine(d, true), start, img) && TxOk(d, start, t) && k <= |CommitWrites(d, start, t)|
    ensures m == n || m == n + 1
    ensures Means(Machine(Apply(d, CommitWrites(d, start, t)[..k]), false), start,
                  if m == n then img else Install(img, t, |t.blocks|))
    ensures k == |CommitWrites(d, start, t)| ==>
      Means(Machine(Apply(d, CommitWrites(d, start, t)), true), start, Install(img, t, |t.blocks|))
  {
    var ws := CommitWrites(d, start, t);
    m := if k > |t.blocks| then n + 1 else n;
    StepMeans(Machine(d, true), start, Commit(t, k), img);
    assert ws[..|ws|] == ws;
    if t.blocks != [] {
      CommitShape(d, start, t, k);
    }
  }

  /** After all the writes the log is empty and the disk is the last one. */
  lemma {:induction false} RunEnds(d: Disk, start: nat, imgs: seq<Disk>, txs: seq<Tx>)
    requires LogOk(d, start) && HeadCount(d, start) == 0 && Chain(imgs, txs, start) && SameHome(d, imgs[0], start)
    requires AllOk(d, start, txs)
    ensures Means(Machine(Apply(d, RunWrites(d, start, txs)), true), start, imgs[|txs|])
    decreases |txs|
  {
    if txs == [] {
      assert Replay(d, start) == d;
    } else {
      var n := |txs| - 1;
      var t := txs[n];
      var ws, d1 := RunUnfold(d, start, txs);
      ChainPrefix(imgs, txs, start);
      RunEnds(d, start, imgs[..n + 1], txs[..n]);
      var cs := CommitWrites(d1, start, t);
      var m := LastCommit(d1, start, imgs[n], t, |cs|, n);
      ApplyConcat(d, ws, cs);
    }
  }

  /** Wherever the power fails, the disk means what the transactions with a header on disk make of it. */
  lemma {:induction false} CrashAnywhere(d: Disk, start: nat, imgs: seq<Disk>, txs: seq<Tx>, k: nat) returns (m: nat)
    requires LogOk(d, start) && HeadCount(d, start) == 0 && Chain(imgs, txs, start) && SameHome(d, imgs[0], start)
    requires AllOk(d, start, txs) && k <= |RunWrites(d, start, txs)|
    ensures m <= |txs| && Means(Machine(Apply(d, RunWrites(d, start, txs)[..k]), false), start, imgs[m])
    decreases |txs|
  {
    if txs == [] {
      m := 0;
      assert Replay(d, start) == d && RunWrites(d, start, txs)[..k] == [];
    } else {
      var n := |txs| - 1;
      var ws, d1 := RunUnfold(d, start, txs);
      ChainPrefix(imgs, txs, start);
      var before, first, t := imgs[..n + 1], txs[..n], txs[n];
      if k < |ws| {
        m := CrashAnywhere(d, start, before, first, k);
        EarlyCut(ws, CommitWrites(d1, start, t), k);
        assert before[m] == imgs[m];
      } else {
        RunEnds(d, start, before, first);
        m := CrashInLast(d, start, ws, d1, imgs[n], t, k, n);
      }
    }
  }

  lemma EarlyCut(ws: seq<Write>, cs: seq<Write>, k: nat)
    requires k <= |ws|
    ensures (ws + cs)[..k] == ws[..k]
  {
  }

  lemma CrashInLast(d: Disk, start: nat, ws: seq<Write>, d1: Disk, img: Disk, t: Tx, k: nat, n: nat) returns (m: nat)
    requires d1 == Apply(d, ws) && Means(Machine(d1, true), start, img) && TxOk(d1, start, t)
    requires |ws| <= k <= |ws + CommitWrites(d1, start, t)|
    ensures m == n || m == n + 1
    ensures Means(Machine(Apply(d, (ws + CommitWrites(d1, start, t))[..k]), false), start,
                  if m == n then img else Install(img, t, |t.blocks|))
  {
    var j := k - |ws|;
    m := LastCommit(d1, start, img, t, j, n);
    RunSplit(d, ws, CommitWrites(d1, start, t), k);
  }

  /** The disk when the power fails after `k` writes. */
  ghost function CrashDisk(d: Disk, start: nat, txs: seq<Tx>, k: nat): (r: Disk)
    requires AllOk(d, start, txs)
  {
    Apply(d, if k <= |RunWrites(d, start, txs)| then RunWrites(d, start, txs)[..k] else RunWrites(d, start, txs))
  }

  ghost predicate CrashSafe(d: Disk, start: nat, imgs: seq<Disk>, txs: seq<Tx>) {
    && AllOk(d, start, txs)
    && forall k: nat {:trigger CrashDisk(d, start, txs, k)} | k <= |RunWrites(d, start, txs)| ::
         exists m: nat :: m < |imgs| && Means(Machine(CrashDisk(d, start, txs, k), false), start, imgs[m])
  }

  lemma ChainCrashSafe(d: Disk, start: nat, imgs: seq<Disk>, txs: seq<Tx>)
    requires LogOk(d, start) && HeadCount(d, start) == 0 && Chain(imgs, txs, start) && SameHome(d, imgs[0], start)
    requires AllOk(d, start, txs)
    ensures CrashSafe(d, start, imgs, txs)
  {
    forall k: nat | k <= |RunWrites(d, start, txs)|
      ensures exists m: nat :: m < |imgs| && Means(Machine(CrashDisk(d, start, txs, k), false), start, imgs[m])
    {
      var m := CrashAnywhere(d, start, imgs, txs, k);
    }
  }
}
