/** The on-disk redo log of kernel/fs/log.c as a sequence of atomic block writes.

    A crash keeps the disk and loses everything else, so a crashed run is a prefix of the writes it would have
    made. `Replay` is what a reader of the disk would see once the log has been installed: every write of a commit
    but one, and every write of a recovery, leaves it alone; the one exception is the header write that commits. */
module Crash {
  import opened Params
  import opened Words

  type Disk = seq<Block>

  datatype Write = Write(block: nat, data: Block)

  function Apply(d: Disk, ws: seq<Write>): (r: Disk)
    ensures |r| == |d|
  {
    if ws == [] then d
    else
      var r := Apply(d, ws[..|ws| - 1]);
      var w := ws[|ws| - 1];
      if w.block < |r| then r[w.block := w.data] else r
  }

  lemma ApplyAppend(d: Disk, ws: seq<Write>, w: Write)
    requires w.block < |d|
    ensures Apply(d, ws + [w]) == Apply(d, ws)[w.block := w.data]
  {
  }

  // ---------- layout of the log area ----------

  predicate InLog(start: nat, b: nat) {
    start <= b <= start + LOGBLOCKS
  }

  predicate Geometry(d: Disk, start: nat) {
    start + LOGBLOCKS < |d| <= WORD
  }

  /** A block that may be logged: on the disk and outside the log itself. */
  predicate IsHome(d: Disk, start: nat, b: nat) {
    b < |d| && !InLog(start, b)
  }

  function HeadCount(d: Disk, start: nat): (r: nat)
    requires Geometry(d, start)
  {
    Word(d[start], 0)
  }

  function HeadBlock(d: Disk, start: nat, i: nat): (r: nat)
    requires Geometry(d, start) && i < LOGBLOCKS
  {
    Word(d[start], 1 + i)
  }

  /** The disk holds a log header that recovery can follow. */
  predicate LogOk(d: Disk, start: nat) {
    && Geometry(d, start)
    && HeadCount(d, start) <= LOGBLOCKS
    && forall i {:trigger HeadBlock(d, start, i)} | 0 <= i < HeadCount(d, start) :: IsHome(d, start, HeadBlock(d, start, i))
  }

  /** Blocks outside the log area agree. */
  ghost predicate SameHome(d: Disk, e: Disk, start: nat) {
    && |d| == |e|
    && forall b | 0 <= b < |d| && !InLog(start, b) :: d[b] == e[b]
  }

  /** Log blocks and header agree, apart from the blocks outside the log. */
  ghost predicate SameLog(d: Disk, e: Disk, start: nat) {
    && |d| == |e|
    && forall b | 0 <= b < |d| && InLog(start, b) :: d[b] == e[b]
  }

  // ---------- what the log means ----------

  function ReplayN(d: Disk, start: nat, k: nat): (r: Disk)
    requires LogOk(d, start) && k <= HeadCount(d, start)
    ensures |r| == |d|
  {
    if k == 0 then d
    else ReplayN(d, start, k - 1)[HeadBlock(d, start, k - 1) := d[start + k]]
  }

  function Replay(d: Disk, start: nat): (r: Disk)
    requires LogOk(d, start)
    ensures |r| == |d|
  {
    ReplayN(d, start, HeadCount(d, start))
  }

  /** A transaction: the block numbers in the log header, and the new content of each. */
  datatype Tx = Tx(blocks: seq<nat>, data: seq<Block>)

  ghost predicate TxOk(d: Disk, start: nat, t: Tx) {
    && |t.blocks| == |t.data| <= LOGBLOCKS
    && forall i | 0 <= i < |t.blocks| :: IsHome(d, start, t.blocks[i])
  }

  /** The first `k` blocks of the transaction written home: what the transaction is meant to do. */
  function Install(d: Disk, t: Tx, k: nat): (r: Disk)
    requires k <= |t.blocks| == |t.data|
    ensures |r| == |d|
  {
    if k == 0 then d
    else
      var r := Install(d, t, k - 1);
      if t.blocks[k - 1] < |r| then r[t.blocks[k - 1] := t.data[k - 1]] else r
  }

  // ---------- the writes made by commit() and recover_from_log() ----------

  /** The header block after write_head(): count and entries stored, the rest of the buffer as it was. */
  function PutEntries(b: Block, blocks: seq<nat>, k: nat): (r: Block)
    requires k <= |blocks| <= LOGBLOCKS
    requires forall i | 0 <= i < |blocks| :: blocks[i] < WORD
  {
    if k == 0 then PutWord(b, 0, |blocks|)
    else PutWord(PutEntries(b, blocks, k - 1), k, blocks[k - 1])
  }

  function PutHead(b: Block, blocks: seq<nat>): (r: Block)
    requires |blocks| <= LOGBLOCKS
    requires forall i | 0 <= i < |blocks| :: blocks[i] < WORD
  {
    PutEntries(b, blocks, |blocks|)
  }

  lemma {:induction false} PutEntriesReads(b: Block, blocks: seq<nat>, k: nat)
    requires k <= |blocks| <= LOGBLOCKS
    requires forall i | 0 <= i < |blocks| :: blocks[i] < WORD
    ensures Word(PutEntries(b, blocks, k), 0) == |blocks|
    ensures forall i | 0 <= i < k :: Word(PutEntries(b, blocks, k), 1 + i) == blocks[i]
  {
    if k == 0 {
      PutWordReads(b, 0, |blocks|, 0);
    } else {
      PutEntriesReads(b, blocks, k - 1);
      var p := PutEntries(b, blocks, k - 1);
      PutWordReads(p, k, blocks[k - 1], 0);
      forall i | 0 <= i < k
        ensures Word(PutEntries(b, blocks, k), 1 + i) == blocks[i]
      {
        PutWordReads(p, k, blocks[k - 1], 1 + i);
      }
    }
  }

  function LogWrites(start: nat, t: Tx, k: nat): (r: seq<Write>)
    requires k <= |t.blocks| == |t.data|
    ensures |r| == k
  {
    seq(k, i requires 0 <= i < k => Write(start + 1 + i, t.data[i]))
  }

  function HomeWrites(t: Tx, k: nat): (r: seq<Write>)
    requires k <= |t.blocks| == |t.data|
    ensures |r| == k
  {
    seq(k, i requires 0 <= i < k => Write(t.blocks[i], t.data[i]))
  }

  /** commit(): log blocks, header, home blocks, cleared header. An empty transaction writes nothing. */
  function CommitWrites(d: Disk, start: nat, t: Tx): (r: seq<Write>)
    requires Geometry(d, start)
    requires |t.blocks| == |t.data| <= LOGBLOCKS
    requires forall i | 0 <= i < |t.blocks| :: t.blocks[i] < WORD
  {
    var n := |t.blocks|;
    if n == 0 then []
    else
      var head := PutHead(d[start], t.blocks);
      LogWrites(start, t, n) + [Write(start, head)] + HomeWrites(t, n) + [Write(start, PutWord(head, 0, 0))]
  }

  /** The transaction that the header on disk describes. */
  function LoggedTx(d: Disk, start: nat): (t: Tx)
    requires LogOk(d, start)
    ensures |t.blocks| == |t.data| == HeadCount(d, start)
    ensures TxOk(d, start, t)
  {
    var n := HeadCount(d, start);
    Tx(seq(n, i requires 0 <= i < n => HeadBlock(d, start, i)),
       seq(n, i requires 0 <= i < n => d[start + 1 + i]))
  }

  /** recover_from_log(): home blocks, then the cleared header, which is written even when the log is empty. */
  function RecoverWrites(d: Disk, start: nat): (r: seq<Write>)
    requires LogOk(d, start)
  {
    HomeWrites(LoggedTx(d, start), HeadCount(d, start)) + [Write(start, PutWord(d[start], 0, 0))]
  }

  // ---------- one write at a time ----------

  /** Replaying the log is installing the transaction it holds. */
  lemma {:induction false} ReplayIsInstall(d: Disk, start: nat, k: nat)
    requires LogOk(d, start) && k <= HeadCount(d, start)
    ensures ReplayN(d, start, k) == Install(d, LoggedTx(d, start), k)
  {
    if k > 0 {
      ReplayIsInstall(d, start, k - 1);
    }
  }

  lemma {:induction false} InstallOutside(d: Disk, t: Tx, k: nat, b: nat)
    requires k <= |t.blocks| == |t.data| && b < |d|
    requires forall i | 0 <= i < k :: t.blocks[i] != b
    ensures Install(d, t, k)[b] == d[b]
  {
    if k > 0 {
      InstallOutside(d, t, k - 1, b);
    }
  }

  /** Installing commutes with a disk difference outside the first `k` blocks, and erases one inside them. */
  lemma {:induction false} InstallSame(d: Disk, e: Disk, t: Tx, k: nat, b: nat)
    requires k <= |t.blocks| == |t.data| && |d| == |e| && b < |d|
    requires d[b] == e[b] || exists i :: 0 <= i < k && t.blocks[i] == b
    ensures Install(d, t, k)[b] == Install(e, t, k)[b]
  {
    if k > 0 && t.blocks[k - 1] != b {
      InstallSame(d, e, t, k - 1, b);
    }
  }

  /** Installing twice, first partially, is installing once. */
  lemma InstallAgain(d: Disk, t: Tx, j: nat)
    requires j <= |t.blocks| == |t.data|
    ensures Install(Install(d, t, j), t, |t.blocks|) == Install(d, t, |t.blocks|)
  {
    var e := Install(d, t, j);
    forall b | 0 <= b < |d|
      ensures Install(e, t, |t.blocks|)[b] == Install(d, t, |t.blocks|)[b]
    {
      if forall i | 0 <= i < j :: t.blocks[i] != b {
        InstallOutside(d, t, j, b);
      }
      InstallSame(e, d, t, |t.blocks|, b);
    }
  }

  lemma {:induction false} InstallKeepsLog(d: Disk, start: nat, t: Tx, k: nat)
    requires TxOk(d, start, t) && k <= |t.blocks|
    ensures SameLog(Install(d, t, k), d, start)
  {
    forall b | 0 <= b < |d| && InLog(start, b)
      ensures Install(d, t, k)[b] == d[b]
    {
      InstallOutside(d, t, k, b);
    }
  }

  /** The log is read only from the log area. */
  lemma LogOkOfSameLog(d: Disk, e: Disk, start: nat)
    requires LogOk(d, start) && SameLog(d, e, start)
    ensures LogOk(e, start) && LoggedTx(e, start) == LoggedTx(d, start)
  {
    assert d[start] == e[start];
    forall i | 0 <= i < HeadCount(d, start)
      ensures HeadBlock(e, start, i) == HeadBlock(d, start, i) && d[start + 1 + i] == e[start + 1 + i]
    {
    }
  }

  lemma {:induction false} ApplyHomeWrites(d: Disk, t: Tx, k: nat)
    requires k <= |t.blocks| == |t.data|
    ensures Apply(d, HomeWrites(t, k)) == Install(d, t, k)
  {
    if k > 0 {
      ApplyHomeWrites(d, t, k - 1);
      assert HomeWrites(t, k)[..k - 1] == HomeWrites(t, k - 1);
    }
  }

  lemma {:induction false} ApplyLogWrites(d: Disk, start: nat, t: Tx, k: nat)
    requires Geometry(d, start) && |t.blocks| == |t.data| <= LOGBLOCKS && k <= |t.blocks|
    ensures SameHome(Apply(d, LogWrites(start, t, k)), d, start)
    ensures Apply(d, LogWrites(start, t, k))[start] == d[start]
    ensures forall i | 0 <= i < k :: Apply(d, LogWrites(start, t, k))[start + 1 + i] == t.data[i]
  {
    if k > 0 {
      ApplyLogWrites(d, start, t, k - 1);
      assert LogWrites(start, t, k)[..k - 1] == LogWrites(start, t, k - 1);
    }
  }

  lemma {:induction false} ApplyConcat(d: Disk, u: seq<Write>, v: seq<Write>)
    ensures Apply(d, u + v) == Apply(Apply(d, u), v)
    decreases |v|
  {
    if v == [] {
      assert u + v == u;
    } else {
      assert (u + v)[..|u + v| - 1] == u + v[..|v| - 1];
      ApplyConcat(d, u, v[..|v| - 1]);
    }
  }

  // ---------- crash points of one recovery and of one commit ----------

  function After(d: Disk, ws: seq<Write>, k: nat): (r: Disk)
    ensures |r| == |d|
  {
    Apply(d, if k < |ws| then ws[..k] else ws)
  }

  /** Clearing the header of an installed log ends the transaction without changing what the disk means. */
  lemma ClearHead(d: Disk, start: nat)
    requires LogOk(d, start)
    requires SameHome(d, Replay(d, start), start)
    ensures var e := d[start := PutWord(d[start], 0, 0)];
            LogOk(e, start) && HeadCount(e, start) == 0 && SameHome(Replay(e, start), Replay(d, start), start)
  {
  }

  lemma PartlyInstalled(d: Disk, start: nat, j: nat)
    requires LogOk(d, start) && j <= HeadCount(d, start)
    ensures var e := Install(d, LoggedTx(d, start), j);
            && LogOk(e, start) && LoggedTx(e, start) == LoggedTx(d, start)
            && Replay(e, start) == Replay(d, start)
            && e[start] == d[start]
            && (j == HeadCount(d, start) ==> e == Replay(d, start))
  {
    var t, n := LoggedTx(d, start), HeadCount(d, start);
    var e := Install(d, t, j);
    InstallKeepsLog(d, start, t, j);
    LogOkOfSameLog(d, e, start);
    ReplayIsInstall(e, start, n);
    ReplayIsInstall(d, start, n);
    InstallAgain(d, t, j);
  }

  /** However many of its writes reach the disk, a recovery leaves the logical disk as it found it; a complete one
      also leaves the log empty. */
  lemma RecoverCrash(d: Disk, start: nat, k: nat)
    requires LogOk(d, start)
    ensures var e := After(d, RecoverWrites(d, start), k);
            && LogOk(e, start)
            && SameHome(Replay(e, start), Replay(d, start), start)
            && (k >= |RecoverWrites(d, start)| ==> HeadCount(e, start) == 0)
  {
    var t, n := LoggedTx(d, start), HeadCount(d, start);
    var ws := RecoverWrites(d, start);
    if k <= n {
      assert ws[..k] == HomeWrites(t, k);
      ApplyHomeWrites(d, t, k);
      PartlyInstalled(d, start, k);
    } else {
      PartlyInstalled(d, start, n);
      ApplyHomeWrites(d, t, n);
      ApplyAppend(d, HomeWrites(t, n), Write(start, PutWord(d[start], 0, 0)));
      ClearHead(Install(d, t, n), start);
    }
  }

  /** The disk just after the header write of a commit: the log describes exactly this transaction. */
  lemma HeaderWritten(d: Disk, start: nat, t: Tx)
    requires LogOk(d, start) && TxOk(d, start, t)
    ensures var head := PutHead(d[start], t.blocks);
            var e := Apply(d, LogWrites(start, t, |t.blocks|))[start := head];
            && LogOk(e, start) && LoggedTx(e, start) == t && SameHome(e, d, start)
            && SameHome(Replay(e, start), Install(d, t, |t.blocks|), start)
  {
    var n, head := |t.blocks|, PutHead(d[start], t.blocks);
    ApplyLogWrites(d, start, t, n);
    PutEntriesReads(d[start], t.blocks, n);
    var e := Apply(d, LogWrites(start, t, n))[start := head];
    forall i | 0 <= i < n
      ensures HeadBlock(e, start, i) == t.blocks[i]
    {
    }
    assert LoggedTx(e, start) == t;
    ReplayIsInstall(e, start, n);
    forall b | 0 <= b < |d| && !InLog(start, b)
      ensures Install(e, t, n)[b] == Install(d, t, n)[b]
    {
      InstallSame(e, d, t, n, b);
    }
  }

  lemma CommitShape(d: Disk, start: nat, t: Tx, k: nat)
    requires LogOk(d, start) && TxOk(d, start, t) && |t.blocks| > 0
    ensures var n := |t.blocks|;
            var ws := CommitWrites(d, start, t);
            var head := PutHead(d[start], t.blocks);
            && |ws| == 2 * n + 2
            && (k <= n ==> After(d, ws, k) == Apply(d, LogWrites(start, t, k)))
            && (n < k <= 2 * n + 1 ==>
                  After(d, ws, k) == Install(Apply(d, LogWrites(start, t, n))[start := head], t, k - n - 1))
            && (k > 2 * n + 1 ==>
                  After(d, ws, k) ==
                  Install(Apply(d, LogWrites(start, t, n))[start := head], t, n)[start := PutWord(head, 0, 0)])
  {
    var n, ws := |t.blocks|, CommitWrites(d, start, t);
    var head := PutHead(d[start], t.blocks);
    var lw, e := LogWrites(start, t, n), Apply(d, LogWrites(start, t, n))[start := head];
    ApplyAppend(d, lw, Write(start, head));
    if k <= n {
      assert ws[..k] == LogWrites(start, t, k);
    } else {
      var j := if k <= 2 * n + 1 then k - n - 1 else n;
      var pre := lw + [Write(start, head)];
      ApplyConcat(d, pre, HomeWrites(t, j));
      ApplyHomeWrites(e, t, j);
      if k <= 2 * n + 1 {
        assert ws[..k] == pre + HomeWrites(t, j);
      } else {
        ApplyAppend(d, pre + HomeWrites(t, n), Write(start, PutWord(head, 0, 0)));
        assert ws == pre + HomeWrites(t, n) + [Write(start, PutWord(head, 0, 0))];
      }
    }
  }

  /** Crash atomicity of commit(): with `k` of its writes on disk, the logical disk is the old one up to and including
      the last log block, and the whole transaction from the header write on. */
  lemma CommitCrash(d: Disk, start: nat, t: Tx, k: nat)
    requires LogOk(d, start) && HeadCount(d, start) == 0 && TxOk(d, start, t)
    ensures var ws := CommitWrites(d, start, t);
            var e := After(d, ws, k);
            && LogOk(e, start)
            && SameHome(Replay(e, start),
                        if k > |t.blocks| then Install(d, t, |t.blocks|) else d, start)
            && (k >= |ws| ==> HeadCount(e, start) == 0)
  {
    var n := |t.blocks|;
    if n > 0 {
      CommitShape(d, start, t, k);
      if k <= n {
        ApplyLogWrites(d, start, t, k);
      } else {
        HeaderWritten(d, start, t);
        var e := Apply(d, LogWrites(start, t, n))[start := PutHead(d[start], t.blocks)];
        PartlyInstalled(e, start, if k <= 2 * n + 1 then k - n - 1 else n);
        if k > 2 * n + 1 {
          ClearHead(Install(e, t, n), start);
        }
      }
    }
  }

  // ---------- whole runs ----------

  /** What can happen to a machine: it commits a transaction, of which `k` block writes reach the disk before the
      power fails (all of them when `k` is large enough); it loses power while idle; it boots and recovers, again with
      `k` writes reaching the disk. */
  datatype Event = Commit(tx: Tx, k: nat) | PowerLoss | Recover(k: nat)

  /** `up` means the log was recovered since the last crash, so transactions may run. */
  datatype Machine = Machine(disk: Disk, up: bool)

  ghost predicate Enabled(m: Machine, start: nat, e: Event) {
    match e
    case Commit(t, _) => m.up && LogOk(m.disk, start) && TxOk(m.disk, start, t)
    case PowerLoss => true
    case Recover(_) => !m.up && LogOk(m.disk, start)
  }

  ghost function Next(m: Machine, start: nat, e: Event): (r: Machine)
    requires Enabled(m, start, e)
  {
    match e
    case Commit(t, k) =>
      var ws := CommitWrites(m.disk, start, t);
      Machine(After(m.disk, ws, k), k >= |ws|)
    case PowerLoss => Machine(m.disk, false)
    case Recover(k) =>
      var ws := RecoverWrites(m.disk, start);
      Machine(After(m.disk, ws, k), k >= |ws|)
  }

  ghost predicate IsRun(ms: seq<Machine>, start: nat, es: seq<Event>) {
    && |ms| == |es| + 1
    && forall i {:trigger es[i]} | 0 <= i < |es| :: Enabled(ms[i], start, es[i]) && ms[i + 1] == Next(ms[i], start, es[i])
  }

  /** The transactions whose header write reached the disk, applied in order to the initial disk. */
  ghost function Durable(d: Disk, es: seq<Event>): (r: Disk)
    ensures |r| == |d|
  {
    if es == [] then d
    else
      var r := Durable(d, es[..|es| - 1]);
      match es[|es| - 1]
      case Commit(t, k) =>
        if k > |t.blocks| && |t.blocks| == |t.data| then Install(r, t, |t.blocks|) else r
      case _ => r
  }

  /** The disk means `want`, and when the machine is up the log is empty. */
  ghost predicate Means(m: Machine, start: nat, want: Disk) {
    && LogOk(m.disk, start)
    && SameHome(Replay(m.disk, start), want, start)
    && (m.up ==> HeadCount(m.disk, start) == 0)
  }

  lemma InstallSameHome(d: Disk, e: Disk, start: nat, t: Tx)
    requires SameHome(d, e, start) && |t.blocks| == |t.data|
    ensures SameHome(Install(d, t, |t.blocks|), Install(e, t, |t.blocks|), start)
  {
    forall b | 0 <= b < |d| && !InLog(start, b)
      ensures Install(d, t, |t.blocks|)[b] == Install(e, t, |t.blocks|)[b]
    {
      InstallSame(d, e, t, |t.blocks|, b);
    }
  }

  lemma StepMeans(m: Machine, start: nat, e: Event, want: Disk)
    requires Enabled(m, start, e) && Means(m, start, want)
    ensures Means(Next(m, start, e), start,
                  if e.Commit? && e.k > |e.tx.blocks| then Install(want, e.tx, |e.tx.blocks|) else want)
  {
    match e
    case Commit(t, k) =>
      CommitCrash(m.disk, start, t, k);
      assert Replay(m.disk, start) == m.disk;
      InstallSameHome(m.disk, want, start, t);
    case PowerLoss =>
    case Recover(k) =>
      RecoverCrash(m.disk, start, k);
  }

  /** Over every run of commits, power failures and recoveries, each of which may itself be cut short, the logical disk
      is exactly the initial one with the committed transactions applied in order; when the machine is up, so are the
      home blocks themselves. */
  lemma {:induction false} RunsAreAtomic(ms: seq<Machine>, start: nat, es: seq<Event>)
    requires IsRun(ms, start, es)
    requires ms[0].up && LogOk(ms[0].disk, start) && HeadCount(ms[0].disk, start) == 0
    ensures Means(ms[|es|], start, Durable(ms[0].disk, es))
    ensures ms[|es|].up ==> SameHome(ms[|es|].disk, Durable(ms[0].disk, es), start)
    decreases |es|
  {
    if es != [] {
      var n := |es| - 1;
      RunPrefix(ms, start, es);
      RunsAreAtomic(ms[..n + 1], start, es[..n]);
      assert Enabled(ms[n], start, es[n]);
      StepMeans(ms[n], start, es[n], Durable(ms[0].disk, es[..n]));
    }
  }

  lemma RunPrefix(ms: seq<Machine>, start: nat, es: seq<Event>)
    requires IsRun(ms, start, es) && es != []
    ensures IsRun(ms[..|es|], start, es[..|es| - 1])
  {
  }
}
