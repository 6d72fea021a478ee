/** The edits of a transaction, one call of log_write() after the other, and the transaction that commits them. */
module Edits {
  import opened Collections
  import opened Params
  import opened Words
  import opened Crash

  ghost function BlocksOf(es: seq<Write>): (r: set<nat>) {
    set j | 0 <= j < |es| :: es[j].block
  }

  lemma BlocksAppend(es: seq<Write>, w: Write)
    ensures BlocksOf(es + [w]) == BlocksOf(es) + {w.block}
  {
    assert forall j | 0 <= j < |es| :: (es + [w])[j] == es[j];
    assert (es + [w])[|es|] == w;
  }

  /** Edits of blocks that may be logged. */
  ghost predicate Loggable(es: seq<Write>, size: nat, start: nat) {
    forall j | 0 <= j < |es| :: es[j].block < size && !InLog(start, es[j].block)
  }

  lemma EditMore(d: Disk, es: seq<Write>, w: Write, size: nat, start: nat)
    requires Loggable(es, size, start) && w.block < |d| == size && !InLog(start, w.block)
    ensures Apply(d, es + [w]) == Apply(d, es)[w.block := w.data]
    ensures BlocksOf(es + [w]) == BlocksOf(es) + {w.block} && Loggable(es + [w], size, start)
  {
    ApplyAppend(d, es, w);
    BlocksAppend(es, w);
  }

  /** log_write() on the list in the header: a block already there is absorbed. */
  function Absorb(lh: seq<nat>, b: nat): (r: seq<nat>) {
    if b in lh then lh else lh + [b]
  }

  /** The header list after the edits. */
  function Listed(es: seq<Write>): (r: seq<nat>) {
    if es == [] then [] else Absorb(Listed(es[..|es| - 1]), es[|es| - 1].block)
  }

  lemma {:induction false} ListedBlocks(es: seq<Write>)
    ensures SetOf(Listed(es)) == BlocksOf(es) && NoDup(Listed(es))
  {
    if es != [] {
      var n := |es| - 1;
      var lh, b := Listed(es[..n]), es[n].block;
      ListedBlocks(es[..n]);
      BlocksAppend(es[..n], es[n]);
      assert es == es[..n] + [es[n]];
      assert SetOf(Absorb(lh, b)) == SetOf(lh) + {b};
    } else {
      assert BlocksOf(es) == {};
    }
  }

  lemma ListedFew(es: seq<Write>, i: nat)
    requires i <= |es|
    ensures |Listed(es[..i])| <= |BlocksOf(es)|
  {
    ListedBlocks(es[..i]);
    NoDupSize(Listed(es[..i]));
    assert BlocksOf(es[..i]) <= BlocksOf(es) by {
      assert forall j | 0 <= j < i :: es[..i][j] == es[j];
    }
    SubsetSize(BlocksOf(es[..i]), BlocksOf(es));
  }

  lemma ListedRange(es: seq<Write>, size: nat)
    requires forall j | 0 <= j < |es| :: es[j].block < size
    ensures forall j | 0 <= j < |Listed(es)| :: Listed(es)[j] < size
  {
    ListedBlocks(es);
    forall j | 0 <= j < |Listed(es)|
      ensures Listed(es)[j] < size
    {
      assert Listed(es)[j] in SetOf(Listed(es));
    }
  }

  lemma {:induction false} ApplyOutside(d: Disk, es: seq<Write>, b: nat)
    requires b < |d| && b !in BlocksOf(es)
    ensures Apply(d, es)[b] == d[b]
  {
    if es != [] {
      var n := |es| - 1;
      assert es[n].block in BlocksOf(es);
      BlocksAppend(es[..n], es[n]);
      assert es == es[..n] + [es[n]];
      ApplyOutside(d, es[..n], b);
    }
  }

  /** The transaction that commits the edits of disk `d`: every edited block once, with its last content. */
  ghost function EditsTx(d: Disk, es: seq<Write>): (t: Tx)
    requires forall j | 0 <= j < |es| :: es[j].block < |d|
    ensures |t.blocks| == |t.data|
  {
    ListedRange(es, |d|);
    Tx(Listed(es), seq(|Listed(es)|, j requires 0 <= j < |Listed(es)| => Apply(d, es)[Listed(es)[j]]))
  }

  lemma EditsTxOk(d: Disk, start: nat, es: seq<Write>)
    requires Loggable(es, |d|, start) && |BlocksOf(es)| <= LOGBLOCKS
    ensures TxOk(d, start, EditsTx(d, es))
  {
    ListedBlocks(es);
    NoDupSize(Listed(es));
    forall j | 0 <= j < |Listed(es)|
      ensures IsHome(d, start, Listed(es)[j])
    {
      assert Listed(es)[j] in SetOf(Listed(es));
    }
  }

  lemma {:induction false} InstallIs(d: Disk, t: Tx, img: Disk, k: nat, b: nat)
    requires |t.blocks| == |t.data| && k <= |t.blocks| && b < |d| == |img|
    requires forall j | 0 <= j < |t.blocks| :: t.blocks[j] < |img| && t.data[j] == img[t.blocks[j]]
    ensures Install(d, t, k)[b] == if b in t.blocks[..k] then img[b] else d[b]
  {
    if k > 0 {
      InstallIs(d, t, img, k - 1, b);
      assert t.blocks[..k] == t.blocks[..k - 1] + [t.blocks[k - 1]];
    }
  }

  /** Installing it once has the effect of the edits one after the other. */
  lemma InstallEdits(d: Disk, es: seq<Write>)
    requires forall j | 0 <= j < |es| :: es[j].block < |d|
    ensures Install(d, EditsTx(d, es), |EditsTx(d, es).blocks|) == Apply(d, es)
  {
    var t, img := EditsTx(d, es), Apply(d, es);
    var n := |t.blocks|;
    ListedBlocks(es);
    ListedRange(es, |d|);
    forall b | 0 <= b < |d|
      ensures Install(d, t, n)[b] == img[b]
    {
      InstallIs(d, t, img, n, b);
      assert t.blocks[..n] == t.blocks;
      if b !in t.blocks {
        assert b !in SetOf(Listed(es));
        ApplyOutside(d, es, b);
      }
    }
  }

  /** The content of an edited block does not depend on what it was. */
  lemma {:induction false} ApplyInside(d: Disk, e: Disk, es: seq<Write>, b: nat)
    requires |d| == |e| && b < |d| && b in BlocksOf(es)
    ensures Apply(d, es)[b] == Apply(e, es)[b]
  {
    var n := |es| - 1;
    BlocksAppend(es[..n], es[n]);
    assert es == es[..n] + [es[n]];
    if es[n].block != b {
      ApplyInside(d, e, es[..n], b);
    }
  }

  lemma EditsTxSame(d: Disk, e: Disk, es: seq<Write>)
    requires |d| == |e| && forall j | 0 <= j < |es| :: es[j].block < |d|
    ensures EditsTx(d, es) == EditsTx(e, es)
  {
    ListedBlocks(es);
    ListedRange(es, |d|);
    forall j | 0 <= j < |Listed(es)|
      ensures Apply(d, es)[Listed(es)[j]] == Apply(e, es)[Listed(es)[j]]
    {
      assert Listed(es)[j] in SetOf(Listed(es));
      ApplyInside(d, e, es, Listed(es)[j]);
    }
    assert EditsTx(d, es).data == EditsTx(e, es).data;
  }

  /** Edits see only the blocks outside the log. */
  lemma {:induction false} ApplySameHome(d: Disk, e: Disk, start: nat, es: seq<Write>)
    requires SameHome(d, e, start)
    ensures SameHome(Apply(d, es), Apply(e, es), start)
  {
    if es != [] {
      ApplySameHome(d, e, start, es[..|es| - 1]);
    }
  }
}
