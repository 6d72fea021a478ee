/** Link counts: create(), sys_link() and sys_unlink() of kernel/trap/sysfile.c over a tree of directories. The count of an
    inode is the number of entries other than "." that point to it from linked directories. */
module Links {
  import opened Collections
  import opened Directory

  /** The largest value of a short. */
  const MAXLINK: int := 32767

  datatype Kind = Free | Dir | File | Device

  datatype Inode = Inode(kind: Kind, nlink: int, dir: seq<Dirent>)

  const NOINODE: Inode := Inode(Free, 0, [])

  /** `at` names the entry each directory but the root hangs from, and `pend` counts the calls of sys_link() that have raised
      nlink and not yet made their entry. */
  datatype Tree = Tree(inodes: seq<Inode>, root: nat, at: map<nat, (nat, nat)>, pend: seq<nat>)

  predicate Linked(x: Inode) {
    x.kind == Dir && x.nlink != 0
  }

  /** Adding one to a short. */
  function Inc(n: int): (r: int) {
    if n == MAXLINK then -MAXLINK - 1 else n + 1
  }

  // ---------- counting ----------

  function Hit(e: Dirent, i: nat): (r: nat) {
    if e.inum == i && Key(e) != "." then 1 else 0
  }

  ghost function Occ(dir: seq<Dirent>, i: nat): (r: nat) {
    if dir == [] then 0 else Occ(dir[..|dir| - 1], i) + Hit(dir[|dir| - 1], i)
  }

  ghost function Term(x: Inode, i: nat): (r: nat) {
    if Linked(x) then Occ(x.dir, i) else 0
  }

  /** The entries other than "." that point to `i` from linked directories. */
  ghost function Total(inodes: seq<Inode>, i: nat): (r: nat) {
    if inodes == [] then 0 else Total(inodes[..|inodes| - 1], i) + Term(inodes[|inodes| - 1], i)
  }

  lemma {:induction false} OccPut(dir: seq<Dirent>, k: nat, e: Dirent, i: nat)
    requires k <= |dir|
    ensures Occ(Put(dir, k, e), i) == Occ(dir, i) + Hit(e, i) - if k < |dir| then Hit(dir[k], i) else 0
  {
    if k == |dir| {
      assert Put(dir, k, e)[..k] == dir;
    } else {
      var n := |dir| - 1;
      if k == n {
        assert Put(dir, k, e)[..n] == dir[..n];
      } else {
        assert Put(dir, k, e)[..n] == Put(dir[..n], k, e);
        OccPut(dir[..n], k, e, i);
      }
    }
  }

  lemma {:induction false} TotalPut(inodes: seq<Inode>, d: nat, x: Inode, i: nat)
    requires d < |inodes|
    ensures Total(inodes[d := x], i) == Total(inodes, i) + Term(x, i) - Term(inodes[d], i)
  {
    var n := |inodes| - 1;
    if d == n {
      assert inodes[d := x][..n] == inodes[..n];
    } else {
      assert inodes[d := x][..n] == inodes[..n][d := x];
      TotalPut(inodes[..n], d, x, i);
    }
  }

  lemma {:induction false} OccZero(dir: seq<Dirent>, i: nat)
    requires forall k | 0 <= k < |dir| :: Hit(dir[k], i) == 0
    ensures Occ(dir, i) == 0
  {
    if dir != [] {
      OccZero(dir[..|dir| - 1], i);
    }
  }

  lemma {:induction false} TotalZero(inodes: seq<Inode>, i: nat)
    requires forall d {:trigger Term(inodes[d], i)} | 0 <= d < |inodes| :: Term(inodes[d], i) == 0
    ensures Total(inodes, i) == 0
  {
    if inodes != [] {
      var n := |inodes| - 1;
      assert forall d | 0 <= d < n :: inodes[..n][d] == inodes[d];
      TotalZero(inodes[..n], i);
    }
  }

  lemma OccSome(dir: seq<Dirent>, k: nat, i: nat)
    requires k < |dir| && Hit(dir[k], i) == 1
    ensures 1 <= Occ(dir, i)
  {
  }

  lemma TotalSome(inodes: seq<Inode>, d: nat, i: nat)
    requires d < |inodes|
    ensures Term(inodes[d], i) <= Total(inodes, i)
  {
  }

  lemma TotalTwo(inodes: seq<Inode>, d: nat, c: nat, i: nat)
    requires d < |inodes| && c < |inodes| && d != c
    ensures Term(inodes[d], i) + Term(inodes[c], i) <= Total(inodes, i)
  {
    TotalPut(inodes, d, NOINODE, i);
    TotalSome(inodes[d := NOINODE], c, i);
  }

  /** An empty directory counts for its parent only. */
  lemma {:induction false} OccEmptyDir(dir: seq<Dirent>, i: nat)
    requires 2 <= |dir| && Key(dir[0]) == "." && Key(dir[1]) == ".." && 0 < i && forall k | 2 <= k < |dir| :: dir[k].inum == 0
    ensures Occ(dir, i) == if dir[1].inum == i then 1 else 0
  {
    var n := |dir| - 1;
    if n > 1 {
      OccEmptyDir(dir[..n], i);
    } else {
      var dot := dir[..1];
      assert dot[..0] == [] && Occ(dot[..0], i) == 0 && Hit(dot[0], i) == 0;
      assert Occ(dot, i) == 0 && |".."| != |"."|;
    }
  }

  // ---------- the invariant ----------

  ghost predicate CountOk(inodes: seq<Inode>, pend: seq<nat>, i: nat) {
    && i < |inodes| == |pend|
    && inodes[i].nlink == Total(inodes, i) + pend[i] <= MAXLINK
    && (inodes[i].kind == Free ==> inodes[i] == NOINODE)
    && (inodes[i].kind == Dir ==> pend[i] == 0)
  }

  /** Entry `k` of directory `p` leads to directory `x`. */
  ghost predicate HangsAt(inodes: seq<Inode>, x: nat, p: nat, k: nat) {
    p < |inodes| && Linked(inodes[p]) && 2 <= k < |inodes[p].dir| && inodes[p].dir[k].inum == x
  }

  ghost predicate EntryOk(inodes: seq<Inode>, root: nat, at: map<nat, (nat, nat)>, x: nat, d: nat, k: nat) {
    && 0 < x < |inodes| && x != root && inodes[x].kind != Free
    && (inodes[x].kind == Dir ==> Linked(inodes[x]) && x in at && at[x] == (d, k))
  }

  ghost predicate DirOk(inodes: seq<Inode>, root: nat, at: map<nat, (nat, nat)>, d: nat)
    requires d < |inodes|
  {
    && 2 <= |inodes[d].dir| <= MAXENTRIES && Unique(inodes[d].dir)
    && Matches(inodes[d].dir[0], ".") && inodes[d].dir[0].inum == d && Matches(inodes[d].dir[1], "..")
    && (d == root ==> inodes[d].dir[1].inum == root)
    && (d != root ==> d in at && inodes[d].dir[1].inum == at[d].0 && HangsAt(inodes, d, at[d].0, at[d].1))
    && (forall k {:trigger inodes[d].dir[k]} | 2 <= k < |inodes[d].dir| && inodes[d].dir[k].inum != 0 ::
          EntryOk(inodes, root, at, inodes[d].dir[k].inum, d, k))
  }

  ghost predicate Inv(t: Tree) {
    && 0 < t.root < |t.inodes| == |t.pend| && Linked(t.inodes[t.root])
    && (forall i {:trigger CountOk(t.inodes, t.pend, i)} | 0 < i < |t.inodes| :: CountOk(t.inodes, t.pend, i))
    && (forall d {:trigger DirOk(t.inodes, t.root, t.at, d)} | 0 <= d < |t.inodes| && Linked(t.inodes[d]) ::
          DirOk(t.inodes, t.root, t.at, d))
    && !Linked(t.inodes[0])
  }

  // ---------- files ----------

  /** The count and the pending calls of a file move together. */
  lemma FileMoves(t: Tree, ip: nat, x: Inode, n: nat)
    requires Inv(t) && 0 < ip < |t.inodes| && t.inodes[ip].kind != Dir && x.kind != Dir && x.kind != Free
    requires t.inodes[ip].kind == Free || x.kind == t.inodes[ip].kind
    requires x.nlink - t.inodes[ip].nlink == n as int - t.pend[ip] as int && x.nlink <= MAXLINK
    ensures Inv(t.(inodes := t.inodes[ip := x], pend := t.pend[ip := n]))
  {
    var inodes', pend' := t.inodes[ip := x], t.pend[ip := n];
    forall i | 0 < i < |t.inodes|
      ensures CountOk(inodes', pend', i)
    {
      assert CountOk(t.inodes, t.pend, i);
      TotalPut(t.inodes, ip, x, i);
    }
    forall d | 0 <= d < |t.inodes| && Linked(inodes'[d])
      ensures DirOk(inodes', t.root, t.at, d)
    {
      assert DirOk(t.inodes, t.root, t.at, d);
    }
  }

  // ---------- entries come and go ----------

  ghost function PutIn(inodes: seq<Inode>, dp: nat, k: nat, e: Dirent): (r: seq<Inode>)
    requires dp < |inodes| && k <= |inodes[dp].dir|
  {
    inodes[dp := inodes[dp].(dir := Put(inodes[dp].dir, k, e))]
  }

  lemma TotalPutIn(inodes: seq<Inode>, dp: nat, k: nat, e: Dirent, i: nat)
    requires dp < |inodes| && k <= |inodes[dp].dir| && Linked(inodes[dp])
    ensures Total(PutIn(inodes, dp, k, e), i)
         == Total(inodes, i) + Hit(e, i) - if k < |inodes[dp].dir| then Hit(inodes[dp].dir[k], i) else 0
  {
    OccPut(inodes[dp].dir, k, e, i);
    TotalPut(inodes, dp, inodes[dp].(dir := Put(inodes[dp].dir, k, e)), i);
  }

  /** `e` can be put at place `k` of directory `dp`, as dirlink() does. */
  ghost predicate CanPut(inodes: seq<Inode>, dp: nat, k: nat, e: Dirent) {
    && 0 < dp < |inodes| && Linked(inodes[dp])
    && (if k < |inodes[dp].dir| then inodes[dp].dir[k].inum == 0 else k == |inodes[dp].dir| < MAXENTRIES)
    && e.inum != 0 && Look(inodes[dp].dir, Key(e)) == None
  }

  /** It is then neither of the first two places nor one of their names. */
  lemma NotDots(inodes: seq<Inode>, root: nat, at: map<nat, (nat, nat)>, dp: nat, k: nat, e: Dirent)
    requires CanPut(inodes, dp, k, e) && DirOk(inodes, root, at, dp)
    ensures 2 <= k && Key(e) != "." && Key(e) != ".."
  {
  }

  /** A pending link gets its entry. */
  lemma LinkDone(t: Tree, ip: nat, dp: nat, k: nat, e: Dirent)
    requires Inv(t) && 0 < ip < |t.inodes| && t.inodes[ip].kind != Dir && t.inodes[ip].kind != Free && 0 < t.pend[ip]
    requires CanPut(t.inodes, dp, k, e) && e.inum == ip
    ensures Inv(t.(inodes := PutIn(t.inodes, dp, k, e), pend := t.pend[ip := t.pend[ip] - 1]))
  {
    var inodes', pend' := PutIn(t.inodes, dp, k, e), t.pend[ip := t.pend[ip] - 1];
    assert DirOk(t.inodes, t.root, t.at, dp);
    NotDots(t.inodes, t.root, t.at, dp, k, e);
    forall i | 0 < i < |t.inodes|
      ensures CountOk(inodes', pend', i)
    {
      assert CountOk(t.inodes, t.pend, i);
      TotalPutIn(t.inodes, dp, k, e, i);
    }
    forall d | 0 <= d < |t.inodes| && Linked(inodes'[d])
      ensures DirOk(inodes', t.root, t.at, d)
    {
      if d == dp {
        LinkDoneParent(t, ip, dp, k, e);
      } else {
        assert DirOk(t.inodes, t.root, t.at, d);
      }
    }
  }

  lemma LinkDoneParent(t: Tree, ip: nat, dp: nat, k: nat, e: Dirent)
    requires Inv(t) && 0 < ip < |t.inodes| && t.inodes[ip].kind != Dir && t.inodes[ip].kind != Free
    requires CanPut(t.inodes, dp, k, e) && e.inum == ip && 2 <= k
    ensures DirOk(PutIn(t.inodes, dp, k, e), t.root, t.at, dp)
  {
    assert DirOk(t.inodes, t.root, t.at, dp);
    PutLooks(t.inodes[dp].dir, k, e, ".");
  }

  /** A new file is named in `dp`. */
  lemma MakeFile(t: Tree, x: nat, file: Inode, dp: nat, k: nat, e: Dirent)
    requires Inv(t) && 0 < x < |t.inodes| && t.inodes[x].kind == Free && file.kind != Free && file.kind != Dir && file.nlink == 1
    requires CanPut(t.inodes, dp, k, e) && e.inum == x
    ensures Inv(t.(inodes := t.inodes[x := file][dp := t.inodes[dp].(dir := Put(t.inodes[dp].dir, k, e))]))
  {
    assert CountOk(t.inodes, t.pend, x);
    FileMoves(t, x, file, 1);
    var t1 := t.(inodes := t.inodes[x := file], pend := t.pend[x := 1]);
    LinkDone(t1, x, dp, k, e);
    assert t1.pend[x := 0] == t.pend;
  }

  /** A file loses the entry `k` of `dp`. */
  lemma RemoveFile(t: Tree, x: nat, dp: nat, k: nat)
    requires Inv(t) && 0 < x < |t.inodes| && t.inodes[x].kind != Dir
    requires 0 < dp < |t.inodes| && Linked(t.inodes[dp]) && 2 <= k < |t.inodes[dp].dir| && t.inodes[dp].dir[k].inum == x
    ensures Inv(t.(inodes := PutIn(t.inodes, dp, k, NoEnt())[x := t.inodes[x].(nlink := t.inodes[x].nlink - 1)]))
    ensures x != dp && t.inodes[x].nlink >= 1
  {
    Unlinked(t, x, dp, k);
    assert CountOk(t.inodes, t.pend, x);
    var t1 := t.(inodes := PutIn(t.inodes, dp, k, NoEnt()), pend := t.pend[x := t.pend[x] + 1]);
    FileMoves(t1, x, t.inodes[x].(nlink := t.inodes[x].nlink - 1), t.pend[x]);
    assert t1.pend[x := t.pend[x]] == t.pend;
  }

  /** An entry of a file is cleared; the count is one too high until it is lowered. */
  lemma Unlinked(t: Tree, ip: nat, dp: nat, k: nat)
    requires Inv(t) && 0 < ip < |t.inodes| && t.inodes[ip].kind != Dir
    requires 0 < dp < |t.inodes| && Linked(t.inodes[dp]) && 2 <= k < |t.inodes[dp].dir| && t.inodes[dp].dir[k].inum == ip
    ensures Inv(t.(inodes := PutIn(t.inodes, dp, k, NoEnt()), pend := t.pend[ip := t.pend[ip] + 1]))
    ensures t.inodes[ip].nlink >= 1 && t.inodes[ip].kind != Free
  {
    var inodes', pend' := PutIn(t.inodes, dp, k, NoEnt()), t.pend[ip := t.pend[ip] + 1];
    assert DirOk(t.inodes, t.root, t.at, dp);
    NotNamedDot(t.inodes[dp].dir, k);
    EntryCounts(t.inodes, dp, k, ip);
    forall i | 0 < i < |t.inodes|
      ensures CountOk(inodes', pend', i)
    {
      assert CountOk(t.inodes, t.pend, i);
      TotalPutIn(t.inodes, dp, k, NoEnt(), i);
    }
    assert CountOk(t.inodes, t.pend, ip);
    forall d | 0 <= d < |t.inodes| && Linked(inodes'[d])
      ensures DirOk(inodes', t.root, t.at, d)
    {
      assert DirOk(t.inodes, t.root, t.at, d);
      if d == dp {
        ClearLooks(t.inodes[dp].dir, k, ".");
      }
    }
  }

  lemma NotNamedDot(dir: seq<Dirent>, k: nat)
    requires 2 <= k < |dir| && Unique(dir) && Matches(dir[0], ".") && Matches(dir[1], "..") && dir[k].inum != 0
    ensures Key(dir[k]) != "." && Key(dir[k]) != ".."
  {
  }

  lemma EntryCounts(inodes: seq<Inode>, d: nat, k: nat, i: nat)
    requires d < |inodes| && Linked(inodes[d]) && k < |inodes[d].dir| && inodes[d].dir[k].inum == i && Key(inodes[d].dir[k]) != "."
    ensures 1 <= Total(inodes, i)
  {
    OccSome(inodes[d].dir, k, i);
    TotalSome(inodes, d, i);
  }

  /** iput() frees an inode that nothing points to. */
  lemma FreeKeeps(t: Tree, ip: nat)
    requires Inv(t) && 0 < ip < |t.inodes| && t.inodes[ip].nlink == 0
    ensures Inv(t.(inodes := t.inodes[ip := NOINODE]))
  {
    var inodes' := t.inodes[ip := NOINODE];
    assert CountOk(t.inodes, t.pend, ip);
    forall i | 0 < i < |t.inodes|
      ensures CountOk(inodes', t.pend, i)
    {
      assert CountOk(t.inodes, t.pend, i);
      TotalPut(t.inodes, ip, NOINODE, i);
    }
    forall d | 0 <= d < |t.inodes| && Linked(inodes'[d])
      ensures DirOk(inodes', t.root, t.at, d)
    {
      assert DirOk(t.inodes, t.root, t.at, d);
      forall k | 2 <= k < |t.inodes[d].dir| && t.inodes[d].dir[k].inum != 0
        ensures t.inodes[d].dir[k].inum != ip
      {
        NotNamedDot(t.inodes[d].dir, k);
        if t.inodes[d].dir[k].inum == ip {
          EntryCounts(t.inodes, d, k, ip);
        }
      }
    }
  }

  // ---------- directories come and go ----------

  /** What create() leaves for a new directory `x` in `dp`: the child with its two entries, the parent with one more. */
  ghost function WithDir(inodes: seq<Inode>, x: nat, dots: seq<Dirent>, dp: nat, k: nat, e: Dirent): (r: seq<Inode>)
    requires x < |inodes| && dp < |inodes| && x != dp && k <= |inodes[dp].dir|
  {
    inodes[x := Inode(Dir, 1, dots)]
          [dp := inodes[dp].(nlink := inodes[dp].nlink + 1, dir := Put(inodes[dp].dir, k, e))]
  }

  ghost predicate AreDots(dots: seq<Dirent>, x: nat, dp: nat) {
    |dots| == 2 && Matches(dots[0], ".") && dots[0].inum == x && Matches(dots[1], "..") && dots[1].inum == dp
  }

  lemma TotalWithDir(inodes: seq<Inode>, x: nat, dots: seq<Dirent>, dp: nat, k: nat, e: Dirent, i: nat)
    requires x < |inodes| && x != dp && !Linked(inodes[x]) && AreDots(dots, x, dp) && 0 < i
    requires CanPut(inodes, dp, k, e) && e.inum == x && Key(e) != "." && 0 < inodes[dp].nlink
    ensures Total(WithDir(inodes, x, dots, dp, k, e), i)
         == Total(inodes, i) + (if i == dp then 1 else 0) + (if i == x then 1 else 0)
  {
    var child := Inode(Dir, 1, dots);
    TotalPut(inodes, x, child, i);
    OccEmptyDir(dots, i);
    var inodes1 := inodes[x := child];
    TotalPut(inodes1, dp, WithDir(inodes, x, dots, dp, k, e)[dp], i);
    OccPut(inodes[dp].dir, k, e, i);
  }

  lemma MakeDir(t: Tree, x: nat, dots: seq<Dirent>, dp: nat, k: nat, e: Dirent)
    requires Inv(t) && 0 < x < |t.inodes| && t.inodes[x].kind == Free && AreDots(dots, x, dp)
    requires CanPut(t.inodes, dp, k, e) && e.inum == x && t.inodes[dp].nlink < MAXLINK
    ensures Inv(t.(inodes := WithDir(t.inodes, x, dots, dp, k, e), at := t.at[x := (dp, k)]))
  {
    var inodes', at' := WithDir(t.inodes, x, dots, dp, k, e), t.at[x := (dp, k)];
    assert DirOk(t.inodes, t.root, t.at, dp) && CountOk(t.inodes, t.pend, dp) && CountOk(t.inodes, t.pend, x);
    NotDots(t.inodes, t.root, t.at, dp, k, e);
    forall i | 0 < i < |t.inodes|
      ensures CountOk(inodes', t.pend, i)
    {
      assert CountOk(t.inodes, t.pend, i);
      TotalWithDir(t.inodes, x, dots, dp, k, e, i);
    }
    forall d | 0 <= d < |t.inodes| && Linked(inodes'[d])
      ensures DirOk(inodes', t.root, at', d)
    {
      if d == x {
        assert HangsAt(inodes', x, dp, k);
      } else if d == dp {
        MakeDirParent(t, x, dots, dp, k, e);
      } else {
        MakeDirOther(t, x, dots, dp, k, e, d);
      }
    }
  }

  lemma MakeDirOther(t: Tree, x: nat, dots: seq<Dirent>, dp: nat, k: nat, e: Dirent, d: nat)
    requires Inv(t) && 0 < x < |t.inodes| && t.inodes[x].kind == Free && AreDots(dots, x, dp)
    requires CanPut(t.inodes, dp, k, e) && e.inum == x && 2 <= k && 0 < t.inodes[dp].nlink
    requires d < |t.inodes| && d != x && d != dp && Linked(t.inodes[d])
    ensures DirOk(WithDir(t.inodes, x, dots, dp, k, e), t.root, t.at[x := (dp, k)], d)
  {
    assert DirOk(t.inodes, t.root, t.at, d);
  }

  lemma MakeDirParent(t: Tree, x: nat, dots: seq<Dirent>, dp: nat, k: nat, e: Dirent)
    requires Inv(t) && 0 < x < |t.inodes| && t.inodes[x].kind == Free && AreDots(dots, x, dp)
    requires CanPut(t.inodes, dp, k, e) && e.inum == x && 2 <= k && 0 < t.inodes[dp].nlink && x != t.root
    ensures DirOk(WithDir(t.inodes, x, dots, dp, k, e), t.root, t.at[x := (dp, k)], dp)
  {
    assert DirOk(t.inodes, t.root, t.at, dp);
    PutLooks(t.inodes[dp].dir, k, e, ".");
  }

  /** What sys_unlink() leaves when it removes the directory `x` at entry `k` of `dp`. */
  ghost function WithoutDir(inodes: seq<Inode>, x: nat, dp: nat, k: nat): (r: seq<Inode>)
    requires x < |inodes| && dp < |inodes| && x != dp && k < |inodes[dp].dir|
  {
    inodes[dp := inodes[dp].(nlink := inodes[dp].nlink - 1, dir := inodes[dp].dir[k := NoEnt()])]
          [x := inodes[x].(nlink := inodes[x].nlink - 1)]
  }

  /** `x` is an empty directory at entry `k` of `dp`. */
  ghost predicate EmptyAt(t: Tree, x: nat, dp: nat, k: nat) {
    && 0 < x < |t.inodes| && t.inodes[x].kind == Dir && 0 < dp < |t.inodes| && Linked(t.inodes[dp])
    && 2 <= k < |t.inodes[dp].dir| && t.inodes[dp].dir[k].inum == x
    && forall j | 2 <= j < |t.inodes[x].dir| :: t.inodes[x].dir[j].inum == 0
  }

  /** Such a directory has one entry and no other directory hangs from it. */
  lemma EmptyFacts(t: Tree, x: nat, dp: nat, k: nat)
    requires Inv(t) && EmptyAt(t, x, dp, k)
    ensures x != dp && x != t.root && Linked(t.inodes[x]) && x in t.at && t.at[x] == (dp, k)
    ensures DirOk(t.inodes, t.root, t.at, x) && t.inodes[x].dir[1].inum == dp
    ensures forall d | 0 <= d < |t.inodes| && Linked(t.inodes[d]) :: |t.inodes[d].dir| >= 2 && t.inodes[d].dir[1].inum != x
  {
    assert DirOk(t.inodes, t.root, t.at, dp) && t.inodes[dp].dir[k].inum == x;
    assert DirOk(t.inodes, t.root, t.at, x);
    forall d | 0 <= d < |t.inodes| && Linked(t.inodes[d])
      ensures |t.inodes[d].dir| >= 2 && t.inodes[d].dir[1].inum != x
    {
      assert DirOk(t.inodes, t.root, t.at, d);
    }
  }

  /** Nothing but that entry counts for it. */
  lemma EmptyOnce(t: Tree, x: nat, dp: nat, k: nat)
    requires Inv(t) && EmptyAt(t, x, dp, k)
    ensures Total(PutIn(t.inodes, dp, k, NoEnt()), x) == 0
  {
    EmptyFacts(t, x, dp, k);
    var inodes1 := PutIn(t.inodes, dp, k, NoEnt());
    forall d | 0 <= d < |t.inodes|
      ensures Term(inodes1[d], x) == 0
    {
      if Linked(inodes1[d]) {
        assert DirOk(t.inodes, t.root, t.at, d);
        var dir := inodes1[d].dir;
        forall j | 0 <= j < |dir|
          ensures Hit(dir[j], x) == 0
        {
          if d != dp || j != k {
            assert dir[j] == t.inodes[d].dir[j];
          }
        }
        OccZero(dir, x);
      }
    }
    TotalZero(inodes1, x);
  }

  /** The parent counts for the child's ".." and for where it hangs itself. */
  lemma ParentTwice(t: Tree, x: nat, dp: nat, k: nat)
    requires Inv(t) && EmptyAt(t, x, dp, k)
    ensures 2 <= Total(t.inodes, dp)
  {
    EmptyFacts(t, x, dp, k);
    assert DirOk(t.inodes, t.root, t.at, dp);
    OccSome(t.inodes[x].dir, 1, dp);
    if dp == t.root {
      OccSome(t.inodes[dp].dir, 1, dp);
      TotalTwo(t.inodes, x, dp, dp);
    } else {
      var (p, j) := t.at[dp];
      assert DirOk(t.inodes, t.root, t.at, p);
      NotNamedDot(t.inodes[p].dir, j);
      OccSome(t.inodes[p].dir, j, dp);
      TotalTwo(t.inodes, x, p, dp);
    }
  }

  lemma TotalWithoutDir(t: Tree, x: nat, dp: nat, k: nat, i: nat)
    requires Inv(t) && EmptyAt(t, x, dp, k) && x != dp && 0 < i < |t.inodes|
    requires t.inodes[x].nlink == 1 && 2 <= t.inodes[dp].nlink
    ensures Total(WithoutDir(t.inodes, x, dp, k), i)
         == Total(t.inodes, i) - (if i == dp then 1 else 0) - (if i == x then 1 else 0)
  {
    EmptyFacts(t, x, dp, k);
    assert DirOk(t.inodes, t.root, t.at, dp);
    NotNamedDot(t.inodes[dp].dir, k);
    var dp' := WithoutDir(t.inodes, x, dp, k)[dp];
    TotalPut(t.inodes, dp, dp', i);
    OccPut(t.inodes[dp].dir, k, NoEnt(), i);
    TotalPut(t.inodes[dp := dp'], x, t.inodes[x].(nlink := 0), i);
    OccEmptyDir(t.inodes[x].dir, i);
  }

  /** Removing an empty directory: its count falls to zero and its parent's by one, and nothing panics on the way. */
  lemma RemoveDir(t: Tree, x: nat, dp: nat, k: nat)
    requires Inv(t) && EmptyAt(t, x, dp, k)
    ensures x != dp && t.inodes[x].nlink == 1
    ensures Inv(t.(inodes := WithoutDir(t.inodes, x, dp, k)))
  {
    EmptyFacts(t, x, dp, k);
    EmptyOnce(t, x, dp, k);
    assert DirOk(t.inodes, t.root, t.at, dp);
    NotNamedDot(t.inodes[dp].dir, k);
    TotalPutIn(t.inodes, dp, k, NoEnt(), x);
    ParentTwice(t, x, dp, k);
    assert CountOk(t.inodes, t.pend, x) && CountOk(t.inodes, t.pend, dp);
    var inodes' := WithoutDir(t.inodes, x, dp, k);
    forall i | 0 < i < |t.inodes|
      ensures CountOk(inodes', t.pend, i)
    {
      assert CountOk(t.inodes, t.pend, i);
      TotalWithoutDir(t, x, dp, k, i);
    }
    forall d | 0 <= d < |t.inodes| && Linked(inodes'[d])
      ensures DirOk(inodes', t.root, t.at, d)
    {
      RemoveDirOther(t, x, dp, k, d);
    }
  }

  lemma RemoveDirOther(t: Tree, x: nat, dp: nat, k: nat, d: nat)
    requires Inv(t) && EmptyAt(t, x, dp, k) && x != dp && 2 <= t.inodes[dp].nlink
    requires d < |t.inodes| && d != x && Linked(t.inodes[d])
    ensures DirOk(WithoutDir(t.inodes, x, dp, k), t.root, t.at, d)
  {
    EmptyFacts(t, x, dp, k);
    assert DirOk(t.inodes, t.root, t.at, d);
    if d == dp {
      ClearLooks(t.inodes[dp].dir, k, ".");
    }
  }

  // ---------- how far counts go ----------

  /** In a directory that names `i` at most at `own`, only ".." counts besides. */
  lemma {:induction false} OccFew(dir: seq<Dirent>, i: nat, own: int)
    requires 2 <= |dir| && Key(dir[0]) == "."
    requires forall k | 2 <= k < |dir| && dir[k].inum == i :: k == own
    ensures Occ(dir, i) <= (if dir[1].inum == i then 1 else 0) + (if 2 <= own < |dir| then 1 else 0)
  {
    var n := |dir| - 1;
    if n > 1 {
      OccFew(dir[..n], i, own);
    } else {
      var dot := dir[..1];
      assert dot[..0] == [] && Occ(dot[..0], i) == 0 && Hit(dot[0], i) == 0;
      assert Occ(dot, i) == 0;
    }
  }

  /** The linked directories among the first `n` inodes whose ".." is `i`. */
  ghost function Kids(inodes: seq<Inode>, i: nat, n: nat): set<nat>
    requires n <= |inodes|
  {
    set y | 0 <= y < n && Linked(inodes[y]) && 2 <= |inodes[y].dir| && inodes[y].dir[1].inum == i
  }

  lemma KidsNext(inodes: seq<Inode>, i: nat, n: nat)
    requires n < |inodes|
    ensures |Kids(inodes, i, n + 1)| == |Kids(inodes, i, n)|
         + if Linked(inodes[n]) && 2 <= |inodes[n].dir| && inodes[n].dir[1].inum == i then 1 else 0
  {
    var kids := Kids(inodes, i, n);
    assert Kids(inodes, i, n + 1)
        == if Linked(inodes[n]) && 2 <= |inodes[n].dir| && inodes[n].dir[1].inum == i then kids + {n} else kids;
  }

  ghost predicate HangsFrom(t: Tree, i: nat, d: nat) {
    i != t.root && i in t.at && t.at[i].0 == d
  }

  lemma TermFew(t: Tree, i: nat, d: nat)
    requires Inv(t) && 0 < i < |t.inodes| && Linked(t.inodes[i]) && d < |t.inodes| && Linked(t.inodes[d])
    ensures 2 <= |t.inodes[d].dir|
    ensures Term(t.inodes[d], i) <= (if t.inodes[d].dir[1].inum == i then 1 else 0) + (if HangsFrom(t, i, d) then 1 else 0)
  {
    assert DirOk(t.inodes, t.root, t.at, d);
    OccFew(t.inodes[d].dir, i, if HangsFrom(t, i, d) then t.at[i].1 else 0);
  }

  lemma {:induction false} TotalFew(t: Tree, i: nat, n: nat)
    requires Inv(t) && 0 < i && n <= |t.inodes| && i < |t.inodes| && Linked(t.inodes[i])
    ensures Total(t.inodes[..n], i) <= |Kids(t.inodes, i, n)| + if i != t.root && i in t.at && t.at[i].0 < n then 1 else 0
  {
    if n > 0 {
      var m := n - 1;
      TotalFew(t, i, m);
      assert t.inodes[..n][..m] == t.inodes[..m];
      KidsNext(t.inodes, i, m);
      if Linked(t.inodes[m]) {
        TermFew(t, i, m);
      }
    }
  }

  ghost function Named(dir: seq<Dirent>, n: nat): set<nat>
    requires n <= |dir|
  {
    set k | 2 <= k < n :: dir[k].inum
  }

  lemma {:induction false} NamedSize(dir: seq<Dirent>, n: nat)
    requires 2 <= n <= |dir|
    ensures |Named(dir, n)| <= n - 2
  {
    if n > 2 {
      NamedSize(dir, n - 1);
      assert Named(dir, n) == Named(dir, n - 1) + {dir[n - 1].inum};
    }
  }

  /** A directory has fewer links than entries, since each of its subdirectories takes one. */
  lemma FewLinks(t: Tree, d: nat)
    requires Inv(t) && 0 < d < |t.inodes| && Linked(t.inodes[d])
    ensures t.inodes[d].nlink < |t.inodes[d].dir| <= MAXENTRIES < MAXLINK
  {
    var n, dir := |t.inodes|, t.inodes[d].dir;
    assert CountOk(t.inodes, t.pend, d) && DirOk(t.inodes, t.root, t.at, d);
    TotalFew(t, d, n);
    assert t.inodes[..n] == t.inodes;
    var kids := Kids(t.inodes, d, n);
    forall y | y in kids && y != t.root
      ensures y in Named(dir, |dir|)
    {
      assert DirOk(t.inodes, t.root, t.at, y);
      assert dir[t.at[y].1].inum == y;
    }
    assert DirOk(t.inodes, t.root, t.at, t.root);
    SubsetSize(kids - {t.root}, Named(dir, |dir|));
    NamedSize(dir, |dir|);
    assert kids - {t.root} == if d == t.root then kids - {d} else kids;
  }

  // ---------- the system calls ----------

  datatype Result = Done | Failed | Panic

  lemma InitTree(n: nat, dots: seq<Dirent>)
    requires 2 <= n && AreDots(dots, 1, 1)
    ensures Inv(Tree(seq(n, _ => NOINODE)[1 := Inode(Dir, 1, dots)], 1, map[], seq(n, _ => 0)))
  {
    var none, pend := seq(n, _ => NOINODE), seq(n, _ => 0);
    var inodes := none[1 := Inode(Dir, 1, dots)];
    forall i | 0 < i < n
      ensures CountOk(inodes, pend, i)
    {
      TotalZero(none, i);
      TotalPut(none, 1, inodes[1], i);
      OccEmptyDir(dots, i);
    }
    assert DirOk(inodes, 1, map[], 1);
  }

  lemma DotNames()
    ensures Canon(".", DIRSIZ) == "." && Canon("..", DIRSIZ) == ".."
  {
  }

  /** Every entry in use of a linked directory leads to an inode in use. */
  lemma EntryInRange(t: Tree, d: nat, k: nat)
    requires Inv(t) && d < |t.inodes| && Linked(t.inodes[d]) && k < |t.inodes[d].dir| && t.inodes[d].dir[k].inum != 0
    ensures 0 < t.inodes[d].dir[k].inum < |t.inodes| && t.inodes[t.inodes[d].dir[k].inum].kind != Free
    ensures k < 2 <==> Key(t.inodes[d].dir[k]) == "." || Key(t.inodes[d].dir[k]) == ".."
  {
    assert DirOk(t.inodes, t.root, t.at, d);
    if 2 <= k {
      NotNamedDot(t.inodes[d].dir, k);
    }
  }

  class Calls {
    var inodes: seq<Inode>
    const root: nat
    ghost var at: map<nat, (nat, nat)>
    ghost var pend: seq<nat>

    ghost function Value(): (r: Tree)
      reads this
    {
      Tree(inodes, root, at, pend)
    }

    ghost predicate Valid()
      reads this
    {
      Inv(Value())
    }

    ghost predicate IsDir(d: nat)
      reads this
    {
      0 < d < |inodes| && Linked(inodes[d])
    }

    /** A file system with nothing in it but the root directory, its own parent. */
    constructor (n: nat)
      requires 2 <= n
      ensures Valid() && root == 1 && |inodes| == n
    {
      root, at, pend := 1, map[], seq(n, _ => 0);
      new;
      var ok, dots := MakeDots(1, 1, true);
      inodes := seq(n, _ => NOINODE)[1 := Inode(Dir, 1, dots)];
      InitTree(n, dots);
    }

    /** The two entries of a new directory; `room` says whether the disk has a block for them. */
    method MakeDots(x: nat, dp: nat, room: bool) returns (ok: bool, dots: seq<Dirent>)
      requires 0 < x && 0 < dp
      ensures ok == room && (ok ==> AreDots(dots, x, dp))
    {
      DotNames();
      ghost var k;
      ok, dots, k := DirLink([], ".", x, room);
      if ok {
        assert dots == [dots[0]] && Matches(dots[0], ".");
        ok, dots, k := DirLink(dots, "..", dp, room);
      }
    }

    /** create() from the entry on: the new inode `x` is named in `dp`, or given up. */
    method AddNew(dp: nat, name: seq<char>, kind: Kind, x: nat, dots: seq<Dirent>, room: bool) returns (ok: bool)
      requires Valid() && IsDir(dp) && kind != Free && 0 < x < |inodes| && inodes[x].kind == Free
      requires kind == Dir ==> AreDots(dots, x, dp)
      modifies this`inodes, this`at
      ensures ok <==> CanAdd(old(inodes)[dp].dir, Canon(name, DIRSIZ), room)
      ensures !ok ==> inodes == old(inodes) && at == old(at)
      ensures ok ==> Added(old(inodes), inodes, dp, Canon(name, DIRSIZ), x) && inodes[x].kind == kind
      ensures Valid()
    {
      ghost var t := Value();
      assert CountOk(inodes, pend, x) && CountOk(inodes, pend, dp) && DirOk(t.inodes, t.root, t.at, dp);
      var dir';
      ghost var k;
      ok, dir', k := DirLink(inodes[dp].dir, name, x, room);
      if !ok {
        return;
      }
      ghost var e :| Matches(e, Canon(name, DIRSIZ)) && e.inum == x && dir' == Put(inodes[dp].dir, k, e);
      PutMany(t.inodes[dp].dir, k, e);
      if kind == Dir {
        inodes := inodes[x := Inode(kind, 1, dots)][dp := inodes[dp].(dir := dir', nlink := Inc(inodes[dp].nlink))];
        at := at[x := (dp, k)];
        FewLinks(t, dp);
        MakeDir(t, x, dots, dp, k, e);
        assert inodes == WithDir(t.inodes, x, dots, dp, k, e);
      } else {
        MakeFile(t, x, Inode(kind, 1, dots), dp, k, e);
        inodes := inodes[x := Inode(kind, 1, dots)][dp := inodes[dp].(dir := dir')];
      }
    }

    /** create() in the linked directory `dp`, given the free inode `x` that ialloc() found, or 0. A failure changes
        nothing. A success adds one name and leaves the others. Counts stay right, since a directory runs out of entries
        before its count runs out of shorts. */
    method Create(dp: nat, name: seq<char>, kind: Kind, x: nat, roomDots: bool, room: bool) returns (ip: nat)
      requires Valid() && IsDir(dp) && kind != Free && (x != 0 ==> x < |inodes| && inodes[x].kind == Free)
      modifies this`inodes, this`at
      ensures ip == 0 || ip != x ==> inodes == old(inodes) && at == old(at)
      ensures ip != 0 && ip == x <==>
        && x != 0 && (kind == Dir ==> roomDots) && CanAdd(old(inodes)[dp].dir, Canon(name, DIRSIZ), room)
      ensures ip != 0 && ip != x <==>
        && kind == File && Look(old(inodes)[dp].dir, Canon(name, DIRSIZ)).Some?
        && old(inodes)[Reach(old(inodes), dp, Canon(name, DIRSIZ))].kind in {File, Device}
      ensures ip != 0 && ip != x ==> ip == Reach(old(inodes), dp, Canon(name, DIRSIZ))
      ensures ip != 0 && ip == x ==> Added(old(inodes), inodes, dp, Canon(name, DIRSIZ), x) && inodes[x].kind == kind
      ensures Valid()
    {
      var off := DirLookup(inodes[dp].dir, name);
      if off < |inodes[dp].dir| {
        EntryInRange(Value(), dp, off);
        ip := inodes[dp].dir[off].inum;
        if kind == File && (inodes[ip].kind == File || inodes[ip].kind == Device) {
          return;
        }
        return 0;
      }
      if x == 0 {
        return 0;
      }
      var ok, dots := true, [];
      if kind == Dir {
        ok, dots := MakeDots(x, dp, roomDots);
        if !ok {
          return 0;
        }
      }
      ok := AddNew(dp, name, kind, x, dots, room);
      return if ok then x else 0;
    }

    /** The first half of sys_link(): the count goes up before there is an entry. It stays right exactly if it was below the
        largest short. */
    method LinkBegin(ip: nat) returns (r: Result)
      requires Valid() && 0 < ip < |inodes| && inodes[ip].kind != Free
      modifies this`inodes, this`pend
      ensures r == Failed <==> old(inodes)[ip].kind == Dir
      ensures r == Failed ==> inodes == old(inodes) && pend == old(pend)
      ensures r != Failed ==> pend == old(pend)[ip := old(pend)[ip] + 1]
      ensures r != Failed ==> inodes == old(inodes)[ip := old(inodes)[ip].(nlink := Inc(old(inodes)[ip].nlink))]
      ensures Valid() <==> r == Failed || old(inodes)[ip].nlink < MAXLINK
      ensures r != Panic
    {
      if inodes[ip].kind == Dir {
        return Failed;
      }
      ghost var t := Value();
      assert CountOk(inodes, pend, ip);
      var x := inodes[ip].(nlink := Inc(inodes[ip].nlink));
      inodes, pend := inodes[ip := x], pend[ip := pend[ip] + 1];
      if t.inodes[ip].nlink < MAXLINK {
        FileMoves(t, ip, x, t.pend[ip] + 1);
      } else {
        Overflow(t, ip, Value());
      }
      return Done;
    }

    /** The second half of sys_link(): the entry is made in `dp`, the directory nameiparent() found, or 0; or the count goes
        down again. */
    method LinkEnd(ip: nat, dp: nat, name: seq<char>, room: bool) returns (r: Result)
      requires Valid() && 0 < ip < |inodes| && inodes[ip].kind != Dir && 0 < pend[ip] && (dp != 0 ==> IsDir(dp))
      modifies this`inodes, this`pend
      ensures Valid() && pend == old(pend)[ip := old(pend)[ip] - 1]
      ensures r == Done <==> dp != 0 && CanAdd(old(inodes)[dp].dir, Canon(name, DIRSIZ), room)
      ensures r == Done ==> Added(old(inodes), inodes, dp, Canon(name, DIRSIZ), ip) && inodes[ip] == old(inodes)[ip]
      ensures r == Failed ==> inodes == old(inodes)[ip := old(inodes)[ip].(nlink := old(inodes)[ip].nlink - 1)]
      ensures r != Panic
    {
      ghost var t := Value();
      assert CountOk(inodes, pend, ip);
      if dp != 0 {
        var ok, dir';
        ghost var k;
        ok, dir', k := DirLink(inodes[dp].dir, name, ip, room);
        if ok {
          ghost var e :| Matches(e, Canon(name, DIRSIZ)) && e.inum == ip && dir' == Put(inodes[dp].dir, k, e);
          assert DirOk(t.inodes, t.root, t.at, dp);
          PutMany(inodes[dp].dir, k, e);
          LinkDone(t, ip, dp, k, e);
          inodes, pend := inodes[dp := inodes[dp].(dir := dir')], pend[ip := pend[ip] - 1];
          return Done;
        }
      }
      var x := inodes[ip].(nlink := inodes[ip].nlink - 1);
      FileMoves(t, ip, x, pend[ip] - 1);
      inodes, pend := inodes[ip := x], pend[ip := pend[ip] - 1];
      return Failed;
    }

    /** sys_unlink() from the cleared entry on. */
    method Drop(dp: nat, off: nat, ip: nat)
      requires Valid() && IsDir(dp) && 2 <= off < |inodes[dp].dir| && inodes[dp].dir[off].inum == ip && 0 < ip < |inodes|
      requires inodes[ip].kind == Dir ==> forall k | 2 <= k < |inodes[ip].dir| :: inodes[ip].dir[k].inum == 0
      modifies this`inodes
      ensures Valid() && ip != dp && |inodes| == |old(inodes)|
      ensures inodes[ip] == old(inodes)[ip].(nlink := old(inodes)[ip].nlink - 1)
      ensures inodes[dp].dir == old(inodes)[dp].dir[off := NoEnt()]
      ensures inodes[ip].kind == Dir ==> inodes[ip].nlink == 0 && inodes[dp].nlink == old(inodes)[dp].nlink - 1
      ensures forall d | 0 <= d < |inodes| && d != dp && d != ip :: inodes[d] == old(inodes)[d]
    {
      ghost var t := Value();
      if inodes[ip].kind == Dir {
        RemoveDir(t, ip, dp, off);
      } else {
        RemoveFile(t, ip, dp, off);
      }
      inodes := inodes[dp := inodes[dp].(dir := inodes[dp].dir[off := NoEnt()])];
      if inodes[ip].kind == Dir {
        inodes := inodes[dp := inodes[dp].(nlink := inodes[dp].nlink - 1)];
      }
      inodes := inodes[ip := inodes[ip].(nlink := inodes[ip].nlink - 1)];
      assert t.inodes[ip].kind == Dir ==> inodes == WithoutDir(t.inodes, ip, dp, off);
    }

    /** sys_unlink() in the linked directory `dp`. It never meets a count below one. A success takes one name away and leaves
        the others; a directory must be empty, and its count falls to zero. */
    method Unlink(dp: nat, name: seq<char>) returns (r: Result)
      requires Valid() && IsDir(dp)
      modifies this`inodes
      ensures Valid() && r != Panic
      ensures r == Failed ==> inodes == old(inodes)
      ensures r == Done <==> CanUnlink(old(inodes), dp, Canon(name, DIRSIZ))
      ensures r == Done ==> Removed(old(inodes), inodes, dp, Canon(name, DIRSIZ))
    {
      DotNames();
      var c := Strncmp(name, ".", DIRSIZ);
      var cc := Strncmp(name, "..", DIRSIZ);
      if c == 0 || cc == 0 {
        return Failed;
      }
      var off := DirLookup(inodes[dp].dir, name);
      if off == |inodes[dp].dir| {
        return Failed;
      }
      EntryInRange(Value(), dp, off);
      var ip := inodes[dp].dir[off].inum;
      EntryCounts(inodes, dp, off, ip);
      assert CountOk(inodes, pend, ip) && DirOk(inodes, root, at, dp);
      if inodes[ip].nlink < 1 {
        return Panic;
      }
      if inodes[ip].kind == Dir {
        var empty := IsDirEmpty(inodes[ip].dir);
        if !empty {
          return Failed;
        }
      }
      ClearMany(inodes[dp].dir, off);
      Drop(dp, off, ip);
      return Done;
    }

    /** iput(): the last reference to an inode without links frees it. No entry can lead to it. */
    method Iput(ip: nat, last: bool)
      requires Valid() && 0 < ip < |inodes|
      modifies this`inodes
      ensures Valid()
      ensures inodes == if last && old(inodes)[ip].nlink == 0 then old(inodes)[ip := NOINODE] else old(inodes)
      ensures last && old(inodes)[ip].nlink == 0 ==> NoEntry(inodes, ip)
    {
      if last && inodes[ip].nlink == 0 {
        FreeKeeps(Value(), ip);
        inodes := inodes[ip := NOINODE];
        Unnamed(Value(), ip);
      }
    }
  }

  /** No linked directory has an entry for `ip`. */
  ghost predicate NoEntry(inodes: seq<Inode>, ip: nat) {
    forall d, k | 0 <= d < |inodes| && Linked(inodes[d]) && 0 <= k < |inodes[d].dir| :: inodes[d].dir[k].inum != ip
  }

  lemma Unnamed(t: Tree, ip: nat)
    requires Inv(t) && 0 < ip < |t.inodes| && t.inodes[ip].kind == Free
    ensures NoEntry(t.inodes, ip)
  {
    forall d, k | 0 <= d < |t.inodes| && Linked(t.inodes[d]) && 0 <= k < |t.inodes[d].dir|
      ensures t.inodes[d].dir[k].inum != ip
    {
      if t.inodes[d].dir[k].inum != 0 {
        EntryInRange(t, d, k);
      }
    }
  }

  /** The inode a name leads to. */
  ghost function Reach(inodes: seq<Inode>, dp: nat, key: seq<char>): nat
    requires dp < |inodes|
  {
    if Look(inodes[dp].dir, key).Some? && Look(inodes[dp].dir, key).value < |inodes| then Look(inodes[dp].dir, key).value else 0
  }

  /** In directory `dp` the name leads to `x` now, and every other name leads where it did. */
  ghost predicate Added(inodes: seq<Inode>, inodes': seq<Inode>, dp: nat, key: seq<char>, x: nat) {
    && dp < |inodes| == |inodes'|
    && (forall other {:trigger Look(inodes'[dp].dir, other)} ::
          Look(inodes'[dp].dir, other) == if other == key then Some(x) else Look(inodes[dp].dir, other))
    && (forall d | 0 <= d < |inodes| && d != dp && d != x :: inodes'[d] == inodes[d])
  }

  ghost predicate CanUnlink(inodes: seq<Inode>, dp: nat, key: seq<char>) {
    && dp < |inodes| && key != "." && key != ".." && Look(inodes[dp].dir, key).Some?
    && Look(inodes[dp].dir, key).value < |inodes|
    && (inodes[Look(inodes[dp].dir, key).value].kind == Dir ==>
          forall k | 2 <= k < |inodes[Look(inodes[dp].dir, key).value].dir| ::
            inodes[Look(inodes[dp].dir, key).value].dir[k].inum == 0)
  }

  ghost predicate Removed(inodes: seq<Inode>, inodes': seq<Inode>, dp: nat, key: seq<char>)
    requires CanUnlink(inodes, dp, key)
  {
    var x := Look(inodes[dp].dir, key).value;
    && |inodes'| == |inodes|
    && (forall other {:trigger Look(inodes'[dp].dir, other)} ::
          Look(inodes'[dp].dir, other) == if other == key then None else Look(inodes[dp].dir, other))
    && inodes'[x] == inodes[x].(nlink := inodes[x].nlink - 1)
    && (inodes[x].kind == Dir ==> inodes'[x].nlink == 0 && inodes'[dp].nlink == inodes[dp].nlink - 1)
    && (forall d | 0 <= d < |inodes| && d != dp && d != x :: inodes'[d] == inodes[d])
  }

  /** dirlink() finds the name new and a place for it. */
  ghost predicate CanAdd(dir: seq<Dirent>, key: seq<char>, room: bool) {
    Look(dir, key) == None && (Slot(dir, 0) < |dir| || (room && |dir| < MAXENTRIES))
  }

  lemma PutMany(dir: seq<Dirent>, k: nat, e: Dirent)
    requires Unique(dir) && k <= |dir| && (k < |dir| ==> dir[k].inum == 0) && e.inum != 0 && Look(dir, Key(e)) == None
    ensures forall key {:trigger Look(Put(dir, k, e), key)} ::
              Look(Put(dir, k, e), key) == if key == Key(e) then Some(e.inum) else Look(dir, key)
  {
    forall key
      ensures Look(Put(dir, k, e), key) == if key == Key(e) then Some(e.inum) else Look(dir, key)
    {
      PutLooks(dir, k, e, key);
    }
  }

  lemma ClearMany(dir: seq<Dirent>, k: nat)
    requires Unique(dir) && k < |dir| && dir[k].inum != 0
    ensures forall key {:trigger Look(dir[k := NoEnt()], key)} ::
              Look(dir[k := NoEnt()], key) == if key == Key(dir[k]) then None else Look(dir, key)
  {
    forall key
      ensures Look(dir[k := NoEnt()], key) == if key == Key(dir[k]) then None else Look(dir, key)
    {
      ClearLooks(dir, k, key);
    }
  }

  /** A count of 32767 raised by one is no count. */
  lemma Overflow(t: Tree, i: nat, t': Tree)
    requires Inv(t) && 0 < i < |t.inodes| == |t'.inodes| && t.inodes[i].nlink == MAXLINK && t'.inodes[i].nlink == Inc(MAXLINK)
    ensures !Inv(t')
  {
    if Inv(t') {
      var counted := CountOk(t'.inodes, t'.pend, i);
      assert false;
    }
  }

  // ---------- a file does reach the limit ----------

  /** The name of entry `k` in a directory filled from the front: two characters, never a dot. */
  function Code(k: nat): (r: seq<char>)
    requires k < MAXENTRIES
  {
    [(100 + k / 150) as char, (100 + k % 150) as char]
  }

  lemma CodeNames(j: nat, k: nat)
    requires j < MAXENTRIES && k < MAXENTRIES
    ensures Canon(Code(k), DIRSIZ) == Code(k) && Code(k) != "." && Code(k) != ".."
    ensures Code(j) == Code(k) ==> j == k
  {
    assert Code(k)[1..][1..] == [] && Code(k)[0] != '.';
    assert Code(k) == [Code(k)[0]] + ([Code(k)[1]] + []);
    if Code(j) == Code(k) {
      assert Code(j)[0] == Code(k)[0] && Code(j)[1] == Code(k)[1];
    }
  }

  ghost predicate Filled(dir: seq<Dirent>) {
    2 <= |dir| <= MAXENTRIES && forall k | 2 <= k < |dir| :: Key(dir[k]) == Code(k)
  }

  lemma NextName(t: Tree, dp: nat)
    requires Inv(t) && 0 < dp < |t.inodes| && Linked(t.inodes[dp]) && Filled(t.inodes[dp].dir) && |t.inodes[dp].dir| < MAXENTRIES
    ensures Look(t.inodes[dp].dir, Code(|t.inodes[dp].dir|)) == None
  {
    var dir := t.inodes[dp].dir;
    assert DirOk(t.inodes, t.root, t.at, dp);
    forall k | 0 <= k < |dir|
      ensures !Matches(dir[k], Code(|dir|))
    {
      CodeNames(k, |dir|);
    }
    LookNone(dir, Code(|dir|));
  }

  /** One call of sys_link(): the file `ip` gets the next name in `dp`. */
  lemma LinkOnce(t: Tree, ip: nat, dp: nat) returns (t': Tree)
    requires Inv(t) && 0 < ip < |t.inodes| && t.inodes[ip].kind == File && t.inodes[ip].nlink < MAXLINK
    requires 0 < dp < |t.inodes| && Linked(t.inodes[dp]) && Filled(t.inodes[dp].dir) && |t.inodes[dp].dir| < MAXENTRIES
    ensures Inv(t') && |t'.inodes| == |t.inodes|
    ensures t'.inodes[ip] == t.inodes[ip].(nlink := t.inodes[ip].nlink + 1)
    ensures Linked(t'.inodes[dp]) && Filled(t'.inodes[dp].dir) && |t'.inodes[dp].dir| == |t.inodes[dp].dir| + 1
    ensures forall d | 0 <= d < |t.inodes| && d != ip && d != dp :: t'.inodes[d] == t.inodes[d]
  {
    var k := |t.inodes[dp].dir|;
    var e := Dirent(ip, Code(k));
    CodeNames(k, k);
    assert CountOk(t.inodes, t.pend, ip);
    var x := t.inodes[ip].(nlink := t.inodes[ip].nlink + 1);
    FileMoves(t, ip, x, t.pend[ip] + 1);
    var t1 := t.(inodes := t.inodes[ip := x], pend := t.pend[ip := t.pend[ip] + 1]);
    NextName(t1, dp);
    LinkDone(t1, ip, dp, k, e);
    t' := t1.(inodes := PutIn(t1.inodes, dp, k, e), pend := t1.pend[ip := t1.pend[ip] - 1]);
  }

  lemma {:induction false} LinkMany(t: Tree, ip: nat, dp: nat, n: nat) returns (t': Tree)
    requires Inv(t) && 0 < ip < |t.inodes| && t.inodes[ip].kind == File && t.inodes[ip].nlink + n <= MAXLINK
    requires 0 < dp < |t.inodes| && Linked(t.inodes[dp]) && Filled(t.inodes[dp].dir) && |t.inodes[dp].dir| + n <= MAXENTRIES
    ensures Inv(t') && |t'.inodes| == |t.inodes|
    ensures t'.inodes[ip] == t.inodes[ip].(nlink := t.inodes[ip].nlink + n)
    ensures forall d | 0 <= d < |t.inodes| && d != ip && d != dp :: t'.inodes[d] == t.inodes[d]
    decreases n
  {
    t' := t;
    if n > 0 {
      t' := LinkOnce(t, ip, dp);
      t' := LinkMany(t', ip, dp, n - 1);
    }
  }

  /** A root with a subdirectory and a file. */
  lemma SmallTree() returns (t: Tree)
    ensures Inv(t) && |t.inodes| == 4 && Linked(t.inodes[1]) && Linked(t.inodes[2]) && t.inodes[3] == Inode(File, 1, [])
    ensures Filled(t.inodes[1].dir) && |t.inodes[1].dir| == 4 && Filled(t.inodes[2].dir) && |t.inodes[2].dir| == 2
  {
    var up, sub := [Dirent(1, "."), Dirent(1, "..")], [Dirent(2, "."), Dirent(1, "..")];
    DotNames();
    InitTree(4, up);
    t := Tree(seq(4, _ => NOINODE)[1 := Inode(Dir, 1, up)], 1, map[], seq(4, _ => 0));
    CodeNames(2, 2);
    CodeNames(3, 3);
    NextName(t, 1);
    MakeDir(t, 2, sub, 1, 2, Dirent(2, Code(2)));
    t := t.(inodes := WithDir(t.inodes, 2, sub, 1, 2, Dirent(2, Code(2))), at := t.at[2 := (1, 2)]);
    NextName(t, 1);
    var file, e := Inode(File, 1, []), Dirent(3, Code(3));
    MakeFile(t, 3, file, 1, 3, e);
    t := t.(inodes := t.inodes[3 := file][1 := t.inodes[1].(dir := Put(t.inodes[1].dir, 3, e))]);
  }

  /** Two directories hold enough names: a tree that sys_link() can build, in which the next sys_link() overflows. */
  lemma LimitReached() returns (t: Tree, ip: nat)
    ensures Inv(t) && 0 < ip < |t.inodes| && t.inodes[ip].kind == File && t.inodes[ip].nlink == MAXLINK
    ensures !Inv(t.(inodes := t.inodes[ip := t.inodes[ip].(nlink := Inc(MAXLINK))], pend := t.pend[ip := t.pend[ip] + 1]))
  {
    t := SmallTree();
    ip := 3;
    t := LinkMany(t, ip, 1, MAXENTRIES - 4);
    t := LinkMany(t, ip, 2, MAXLINK - (MAXENTRIES - 3));
    var inodes' := t.inodes[ip := t.inodes[ip].(nlink := Inc(MAXLINK))];
    Overflow(t, ip, t.(inodes := inodes', pend := t.pend[ip := t.pend[ip] + 1]));
  }
}
