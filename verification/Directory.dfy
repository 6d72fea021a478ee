/** Directories of kernel/fs/fs.c: entries of sixteen bytes with names of at most DIRSIZ characters, searched and filled by
    linear scans. A directory behaves as a finite map from names cut to DIRSIZ characters to inode numbers. */
module Directory {
  import opened Collections
  import opened Params

  const DIRSIZ: nat := 14

  /** How many entries of sixteen bytes a file of the largest size holds. */
  const MAXENTRIES: nat := MAXFILE * BSIZE / 16

  // ---------- names ----------

  /** The characters of a C string that the first `n` bytes show; the end of the sequence counts as a null byte. */
  function Canon(s: seq<char>, n: nat): (r: seq<char>)
    ensures |r| <= n && |r| <= |s|
  {
    if n == 0 || s == [] || s[0] == '\0' then [] else [s[0]] + Canon(s[1..], n - 1)
  }

  function At(s: seq<char>, i: nat): (r: char) {
    if i < |s| then s[i] else '\0'
  }

  lemma {:induction false} CanonSkip(s: seq<char>, n: nat, i: nat)
    requires i <= n && forall k | 0 <= k < i :: At(s, k) != '\0'
    ensures i <= |s| && Canon(s, n) == s[..i] + Canon(s[i..], n - i)
  {
    if i > 0 {
      assert At(s, 0) != '\0';
      assert forall k | 0 <= k < i - 1 :: At(s[1..], k) == At(s, k + 1);
      CanonSkip(s[1..], n - 1, i - 1);
      assert s[..i] == [s[0]] + s[1..][..i - 1] && s[1..][i - 1..] == s[i..];
    } else {
      assert s[0..] == s;
    }
  }

  /** strncmp() */
  method Strncmp(p: seq<char>, q: seq<char>, n: nat) returns (r: int)
    ensures r == 0 <==> Canon(p, n) == Canon(q, n)
  {
    var i := 0;
    while i < n && At(p, i) != '\0' && At(p, i) == At(q, i)
      invariant i <= n && forall k | 0 <= k < i :: At(p, k) != '\0' && At(p, k) == At(q, k)
    {
      i := i + 1;
    }
    CanonSkip(p, n, i);
    CanonSkip(q, n, i);
    SamePrefix(p, q, i);
    if i == n {
      return 0;
    }
    SplitSame(p[..i], Canon(p[i..], n - i), Canon(q[i..], n - i));
    CanonFirst(p[i..], n - i);
    CanonFirst(q[i..], n - i);
    assert At(p[i..], 0) == At(p, i) && At(q[i..], 0) == At(q, i);
    return At(p, i) as int - At(q, i) as int;
  }

  lemma CanonFirst(s: seq<char>, n: nat)
    requires 0 < n
    ensures Canon(s, n) == [] <==> At(s, 0) == '\0'
    ensures Canon(s, n) != [] ==> Canon(s, n)[0] == At(s, 0)
  {
  }

  lemma SamePrefix(p: seq<char>, q: seq<char>, i: nat)
    requires i <= |p| && i <= |q| && forall k | 0 <= k < i :: At(p, k) == At(q, k)
    ensures p[..i] == q[..i]
  {
    forall k | 0 <= k < i
      ensures p[k] == q[k]
    {
      assert At(p, k) == At(q, k);
    }
  }

  lemma SplitSame(a: seq<char>, b: seq<char>, c: seq<char>)
    ensures a + b == a + c <==> b == c
  {
    if a + b == a + c {
      assert b == (a + b)[|a|..] && c == (a + c)[|a|..];
    }
  }

  /** strncpy(): exactly `n` bytes, padded with nulls. */
  method Strncpy(t: seq<char>, n: nat) returns (s: seq<char>)
    ensures |s| == n && Canon(s, n) == Canon(t, n)
  {
    s := [];
    var ended := false;
    while |s| < n && !ended
      invariant |s| <= n && (!ended ==> |s| <= |t| && s == t[..|s|] && forall k | 0 <= k < |s| :: s[k] != '\0')
      invariant ended ==> 0 < |s| <= |t| + 1 && s[..|s| - 1] == t[..|s| - 1] && At(t, |s| - 1) == '\0' && s[|s| - 1] == '\0'
      invariant ended ==> forall k | 0 <= k < |s| - 1 :: s[k] != '\0'
      decreases n - |s|, !ended
    {
      ended := At(t, |s|) == '\0';
      s := s + [At(t, |s|)];
    }
    ghost var m := if ended then |s| - 1 else |s|;
    ghost var head := s;
    while |s| < n
      invariant |head| <= |s| <= n && s[..|head|] == head
      invariant forall k | |head| <= k < |s| :: s[k] == '\0'
    {
      s := s + ['\0'];
    }
    forall k | 0 <= k < m
      ensures At(s, k) != '\0' && At(t, k) == At(s, k)
    {
      assert s[k] == head[k] && head[k] == t[k];
    }
    CanonSkip(s, n, m);
    CanonSkip(t, n, m);
    assert s[..m] == t[..m];
    assert m < n ==> At(s[m..], 0) == s[m] == '\0' && At(t[m..], 0) == At(t, m) == '\0';
  }

  // ---------- entries ----------

  datatype Dirent = Dirent(inum: nat, name: seq<char>)

  /** An entry that is not in use. */
  function NoEnt(): (r: Dirent) {
    Dirent(0, seq(DIRSIZ, _ => '\0'))
  }

  function Key(e: Dirent): (r: seq<char>) {
    Canon(e.name, DIRSIZ)
  }

  predicate Matches(e: Dirent, key: seq<char>) {
    e.inum != 0 && Key(e) == key
  }

  /** The first entry from `i` on with this name; the length if there is none. */
  function Find(dir: seq<Dirent>, key: seq<char>, i: nat): (r: nat)
    requires i <= |dir|
    ensures i <= r <= |dir| && (r < |dir| ==> Matches(dir[r], key))
    ensures forall k | i <= k < r :: !Matches(dir[k], key)
    decreases |dir| - i
  {
    if i == |dir| || Matches(dir[i], key) then i else Find(dir, key, i + 1)
  }

  /** The directory as a map from names. */
  function Look(dir: seq<Dirent>, key: seq<char>): (r: Option<nat>) {
    var k := Find(dir, key, 0);
    if k < |dir| then Some(dir[k].inum) else None
  }

  ghost predicate Unique(dir: seq<Dirent>) {
    forall j, k | 0 <= j < k < |dir| && dir[j].inum != 0 && dir[k].inum != 0 :: Key(dir[j]) != Key(dir[k])
  }

  /** With unique names every entry in use is what its name leads to. */
  lemma LookIs(dir: seq<Dirent>, k: nat)
    requires Unique(dir) && k < |dir| && dir[k].inum != 0
    ensures Find(dir, Key(dir[k]), 0) == k && Look(dir, Key(dir[k])) == Some(dir[k].inum)
  {
  }

  lemma LookNone(dir: seq<Dirent>, key: seq<char>)
    ensures Look(dir, key).None? <==> forall k | 0 <= k < |dir| :: !Matches(dir[k], key)
  {
  }

  /** The search of dirlookup(). */
  method DirLookup(dir: seq<Dirent>, name: seq<char>) returns (off: nat)
    ensures off == Find(dir, Canon(name, DIRSIZ), 0)
  {
    off := 0;
    while off < |dir|
      invariant off <= |dir| && Find(dir, Canon(name, DIRSIZ), 0) == Find(dir, Canon(name, DIRSIZ), off)
    {
      if dir[off].inum != 0 {
        var r := Strncmp(name, dir[off].name, DIRSIZ);
        if r == 0 {
          return;
        }
      }
      off := off + 1;
    }
  }

  ghost function Slot(dir: seq<Dirent>, i: nat): (r: nat)
    requires i <= |dir|
    ensures i <= r <= |dir| && (r < |dir| ==> dir[r].inum == 0)
    decreases |dir| - i
  {
    if i == |dir| || dir[i].inum == 0 then i else Slot(dir, i + 1)
  }

  ghost function Put(dir: seq<Dirent>, k: nat, e: Dirent): (r: seq<Dirent>)
    requires k <= |dir|
  {
    if k < |dir| then dir[k := e] else dir + [e]
  }

  /** dirlink(): refused if the name is there; otherwise the entry goes to the first unused place or to the end, which takes
      `room` on the disk and a file below the size limit. */
  method DirLink(dir: seq<Dirent>, name: seq<char>, inum: nat, room: bool) returns (ok: bool, dir': seq<Dirent>, ghost k: nat)
    requires 0 < inum
    ensures k == Slot(dir, 0)
    ensures ok <==> Look(dir, Canon(name, DIRSIZ)) == None && (k < |dir| || (room && |dir| < MAXENTRIES))
    ensures !ok ==> dir' == dir
    ensures ok ==> exists e :: Matches(e, Canon(name, DIRSIZ)) && e.inum == inum && dir' == Put(dir, k, e)
  {
    k := Slot(dir, 0);
    var off := DirLookup(dir, name);
    if off < |dir| {
      return false, dir, k;
    }
    off := 0;
    while off < |dir| && dir[off].inum != 0
      invariant off <= |dir| && Slot(dir, 0) == Slot(dir, off)
    {
      off := off + 1;
    }
    var padded := Strncpy(name, DIRSIZ);
    var e := Dirent(inum, padded);
    if off < |dir| {
      return true, dir[off := e], k;
    }
    if room && (|dir| + 1) * 16 <= MAXFILE * BSIZE {
      return true, dir + [e], k;
    }
    return false, dir, k;
  }

  /** After a successful dirlink() its name leads to the new entry and every other name leads where it did. */
  lemma PutLooks(dir: seq<Dirent>, k: nat, e: Dirent, key: seq<char>)
    requires Unique(dir) && k <= |dir| && (k < |dir| ==> dir[k].inum == 0) && e.inum != 0 && Look(dir, Key(e)) == None
    ensures Unique(Put(dir, k, e))
    ensures Look(Put(dir, k, e), key) == if key == Key(e) then Some(e.inum) else Look(dir, key)
  {
    var dir' := Put(dir, k, e);
    LookNone(dir, Key(e));
    assert Unique(dir') by {
      forall i, j | 0 <= i < j < |dir'| && dir'[i].inum != 0 && dir'[j].inum != 0
        ensures Key(dir'[i]) != Key(dir'[j])
      {
        assert i != k ==> dir'[i] == dir[i];
        assert j != k ==> dir'[j] == dir[j];
      }
    }
    if key == Key(e) {
      LookIs(dir', k);
    } else {
      SameLook(dir, dir', key, k);
    }
  }

  /** An entry is cleared: its name is gone and every other name leads where it did. */
  lemma ClearLooks(dir: seq<Dirent>, k: nat, key: seq<char>)
    requires Unique(dir) && k < |dir| && dir[k].inum != 0
    ensures Unique(dir[k := NoEnt()])
    ensures Look(dir[k := NoEnt()], key) == if key == Key(dir[k]) then None else Look(dir, key)
  {
    if key == Key(dir[k]) {
      LookNone(dir[k := NoEnt()], key);
    } else {
      SameLook(dir, dir[k := NoEnt()], key, k);
    }
  }

  /** Names that do not lead to the changed entry, before or after, do not notice. */
  lemma SameLook(dir: seq<Dirent>, dir': seq<Dirent>, key: seq<char>, k: nat)
    requires k <= |dir| <= |dir'| <= |dir| + 1 && Unique(dir) && Unique(dir')
    requires forall i | 0 <= i < |dir| && i != k :: dir'[i] == dir[i]
    requires k < |dir| ==> !Matches(dir[k], key)
    requires (k < |dir'| ==> !Matches(dir'[k], key)) && (|dir'| > |dir| ==> k == |dir|)
    ensures Look(dir', key) == Look(dir, key)
  {
  }

  /** isdirempty(): nothing but the first two entries is in use. */
  method IsDirEmpty(dir: seq<Dirent>) returns (r: bool)
    ensures r <==> forall k | 2 <= k < |dir| :: dir[k].inum == 0
  {
    var off := 2;
    while off < |dir|
      invariant 2 <= off && forall k | 2 <= k < off && k < |dir| :: dir[k].inum == 0
    {
      if dir[off].inum != 0 {
        return false;
      }
      off := off + 1;
    }
    return true;
  }
}
