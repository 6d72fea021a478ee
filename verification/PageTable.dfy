/** Sv39 page tables as kernel/mm/vm.c builds and walks them, over a physical memory of pages of 512 words. A tree of
    three levels of tables refines a flat partial map from virtual pages to physical pages and flags (section 4.4 of the
    RISC-V Privileged Specification, version 20211203). */
module PageTable {
  import opened Collections
  import opened Params

  const ENTRIES: nat := 512

  type Page = p: seq<nat> | |p| == ENTRIES witness seq(ENTRIES, _ => 0)

  /** Physical memory: page address to content. */
  type Memory = map<nat, Page>

  // ---------- riscv.h macros ----------

  function PX2(va: nat): (r: nat)
    ensures r < ENTRIES
  {
    va / 0x4000_0000 % ENTRIES
  }

  function PX1(va: nat): (r: nat)
    ensures r < ENTRIES
  {
    va / 0x20_0000 % ENTRIES
  }

  function PX0(va: nat): (r: nat)
    ensures r < ENTRIES
  {
    va / 0x1000 % ENTRIES
  }

  /** PA2PTE(pa) | flags | PTE_V */
  function MakePte(pa: nat, flags: nat): (r: nat) {
    pa / PAGESIZE * 1024 + (if flags % 2 == 1 then flags else flags + 1)
  }

  function Pte2Pa(pte: nat): (r: nat) {
    pte / 1024 * PAGESIZE
  }

  function Flags(pte: nat): (r: nat) {
    pte % 1024
  }

  predicate IsValid(pte: nat) {
    pte % 2 == 1
  }

  lemma PteRoundTrip(pa: nat, flags: nat)
    requires pa % PAGESIZE == 0 && flags < 1024
    ensures Pte2Pa(MakePte(pa, flags)) == pa && IsValid(MakePte(pa, flags))
    ensures Flags(MakePte(pa, flags)) == if flags % 2 == 1 then flags else flags + 1
  {
  }

  /** The three indices determine a page-aligned address below 2^39, which is one bit more than MAXVA. */
  const VASPACE: nat := 0x80_0000_0000

  lemma IndexInjective(va: nat, wa: nat)
    requires va < VASPACE && wa < VASPACE && va % PAGESIZE == 0 && wa % PAGESIZE == 0
    requires PX2(va) == PX2(wa) && PX1(va) == PX1(wa) && PX0(va) == PX0(wa)
    ensures va == wa
  {
    Decompose(va);
    Decompose(wa);
  }

  lemma Decompose(va: nat)
    requires va < VASPACE && va % PAGESIZE == 0
    ensures va == 0x4000_0000 * PX2(va) + 0x20_0000 * PX1(va) + 0x1000 * PX0(va)
  {
    var p := va / 0x1000;
    var q := p / ENTRIES;
    assert va == 0x1000 * p;
    assert va / 0x20_0000 == q;
    assert va / 0x4000_0000 == q / ENTRIES;
  }

  // ---------- walking ----------

  function Entry(mem: Memory, t: nat, i: nat): (r: nat)
    requires i < ENTRIES
  {
    if t in mem then mem[t][i] else 0
  }

  /** The second-level table for index `i`, and the last-level table for (i, j); 0 where a level is missing. */
  function Mid(mem: Memory, root: nat, i: nat): (r: nat)
    requires i < ENTRIES
  {
    if IsValid(Entry(mem, root, i)) then Pte2Pa(Entry(mem, root, i)) else 0
  }

  function Low(mem: Memory, root: nat, i: nat, j: nat): (r: nat)
    requires i < ENTRIES && j < ENTRIES
  {
    var t := Mid(mem, root, i);
    if t != 0 && IsValid(Entry(mem, t, j)) then Pte2Pa(Entry(mem, t, j)) else 0
  }

  /** The leaf entry for three indices; 0 where a level is missing. */
  function Leaf(mem: Memory, root: nat, i: nat, j: nat, k: nat): (r: nat)
    requires i < ENTRIES && j < ENTRIES && k < ENTRIES
  {
    var t := Low(mem, root, i, j);
    if t != 0 then Entry(mem, t, k) else 0
  }

  function LeafOf(mem: Memory, root: nat, va: nat): (r: nat) {
    Leaf(mem, root, PX2(va), PX1(va), PX0(va))
  }

  /** The flat map: physical page and flags of a virtual address, if it is mapped. */
  function Translate(mem: Memory, root: nat, va: nat): (r: Option<(nat, nat)>) {
    var pte := LeafOf(mem, root, va);
    if IsValid(pte) then Some((Pte2Pa(pte), Flags(pte))) else None
  }

  /** The walk takes no notice of address bits from 39 up. */
  lemma Aliased(mem: Memory, root: nat, va: nat)
    ensures Translate(mem, root, va + VASPACE) == Translate(mem, root, va)
  {
    SameIndex(va / 0x1000, 0x4_0000);
    SameIndex(va / 0x20_0000, 0x200);
    SameIndex(va / 0x4000_0000, 1);
  }

  lemma SameIndex(n: nat, k: nat)
    ensures (n + k * ENTRIES) % ENTRIES == n % ENTRIES
  {
  }

  // ---------- trees ----------

  /** Where a table sits in its tree. */
  datatype Pos = Root | MidAt(i: nat) | LowAt(i: nat, j: nat)

  /** The tables of all trees: the root each belongs to, and its place there. */
  type Tables = map<nat, (nat, Pos)>

  /** `tab` lists the tables reachable from `root`, each at its one place in the tree. */
  ghost predicate Tree(mem: Memory, root: nat, tab: Tables) {
    && root in tab && tab[root] == (root, Root)
    && (forall t {:trigger tab[t]} | t in tab && tab[t].0 == root ::
          && t in mem && 0 < t && t % PAGESIZE == 0
          && (match tab[t].1
              case Root => t == root
              case MidAt(i) => i < ENTRIES && Mid(mem, root, i) == t
              case LowAt(i, j) => i < ENTRIES && j < ENTRIES && Low(mem, root, i, j) == t))
    && (forall i {:trigger Mid(mem, root, i)} | 0 <= i < ENTRIES && IsValid(Entry(mem, root, i)) ::
          Mid(mem, root, i) in tab && tab[Mid(mem, root, i)] == (root, MidAt(i)) && Flags(Entry(mem, root, i)) == 1)
    && (forall i, j {:trigger Low(mem, root, i, j)} | 0 <= i < ENTRIES && 0 <= j < ENTRIES && Mid(mem, root, i) != 0
          && IsValid(Entry(mem, Mid(mem, root, i), j)) ::
          Low(mem, root, i, j) in tab && tab[Low(mem, root, i, j)] == (root, LowAt(i, j))
          && Flags(Entry(mem, Mid(mem, root, i), j)) == 1)
  }

  function ZeroPage(): (r: Page) {
    seq(ENTRIES, _ => 0)
  }

  /** Memory after entry `i` of table `t` is stored. */
  function Store(mem: Memory, t: nat, i: nat, pte: nat): (r: Memory)
    requires t in mem && i < ENTRIES
  {
    mem[t := mem[t][i := pte]]
  }

  /** The leaf entries reachable from `root` are the same in both memories, except perhaps the one at (i, j, k). */
  ghost predicate SameLeavesBut(mem: Memory, mem': Memory, root: nat, i: nat, j: nat, k: nat) {
    forall x, y, z {:trigger Leaf(mem', root, x, y, z)} | 0 <= x < ENTRIES && 0 <= y < ENTRIES && 0 <= z < ENTRIES && !(x == i && y == j && z == k) ::
      Leaf(mem', root, x, y, z) == Leaf(mem, root, x, y, z)
  }

  ghost predicate SameLeaves(mem: Memory, mem': Memory, root: nat) {
    forall x, y, z {:trigger Leaf(mem', root, x, y, z)} | 0 <= x < ENTRIES && 0 <= y < ENTRIES && 0 <= z < ENTRIES ::
      Leaf(mem', root, x, y, z) == Leaf(mem, root, x, y, z)
  }

  /** A change that leaves a tree's tables alone leaves the tree alone. */
  lemma TreeKept(mem: Memory, mem': Memory, root: nat, tab: Tables, tab': Tables)
    requires Tree(mem, root, tab)
    requires forall t | t in tab && tab[t].0 == root :: t in mem' && mem'[t] == mem[t] && t in tab' && tab'[t] == tab[t]
    requires forall t | t in tab' && tab'[t].0 == root :: t in tab && tab[t].0 == root
    ensures Tree(mem', root, tab') && SameLeaves(mem, mem', root)
  {
    forall i | 0 <= i < ENTRIES
      ensures Mid(mem', root, i) == Mid(mem, root, i) && Entry(mem', root, i) == Entry(mem, root, i)
    {
    }
    forall i, j | 0 <= i < ENTRIES && 0 <= j < ENTRIES
      ensures Low(mem', root, i, j) == Low(mem, root, i, j)
    {
    }
  }

  /** A fresh zeroed page becomes the second-level table for index `i`. */
  lemma AddMid(mem: Memory, root: nat, tab: Tables, i: nat, t: nat)
    requires Tree(mem, root, tab) && i < ENTRIES && !IsValid(Entry(mem, root, i))
    requires t !in tab && 0 < t && t % PAGESIZE == 0
    ensures var mem' := Store(mem[t := ZeroPage()], root, i, MakePte(t, 0));
            Tree(mem', root, tab[t := (root, MidAt(i))]) && Mid(mem', root, i) == t && SameLeaves(mem, mem', root)
  {
    var mem' := Store(mem[t := ZeroPage()], root, i, MakePte(t, 0));
    PteRoundTrip(t, 0);
    forall x | 0 <= x < ENTRIES
      ensures Mid(mem', root, x) == if x == i then t else Mid(mem, root, x)
      ensures Entry(mem', root, x) == if x == i then MakePte(t, 0) else Entry(mem, root, x)
      ensures Mid(mem, root, x) != t && Mid(mem, root, x) != root && (x == i ==> Mid(mem, root, x) == 0)
    {
    }
    forall x, y | 0 <= x < ENTRIES && 0 <= y < ENTRIES
      ensures Low(mem', root, x, y) == Low(mem, root, x, y)
      ensures x == i ==> Low(mem, root, x, y) == 0 && !IsValid(Entry(mem', Mid(mem', root, x), y))
      ensures x != i && Mid(mem, root, x) != 0 ==> Entry(mem', Mid(mem', root, x), y) == Entry(mem, Mid(mem, root, x), y)
      ensures Low(mem, root, x, y) != t && Low(mem, root, x, y) != root
    {
    }
  }

  /** A fresh zeroed page becomes the last-level table for (i, j). */
  lemma AddLow(mem: Memory, root: nat, tab: Tables, i: nat, j: nat, t: nat)
    requires Tree(mem, root, tab) && i < ENTRIES && j < ENTRIES && Mid(mem, root, i) != 0
    requires !IsValid(Entry(mem, Mid(mem, root, i), j))
    requires t !in tab && 0 < t && t % PAGESIZE == 0
    ensures Mid(mem, root, i) in mem && Mid(mem, root, i) in tab
    ensures var mem' := Store(mem[t := ZeroPage()], Mid(mem, root, i), j, MakePte(t, 0));
            Tree(mem', root, tab[t := (root, LowAt(i, j))]) && Low(mem', root, i, j) == t && SameLeaves(mem, mem', root)
  {
    var m := Mid(mem, root, i);
    assert tab[m] == (root, MidAt(i));
    var mem' := Store(mem[t := ZeroPage()], m, j, MakePte(t, 0));
    PteRoundTrip(t, 0);
    forall x | 0 <= x < ENTRIES
      ensures Mid(mem', root, x) == Mid(mem, root, x) && Entry(mem', root, x) == Entry(mem, root, x)
      ensures Mid(mem, root, x) == m ==> x == i
    {
    }
    forall x, y | 0 <= x < ENTRIES && 0 <= y < ENTRIES
      ensures Low(mem', root, x, y) == if x == i && y == j then t else Low(mem, root, x, y)
      ensures Mid(mem, root, x) != 0 ==>
        Entry(mem', Mid(mem', root, x), y) == if x == i && y == j then MakePte(t, 0) else Entry(mem, Mid(mem, root, x), y)
      ensures Low(mem, root, x, y) != t && Low(mem, root, x, y) != m
    {
    }
  }

  /** Storing a leaf entry changes that leaf alone, in this tree and in every other. */
  lemma PutLeaf(mem: Memory, root: nat, tab: Tables, i: nat, j: nat, k: nat, pte: nat)
    requires Tree(mem, root, tab) && i < ENTRIES && j < ENTRIES && k < ENTRIES && Low(mem, root, i, j) != 0
    ensures Low(mem, root, i, j) in mem && Low(mem, root, i, j) in tab && tab[Low(mem, root, i, j)] == (root, LowAt(i, j))
    ensures var mem' := Store(mem, Low(mem, root, i, j), k, pte);
            Tree(mem', root, tab) && Leaf(mem', root, i, j, k) == pte && SameLeavesBut(mem, mem', root, i, j, k)
  {
    var t := Low(mem, root, i, j);
    assert tab[t] == (root, LowAt(i, j));
    var mem' := Store(mem, t, k, pte);
    forall x | 0 <= x < ENTRIES
      ensures Mid(mem', root, x) == Mid(mem, root, x) && Entry(mem', root, x) == Entry(mem, root, x)
      ensures Mid(mem, root, x) != t
    {
    }
    forall x, y | 0 <= x < ENTRIES && 0 <= y < ENTRIES
      ensures Low(mem', root, x, y) == Low(mem, root, x, y)
      ensures Low(mem, root, x, y) == t ==> x == i && y == j
    {
    }
  }
}
