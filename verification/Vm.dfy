/** The page-table operations of kernel/mm/vm.c on a machine with physical memory and a page allocator. */
module Vm {
  import opened Params
  import opened PageTable

  /** What alloc_page() and free_page() fill pages with. */
  const ALLOCATED: Page := seq(ENTRIES, _ => 0x0505_0505_0505_0505)
  const FREED: Page := seq(ENTRIES, _ => 0x0101_0101_0101_0101)

  datatype MapResult = Ok | NoMemory | Panic

  /** The state in which copy_pagetable() ran out of memory, having reached `a`. */
  datatype Stop = Stop(mem: Memory, free: set<nat>, tab: Tables, a: nat)

  /** Tables are added and none moves. */
  ghost predicate Extends(tab: Tables, tab': Tables) {
    tab.Keys <= tab'.Keys && forall t {:trigger tab'[t]} | t in tab :: tab'[t] == tab[t]
  }

  /** New tables are at the places a walk to (i, j) visits. */
  ghost predicate Grew(tab: Tables, tab': Tables, root: nat, i: nat, j: nat) {
    forall t {:trigger tab'[t]} | t in tab' && t !in tab :: tab'[t] == (root, MidAt(i)) || tab'[t] == (root, LowAt(i, j))
  }

  /** How many tables such a walk misses. */
  ghost function Missing(mem: Memory, root: nat, i: nat, j: nat): (r: nat)
    requires i < ENTRIES && j < ENTRIES
  {
    if Mid(mem, root, i) == 0 then 2 else if Low(mem, root, i, j) == 0 then 1 else 0
  }

  /** The two levels of a walk together. */
  lemma TwoMade(free: set<nat>, tab: Tables, m: nat, made: bool, free1: set<nat>, tab1: Tables, t: nat, made1: bool,
                free2: set<nat>, tab2: Tables, root: nat, i: nat, j: nat)
    requires forall p | p in free :: p !in tab
    requires if made then m in free && free1 == free - {m} && tab1 == tab[m := (root, MidAt(i))] else free1 == free && tab1 == tab
    requires if made1 then t in free1 && free2 == free1 - {t} && tab2 == tab1[t := (root, LowAt(i, j))]
             else free2 == free1 && tab2 == tab1
    ensures |free2| == |free| - (if made then 1 else 0) - (if made1 then 1 else 0)
    ensures Grew(tab, tab2, root, i, j) && (tab2 == tab <==> !made && !made1)
  {
    assert made ==> m !in tab && m in tab2;
    assert made1 ==> t !in tab && t in tab2;
  }

  /** Pages move between the allocator, the page tables and `extra`, the pages handed back to the allocator: none is lost,
      and no other page changes. */
  ghost predicate Returned(mem: Memory, free: set<nat>, tab: Tables, extra: set<nat>, mem': Memory, free': set<nat>, tab': Tables) {
    && mem'.Keys == mem.Keys
    && Extends(tab, tab') && free' + tab'.Keys == free + tab.Keys + extra
    && (forall p {:trigger mem'[p]} | p in mem && p !in free && p !in tab && p !in extra :: mem'[p] == mem[p])
  }

  ghost predicate Conserved(mem: Memory, free: set<nat>, tab: Tables, mem': Memory, free': set<nat>, tab': Tables) {
    Returned(mem, free, tab, {}, mem', free', tab')
  }

  /** What walk_create() may do: no leaf changes in any tree. */
  ghost predicate Grown(mem: Memory, free: set<nat>, tab: Tables, mem': Memory, free': set<nat>, tab': Tables, roots: set<nat>) {
    && Conserved(mem, free, tab, mem', free', tab')
    && AllLeavesSame(mem, mem', roots)
  }

  ghost predicate AllLeavesSame(mem: Memory, mem': Memory, roots: set<nat>) {
    forall r {:trigger SameLeaves(mem, mem', r)} | r in roots :: SameLeaves(mem, mem', r)
  }

  lemma ReturnedTrans(mem: Memory, free: set<nat>, tab: Tables, extra: set<nat>, mem': Memory, free': set<nat>, tab': Tables,
                      extra': set<nat>, mem'': Memory, free'': set<nat>, tab'': Tables)
    requires Returned(mem, free, tab, extra, mem', free', tab') && Returned(mem', free', tab', extra', mem'', free'', tab'')
    ensures Returned(mem, free, tab, extra + extra', mem'', free'', tab'')
  {
  }

  lemma ConservedTrans(mem: Memory, free: set<nat>, tab: Tables, mem': Memory, free': set<nat>, tab': Tables,
                       mem'': Memory, free'': set<nat>, tab'': Tables)
    requires Conserved(mem, free, tab, mem', free', tab') && Conserved(mem', free', tab', mem'', free'', tab'')
    ensures Conserved(mem, free, tab, mem'', free'', tab'')
  {
  }

  lemma StillGrown(tab: Tables, tab': Tables, tab'': Tables)
    requires Extends(tab, tab') && Extends(tab', tab'') && tab'' == tab
    ensures tab' == tab
  {
  }

  lemma LeavesTrans(mem: Memory, mem': Memory, mem'': Memory, roots: set<nat>)
    requires AllLeavesSame(mem, mem', roots) && AllLeavesSame(mem', mem'', roots)
    ensures AllLeavesSame(mem, mem'', roots)
  {
    forall r | r in roots
      ensures SameLeaves(mem, mem'', r)
    {
      assert SameLeaves(mem, mem', r) && SameLeaves(mem', mem'', r);
    }
  }

  /** Every page table is a tree, the trees share no table, and no free page is part of one. */
  ghost predicate Inv(mem: Memory, free: set<nat>, tab: Tables, roots: set<nat>) {
    && (forall r {:trigger Tree(mem, r, tab)} | r in roots :: Tree(mem, r, tab))
    && (forall t {:trigger tab[t]} | t in tab :: tab[t].0 in roots)
    && (forall p | p in free :: p in mem && 0 < p && p % PAGESIZE == 0 && p !in tab)
  }

  /** A free page `t` becomes a table of tree `root`; the other trees do not notice. */
  lemma OtherTrees(mem: Memory, free: set<nat>, tab: Tables, roots: set<nat>, root: nat, mem': Memory, t: nat, pos: Pos)
    requires Inv(mem, free, tab, roots) && root in roots && t in free
    requires mem'.Keys == mem.Keys && Tree(mem', root, tab[t := (root, pos)]) && SameLeaves(mem, mem', root)
    requires forall p | p in mem && p != t && !(p in tab && tab[p].0 == root) :: mem'[p] == mem[p]
    ensures Inv(mem', free - {t}, tab[t := (root, pos)], roots)
    ensures Grown(mem, free, tab, mem', free - {t}, tab[t := (root, pos)], roots)
  {
    var tab' := tab[t := (root, pos)];
    forall r | r in roots
      ensures Tree(mem', r, tab') && SameLeaves(mem, mem', r)
    {
      if r != root {
        TreeKept(mem, mem', r, tab, tab');
      }
    }
  }

  /** Page `t` is cleared and then entry `i` of table `m` stored. */
  ghost predicate Linked(mem: Memory, mem': Memory, t: nat, m: nat, i: nat, pte: nat) {
    && m in mem && t in mem && t != m && i < ENTRIES
    && mem'.Keys == mem.Keys && mem'[t] == ZeroPage() && mem'[m] == mem[m][i := pte]
    && forall p {:trigger mem'[p]} | p in mem && p != t && p != m :: mem'[p] == mem[p]
  }

  lemma NewMid(mem: Memory, free: set<nat>, tab: Tables, roots: set<nat>, root: nat, i: nat, t: nat, mem': Memory)
    requires Inv(mem, free, tab, roots) && root in roots && t in free && i < ENTRIES && !IsValid(Entry(mem, root, i))
    requires Linked(mem, mem', t, root, i, MakePte(t, 0))
    ensures Inv(mem', free - {t}, tab[t := (root, MidAt(i))], roots)
    ensures Grown(mem, free, tab, mem', free - {t}, tab[t := (root, MidAt(i))], roots) && Mid(mem', root, i) == t
  {
    assert Tree(mem, root, tab) && tab[root] == (root, Root);
    assert mem' == Store(mem[t := ZeroPage()], root, i, MakePte(t, 0));
    AddMid(mem, root, tab, i, t);
    OtherTrees(mem, free, tab, roots, root, mem', t, MidAt(i));
  }

  lemma NewLow(mem: Memory, free: set<nat>, tab: Tables, roots: set<nat>, root: nat, i: nat, j: nat, t: nat, mem': Memory)
    requires Inv(mem, free, tab, roots) && root in roots && t in free && i < ENTRIES && j < ENTRIES
    requires Mid(mem, root, i) != 0 && !IsValid(Entry(mem, Mid(mem, root, i), j))
    requires Linked(mem, mem', t, Mid(mem, root, i), j, MakePte(t, 0))
    ensures Inv(mem', free - {t}, tab[t := (root, LowAt(i, j))], roots)
    ensures Grown(mem, free, tab, mem', free - {t}, tab[t := (root, LowAt(i, j))], roots) && Low(mem', root, i, j) == t
  {
    var m := Mid(mem, root, i);
    assert Tree(mem, root, tab) && tab[m] == (root, MidAt(i));
    assert mem' == Store(mem[t := ZeroPage()], m, j, MakePte(t, 0));
    AddLow(mem, root, tab, i, j, t);
    OtherTrees(mem, free, tab, roots, root, mem', t, LowAt(i, j));
  }

  /** A zeroed page is an empty page table. */
  lemma NewRoot(mem: Memory, free: set<nat>, tab: Tables, roots: set<nat>, t: nat)
    requires Inv(mem, free, tab, roots) && t in free
    ensures Inv(mem[t := ZeroPage()], free - {t}, tab[t := (t, Root)], roots + {t})
    ensures AllLeavesSame(mem, mem[t := ZeroPage()], roots) && t !in roots
    ensures Flat(mem[t := ZeroPage()], t) == map[]
  {
    var mem', tab' := mem[t := ZeroPage()], tab[t := (t, Root)];
    forall r | r in roots
      ensures Tree(mem', r, tab') && SameLeaves(mem, mem', r) && r != t
    {
      assert Tree(mem, r, tab);
      TreeKept(mem, mem', r, tab, tab');
    }
    forall i | 0 <= i < ENTRIES
      ensures Entry(mem', t, i) == 0
    {
    }
    forall u | u in tab' && tab'[u].0 == t
      ensures u == t
    {
      assert u in tab && u != t ==> Tree(mem, t, tab);
    }
    assert Tree(mem', t, tab');
  }

  /** What the walk found is what the flat map says. */
  lemma Found(mem: Memory, free: set<nat>, tab: Tables, roots: set<nat>, root: nat, va: nat, t: nat)
    requires Inv(mem, free, tab, roots) && root in roots && t == Low(mem, root, PX2(va), PX1(va))
    requires va < VASPACE && va % PAGESIZE == 0
    ensures t == 0 ==> va !in Flat(mem, root)
    ensures t != 0 ==> t in mem && t in tab && (va in Flat(mem, root) <==> IsValid(mem[t][PX0(va)]))
    ensures t != 0 && va in Flat(mem, root) ==> Flat(mem, root)[va] == (Pte2Pa(mem[t][PX0(va)]), Flags(mem[t][PX0(va)]))
  {
    assert Tree(mem, root, tab);
  }

  lemma IsTable(mem: Memory, free: set<nat>, tab: Tables, roots: set<nat>, root: nat, i: nat, j: nat)
    requires Inv(mem, free, tab, roots) && root in roots && i < ENTRIES && j < ENTRIES
    ensures root in mem && root !in free && root != 0
    ensures IsValid(Entry(mem, root, i)) ==> Mid(mem, root, i) != 0
    ensures Mid(mem, root, i) != 0 ==> Mid(mem, root, i) in mem && Mid(mem, root, i) !in free
    ensures Mid(mem, root, i) != 0 && IsValid(Entry(mem, Mid(mem, root, i), j)) ==>
      Low(mem, root, i, j) != 0 && Low(mem, root, i, j) in mem
  {
    assert Tree(mem, root, tab);
  }

  lemma GrownNot(mem: Memory, free: set<nat>, tab: Tables, roots: set<nat>)
    ensures Grown(mem, free, tab, mem, free, tab, roots)
  {
  }

  /** `perm | PTE_V` */
  function WithV(perm: nat): (r: nat) {
    if perm % 2 == 1 then perm else perm + 1
  }

  /** The flat map of a page table: mapped virtual pages to physical page and flags. */
  type FlatMap = map<nat, (nat, nat)>

  ghost function Flat(mem: Memory, root: nat): (r: FlatMap) {
    map wa | 0 <= wa < VASPACE && wa % PAGESIZE == 0 && Translate(mem, root, wa).Some? :: Translate(mem, root, wa).value
  }

  /** The flat map after a leaf entry is stored. */
  ghost function WithEntry(flat: FlatMap, va: nat, pte: nat): (r: FlatMap) {
    if IsValid(pte) then flat[va := (Pte2Pa(pte), Flags(pte))] else flat - {va}
  }

  lemma SameFlat(mem: Memory, mem': Memory, root: nat)
    requires SameLeaves(mem, mem', root)
    ensures Flat(mem', root) == Flat(mem, root)
  {
  }

  /** The pages of [va, end), mapped in order from `pa` on. */
  ghost function Run(va: nat, end: nat, pa: nat, perm: nat): (r: FlatMap) {
    map wa | va <= wa < end && wa % PAGESIZE == 0 :: (pa + (wa - va), WithV(perm))
  }

  ghost function Pages(va: nat, end: nat): (r: set<nat>) {
    set wa | va <= wa < end && wa % PAGESIZE == 0
  }

  lemma RunStep(va: nat, a: nat, pa: nat, perm: nat, next: nat)
    requires va <= a && va % PAGESIZE == 0 && a % PAGESIZE == 0 && next == a + PAGESIZE
    ensures Run(va, next, pa, perm) == Run(va, a, pa, perm)[a := (pa + (a - va), WithV(perm))]
    ensures Pages(va, next) == Pages(va, a) + {a}
  {
  }

  lemma NextPage(a: nat, next: nat, end: nat)
    requires a % PAGESIZE == 0 && end % PAGESIZE == 0 && next == a + PAGESIZE
    ensures next % PAGESIZE == 0 && (a < end ==> next <= end)
  {
  }

  lemma RunGrows(flat: FlatMap, flat': FlatMap, flat'': FlatMap, va: nat, a: nat, pa: nat, perm: nat, p: nat, next: nat)
    requires va <= a && va % PAGESIZE == 0 && a % PAGESIZE == 0 && next == a + PAGESIZE && p == pa + (a - va)
    requires Pages(va, a) !! flat.Keys && flat' == flat + Run(va, a, pa, perm) && a !in flat'
    requires flat'' == flat'[a := (p, WithV(perm))]
    ensures Pages(va, next) !! flat.Keys && flat'' == flat + Run(va, next, pa, perm)
  {
    RunStep(va, a, pa, perm, next);
  }

  lemma NotMissing(mem: Memory, root: nat, va: nat)
    requires va < VASPACE && va % PAGESIZE == 0
    ensures va in Flat(mem, root) ==> Missing(mem, root, PX2(va), PX1(va)) == 0
  {
  }

  /** Storing the leaf entry of `va` changes its translation and no other, in this tree and in all of them. */
  lemma StoreLeaf(mem: Memory, free: set<nat>, tab: Tables, roots: set<nat>, root: nat, va: nat, pte: nat)
    requires Inv(mem, free, tab, roots) && root in roots && va < VASPACE && va % PAGESIZE == 0
    requires Low(mem, root, PX2(va), PX1(va)) != 0
    ensures Low(mem, root, PX2(va), PX1(va)) in mem
    ensures var mem' := Store(mem, Low(mem, root, PX2(va), PX1(va)), PX0(va), pte);
            && Inv(mem', free, tab, roots) && Conserved(mem, free, tab, mem', free, tab)
            && AllLeavesSame(mem, mem', roots - {root})
            && Flat(mem', root) == WithEntry(Flat(mem, root), va, pte)
  {
    var t := Low(mem, root, PX2(va), PX1(va));
    assert Tree(mem, root, tab);
    PutLeaf(mem, root, tab, PX2(va), PX1(va), PX0(va), pte);
    var mem' := Store(mem, t, PX0(va), pte);
    forall r | r in roots && r != root
      ensures Tree(mem', r, tab) && SameLeaves(mem, mem', r)
    {
      TreeKept(mem, mem', r, tab, tab);
    }
    PutFlat(mem, mem', root, va, pte);
  }

  lemma PutFlat(mem: Memory, mem': Memory, root: nat, va: nat, pte: nat)
    requires va < VASPACE && va % PAGESIZE == 0
    requires LeafOf(mem', root, va) == pte && SameLeavesBut(mem, mem', root, PX2(va), PX1(va), PX0(va))
    ensures Flat(mem', root) == WithEntry(Flat(mem, root), va, pte)
  {
    var flat, flat' := Flat(mem, root), Flat(mem', root);
    forall wa: nat
      ensures wa in flat' <==> wa in WithEntry(flat, va, pte)
      ensures wa in flat' ==> flat'[wa] == WithEntry(flat, va, pte)[wa]
    {
      if wa != va && wa < VASPACE && wa % PAGESIZE == 0 {
        OtherPage(mem, mem', root, va, wa);
      }
    }
  }

  lemma OtherPage(mem: Memory, mem': Memory, root: nat, va: nat, wa: nat)
    requires va < VASPACE && va % PAGESIZE == 0 && wa < VASPACE && wa % PAGESIZE == 0 && wa != va
    requires SameLeavesBut(mem, mem', root, PX2(va), PX1(va), PX0(va))
    ensures Translate(mem', root, wa) == Translate(mem, root, wa)
  {
    if PX2(wa) == PX2(va) && PX1(wa) == PX1(va) && PX0(wa) == PX0(va) {
      IndexInjective(va, wa);
    }
  }

  /** What map_page() has done when it has mapped [va, end): exactly those pages are new in the flat map of `root`. */
  ghost predicate Mapping(mem: Memory, free: set<nat>, tab: Tables, mem': Memory, free': set<nat>, tab': Tables, roots: set<nat>,
                          root: nat, va: nat, end: nat, pa: nat, perm: nat) {
    && Conserved(mem, free, tab, mem', free', tab')
    && AllLeavesSame(mem, mem', roots - {root})
    && Pages(va, end) !! Flat(mem, root).Keys
    && Flat(mem', root) == Flat(mem, root) + Run(va, end, pa, perm)
  }

  lemma MappingSame(mem: Memory, free: set<nat>, tab: Tables, mem': Memory, free': set<nat>, tab': Tables,
                    mem'': Memory, free'': set<nat>, tab'': Tables, roots: set<nat>,
                    root: nat, va: nat, a: nat, pa: nat, perm: nat)
    requires Mapping(mem, free, tab, mem', free', tab', roots, root, va, a, pa, perm)
    requires Conserved(mem', free', tab', mem'', free'', tab'') && AllLeavesSame(mem', mem'', roots - {root})
    requires Flat(mem'', root) == Flat(mem', root)
    ensures Mapping(mem, free, tab, mem'', free'', tab'', roots, root, va, a, pa, perm)
  {
    ConservedTrans(mem, free, tab, mem', free', tab', mem'', free'', tab'');
    LeavesTrans(mem, mem', mem'', roots - {root});
  }

  lemma MappingStep(mem: Memory, free: set<nat>, tab: Tables, mem': Memory, free': set<nat>, tab': Tables,
                    mem'': Memory, free'': set<nat>, tab'': Tables, roots: set<nat>,
                    root: nat, va: nat, a: nat, pa: nat, perm: nat, p: nat, next: nat)
    requires va <= a && va % PAGESIZE == 0 && a % PAGESIZE == 0 && p == pa + (a - va) && next == a + PAGESIZE
    requires Mapping(mem, free, tab, mem', free', tab', roots, root, va, a, pa, perm)
    requires Conserved(mem', free', tab', mem'', free'', tab'') && AllLeavesSame(mem', mem'', roots - {root})
    requires a !in Flat(mem', root) && Flat(mem'', root) == Flat(mem', root)[a := (p, WithV(perm))]
    ensures Mapping(mem, free, tab, mem'', free'', tab'', roots, root, va, next, pa, perm)
  {
    ConservedTrans(mem, free, tab, mem', free', tab', mem'', free'', tab'');
    LeavesTrans(mem, mem', mem'', roots - {root});
    RunGrows(Flat(mem, root), Flat(mem', root), Flat(mem'', root), va, a, pa, perm, p, next);
  }

  lemma MappingStart(mem: Memory, free: set<nat>, tab: Tables, roots: set<nat>, root: nat, va: nat, pa: nat, perm: nat)
    ensures Mapping(mem, free, tab, mem, free, tab, roots, root, va, va, pa, perm)
  {
  }

  // ---------- unmap_page ----------

  /** `own` lists the physical pages mapped in [lo, hi), each with the one address it is mapped at. */
  ghost predicate Owned(flat: FlatMap, own: map<nat, nat>, lo: nat, hi: nat) {
    && (forall wa {:trigger flat[wa]} | wa in flat && lo <= wa < hi :: flat[wa].0 in own && own[flat[wa].0] == wa)
    && (forall p {:trigger own[p]} | p in own :: lo <= own[p] < hi && own[p] in flat && flat[own[p]].0 == p)
  }

  /** The pages are allocated and are no page tables. */
  ghost predicate Away(pages: set<nat>, mem: Memory, free: set<nat>, tab: Tables) {
    forall p | p in pages :: p in mem && 0 < p && p % PAGESIZE == 0 && p !in free && p !in tab
  }

  ghost function Below(own: map<nat, nat>, a: nat): (r: set<nat>) {
    set p | p in own && own[p] < a
  }

  /** What unmap_page() has done when it has cleared [va, a) and freed `extra`. */
  ghost predicate Unmapping(mem: Memory, free: set<nat>, tab: Tables, mem': Memory, free': set<nat>, tab': Tables, roots: set<nat>,
                            root: nat, va: nat, a: nat, extra: set<nat>) {
    && Returned(mem, free, tab, extra, mem', free', tab')
    && AllLeavesSame(mem, mem', roots - {root})
    && Flat(mem', root) == Flat(mem, root) - Pages(va, a)
  }

  lemma UnmappingStep(mem: Memory, free: set<nat>, tab: Tables, mem': Memory, free': set<nat>, tab': Tables,
                      mem'': Memory, free'': set<nat>, tab'': Tables, roots: set<nat>,
                      root: nat, va: nat, a: nat, next: nat, extra: set<nat>, gone: set<nat>)
    requires va <= a && va % PAGESIZE == 0 && a % PAGESIZE == 0 && next == a + PAGESIZE
    requires Unmapping(mem, free, tab, mem', free', tab', roots, root, va, a, extra)
    requires Returned(mem', free', tab', gone, mem'', free'', tab'') && AllLeavesSame(mem', mem'', roots - {root})
    requires Flat(mem'', root) == Flat(mem', root) - {a}
    ensures Unmapping(mem, free, tab, mem'', free'', tab'', roots, root, va, next, extra + gone)
  {
    ReturnedTrans(mem, free, tab, extra, mem', free', tab', gone, mem'', free'', tab'');
    LeavesTrans(mem, mem', mem'', roots - {root});
    RunStep(va, a, 0, 0, next);
    MinusTwice(Flat(mem, root), Pages(va, a), {a});
  }

  lemma NotThere(flat: FlatMap, va: nat)
    ensures va !in flat ==> flat - {va} == flat
  {
  }

  lemma MinusTwice(flat: FlatMap, x: set<nat>, y: set<nat>)
    ensures flat - x - y == flat - (x + y)
  {
  }

  lemma BelowStep(flat: FlatMap, own: map<nat, nat>, va: nat, a: nat, hi: nat, next: nat)
    requires Owned(flat, own, va, hi) && va <= a < hi && next == a + PAGESIZE && a % PAGESIZE == 0
    requires forall wa | wa in flat :: wa % PAGESIZE == 0
    ensures Below(own, next) == Below(own, a) + if a in flat then {flat[a].0} else {}
  {
    forall p | p in own
      ensures own[p] < next <==> own[p] < a || own[p] == a
    {
      OnlyNext(own[p], a, next);
    }
  }

  lemma OnlyNext(x: nat, a: nat, next: nat)
    requires x % PAGESIZE == 0 && a % PAGESIZE == 0 && next == a + PAGESIZE
    ensures x < next <==> x < a || x == a
  {
  }

  /** No page in [lo, hi) is mapped with no flag but PTE_V. */
  ghost predicate AreLeaves(flat: FlatMap, lo: nat, hi: nat) {
    forall wa {:trigger flat[wa]} | wa in flat && lo <= wa < hi :: flat[wa].1 != 1
  }

  lemma LeavesStep(flat: FlatMap, lo: nat, a: nat, next: nat)
    requires AreLeaves(flat, lo, a) && a % PAGESIZE == 0 && next == a + PAGESIZE && (a in flat ==> flat[a].1 != 1)
    requires forall wa | wa in flat :: wa % PAGESIZE == 0
    ensures AreLeaves(flat, lo, next)
  {
  }

  ghost function Freed(doFree: bool, own: map<nat, nat>, a: nat): (r: set<nat>) {
    if doFree then Below(own, a) else {}
  }

  /** unmap_page()'s loop has reached `a`. */
  ghost predicate Clearing(mem: Memory, free: set<nat>, tab: Tables, mem': Memory, free': set<nat>, tab': Tables, roots: set<nat>,
                           root: nat, va: nat, a: nat, doFree: bool, own: map<nat, nat>) {
    && va <= a && va % PAGESIZE == 0 && a % PAGESIZE == 0
    && Unmapping(mem, free, tab, mem', free', tab', roots, root, va, a, Freed(doFree, own, a))
    && AreLeaves(Flat(mem, root), va, a)
  }

  lemma ClearingNext(mem: Memory, free: set<nat>, tab: Tables, mem': Memory, free': set<nat>, tab': Tables, roots: set<nat>,
                     root: nat, va: nat, a: nat, end: nat, doFree: bool, own: map<nat, nat>)
    requires Clearing(mem, free, tab, mem', free', tab', roots, root, va, a, doFree, own) && a < end
    requires doFree ==> Owned(Flat(mem, root), own, va, end) && Away(own.Keys, mem, free, tab)
    ensures a in Flat(mem', root) <==> a in Flat(mem, root)
    ensures a in Flat(mem, root) ==> Flat(mem', root)[a] == Flat(mem, root)[a]
    ensures doFree && a in Flat(mem', root) ==> Away({Flat(mem', root)[a].0}, mem', free', tab')
  {
  }

  lemma ClearingStep(mem: Memory, free: set<nat>, tab: Tables, mem': Memory, free': set<nat>, tab': Tables,
                     mem'': Memory, free'': set<nat>, tab'': Tables, roots: set<nat>,
                     root: nat, va: nat, a: nat, next: nat, end: nat, doFree: bool, own: map<nat, nat>, gone: set<nat>)
    requires Clearing(mem, free, tab, mem', free', tab', roots, root, va, a, doFree, own)
    requires a < end && end % PAGESIZE == 0 && next == a + PAGESIZE
    requires doFree ==> Owned(Flat(mem, root), own, va, end)
    requires Returned(mem', free', tab', gone, mem'', free'', tab'') && AllLeavesSame(mem', mem'', roots - {root})
    requires Flat(mem'', root) == Flat(mem', root) - {a} && (a in Flat(mem, root) ==> Flat(mem, root)[a].1 != 1)
    requires gone == if doFree && a in Flat(mem, root) then {Flat(mem, root)[a].0} else {}
    ensures next <= end && Clearing(mem, free, tab, mem'', free'', tab'', roots, root, va, next, doFree, own)
  {
    var flat, extra := Flat(mem, root), Freed(doFree, own, a);
    if doFree {
      BelowStep(flat, own, va, a, end, next);
    }
    assert Freed(doFree, own, next) == extra + gone;
    UnmappingStep(mem, free, tab, mem', free', tab', mem'', free'', tab'', roots, root, va, a, next, extra, gone);
    NextPage(a, next, end);
    LeavesStep(flat, va, a, next);
  }

  lemma ClearingStart(mem: Memory, free: set<nat>, tab: Tables, roots: set<nat>, root: nat, va: nat, end: nat, doFree: bool,
                      own: map<nat, nat>)
    requires va % PAGESIZE == 0 && (doFree ==> Owned(Flat(mem, root), own, va, end))
    ensures Clearing(mem, free, tab, mem, free, tab, roots, root, va, va, doFree, own)
  {
  }

  lemma ClearingEnd(mem: Memory, free: set<nat>, tab: Tables, mem': Memory, free': set<nat>, tab': Tables, roots: set<nat>,
                    root: nat, va: nat, end: nat, doFree: bool, own: map<nat, nat>)
    requires Clearing(mem, free, tab, mem', free', tab', roots, root, va, end, doFree, own)
    requires doFree ==> Owned(Flat(mem, root), own, va, end)
    ensures Unmapping(mem, free, tab, mem', free', tab', roots, root, va, end, if doFree then own.Keys else {})
  {
  }

  /** Where the walk misses a table for `b`, there is no page to be had: none was free, and none is freed before `b`. */
  ghost predicate NoGapAt(mem: Memory, root: nat, free: set<nat>, own: map<nat, nat>, b: nat) {
    Low(mem, root, PX2(b), PX1(b)) != 0 || (free == {} && Below(own, b) == {})
  }

  ghost predicate NoGap(mem: Memory, root: nat, free: set<nat>, own: map<nat, nat>, va: nat, end: nat) {
    forall b {:trigger NoGapAt(mem, root, free, own, b)} | va <= b < end && b % PAGESIZE == 0 :: NoGapAt(mem, root, free, own, b)
  }

  /** The same tables are found by the same walks. */
  lemma SameTables(mem: Memory, free: set<nat>, mem': Memory, free': set<nat>, tab: Tables, roots: set<nat>, root: nat,
                   i: nat, j: nat)
    requires Inv(mem, free, tab, roots) && Inv(mem', free', tab, roots) && root in roots && i < ENTRIES && j < ENTRIES
    ensures Low(mem', root, i, j) == Low(mem, root, i, j)
  {
    assert Tree(mem, root, tab) && Tree(mem', root, tab);
    var t, t' := Low(mem, root, i, j), Low(mem', root, i, j);
    assert t != 0 ==> tab[t] == (root, LowAt(i, j));
    assert t' != 0 ==> tab[t'] == (root, LowAt(i, j));
  }

  /** The cleanup takes a page for a table at `a` exactly when there is a gap there. */
  lemma GapStep(mem: Memory, free: set<nat>, tab: Tables, mem': Memory, free': set<nat>, tab': Tables, tab'': Tables,
                roots: set<nat>, root: nat, own: map<nat, nat>, va: nat, a: nat, next: nat)
    requires Inv(mem, free, tab, roots) && Inv(mem', free', tab', roots) && root in roots && Away(own.Keys, mem, free, tab)
    requires a % PAGESIZE == 0 && next == a + PAGESIZE && va <= a
    requires Returned(mem, free, tab, Below(own, a), mem', free', tab') && Extends(tab', tab'')
    requires tab' == tab <==> NoGap(mem, root, free, own, va, a)
    requires tab'' == tab' <==> Low(mem', root, PX2(a), PX1(a)) != 0 || free' == {}
    ensures tab'' == tab <==> NoGap(mem, root, free, own, va, next)
  {
    assert forall b | va <= b < next && b % PAGESIZE == 0 :: b < a || b == a;
    if tab' == tab {
      SameTables(mem, free, mem', free', tab, roots, root, PX2(a), PX1(a));
      assert free' == free + Below(own, a) by {
        assert forall p | p in own.Keys :: p !in tab;
      }
      assert NoGap(mem, root, free, own, va, next) <==> NoGapAt(mem, root, free, own, a);
    } else if tab'' == tab {
      StillGrown(tab, tab', tab'');
    }
  }

  /** All pages that were free or were freed are free at the end exactly when no table was made. */
  lemma AllBack(mem: Memory, free: set<nat>, tab: Tables, mem': Memory, free': set<nat>, tab': Tables, roots: set<nat>,
                own: map<nat, nat>)
    requires Inv(mem, free, tab, roots) && Inv(mem', free', tab', roots) && Away(own.Keys, mem, free, tab)
    requires Returned(mem, free, tab, own.Keys, mem', free', tab')
    ensures free + own.Keys <= free' <==> tab' == tab
  {
  }

  lemma UnmapEnd(mem: Memory, free: set<nat>, tab: Tables, mem': Memory, free': set<nat>, tab': Tables, roots: set<nat>,
                 root: nat, va: nat, end: nat, doFree: bool, own: map<nat, nat>)
    requires Inv(mem, free, tab, roots) && Inv(mem', free', tab', roots)
    requires Clearing(mem, free, tab, mem', free', tab', roots, root, va, end, doFree, own)
    requires doFree ==> Owned(Flat(mem, root), own, va, end) && Away(own.Keys, mem, free, tab)
    requires doFree ==> (tab' == tab <==> NoGap(mem, root, free, own, va, end))
    ensures Unmapping(mem, free, tab, mem', free', tab', roots, root, va, end, if doFree then own.Keys else {})
    ensures doFree ==> (free + own.Keys <= free' <==> NoGap(mem, root, free, own, va, end))
  {
    ClearingEnd(mem, free, tab, mem', free', tab', roots, root, va, end, doFree, own);
    if doFree {
      AllBack(mem, free, tab, mem', free', tab', roots, own);
    }
  }

  /** free_page() on a page outside the tables changes no leaf. */
  lemma FreeAway(mem: Memory, free: set<nat>, tab: Tables, roots: set<nat>, p: nat, root: nat, i: nat, j: nat)
    requires Inv(mem, free, tab, roots) && Away({p}, mem, free, tab) && root in roots && i < ENTRIES && j < ENTRIES
    ensures var mem' := mem[p := FREED];
            && Inv(mem', free + {p}, tab, roots) && AllLeavesSame(mem, mem', roots)
            && Returned(mem, free, tab, {p}, mem', free + {p}, tab) && Low(mem', root, i, j) == Low(mem, root, i, j)
  {
    assert p in {p};
    var mem' := mem[p := FREED];
    forall r | r in roots
      ensures Tree(mem', r, tab) && SameLeaves(mem, mem', r)
    {
      assert Tree(mem, r, tab);
      TreeKept(mem, mem', r, tab, tab);
    }
    assert Tree(mem, root, tab) && Tree(mem', root, tab);
    LowKept(mem, mem', root, tab, i, j);
  }

  lemma LowKept(mem: Memory, mem': Memory, root: nat, tab: Tables, i: nat, j: nat)
    requires Tree(mem, root, tab) && i < ENTRIES && j < ENTRIES
    requires forall t {:trigger tab[t]} | t in tab && tab[t].0 == root :: t in mem' && mem'[t] == mem[t]
    ensures Low(mem', root, i, j) == Low(mem, root, i, j)
  {
  }

  // ---------- copy_pagetable ----------

  ghost function CopyOf(flat: FlatMap, dup: map<nat, nat>): (r: FlatMap)
    requires dup.Keys <= flat.Keys
  {
    map wa | wa in dup :: (dup[wa], flat[wa].1)
  }

  /** The loop of copy_pagetable() has reached `a`: each page the parent maps below it is mapped in the child too, with
      the same flags, to a page of its own with the same content, taken from the allocator. `dup` names the copies by
      address and `own` is its inverse. */
  ghost predicate Copied(mem: Memory, free: set<nat>, tab: Tables, mem': Memory, free': set<nat>, tab': Tables, roots: set<nat>,
                         parent: nat, child: nat, a: nat, dup: map<nat, nat>, own: map<nat, nat>) {
    && Taken(mem, free, tab, own.Keys, mem', free', tab')
    && AllLeavesSame(mem, mem', roots - {child})
    && SameContent(mem, mem', Flat(mem, parent), a, dup, own)
    && Flat(mem', child) == Flat(mem, child) + CopyOf(Flat(mem, parent), dup)
  }

  /** The other way round from `Returned`: pages leave the allocator for tables and for `pages`. */
  ghost predicate Taken(mem: Memory, free: set<nat>, tab: Tables, pages: set<nat>, mem': Memory, free': set<nat>, tab': Tables) {
    && mem'.Keys == mem.Keys && Extends(tab, tab') && free' + tab'.Keys + pages == free + tab.Keys
    && (forall p {:trigger mem'[p]} | p in mem && p !in free && p !in tab :: mem'[p] == mem[p])
    && Away(pages, mem', free', tab')
  }

  lemma TakenMore(mem: Memory, free: set<nat>, tab: Tables, pages: set<nat>, mem': Memory, free': set<nat>, tab': Tables,
                  mem'': Memory, free'': set<nat>, tab'': Tables, p: nat, content: Page)
    requires Taken(mem, free, tab, pages, mem', free', tab')
    requires p in free' && p in mem' && Away({p}, mem'[p := content], free' - {p}, tab')
    requires Conserved(mem'[p := content], free' - {p}, tab', mem'', free'', tab'')
    ensures Taken(mem, free, tab, pages + {p}, mem'', free'', tab'') && mem''[p] == content
    ensures forall q | q in pages :: q != p && mem''[q] == mem'[q]
  {
  }

  lemma TakenKept(mem: Memory, free: set<nat>, tab: Tables, pages: set<nat>, mem': Memory, free': set<nat>, tab': Tables,
                  mem'': Memory, free'': set<nat>, tab'': Tables)
    requires Taken(mem, free, tab, pages, mem', free', tab') && Conserved(mem', free', tab', mem'', free'', tab'')
    ensures Taken(mem, free, tab, pages, mem'', free'', tab'')
    ensures forall q | q in pages :: mem''[q] == mem'[q]
  {
  }

  lemma Untouched(mem: Memory, free: set<nat>, tab: Tables, pages: set<nat>, mem': Memory, free': set<nat>, tab': Tables, p: nat)
    requires Taken(mem, free, tab, pages, mem', free', tab') && Away({p}, mem, free, tab)
    ensures p in mem && p in mem' && p !in free' && mem'[p] == mem[p]
  {
    assert p in {p} && p !in free' + tab'.Keys;
  }

  ghost predicate SameContent(mem: Memory, mem': Memory, flat: FlatMap, a: nat, dup: map<nat, nat>, own: map<nat, nat>) {
    && dup.Keys == (set wa | wa in flat && wa < a)
    && (forall wa {:trigger dup[wa]} | wa in dup :: dup[wa] in own && own[dup[wa]] == wa)
    && (forall p {:trigger own[p]} | p in own :: own[p] in dup && dup[own[p]] == p)
    && (forall wa {:trigger dup[wa]} | wa in dup ::
          flat[wa].0 in mem && dup[wa] in mem' && mem'[dup[wa]] == mem[flat[wa].0])
  }

  /** The parent's pages are neither free nor tables, and the child has no page below `sz`. */
  ghost predicate CanCopy(mem: Memory, free: set<nat>, tab: Tables, parent: nat, child: nat, sz: nat) {
    && (forall wa {:trigger Flat(mem, parent)[wa]} | wa in Flat(mem, parent) && wa < sz ::
          Away({Flat(mem, parent)[wa].0}, mem, free, tab))
    && (forall wa | wa in Flat(mem, child) :: sz <= wa)
  }

  lemma CopiedStart(mem: Memory, free: set<nat>, tab: Tables, roots: set<nat>, parent: nat, child: nat)
    ensures Copied(mem, free, tab, mem, free, tab, roots, parent, child, 0, map[], map[])
  {
  }

  /** Table pages taken by walk_create() do not disturb the copies. */
  lemma CopiedGrown(mem: Memory, free: set<nat>, tab: Tables, mem': Memory, free': set<nat>, tab': Tables,
                    mem'': Memory, free'': set<nat>, tab'': Tables, roots: set<nat>,
                    parent: nat, child: nat, a: nat, dup: map<nat, nat>, own: map<nat, nat>)
    requires Copied(mem, free, tab, mem', free', tab', roots, parent, child, a, dup, own)
    requires Grown(mem', free', tab', mem'', free'', tab'', roots) && child in roots
    ensures Copied(mem, free, tab, mem'', free'', tab'', roots, parent, child, a, dup, own)
  {
    LeavesTrans(mem, mem', mem'', roots - {child});
    assert SameLeaves(mem', mem'', child);
    SameFlat(mem', mem'', child);
    TakenKept(mem, free, tab, own.Keys, mem', free', tab', mem'', free'', tab'');
    ContentKept(mem, mem', mem'', Flat(mem, parent), a, dup, own);
  }

  lemma ContentKept(mem: Memory, mem': Memory, mem'': Memory, flat: FlatMap, a: nat, dup: map<nat, nat>, own: map<nat, nat>)
    requires SameContent(mem, mem', flat, a, dup, own) && mem''.Keys == mem'.Keys
    requires forall p | p in own.Keys :: p in mem' && mem''[p] == mem'[p]
    ensures SameContent(mem, mem'', flat, a, dup, own)
  {
  }

  /** A page the parent does not map. */
  lemma CopiedSkip(mem: Memory, free: set<nat>, tab: Tables, mem': Memory, free': set<nat>, tab': Tables, roots: set<nat>,
                   parent: nat, child: nat, a: nat, dup: map<nat, nat>, own: map<nat, nat>, next: nat)
    requires Copied(mem, free, tab, mem', free', tab', roots, parent, child, a, dup, own)
    requires a !in Flat(mem, parent) && a % PAGESIZE == 0 && next == a + PAGESIZE
    ensures Copied(mem, free, tab, mem', free', tab', roots, parent, child, next, dup, own)
  {
    var flat := Flat(mem, parent);
    assert forall wa | wa in flat :: wa % PAGESIZE == 0;
    KeysBelow(flat, a, next);
  }

  lemma KeysBelow(flat: FlatMap, a: nat, next: nat)
    requires a % PAGESIZE == 0 && next == a + PAGESIZE && forall wa | wa in flat :: wa % PAGESIZE == 0
    ensures (set wa | wa in flat && wa < next) == (set wa | wa in flat && wa < a) + if a in flat then {a} else {}
  {
  }

  /** A free page is taken and written. */
  lemma TakePage(mem: Memory, free: set<nat>, tab: Tables, roots: set<nat>, p: nat, content: Page)
    requires Inv(mem, free, tab, roots) && p in free
    ensures Inv(mem[p := content], free - {p}, tab, roots) && AllLeavesSame(mem, mem[p := content], roots)
    ensures Away({p}, mem[p := content], free - {p}, tab)
  {
    forall r | r in roots
      ensures Tree(mem[p := content], r, tab) && SameLeaves(mem, mem[p := content], r)
    {
      assert Tree(mem, r, tab);
      TreeKept(mem, mem[p := content], r, tab, tab);
    }
  }

  lemma DupGrows(flat: FlatMap, flat': FlatMap, dup: map<nat, nat>, a: nat, p: nat)
    requires dup.Keys <= flat.Keys && a in flat
    ensures (flat' + CopyOf(flat, dup))[a := (p, flat[a].1)] == flat' + CopyOf(flat, dup[a := p])
  {
  }

  /** Page `p`, free in `free'`, gets the content of the parent's page at `a` and is mapped there in the child. */
  lemma CopiedAdd(mem: Memory, free: set<nat>, tab: Tables, mem': Memory, free': set<nat>, tab': Tables,
                  mem'': Memory, free'': set<nat>, tab'': Tables, roots: set<nat>,
                  parent: nat, child: nat, a: nat, dup: map<nat, nat>, own: map<nat, nat>, p: nat, content: Page, next: nat)
    requires Copied(mem, free, tab, mem', free', tab', roots, parent, child, a, dup, own)
    requires Inv(mem', free', tab', roots) && p in free' && child in roots && a % PAGESIZE == 0 && next == a + PAGESIZE
    requires a in Flat(mem, parent) && Flat(mem, parent)[a].0 in mem && content == mem[Flat(mem, parent)[a].0]
    requires Conserved(mem'[p := content], free' - {p}, tab', mem'', free'', tab'')
    requires AllLeavesSame(mem'[p := content], mem'', roots - {child})
    requires Flat(mem'', child) == Flat(mem'[p := content], child)[a := (p, Flat(mem, parent)[a].1)]
    ensures Copied(mem, free, tab, mem'', free'', tab'', roots, parent, child, next, dup[a := p], own[p := a])
  {
    TakePage(mem', free', tab', roots, p, content);
    AddFlat(mem, mem', mem'[p := content], mem'', roots, parent, child, a, dup, p);
    TakenMore(mem, free, tab, own.Keys, mem', free', tab', mem'', free'', tab'', p, content);
    MoreKeys(own, p, a);
    AddContent(mem, mem', mem'', Flat(mem, parent), a, dup, own, p, next);
  }

  lemma MoreKeys(own: map<nat, nat>, p: nat, a: nat)
    ensures own[p := a].Keys == own.Keys + {p}
  {
  }

  lemma AddFlat(mem: Memory, mem1: Memory, mem2: Memory, mem3: Memory, roots: set<nat>, parent: nat, child: nat, a: nat,
                dup: map<nat, nat>, p: nat)
    requires child in roots && dup.Keys <= Flat(mem, parent).Keys && a in Flat(mem, parent)
    requires AllLeavesSame(mem, mem1, roots - {child}) && AllLeavesSame(mem1, mem2, roots)
    requires AllLeavesSame(mem2, mem3, roots - {child})
    requires Flat(mem1, child) == Flat(mem, child) + CopyOf(Flat(mem, parent), dup)
    requires Flat(mem3, child) == Flat(mem2, child)[a := (p, Flat(mem, parent)[a].1)]
    ensures AllLeavesSame(mem, mem3, roots - {child})
    ensures Flat(mem3, child) == Flat(mem, child) + CopyOf(Flat(mem, parent), dup[a := p])
  {
    assert AllLeavesSame(mem1, mem2, roots - {child});
    LeavesTrans(mem, mem1, mem2, roots - {child});
    LeavesTrans(mem, mem2, mem3, roots - {child});
    assert SameLeaves(mem1, mem2, child);
    SameFlat(mem1, mem2, child);
    DupGrows(Flat(mem, parent), Flat(mem, child), dup, a, p);
  }

  lemma AddContent(mem: Memory, mem': Memory, mem'': Memory, flat: FlatMap, a: nat, dup: map<nat, nat>, own: map<nat, nat>,
                   p: nat, next: nat)
    requires SameContent(mem, mem', flat, a, dup, own) && mem''.Keys == mem'.Keys && a in flat
    requires a % PAGESIZE == 0 && next == a + PAGESIZE && forall wa | wa in flat :: wa % PAGESIZE == 0
    requires forall q | q in own.Keys :: q != p && q in mem' && mem''[q] == mem'[q]
    requires flat[a].0 in mem && p in mem'' && mem''[p] == mem[flat[a].0]
    ensures SameContent(mem, mem'', flat, next, dup[a := p], own[p := a])
  {
  }

  /** The page is given back when the child's tables cannot grow: all that remains is grown tables. */
  lemma GiveBack(mem: Memory, free: set<nat>, tab: Tables, roots: set<nat>, p: nat, content: Page,
                 mem': Memory, free': set<nat>, tab': Tables, child: nat)
    requires Inv(mem, free, tab, roots) && p in free && child in roots
    requires Inv(mem', free', tab', roots) && Grown(mem[p := content], free - {p}, tab, mem', free', tab', roots)
    ensures p in mem' && p !in free'
    ensures Inv(mem'[p := FREED], free' + {p}, tab', roots)
    ensures Grown(mem, free, tab, mem'[p := FREED], free' + {p}, tab', roots)
  {
    TakePage(mem, free, tab, roots, p, content);
    assert p !in free - {p} + tab.Keys && p !in free' + tab'.Keys;
    FreeAway(mem', free', tab', roots, p, child, 0, 0);
    LeavesTrans(mem, mem[p := content], mem', roots);
    LeavesTrans(mem, mem', mem'[p := FREED], roots);
    forall q | q in mem && q !in free && q !in tab
      ensures mem'[p := FREED][q] == mem[q]
    {
    }
  }

  lemma FlagsOfValid(pte: nat)
    requires IsValid(pte)
    ensures Flags(pte) < 1024 && Flags(pte) % 2 == 1
  {
  }

  lemma ParentSame(mem: Memory, mem': Memory, roots: set<nat>, parent: nat, child: nat)
    requires AllLeavesSame(mem, mem', roots - {child}) && parent in roots && parent != child
    ensures Flat(mem', parent) == Flat(mem, parent)
  {
    assert SameLeaves(mem, mem', parent);
    SameFlat(mem, mem', parent);
  }

  /** The child's mappings below `a` are the copies and nothing else. */
  lemma CopiesOwned(mem: Memory, free: set<nat>, tab: Tables, mem': Memory, free': set<nat>, tab': Tables, roots: set<nat>,
                    parent: nat, child: nat, a: nat, dup: map<nat, nat>, own: map<nat, nat>, sz: nat)
    requires Copied(mem, free, tab, mem', free', tab', roots, parent, child, a, dup, own)
    requires a <= sz && forall wa | wa in Flat(mem, child) :: sz <= wa
    ensures Owned(Flat(mem', child), own, 0, a)
    ensures AreLeaves(Flat(mem, parent), 0, sz) ==> AreLeaves(Flat(mem', child), 0, a)
    ensures a < sz ==> a !in Flat(mem', child)
  {
    OwnedCopies(mem, mem', Flat(mem, parent), Flat(mem, child), a, dup, own, sz);
  }

  lemma OwnedCopies(mem: Memory, mem': Memory, flat: FlatMap, above: FlatMap, a: nat, dup: map<nat, nat>, own: map<nat, nat>,
                    sz: nat)
    requires SameContent(mem, mem', flat, a, dup, own) && a <= sz && forall wa | wa in above :: sz <= wa
    ensures Owned(above + CopyOf(flat, dup), own, 0, a)
    ensures AreLeaves(flat, 0, sz) ==> AreLeaves(above + CopyOf(flat, dup), 0, a)
    ensures a < sz ==> a !in above + CopyOf(flat, dup)
  {
  }

  /** Copies made up to `a` and unmapped again leave no trace but tables. */
  lemma Undone(mem: Memory, free: set<nat>, tab: Tables, mem': Memory, free': set<nat>, tab': Tables,
               mem'': Memory, free'': set<nat>, tab'': Tables, roots: set<nat>,
               parent: nat, child: nat, a: nat, dup: map<nat, nat>, own: map<nat, nat>, sz: nat)
    requires Copied(mem, free, tab, mem', free', tab', roots, parent, child, a, dup, own)
    requires a <= sz && forall wa | wa in Flat(mem, child) :: sz <= wa
    requires Unmapping(mem', free', tab', mem'', free'', tab'', roots, child, 0, a, own.Keys)
    ensures Conserved(mem, free, tab, mem'', free'', tab'') && AllLeavesSame(mem, mem'', roots - {child})
    ensures Flat(mem'', child) == Flat(mem, child)
  {
    LeavesTrans(mem, mem', mem'', roots - {child});
    var flat := Flat(mem, parent);
    assert dup.Keys <= Pages(0, a) by {
      assert forall wa | wa in flat :: wa % PAGESIZE == 0;
    }
    CopiesGone(flat, Flat(mem, child), dup, a, sz);
    forall p | p in mem && p !in free && p !in tab
      ensures mem''[p] == mem[p]
    {
      assert p !in free' + tab'.Keys + own.Keys;
      assert mem'[p] == mem[p];
    }
  }

  lemma CopiesGone(flat: FlatMap, above: FlatMap, dup: map<nat, nat>, a: nat, sz: nat)
    requires dup.Keys <= flat.Keys && dup.Keys <= Pages(0, a) && a <= sz && forall wa | wa in above :: sz <= wa
    ensures above + CopyOf(flat, dup) - Pages(0, a) == above
  {
  }

  lemma CopiedEnd(mem: Memory, free: set<nat>, tab: Tables, mem': Memory, free': set<nat>, tab': Tables, roots: set<nat>,
                  parent: nat, child: nat, a: nat, dup: map<nat, nat>, own: map<nat, nat>, sz: nat)
    requires Copied(mem, free, tab, mem', free', tab', roots, parent, child, a, dup, own)
    requires sz <= a < sz + PAGESIZE && a % PAGESIZE == 0
    ensures Copied(mem, free, tab, mem', free', tab', roots, parent, child, sz, dup, own)
  {
    var flat := Flat(mem, parent);
    assert forall wa | wa in flat :: wa % PAGESIZE == 0;
    KeysTo(flat, a, sz);
  }

  lemma KeysTo(flat: FlatMap, a: nat, sz: nat)
    requires sz <= a < sz + PAGESIZE && a % PAGESIZE == 0 && forall wa | wa in flat :: wa % PAGESIZE == 0
    ensures (set wa | wa in flat && wa < a) == (set wa | wa in flat && wa < sz)
  {
  }

  // ---------- the tables that a copy makes ----------

  ghost predicate InRegion(flat: FlatMap, a: nat, i: nat, j: nat, wa: nat) {
    wa in flat && wa < a && PX2(wa) == i && PX1(wa) == j
  }

  /** A page below `a` is mapped in the 2 MB region of last-level table (i, j). */
  ghost predicate HasPage(flat: FlatMap, a: nat, i: nat, j: nat) {
    exists wa :: InRegion(flat, a, i, j, wa)
  }

  ghost predicate VisitedAt(pos: Pos, a: nat, b: nat) {
    b <= a && b % PAGESIZE == 0 && (pos == MidAt(PX2(b)) || pos == LowAt(PX2(b), PX1(b)))
  }

  /** A walk to a page up to `a` visits this place. */
  ghost predicate Visited(pos: Pos, a: nat) {
    exists b :: VisitedAt(pos, a, b)
  }

  /** New tables are in the parent or the child where a page up to `a` was looked up, and last-level tables of the child
      are where a page was copied. */
  ghost predicate NewAt(x: (nat, Pos), parent: nat, child: nat, flat: FlatMap, a: nat) {
    && (x.0 == parent || x.0 == child) && Visited(x.1, a)
    && (x.0 == child && x.1.LowAt? ==> HasPage(flat, a, x.1.i, x.1.j))
  }

  ghost predicate Walked(tab: Tables, tab': Tables, parent: nat, child: nat, flat: FlatMap, a: nat) {
    forall t {:trigger tab'[t]} | t in tab' && t !in tab :: NewAt(tab'[t], parent, child, flat, a)
  }

  lemma NewLater(x: (nat, Pos), parent: nat, child: nat, flat: FlatMap, a: nat, next: nat)
    requires NewAt(x, parent, child, flat, a) && a <= next
    ensures NewAt(x, parent, child, flat, next)
  {
    var b :| VisitedAt(x.1, a, b);
    assert VisitedAt(x.1, next, b);
    if x.0 == child && x.1.LowAt? {
      var wa :| InRegion(flat, a, x.1.i, x.1.j, wa);
      assert InRegion(flat, next, x.1.i, x.1.j, wa);
    }
  }

  lemma WalkedLater(tab: Tables, tab': Tables, parent: nat, child: nat, flat: FlatMap, a: nat, next: nat)
    requires Walked(tab, tab', parent, child, flat, a) && a <= next
    ensures Walked(tab, tab', parent, child, flat, next)
  {
    forall t | t in tab' && t !in tab
      ensures NewAt(tab'[t], parent, child, flat, next)
    {
      NewLater(tab'[t], parent, child, flat, a, next);
    }
  }

  /** The lookup in the parent. */
  lemma WalkedParent(tab: Tables, tab': Tables, tab'': Tables, parent: nat, child: nat, flat: FlatMap, a: nat)
    requires Walked(tab, tab', parent, child, flat, a) && parent != child && a % PAGESIZE == 0
    requires Extends(tab', tab'') && Grew(tab', tab'', parent, PX2(a), PX1(a))
    ensures Walked(tab, tab'', parent, child, flat, a)
  {
    forall t | t in tab'' && t !in tab
      ensures NewAt(tab''[t], parent, child, flat, a)
    {
      if t in tab' {
        assert tab''[t] == tab'[t];
      } else {
        assert VisitedAt(tab''[t].1, a, a);
      }
    }
  }

  /** The mapping in the child: a last-level table remains only if the page is mapped. */
  lemma WalkedChild(tab: Tables, tab': Tables, tab'': Tables, parent: nat, child: nat, flat: FlatMap, a: nat, next: nat)
    requires Walked(tab, tab', parent, child, flat, a) && a % PAGESIZE == 0 && a in flat && a <= next
    requires Extends(tab', tab'') && Grew(tab', tab'', child, PX2(a), PX1(a))
    requires a < next || forall t | t in tab'' && t !in tab' :: tab''[t] != (child, LowAt(PX2(a), PX1(a)))
    ensures Walked(tab, tab'', parent, child, flat, next)
  {
    forall t | t in tab'' && t !in tab
      ensures NewAt(tab''[t], parent, child, flat, next)
    {
      if t in tab' {
        assert tab''[t] == tab'[t];
        NewLater(tab'[t], parent, child, flat, a, next);
      } else {
        assert VisitedAt(tab''[t].1, next, a);
        assert a < next ==> InRegion(flat, next, PX2(a), PX1(a), a);
      }
    }
  }

  /** A last-level table that is not found is not listed. */
  lemma NotListed(mem: Memory, free: set<nat>, tab: Tables, roots: set<nat>, root: nat, i: nat, j: nat)
    requires Inv(mem, free, tab, roots) && root in roots && i < ENTRIES && j < ENTRIES && Low(mem, root, i, j) == 0
    ensures forall t | t in tab :: tab[t] != (root, LowAt(i, j))
  {
    assert Tree(mem, root, tab);
  }

  lemma SameMissing(mem: Memory, free: set<nat>, mem': Memory, free': set<nat>, tab: Tables, roots: set<nat>, root: nat,
                    i: nat, j: nat)
    requires Inv(mem, free, tab, roots) && Inv(mem', free', tab, roots) && root in roots && i < ENTRIES && j < ENTRIES
    ensures Missing(mem', root, i, j) == Missing(mem, root, i, j)
  {
    SameTables(mem, free, mem', free', tab, roots, root, i, j);
    assert Tree(mem, root, tab) && Tree(mem', root, tab);
    var t, t' := Mid(mem, root, i), Mid(mem', root, i);
    assert t != 0 ==> tab[t] == (root, MidAt(i));
    assert t' != 0 ==> tab[t'] == (root, MidAt(i));
  }

  // ---------- when the copies are all back, in terms of the arguments ----------

  /** There is a table for `b` in the child, because it had one or because a page of that region was copied; or no page is
      at hand, because none is `spare` and none mapped below `b`. */
  ghost predicate TableOrNoPage(mem: Memory, parent: nat, child: nat, a: nat, spare: bool, b: nat) {
    || Low(mem, child, PX2(b), PX1(b)) != 0
    || HasPage(Flat(mem, parent), a, PX2(b), PX1(b))
    || (!spare && NoneBelow(Flat(mem, parent), b))
  }

  ghost predicate NoneBelow(flat: FlatMap, b: nat) {
    forall wa | wa in flat :: b <= wa
  }

  /** No page copied below `a` is lost to a table in the cleanup. */
  ghost predicate CleanStop(mem: Memory, parent: nat, child: nat, a: nat, spare: bool) {
    forall b {:trigger TableOrNoPage(mem, parent, child, a, spare, b)} | 0 <= b < a && b % PAGESIZE == 0 ::
      TableOrNoPage(mem, parent, child, a, spare, b)
  }

  /** The child's last-level tables when the loop stops. */
  lemma ChildTables(mem: Memory, free: set<nat>, tab: Tables, mem': Memory, free': set<nat>, tab': Tables, roots: set<nat>,
                    parent: nat, child: nat, a: nat, i: nat, j: nat)
    requires Inv(mem, free, tab, roots) && Inv(mem', free', tab', roots) && child in roots && i < ENTRIES && j < ENTRIES
    requires Extends(tab, tab') && Walked(tab, tab', parent, child, Flat(mem, parent), a)
    requires forall wa | wa in Flat(mem, parent) && wa < a :: wa in Flat(mem', child)
    ensures Low(mem', child, i, j) != 0 <==> Low(mem, child, i, j) != 0 || HasPage(Flat(mem, parent), a, i, j)
  {
    assert Tree(mem, child, tab) && Tree(mem', child, tab');
    var t, t' := Low(mem, child, i, j), Low(mem', child, i, j);
    if t != 0 {
      assert tab[t] == (child, LowAt(i, j)) && tab'[t] == tab[t];
    }
    if t' != 0 {
      assert tab'[t'] == (child, LowAt(i, j));
      if t' in tab {
        assert tab'[t'] == tab[t'];
      } else {
        assert NewAt(tab'[t'], parent, child, Flat(mem, parent), a);
      }
    }
    if HasPage(Flat(mem, parent), a, i, j) {
      var wa :| InRegion(Flat(mem, parent), a, i, j, wa);
      assert wa in Flat(mem', child);
    }
  }

  lemma NoneCopiedBelow(mem: Memory, mem': Memory, flat: FlatMap, a: nat, dup: map<nat, nat>, own: map<nat, nat>, b: nat)
    requires SameContent(mem, mem', flat, a, dup, own) && b <= a
    ensures Below(own, b) == {} <==> NoneBelow(flat, b)
  {
    if !NoneBelow(flat, b) {
      var wa :| wa in flat && wa < b;
      assert wa in dup && dup[wa] in Below(own, b);
    }
    if Below(own, b) != {} {
      var p :| p in Below(own, b);
      assert own[p] in dup;
    }
  }

  lemma CopiesThere(mem: Memory, mem': Memory, flat: FlatMap, above: FlatMap, a: nat, dup: map<nat, nat>, own: map<nat, nat>)
    requires SameContent(mem, mem', flat, a, dup, own)
    ensures forall wa | wa in flat && wa < a :: wa in above + CopyOf(flat, dup)
  {
    forall wa | wa in flat && wa < a
      ensures wa in above + CopyOf(flat, dup)
    {
      assert wa in dup;
    }
  }

  lemma GapAtBelow(mem: Memory, free: set<nat>, tab: Tables, mem': Memory, free': set<nat>, tab': Tables, roots: set<nat>,
                   parent: nat, child: nat, a: nat, dup: map<nat, nat>, own: map<nat, nat>, b: nat)
    requires Inv(mem, free, tab, roots) && Inv(mem', free', tab', roots) && child in roots && b < a
    requires Extends(tab, tab') && Walked(tab, tab', parent, child, Flat(mem, parent), a)
    requires SameContent(mem, mem', Flat(mem, parent), a, dup, own)
    requires forall wa | wa in Flat(mem, parent) && wa < a :: wa in Flat(mem', child)
    ensures NoGapAt(mem', child, free', own, b) <==> TableOrNoPage(mem, parent, child, a, free' != {}, b)
  {
    ChildTables(mem, free, tab, mem', free', tab', roots, parent, child, a, PX2(b), PX1(b));
    NoneCopiedBelow(mem, mem', Flat(mem, parent), a, dup, own, b);
  }

  lemma GapIsBelow(mem: Memory, free: set<nat>, tab: Tables, mem': Memory, free': set<nat>, tab': Tables, roots: set<nat>,
                   parent: nat, child: nat, a: nat, dup: map<nat, nat>, own: map<nat, nat>, spare: bool)
    requires Inv(mem, free, tab, roots) && Inv(mem', free', tab', roots) && child in roots && spare == (free' != {})
    requires Copied(mem, free, tab, mem', free', tab', roots, parent, child, a, dup, own)
    requires Walked(tab, tab', parent, child, Flat(mem, parent), a)
    ensures NoGap(mem', child, free', own, 0, a) <==> CleanStop(mem, parent, child, a, spare)
  {
    CopiesThere(mem, mem', Flat(mem, parent), Flat(mem, child), a, dup, own);
    assert forall wa | wa in Flat(mem, parent) && wa < a :: wa in Flat(mem', child);
    if NoGap(mem', child, free', own, 0, a) {
      forall b | 0 <= b < a && b % PAGESIZE == 0
        ensures TableOrNoPage(mem, parent, child, a, spare, b)
      {
        assert NoGapAt(mem', child, free', own, b);
        GapAtBelow(mem, free, tab, mem', free', tab', roots, parent, child, a, dup, own, b);
      }
    }
    if CleanStop(mem, parent, child, a, spare) {
      forall b | 0 <= b < a && b % PAGESIZE == 0
        ensures NoGapAt(mem', child, free', own, b)
      {
        assert TableOrNoPage(mem, parent, child, a, spare, b);
        GapAtBelow(mem, free, tab, mem', free', tab', roots, parent, child, a, dup, own, b);
      }
    }
  }

  /** The child has a table, or the parent a page, at or before each page in its 2 MB region. */
  ghost predicate Tight(mem: Memory, parent: nat, child: nat, sz: nat) {
    forall b {:trigger HasPage(Flat(mem, parent), b + 1, PX2(b), PX1(b))} | 0 <= b < sz && b % PAGESIZE == 0 ::
      Low(mem, child, PX2(b), PX1(b)) != 0 || HasPage(Flat(mem, parent), b + 1, PX2(b), PX1(b))
  }

  /** Then the cleanup loses nothing, wherever the copy stops. */
  lemma TightIsClean(mem: Memory, parent: nat, child: nat, sz: nat, a: nat, spare: bool)
    requires Tight(mem, parent, child, sz) && a <= sz
    ensures CleanStop(mem, parent, child, a, spare)
  {
    var flat := Flat(mem, parent);
    forall b | 0 <= b < a && b % PAGESIZE == 0
      ensures TableOrNoPage(mem, parent, child, a, spare, b)
    {
      if HasPage(flat, b + 1, PX2(b), PX1(b)) {
        var wa :| InRegion(flat, b + 1, PX2(b), PX1(b), wa);
        assert InRegion(flat, a, PX2(b), PX1(b), wa);
      }
    }
  }

  /** So it is for an address space without holes. */
  lemma NoHolesTight(mem: Memory, parent: nat, child: nat, sz: nat)
    requires forall b | 0 <= b < sz && b % PAGESIZE == 0 :: b in Flat(mem, parent)
    ensures Tight(mem, parent, child, sz)
  {
    forall b | 0 <= b < sz && b % PAGESIZE == 0
      ensures HasPage(Flat(mem, parent), b + 1, PX2(b), PX1(b))
    {
      assert InRegion(Flat(mem, parent), b + 1, PX2(b), PX1(b), b);
    }
  }

  // ---------- a page table with a gap ----------

  /** A second-level table is added at index `i`, on page `t`. */
  lemma AddMidTo(mem: Memory, free: set<nat>, tab: Tables, roots: set<nat>, root: nat, i: nat, t: nat) returns (mem': Memory)
    requires Inv(mem, free, tab, roots) && root in roots && t in free && i < ENTRIES && Entry(mem, root, i) == 0
    ensures Inv(mem', free - {t}, tab[t := (root, MidAt(i))], roots)
    ensures Grown(mem, free, tab, mem', free - {t}, tab[t := (root, MidAt(i))], roots)
    ensures Mid(mem', root, i) == t && mem'[t] == ZeroPage() && mem'.Keys == mem.Keys
    ensures forall p | p in mem && p != t && p != root :: mem'[p] == mem[p]
  {
    IsTable(mem, free, tab, roots, root, i, 0);
    mem' := mem[t := ZeroPage()];
    mem' := mem'[root := mem[root][i := MakePte(t, 0)]];
    NewMid(mem, free, tab, roots, root, i, t, mem');
  }

  /** A last-level table is added at (i, j), on page `t`. */
  lemma AddLowTo(mem: Memory, free: set<nat>, tab: Tables, roots: set<nat>, root: nat, i: nat, j: nat, t: nat) returns (mem': Memory)
    requires Inv(mem, free, tab, roots) && root in roots && t in free && i < ENTRIES && j < ENTRIES
    requires Mid(mem, root, i) != 0 && Entry(mem, Mid(mem, root, i), j) == 0
    ensures Inv(mem', free - {t}, tab[t := (root, LowAt(i, j))], roots)
    ensures Grown(mem, free, tab, mem', free - {t}, tab[t := (root, LowAt(i, j))], roots)
    ensures Low(mem', root, i, j) == t && Mid(mem', root, i) == Mid(mem, root, i) && mem'.Keys == mem.Keys
    ensures forall k | 0 <= k < ENTRIES && k != j :: Entry(mem', Mid(mem, root, i), k) == Entry(mem, Mid(mem, root, i), k)
    ensures forall p | p in mem && p != t && p != Mid(mem, root, i) :: mem'[p] == mem[p]
  {
    IsTable(mem, free, tab, roots, root, i, j);
    var m := Mid(mem, root, i);
    assert Tree(mem, root, tab) && tab[m] == (root, MidAt(i)) && m != root;
    mem' := mem[t := ZeroPage()];
    mem' := mem'[m := mem[m][j := MakePte(t, 0)]];
    NewLow(mem, free, tab, roots, root, i, j, t, mem');
  }

  /** The entry of `va` is stored. */
  lemma MapTo(mem: Memory, free: set<nat>, tab: Tables, roots: set<nat>, root: nat, va: nat, pa: nat) returns (mem': Memory)
    requires Inv(mem, free, tab, roots) && root in roots && va < VASPACE && va % PAGESIZE == 0 && pa % PAGESIZE == 0
    requires Low(mem, root, PX2(va), PX1(va)) != 0
    ensures Inv(mem', free, tab, roots) && mem'.Keys == mem.Keys
    ensures Flat(mem', root) == Flat(mem, root)[va := (pa, 7)]
    ensures forall p | p in mem && p != Low(mem, root, PX2(va), PX1(va)) :: mem'[p] == mem[p]
    ensures forall i, j | 0 <= i < ENTRIES && 0 <= j < ENTRIES :: Low(mem', root, i, j) == Low(mem, root, i, j)
  {
    PteRoundTrip(pa, 7);
    StoreLeaf(mem, free, tab, roots, root, va, MakePte(pa, 7));
    mem' := Store(mem, Low(mem, root, PX2(va), PX1(va)), PX0(va), MakePte(pa, 7));
    forall i, j | 0 <= i < ENTRIES && 0 <= j < ENTRIES
      ensures Low(mem', root, i, j) == Low(mem, root, i, j)
    {
      SameTables(mem, free, mem', free, tab, roots, root, i, j);
    }
  }

  /** A memory of ten pages. */
  const TEN: set<nat> := {0x1000, 0x2000, 0x3000, 0x4000, 0x5000, 0x6000, 0x7000, 0x8000, 0x9000, 0xA000}

  /** An empty page table on the first page. */
  lemma GapStart() returns (mem: Memory, tab: Tables)
    ensures Inv(mem, {0x2000, 0x3000, 0x4000, 0x5000, 0x6000, 0x7000, 0xA000}, tab, {0x1000}) && Flat(mem, 0x1000) == map[]
    ensures mem.Keys == TEN && tab.Keys == {0x1000} && mem[0x1000] == ZeroPage()
  {
    mem := map p | p in TEN :: ZeroPage();
    var free := {0x1000, 0x2000, 0x3000, 0x4000, 0x5000, 0x6000, 0x7000, 0xA000};
    NewRoot(mem, free, map[], {}, 0x1000);
    assert mem[0x1000 := ZeroPage()] == mem;
    assert {} + {0x1000} == {0x1000};
    assert free - {0x1000} == {0x2000, 0x3000, 0x4000, 0x5000, 0x6000, 0x7000, 0xA000};
    tab := map[0x1000 := (0x1000, Root)];
  }

  /** With one second-level table. */
  lemma GapMid() returns (mem: Memory, tab: Tables)
    ensures Inv(mem, {0x3000, 0x4000, 0x5000, 0x6000, 0x7000, 0xA000}, tab, {0x1000}) && Flat(mem, 0x1000) == map[]
    ensures mem.Keys == TEN && tab.Keys == {0x1000, 0x2000} && Mid(mem, 0x1000, 0) == 0x2000 && mem[0x2000] == ZeroPage()
  {
    var mem1, free := map[], {0x2000, 0x3000, 0x4000, 0x5000, 0x6000, 0x7000, 0xA000};
    mem1, tab := GapStart();
    mem := AddMidTo(mem1, free, tab, {0x1000}, 0x1000, 0, 0x2000);
    assert free - {0x2000} == {0x3000, 0x4000, 0x5000, 0x6000, 0x7000, 0xA000};
    tab := tab[0x2000 := (0x1000, MidAt(0))];
    assert SameLeaves(mem1, mem, 0x1000);
    SameFlat(mem1, mem, 0x1000);
  }

  /** The same with a last-level table for the first 2 MB. */
  lemma GapLow() returns (mem: Memory, tab: Tables)
    ensures Inv(mem, {0x4000, 0x5000, 0x6000, 0x7000, 0xA000}, tab, {0x1000}) && Flat(mem, 0x1000) == map[]
    ensures mem.Keys == TEN && tab.Keys == {0x1000, 0x2000, 0x3000} && Mid(mem, 0x1000, 0) == 0x2000
    ensures Low(mem, 0x1000, 0, 0) == 0x3000 && forall k | 0 < k < ENTRIES :: Entry(mem, 0x2000, k) == 0
  {
    var mem1, free := map[], {0x3000, 0x4000, 0x5000, 0x6000, 0x7000, 0xA000};
    mem1, tab := GapMid();
    mem := AddLowTo(mem1, free, tab, {0x1000}, 0x1000, 0, 0, 0x3000);
    assert free - {0x3000} == {0x4000, 0x5000, 0x6000, 0x7000, 0xA000};
    tab := tab[0x3000 := (0x1000, LowAt(0, 0))];
    assert SameLeaves(mem1, mem, 0x1000);
    SameFlat(mem1, mem, 0x1000);
  }

  /** And one for the third. */
  lemma GapTables() returns (mem: Memory, tab: Tables)
    ensures Inv(mem, {0x5000, 0x6000, 0x7000, 0xA000}, tab, {0x1000}) && Flat(mem, 0x1000) == map[] && mem.Keys == TEN
    ensures tab.Keys == {0x1000, 0x2000, 0x3000, 0x4000} && Low(mem, 0x1000, 0, 0) == 0x3000 && Low(mem, 0x1000, 0, 2) == 0x4000
    ensures Low(mem, 0x1000, 0, 1) == 0
  {
    var mem1, free := map[], {0x4000, 0x5000, 0x6000, 0x7000, 0xA000};
    mem1, tab := GapLow();
    mem := AddLowTo(mem1, free, tab, {0x1000}, 0x1000, 0, 2, 0x4000);
    assert free - {0x4000} == {0x5000, 0x6000, 0x7000, 0xA000};
    tab := tab[0x4000 := (0x1000, LowAt(0, 2))];
    assert Entry(mem, 0x2000, 0) == Entry(mem1, 0x2000, 0) && Entry(mem, 0x2000, 1) == 0;
    assert SameLeaves(mem1, mem, 0x1000);
    SameFlat(mem1, mem, 0x1000);
  }

  /** The same with pages 0 and 0x40_0000 mapped to the pages 0x8000 and 0x9000. */
  lemma GapPages() returns (mem: Memory, tab: Tables)
    ensures Inv(mem, {0x5000, 0x6000, 0x7000, 0xA000}, tab, {0x1000}) && mem.Keys == TEN
    ensures tab.Keys == {0x1000, 0x2000, 0x3000, 0x4000} && Low(mem, 0x1000, 0, 1) == 0
    ensures Flat(mem, 0x1000) == map[0 := (0x8000, 7), 0x40_0000 := (0x9000, 7)]
  {
    mem, tab := GapTables();
    assert PX2(0) == 0 && PX1(0) == 0 && PX2(0x40_0000) == 0 && PX1(0x40_0000) == 2;
    mem := MapTo(mem, {0x5000, 0x6000, 0x7000, 0xA000}, tab, {0x1000}, 0x1000, 0, 0x8000);
    mem := MapTo(mem, {0x5000, 0x6000, 0x7000, 0xA000}, tab, {0x1000}, 0x1000, 0x40_0000, 0x9000);
  }

  /** The condition of unmap_page() can fail: with no page free, unmapping 4 MB of that page table frees its first page and
      then takes it for the missing table in between. */
  lemma GapExists() returns (mem: Memory, tab: Tables)
    ensures Inv(mem, {}, tab, {0x1000}) && Away({0x8000}, mem, {}, tab)
    ensures Owned(Flat(mem, 0x1000), map[0x8000 := 0], 0, 0x40_0000) && AreLeaves(Flat(mem, 0x1000), 0, 0x40_0000)
    ensures !NoGap(mem, 0x1000, {}, map[0x8000 := 0], 0, 0x40_0000)
  {
    mem, tab := GapPages();
    assert PX2(0x20_0000) == 0 && PX1(0x20_0000) == 1;
    assert 0x8000 in Below(map[0x8000 := 0], 0x20_0000);
    assert !NoGapAt(mem, 0x1000, {}, map[0x8000 := 0], 0x20_0000);
  }

  /** An empty child beside it. */
  lemma GapRoot() returns (mem: Memory, tab: Tables)
    ensures Inv(mem, {0x6000, 0x7000, 0xA000}, tab, {0x1000, 0x5000}) && mem.Keys == TEN && tab.Keys !! {0x8000, 0x9000}
    ensures Flat(mem, 0x1000) == map[0 := (0x8000, 7), 0x40_0000 := (0x9000, 7)] && Flat(mem, 0x5000) == map[]
    ensures mem[0x5000] == ZeroPage()
  {
    var mem1, free := map[], {0x5000, 0x6000, 0x7000, 0xA000};
    mem1, tab := GapPages();
    NewRoot(mem1, free, tab, {0x1000}, 0x5000);
    mem := mem1[0x5000 := ZeroPage()];
    tab := tab[0x5000 := (0x5000, Root)];
    assert free - {0x5000} == {0x6000, 0x7000, 0xA000} && {0x1000} + {0x5000} == {0x1000, 0x5000};
    assert SameLeaves(mem1, mem, 0x1000);
    SameFlat(mem1, mem, 0x1000);
  }

  /** With one second-level table. */
  lemma GapChild() returns (mem: Memory, tab: Tables)
    ensures Inv(mem, {0x7000, 0xA000}, tab, {0x1000, 0x5000}) && mem.Keys == TEN && tab.Keys !! {0x8000, 0x9000}
    ensures Flat(mem, 0x1000) == map[0 := (0x8000, 7), 0x40_0000 := (0x9000, 7)] && Flat(mem, 0x5000) == map[]
    ensures Mid(mem, 0x5000, 0) == 0x6000 && mem[0x6000] == ZeroPage()
  {
    var mem1;
    mem1, tab := GapRoot();
    mem := AddMidTo(mem1, {0x6000, 0x7000, 0xA000}, tab, {0x1000, 0x5000}, 0x5000, 0, 0x6000);
    assert {0x6000, 0x7000, 0xA000} - {0x6000} == {0x7000, 0xA000};
    tab := tab[0x6000 := (0x5000, MidAt(0))];
    assert SameLeaves(mem1, mem, 0x1000) && SameLeaves(mem1, mem, 0x5000);
    SameFlat(mem1, mem, 0x1000);
    SameFlat(mem1, mem, 0x5000);
  }

  lemma GapCanCopy(mem: Memory, tab: Tables)
    requires mem.Keys == TEN && tab.Keys !! {0x8000, 0x9000}
    requires Flat(mem, 0x1000) == map[0 := (0x8000, 7), 0x40_0000 := (0x9000, 7)] && Flat(mem, 0x5000) == map[]
    ensures CanCopy(mem, {0xA000}, tab, 0x1000, 0x5000, 0x40_1000)
    ensures Flat(mem, 0x1000).Keys == {0, 0x40_0000} && AreLeaves(Flat(mem, 0x1000), 0, 0x40_1000)
  {
  }

  /** And a last-level table for the first 2 MB: an input of GapRun. */
  lemma GapInput() returns (mem: Memory, tab: Tables)
    ensures Inv(mem, {0xA000}, tab, {0x1000, 0x5000}) && GapAt(mem, 0x1000, 0x5000)
    ensures CanCopy(mem, {0xA000}, tab, 0x1000, 0x5000, 0x40_1000)
  {
    var mem1;
    mem1, tab := GapChild();
    mem := AddLowTo(mem1, {0x7000, 0xA000}, tab, {0x1000, 0x5000}, 0x5000, 0, 0, 0x7000);
    assert {0x7000, 0xA000} - {0x7000} == {0xA000};
    tab := tab[0x7000 := (0x5000, LowAt(0, 0))];
    assert SameLeaves(mem1, mem, 0x1000) && SameLeaves(mem1, mem, 0x5000);
    SameFlat(mem1, mem, 0x1000);
    SameFlat(mem1, mem, 0x5000);
    assert Entry(mem, 0x6000, 1) == 0;
    GapCanCopy(mem, tab);
  }

  /** The parent maps two pages in regions apart, and the child has a table for the first. */
  ghost predicate GapAt(mem: Memory, parent: nat, child: nat) {
    && Flat(mem, parent).Keys == {0, 0x40_0000} && AreLeaves(Flat(mem, parent), 0, 0x40_1000)
    && Low(mem, child, 0, 0) != 0 && Low(mem, child, 0, 1) == 0
  }

  lemma GapThere(mem: Memory, parent: nat, child: nat)
    requires GapAt(mem, parent, child)
    ensures !CleanStop(mem, parent, child, 0x40_0000, false)
  {
    var b, flat := 0x20_0000, Flat(mem, parent);
    assert PX2(b) == 0 && PX1(b) == 1 && PX1(0) == 0;
    assert 0 in flat && !NoneBelow(flat, b);
    assert forall wa | wa in flat :: wa in flat.Keys;
    assert !HasPage(flat, 0x40_0000, 0, 1);
    assert !TableOrNoPage(mem, parent, child, 0x40_0000, false, b);
  }

  /** A mapped page in every 2 MB region is not enough: here a copy stops at the second page of the second region, and the
      cleanup walks the first page of that region without a table. */
  lemma RegionsNotEnough(mem: Memory, parent: nat, child: nat)
    requires Flat(mem, parent).Keys == {0, 0x20_1000} && Low(mem, child, 0, 1) == 0
    ensures HasPage(Flat(mem, parent), 0x20_2000, 0, 0) && HasPage(Flat(mem, parent), 0x20_2000, 0, 1)
    ensures !CleanStop(mem, parent, child, 0x20_1000, false)
  {
    var b, flat := 0x20_0000, Flat(mem, parent);
    assert 0 in flat.Keys && 0x20_1000 in flat.Keys;
    assert PX2(b) == 0 && PX1(b) == 1 && PX2(0) == 0 && PX1(0) == 0 && PX2(0x20_1000) == 0 && PX1(0x20_1000) == 1;
    assert InRegion(flat, 0x20_2000, 0, 0, 0) && InRegion(flat, 0x20_2000, 0, 1, 0x20_1000);
    assert forall wa | wa in flat :: wa in flat.Keys;
    assert !HasPage(flat, 0x20_1000, 0, 1) && !NoneBelow(flat, b);
    assert !TableOrNoPage(mem, parent, child, 0x20_1000, false, b);
  }

  /** The one free page can hold one copy. */
  lemma OneCopy(mem: Memory, tab: Tables, mem': Memory, free': set<nat>, tab': Tables, flat: FlatMap, a: nat, dup: map<nat, nat>,
                own: map<nat, nat>, c: nat)
    requires Taken(mem, {c}, tab, own.Keys, mem', free', tab') && SameContent(mem, mem', flat, a, dup, own)
    requires flat.Keys == {0, 0x40_0000} && forall p | p in free' :: p !in tab'
    ensures own.Keys <= {c} && a <= 0x40_0000
    ensures 0 < a ==> own.Keys == {c} && free' == {}
    ensures a == 0 ==> own.Keys == {}
  {
    forall p | p in own.Keys
      ensures p == c
    {
      assert p in free' + tab'.Keys + own.Keys && p !in tab;
    }
    if 0 < a {
      assert 0 in dup && dup[0] in own.Keys;
      assert free' == {} by {
        assert forall p | p in free' :: p in {c} + tab.Keys;
      }
    }
    assert forall wa | wa in dup :: dup[wa] in own.Keys && own[dup[wa]] == wa;
    assert 0x40_0000 in flat.Keys && (0x40_0000 in dup <==> 0x40_0000 < a);
    assert 0 in flat.Keys && (0 in dup <==> 0 < a);
  }

  /** Tables that were there for page 0 are still the ones. */
  lemma StillThere(mem: Memory, tab: Tables, mem': Memory, tab': Tables, root: nat)
    requires Tree(mem, root, tab) && Tree(mem', root, tab') && Extends(tab, tab') && Low(mem, root, 0, 0) != 0
    ensures Low(mem', root, 0, 0) == Low(mem, root, 0, 0) && Mid(mem', root, 0) == Mid(mem, root, 0)
    ensures forall t | t in tab' && t !in tab :: tab'[t] != (root, MidAt(0)) && tab'[t] != (root, LowAt(0, 0))
  {
    var m, t := Mid(mem, root, 0), Low(mem, root, 0, 0);
    assert tab[t] == (root, LowAt(0, 0)) && tab'[t] == tab[t];
    assert tab[m] == (root, MidAt(0)) && tab'[m] == tab[m];
  }

  /** For page 0 no table was missing, in the parent or in the child, so the free page is not gone at once. */
  lemma NoneNeeded(mem: Memory, tab: Tables, mem': Memory, tab': Tables, parent: nat, child: nat, c: nat)
    requires Tree(mem, parent, tab) && Tree(mem, child, tab) && Tree(mem', parent, tab') && Tree(mem', child, tab')
    requires Extends(tab, tab') && c !in tab && GapAt(mem, parent, child)
    requires Walked(tab, tab', parent, child, Flat(mem, parent), 0)
    ensures c !in tab' && Low(mem', child, 0, 0) != 0
  {
    assert 0 in Flat(mem, parent).Keys && PX2(0) == 0 && PX1(0) == 0;
    StillThere(mem, tab, mem', tab', parent);
    StillThere(mem, tab, mem', tab', child);
    NotNew(tab, tab', parent, child, Flat(mem, parent), c);
  }

  lemma NotNew(tab: Tables, tab': Tables, parent: nat, child: nat, flat: FlatMap, c: nat)
    requires Walked(tab, tab', parent, child, flat, 0) && c !in tab
    requires forall t | t in tab' && t !in tab :: tab'[t] != (parent, MidAt(0)) && tab'[t] != (parent, LowAt(0, 0))
    requires forall t | t in tab' && t !in tab :: tab'[t] != (child, MidAt(0)) && tab'[t] != (child, LowAt(0, 0))
    ensures c !in tab'
  {
    if c in tab' {
      assert NewAt(tab'[c], parent, child, flat, 0);
      var b :| VisitedAt(tab'[c].1, 0, b);
      assert false;
    }
  }

  lemma GapNotOk(mem: Memory, tab: Tables, mem': Memory, free': set<nat>, tab': Tables, roots: set<nat>, parent: nat, child: nat,
                 dup: map<nat, nat>, own: map<nat, nat>, c: nat)
    requires GapAt(mem, parent, child) && Inv(mem', free', tab', roots)
    ensures !Copied(mem, {c}, tab, mem', free', tab', roots, parent, child, 0x40_1000, dup, own)
  {
    if Copied(mem, {c}, tab, mem', free', tab', roots, parent, child, 0x40_1000, dup, own) {
      OneCopy(mem, tab, mem', free', tab', Flat(mem, parent), 0x40_1000, dup, own, c);
    }
  }

  /** The copy stops at the second page, with the free page in use for the first. */
  lemma GapStops(mem: Memory, tab: Tables, stop: Stop, roots: set<nat>, parent: nat, child: nat, dup: map<nat, nat>,
                 own: map<nat, nat>, c: nat)
    requires Inv(mem, {c}, tab, roots) && parent in roots && child in roots && GapAt(mem, parent, child)
    requires Inv(stop.mem, stop.free, stop.tab, roots) && stop.a in Flat(mem, parent)
    requires stop.a == 0 && stop.free != {} ==> Low(stop.mem, child, 0, 0) == 0
    requires Taken(mem, {c}, tab, own.Keys, stop.mem, stop.free, stop.tab)
    requires SameContent(mem, stop.mem, Flat(mem, parent), stop.a, dup, own)
    requires Walked(tab, stop.tab, parent, child, Flat(mem, parent), stop.a)
    ensures stop.a == 0x40_0000 && stop.free == {} && own.Keys == {c}
  {
    OneCopy(mem, tab, stop.mem, stop.free, stop.tab, Flat(mem, parent), stop.a, dup, own, c);
    assert stop.a in Flat(mem, parent).Keys;
    if stop.a == 0 {
      StillFree(mem, tab, stop.mem, stop.free, stop.tab, roots, parent, child, c, own.Keys);
    }
  }

  lemma NotLost(mem: Memory, free: set<nat>, tab: Tables, mem': Memory, free': set<nat>, tab': Tables, p: nat)
    requires Conserved(mem, free, tab, mem', free', tab') && p in free
    ensures p in free' || p in tab'
  {
    assert p in free' + tab'.Keys;
  }

  lemma AtZero(mem: Memory, root: nat, a: nat)
    ensures a == 0 ==> Low(mem, root, PX2(a), PX1(a)) == Low(mem, root, 0, 0)
  {
  }

  lemma GapFound(mem: Memory, tab: Tables, stop: Stop, roots: set<nat>, parent: nat, child: nat, dup: map<nat, nat>,
                 own: map<nat, nat>, c: nat)
    requires Inv(mem, {c}, tab, roots) && parent in roots && child in roots && GapAt(mem, parent, child)
    requires Inv(stop.mem, stop.free, stop.tab, roots) && stop.a in Flat(mem, parent)
    requires stop.free != {} ==> Low(stop.mem, child, PX2(stop.a), PX1(stop.a)) == 0
    requires Copied(mem, {c}, tab, stop.mem, stop.free, stop.tab, roots, parent, child, stop.a, dup, own)
    requires Walked(tab, stop.tab, parent, child, Flat(mem, parent), stop.a)
    ensures own.Keys == {c} && stop.free == {} && !CleanStop(mem, parent, child, stop.a, stop.free != {})
  {
    AtZero(stop.mem, child, stop.a);
    GapStops(mem, tab, stop, roots, parent, child, dup, own, c);
    GapThere(mem, parent, child);
  }

  lemma StillFree(mem: Memory, tab: Tables, mem': Memory, free': set<nat>, tab': Tables, roots: set<nat>, parent: nat, child: nat,
                  c: nat, pages: set<nat>)
    requires Inv(mem, {c}, tab, roots) && Inv(mem', free', tab', roots) && parent in roots && child in roots
    requires GapAt(mem, parent, child) && Taken(mem, {c}, tab, pages, mem', free', tab') && pages == {}
    requires Walked(tab, tab', parent, child, Flat(mem, parent), 0)
    ensures c in free' && Low(mem', child, 0, 0) != 0
  {
    assert c in {c} && c in free' + tab'.Keys + pages;
    assert Tree(mem, parent, tab) && Tree(mem, child, tab);
    assert Tree(mem', parent, tab') && Tree(mem', child, tab');
    NoneNeeded(mem, tab, mem', tab', parent, child, c);
  }

  class Machine {
    var mem: Memory
    var free: set<nat>
    ghost var tab: Tables
    ghost var roots: set<nat>

    constructor (pages: set<nat>)
      requires forall p | p in pages :: 0 < p && p % PAGESIZE == 0
      ensures Valid() && roots == {} && free == pages
    {
      mem, free, tab, roots := map p | p in pages :: FREED, pages, map[], {};
    }

    ghost predicate Valid()
      reads this
    {
      Inv(mem, free, tab, roots)
    }

    /** alloc_page(): any free page, filled with junk; 0 when there is none. */
    method AllocPage() returns (p: nat)
      requires 0 !in free
      modifies this`mem, this`free
      ensures p == 0 <==> old(free) == {}
      ensures p == 0 ==> mem == old(mem) && free == old(free)
      ensures p != 0 ==> p in old(free) && free == old(free) - {p} && mem == old(mem)[p := ALLOCATED]
    {
      if free == {} {
        return 0;
      }
      p :| p in free;
      free, mem := free - {p}, mem[p := ALLOCATED];
    }

    /** create_pagetable(): a page table that maps nothing; 0 stands for the panic without memory. */
    method CreatePagetable() returns (root: nat)
      requires Valid()
      modifies this
      ensures Valid() && AllLeavesSame(old(mem), mem, old(roots)) && (root == 0 <==> old(free) == {})
      ensures root != 0 ==> root !in old(roots) && roots == old(roots) + {root} && Flat(mem, root) == map[]
      ensures root != 0 ==> free == old(free) - {root} && tab.Keys == old(tab).Keys + {root}
    {
      root := AllocPage();
      if root != 0 {
        NewRoot(old(mem), old(free), tab, roots, root);
        mem := mem[root := ZeroPage()];
        assert mem == old(mem)[root := ZeroPage()];
        tab, roots := tab[root := (root, Root)], roots + {root};
      }
    }

    /** The first level of walk_create(): the second-level table for index `i`, created if missing; 0 without memory. */
    method GetMid(root: nat, i: nat) returns (t: nat, ghost made: bool)
      requires Valid() && root in roots && i < ENTRIES
      modifies this`mem, this`free, this`tab
      ensures Valid() && Grown(old(mem), old(free), old(tab), mem, free, tab, roots)
      ensures t == Mid(mem, root, i)
      ensures made <==> Mid(old(mem), root, i) == 0 && old(free) != {}
      ensures made ==> t != 0 && t in old(free) && free == old(free) - {t} && tab == old(tab)[t := (root, MidAt(i))]
      ensures made ==> forall j | 0 <= j < ENTRIES :: Low(mem, root, i, j) == 0
      ensures !made ==> mem == old(mem) && free == old(free) && tab == old(tab)
    {
      IsTable(mem, free, tab, roots, root, i, 0);
      GrownNot(mem, free, tab, roots);
      if IsValid(mem[root][i]) {
        return Pte2Pa(mem[root][i]), false;
      }
      t := AllocPage();
      if t == 0 {
        return 0, false;
      }
      mem := mem[t := ZeroPage()];
      mem := mem[root := mem[root][i := MakePte(t, 0)]];
      NewMid(old(mem), old(free), tab, roots, root, i, t, mem);
      tab := tab[t := (root, MidAt(i))];
      return t, true;
    }

    /** The second level: the last-level table for (i, j) under the second-level table `m`. */
    method GetLow(root: nat, i: nat, j: nat, m: nat) returns (t: nat, ghost made: bool)
      requires Valid() && root in roots && i < ENTRIES && j < ENTRIES && m == Mid(mem, root, i) != 0
      modifies this`mem, this`free, this`tab
      ensures Valid() && Grown(old(mem), old(free), old(tab), mem, free, tab, roots)
      ensures t == Low(mem, root, i, j)
      ensures made <==> Low(old(mem), root, i, j) == 0 && old(free) != {}
      ensures made ==> t != 0 && t in old(free) && free == old(free) - {t} && tab == old(tab)[t := (root, LowAt(i, j))]
      ensures !made ==> mem == old(mem) && free == old(free) && tab == old(tab)
    {
      IsTable(mem, free, tab, roots, root, i, j);
      GrownNot(mem, free, tab, roots);
      if IsValid(mem[m][j]) {
        return Pte2Pa(mem[m][j]), false;
      }
      t := AllocPage();
      if t == 0 {
        return 0, false;
      }
      mem := mem[t := ZeroPage()];
      mem := mem[m := mem[m][j := MakePte(t, 0)]];
      NewLow(old(mem), old(free), tab, roots, root, i, j, t, mem);
      tab := tab[t := (root, LowAt(i, j))];
      return t, true;
    }

    /** walk_create(): the last-level table holding the entry for `va` (at index PX0(va)), with the tables above it created
        where missing; 0 when memory runs out. Either way no translation changes. */
    method WalkCreate(root: nat, va: nat) returns (t: nat)
      requires Valid() && root in roots
      modifies this`mem, this`free, this`tab
      ensures Valid() && Grown(old(mem), old(free), old(tab), mem, free, tab, roots)
      ensures t == Low(mem, root, PX2(va), PX1(va))
      ensures t == 0 ==> free == {}
      ensures tab == old(tab) <==> Low(old(mem), root, PX2(va), PX1(va)) != 0 || old(free) == {}
      ensures tab == old(tab) ==> mem == old(mem) && free == old(free)
      ensures t == 0 <==> |old(free)| < Missing(old(mem), root, PX2(va), PX1(va))
      ensures t != 0 ==> |free| == |old(free)| - Missing(old(mem), root, PX2(va), PX1(va))
      ensures Grew(old(tab), tab, root, PX2(va), PX1(va))
    {
      var m;
      ghost var made, made';
      m, made := GetMid(root, PX2(va));
      if m == 0 {
        return 0;
      }
      ghost var mem1, free1, tab1 := mem, free, tab;
      t, made' := GetLow(root, PX2(va), PX1(va), m);
      TwoMade(old(free), old(tab), m, made, free1, tab1, t, made', free, tab, root, PX2(va), PX1(va));
      ConservedTrans(old(mem), old(free), old(tab), mem1, free1, tab1, mem, free, tab);
      LeavesTrans(old(mem), mem1, mem, roots);
    }

    /** walk_lookup(): the same table where there is one, and 0 otherwise; nothing is created. */
    method WalkLookup(root: nat, va: nat) returns (t: nat)
      requires Valid() && root in roots
      ensures t == Low(mem, root, PX2(va), PX1(va))
    {
      IsTable(mem, free, tab, roots, root, PX2(va), PX1(va));
      t := root;
      for level := 2 downto 0
        invariant t in mem && t != 0
        invariant t == if level == 2 then root else if level == 1 then Mid(mem, root, PX2(va)) else Low(mem, root, PX2(va), PX1(va))
      {
        var pte := mem[t][if level == 1 then PX2(va) else PX1(va)];
        if !IsValid(pte) {
          return 0;
        }
        t := Pte2Pa(pte);
      }
    }

    /** `*pte = ...` for the entry of `va` that walk_create() found in table `t`. */
    method PutEntry(root: nat, va: nat, t: nat, pte: nat, ghost mem0: Memory, ghost free0: set<nat>, ghost tab0: Tables,
                    ghost extra: set<nat>)
      requires Valid() && root in roots && va < VASPACE && va % PAGESIZE == 0 && t == Low(mem, root, PX2(va), PX1(va)) != 0
      requires Returned(mem0, free0, tab0, extra, mem, free, tab) && AllLeavesSame(mem0, mem, roots)
      modifies this`mem
      ensures Valid() && Returned(mem0, free0, tab0, extra, mem, free, tab)
      ensures AllLeavesSame(mem0, mem, roots - {root})
      ensures Flat(mem, root) == WithEntry(Flat(mem0, root), va, pte)
    {
      ghost var mem1 := mem;
      StoreLeaf(mem, free, tab, roots, root, va, pte);
      mem := mem[t := mem[t][PX0(va) := pte]];
      ReturnedTrans(mem0, free0, tab0, extra, mem1, free, tab, {}, mem, free, tab);
      assert extra + {} == extra;
      assert AllLeavesSame(mem0, mem1, roots - {root});
      LeavesTrans(mem0, mem1, mem, roots - {root});
      assert SameLeaves(mem0, mem1, root);
      SameFlat(mem0, mem1, root);
    }

    /** One turn of map_page()'s loop. */
    method MapOne(root: nat, va: nat, pa: nat, perm: nat) returns (r: MapResult)
      requires Valid() && root in roots && va < VASPACE && va % PAGESIZE == 0 && pa % PAGESIZE == 0 && perm < 1024
      modifies this`mem, this`free, this`tab
      ensures Valid() && Conserved(old(mem), old(free), old(tab), mem, free, tab)
      ensures AllLeavesSame(old(mem), mem, roots - {root})
      ensures r == Ok ==> va !in Flat(old(mem), root) && Flat(mem, root) == Flat(old(mem), root)[va := (pa, WithV(perm))]
      ensures r != Ok ==> AllLeavesSame(old(mem), mem, roots) && Flat(mem, root) == Flat(old(mem), root)
      ensures r == NoMemory ==> free == {} && Low(mem, root, PX2(va), PX1(va)) == 0
      ensures r == NoMemory <==> |old(free)| < Missing(old(mem), root, PX2(va), PX1(va))
      ensures r == Panic <==> va in Flat(old(mem), root)
      ensures Grew(old(tab), tab, root, PX2(va), PX1(va))
    {
      NotMissing(mem, root, va);
      var t := WalkCreate(root, va);
      Found(mem, free, tab, roots, root, va, t);
      assert SameLeaves(old(mem), mem, root);
      SameFlat(old(mem), mem, root);
      if t == 0 {
        return NoMemory;
      }
      if IsValid(mem[t][PX0(va)]) {
        return Panic;
      }
      PteRoundTrip(pa, perm);
      PutEntry(root, va, t, MakePte(pa, perm), old(mem), old(free), old(tab), {});
      return Ok;
    }

    /** map_page(): on success exactly the pages of [va, va + size) are added to the flat map, none of which was there; a
        failure for want of memory leaves the first of them, up to `end`. */
    method MapPage(root: nat, va: nat, pa: nat, size: nat, perm: nat) returns (r: MapResult, ghost end: nat)
      requires Valid() && root in roots && va + size <= VASPACE && pa % PAGESIZE == 0 && perm < 1024
      modifies this`mem, this`free, this`tab
      ensures Valid() && va <= end <= va + size
      ensures Mapping(old(mem), old(free), old(tab), mem, free, tab, roots, root, va, end, pa, perm)
      ensures r == Ok ==> end == va + size && 0 < size && va % PAGESIZE == 0 && size % PAGESIZE == 0
      ensures r == NoMemory ==> free == {} && end < va + size
      ensures r == Panic <==>
        || va % PAGESIZE != 0 || size % PAGESIZE != 0 || size == 0
        || (end < va + size && end in Flat(old(mem), root))
    {
      end := va;
      MappingStart(mem, free, tab, roots, root, va, pa, perm);
      if va % PAGESIZE != 0 || size % PAGESIZE != 0 || size == 0 {
        return Panic, va;
      }
      var a, p, last := va, pa, va + size - PAGESIZE;
      while true
        invariant Valid() && end == a && va <= a <= last && a % PAGESIZE == 0 && last % PAGESIZE == 0
        invariant p == pa + (a - va) && p % PAGESIZE == 0
        invariant Mapping(old(mem), old(free), old(tab), mem, free, tab, roots, root, va, a, pa, perm)
        decreases last - a
      {
        ghost var mem1, free1, tab1 := mem, free, tab;
        r := MapOne(root, a, p, perm);
        if r != Ok {
          MappingSame(old(mem), old(free), old(tab), mem1, free1, tab1, mem, free, tab, roots, root, va, a, pa, perm);
          return;
        }
        end := a + PAGESIZE;
        MappingStep(old(mem), old(free), old(tab), mem1, free1, tab1, mem, free, tab, roots, root, va, a, pa, perm, p, end);
        if a == last {
          return;
        }
        var next, nextp := a + PAGESIZE, p + PAGESIZE;
        NextPage(a, next, last);
        NextPage(p, nextp, 0);
        a, p := next, nextp;
      }
    }

    /** free_page(), for a page that is allocated. */
    method FreePage(p: nat)
      requires p in mem && p !in free
      modifies this`mem, this`free
      ensures mem == old(mem)[p := FREED] && free == old(free) + {p}
    {
      mem, free := mem[p := FREED], free + {p};
    }

    method FreeLeaf(p: nat, ghost root: nat, ghost va: nat, ghost mem0: Memory, ghost free0: set<nat>, ghost tab0: Tables)
      requires Valid() && root in roots && Away({p}, mem0, free0, tab0) && Grown(mem0, free0, tab0, mem, free, tab, roots)
      modifies this`mem, this`free
      ensures Valid() && Returned(mem0, free0, tab0, {p}, mem, free, tab) && AllLeavesSame(mem0, mem, roots)
      ensures Low(mem, root, PX2(va), PX1(va)) == Low(old(mem), root, PX2(va), PX1(va)) && mem == old(mem)[p := FREED]
    {
      assert p in {p} && p !in free + tab.Keys;
      FreeAway(mem, free, tab, roots, p, root, PX2(va), PX1(va));
      FreePage(p);
      ReturnedTrans(mem0, free0, tab0, {}, old(mem), old(free), tab, {p}, mem, free, tab);
      assert {} + {p} == {p};
      LeavesTrans(mem0, old(mem), mem, roots);
    }

    /** One turn of unmap_page()'s loop after the walk. */
    method UnmapAt(root: nat, va: nat, t: nat, doFree: bool, ghost mem0: Memory, ghost free0: set<nat>, ghost tab0: Tables)
      returns (ok: bool, ghost gone: set<nat>)
      requires Valid() && root in roots && va < VASPACE && va % PAGESIZE == 0 && t == Low(mem, root, PX2(va), PX1(va))
      requires Grown(mem0, free0, tab0, mem, free, tab, roots)
      requires doFree && va in Flat(mem0, root) ==> Away({Flat(mem0, root)[va].0}, mem0, free0, tab0)
      modifies this`mem, this`free
      ensures Valid() && Returned(mem0, free0, tab0, gone, mem, free, tab)
      ensures AllLeavesSame(mem0, mem, roots - {root})
      ensures ok == (va in Flat(mem0, root) ==> Flat(mem0, root)[va].1 != 1)
      ensures Flat(mem, root) == if ok then Flat(mem0, root) - {va} else Flat(mem0, root)
      ensures gone == if ok && doFree && va in Flat(mem0, root) then {Flat(mem0, root)[va].0} else {}
    {
      gone := {};
      Found(mem, free, tab, roots, root, va, t);
      assert SameLeaves(mem0, mem, root);
      SameFlat(mem0, mem, root);
      NotThere(Flat(mem0, root), va);
      if t == 0 {
        return true, {};
      }
      var pte := mem[t][PX0(va)];
      if !IsValid(pte) {
        return true, {};
      }
      if Flags(pte) == 1 {
        return false, {};
      }
      if doFree {
        gone := {Pte2Pa(pte)};
        FreeLeaf(Pte2Pa(pte), root, va, mem0, free0, tab0);
      }
      PutEntry(root, va, t, 0, mem0, free0, tab0, gone);
      return true, gone;
    }

    /** One turn of unmap_page()'s loop; false is the panic "not a leaf". A missing table is made where memory allows. */
    method UnmapOne(root: nat, va: nat, doFree: bool) returns (ok: bool, ghost gone: set<nat>)
      requires Valid() && root in roots && va < VASPACE && va % PAGESIZE == 0
      requires doFree && va in Flat(mem, root) ==> Away({Flat(mem, root)[va].0}, mem, free, tab)
      modifies this`mem, this`free, this`tab
      ensures Valid() && Returned(old(mem), old(free), old(tab), gone, mem, free, tab)
      ensures AllLeavesSame(old(mem), mem, roots - {root})
      ensures ok == (va in Flat(old(mem), root) ==> Flat(old(mem), root)[va].1 != 1)
      ensures Flat(mem, root) == if ok then Flat(old(mem), root) - {va} else Flat(old(mem), root)
      ensures gone == if ok && doFree && va in Flat(old(mem), root) then {Flat(old(mem), root)[va].0} else {}
      ensures tab == old(tab) <==> Low(old(mem), root, PX2(va), PX1(va)) != 0 || old(free) == {}
    {
      var t := WalkCreate(root, va);
      ok, gone := UnmapAt(root, va, t, doFree, old(mem), old(free), old(tab));
    }

    /** One turn of unmap_page()'s loop, with what it adds up to. */
    method UnmapTurn(root: nat, a: nat, doFree: bool, ghost va: nat, ghost end: nat, ghost own: map<nat, nat>,
                     ghost mem0: Memory, ghost free0: set<nat>, ghost tab0: Tables)
      returns (ok: bool, next: nat)
      requires Valid() && root in roots && a < end <= VASPACE && end % PAGESIZE == 0 && Inv(mem0, free0, tab0, roots)
      requires doFree ==> Owned(Flat(mem0, root), own, va, end) && Away(own.Keys, mem0, free0, tab0)
      requires Clearing(mem0, free0, tab0, mem, free, tab, roots, root, va, a, doFree, own)
      requires doFree ==> (tab == tab0 <==> NoGap(mem0, root, free0, own, va, a))
      modifies this`mem, this`free, this`tab
      ensures Valid() && AllLeavesSame(mem0, mem, roots - {root}) && next == a + PAGESIZE
      ensures ok <==> (a in Flat(mem0, root) ==> Flat(mem0, root)[a].1 != 1)
      ensures ok ==> next <= end && Clearing(mem0, free0, tab0, mem, free, tab, roots, root, va, next, doFree, own)
      ensures ok && doFree ==> (tab == tab0 <==> NoGap(mem0, root, free0, own, va, next))
    {
      next := a + PAGESIZE;
      ghost var gone;
      ClearingNext(mem0, free0, tab0, mem, free, tab, roots, root, va, a, end, doFree, own);
      ok, gone := UnmapOne(root, a, doFree);
      LeavesTrans(mem0, old(mem), mem, roots - {root});
      if ok {
        if doFree {
          GapStep(mem0, free0, tab0, old(mem), old(free), old(tab), tab, roots, root, own, va, a, next);
        }
        ClearingStep(mem0, free0, tab0, old(mem), old(free), old(tab), mem, free, tab, roots, root, va, a, next, end, doFree,
                     own, gone);
      }
    }

    /** unmap_page()'s loop. */
    method UnmapLoop(root: nat, va: nat, stop: nat, doFree: bool, ghost own: map<nat, nat>,
                     ghost mem0: Memory, ghost free0: set<nat>, ghost tab0: Tables)
      returns (ok: bool)
      requires Valid() && root in roots && va <= stop <= VASPACE && stop % PAGESIZE == 0 && Inv(mem0, free0, tab0, roots)
      requires doFree ==> Owned(Flat(mem0, root), own, va, stop) && Away(own.Keys, mem0, free0, tab0)
      requires Clearing(mem0, free0, tab0, mem, free, tab, roots, root, va, va, doFree, own)
      requires doFree ==> (tab == tab0 <==> NoGap(mem0, root, free0, own, va, va))
      modifies this`mem, this`free, this`tab
      ensures Valid() && AllLeavesSame(mem0, mem, roots - {root})
      ensures ok ==> Clearing(mem0, free0, tab0, mem, free, tab, roots, root, va, stop, doFree, own)
      ensures ok && doFree ==> (tab == tab0 <==> NoGap(mem0, root, free0, own, va, stop))
      ensures !ok ==> !AreLeaves(Flat(mem0, root), va, stop)
    {
      var a := va;
      while a < stop
        invariant Valid() && a <= stop
        invariant Clearing(mem0, free0, tab0, mem, free, tab, roots, root, va, a, doFree, own)
        invariant doFree ==> (tab == tab0 <==> NoGap(mem0, root, free0, own, va, a))
      {
        ok, a := UnmapTurn(root, a, doFree, va, stop, own, mem0, free0, tab0);
        if !ok {
          return;
        }
      }
      ok := true;
    }

    /** unmap_page(): every page of the range leaves the flat map and nothing else does. With `doFree` exactly the pages
        that were mapped there go back to the allocator; they are all there in the end exactly when the walk never missed a
        table while a page could be had for it. */
    method UnmapPage(root: nat, va: nat, npages: nat, doFree: bool, ghost own: map<nat, nat>, ghost end: nat)
      returns (ok: bool)
      requires Valid() && root in roots && end == va + npages * PAGESIZE <= VASPACE
      requires doFree ==> Owned(Flat(mem, root), own, va, end) && Away(own.Keys, mem, free, tab)
      modifies this`mem, this`free, this`tab
      ensures Valid() && AllLeavesSame(old(mem), mem, roots - {root})
      ensures ok ==>
        Unmapping(old(mem), old(free), old(tab), mem, free, tab, roots, root, va, end, if doFree then own.Keys else {})
      ensures ok <==> va % PAGESIZE == 0 && AreLeaves(Flat(old(mem), root), va, end)
      ensures ok && doFree ==> (old(free) + own.Keys <= free <==> NoGap(old(mem), root, old(free), own, va, end))
    {
      if va % PAGESIZE != 0 {
        assert AllLeavesSame(mem, mem, roots);
        return false;
      }
      ClearingStart(mem, free, tab, roots, root, va, end, doFree, own);
      ok := UnmapLoop(root, va, va + npages * PAGESIZE, doFree, own, mem, free, tab);
      if ok {
        UnmapEnd(old(mem), old(free), old(tab), mem, free, tab, roots, root, va, end, doFree, own);
      }
    }

    /** A new page with the content of page `pa`; 0 without memory. */
    method AllocCopy(pa: nat) returns (q: nat)
      requires Valid() && pa in mem && pa !in free
      modifies this`mem, this`free
      ensures Valid() && AllLeavesSame(old(mem), mem, roots)
      ensures q == 0 <==> old(free) == {}
      ensures q == 0 ==> mem == old(mem) && free == old(free)
      ensures q != 0 ==> q in old(free) && free == old(free) - {q} && mem == old(mem)[q := old(mem)[pa]]
    {
      q := AllocPage();
      if q != 0 {
        TakePage(old(mem), old(free), tab, roots, q, mem[pa]);
        mem := mem[q := mem[pa]];
        assert mem == old(mem)[q := old(mem)[pa]];
      }
    }

    /** The copy is given back when the child's tables cannot grow. */
    method DropCopy(q: nat, child: nat, ghost a: nat, ghost content: Page, ghost mem0: Memory, ghost free0: set<nat>,
                    ghost tab0: Tables)
      requires Valid() && child in roots && Inv(mem0, free0, tab0, roots) && q in free0
      requires Grown(mem0[q := content], free0 - {q}, tab0, mem, free, tab, roots)
      requires free == {} && Low(mem, child, PX2(a), PX1(a)) == 0
      modifies this`mem, this`free
      ensures Valid() && Grown(mem0, free0, tab0, mem, free, tab, roots)
      ensures free == {q} && Low(mem, child, PX2(a), PX1(a)) == 0
    {
      GiveBack(mem0, free0, tab0, roots, q, content, mem, free, tab, child);
      FreePage(q);
      SameTables(old(mem), old(free), mem, free, tab, roots, child, PX2(a), PX1(a));
    }

    /** The new page `q` is mapped in the child, or given back. */
    method PlaceCopy(child: nat, a: nat, q: nat, flags: nat, ghost content: Page, ghost mem0: Memory, ghost free0: set<nat>,
                     ghost tab0: Tables) returns (ok: bool)
      requires Valid() && child in roots && a < VASPACE && a % PAGESIZE == 0 && flags < 1024 && flags % 2 == 1
      requires Inv(mem0, free0, tab0, roots) && q in free0 && a !in Flat(mem0, child) && AllLeavesSame(mem0, mem, roots)
      requires mem == mem0[q := content] && free == free0 - {q} && tab == tab0
      modifies this`mem, this`free, this`tab
      ensures Valid() && Extends(tab0, tab) && Grew(tab0, tab, child, PX2(a), PX1(a))
      ensures ok ==>
        && Conserved(mem0[q := content], free0 - {q}, tab0, mem, free, tab)
        && AllLeavesSame(mem0[q := content], mem, roots - {child})
        && Flat(mem, child) == Flat(mem0[q := content], child)[a := (q, flags)]
      ensures !ok ==>
        && Grown(mem0, free0, tab0, mem, free, tab, roots) && free == {q} && Low(mem, child, PX2(a), PX1(a)) == 0
        && forall t | t in tab && t !in tab0 :: tab[t] != (child, LowAt(PX2(a), PX1(a)))
      ensures ok <==> |free0| > Missing(mem0, child, PX2(a), PX1(a))
    {
      SameMissing(mem0, free0, mem, free, tab, roots, child, PX2(a), PX1(a));
      assert SameLeaves(mem0, mem, child);
      SameFlat(mem0, mem, child);
      var r := MapOne(child, a, q, flags);
      ok := r == Ok;
      if !ok {
        NotListed(mem, free, tab, roots, child, PX2(a), PX1(a));
        DropCopy(q, child, a, content, mem0, free0, tab0);
      }
    }

    /** One mapped page of copy_pagetable()'s loop: allocate, copy, map. It takes one page besides the tables that are
        missing. */
    method CopyPage(child: nat, a: nat, pa: nat, flags: nat, ghost parent: nat, ghost mem0: Memory, ghost free0: set<nat>,
                    ghost tab0: Tables, ghost dup: map<nat, nat>, ghost own: map<nat, nat>)
      returns (ok: bool, next: nat, ghost dup': map<nat, nat>, ghost own': map<nat, nat>)
      requires Valid() && child in roots && a < VASPACE && a % PAGESIZE == 0 && flags < 1024 && flags % 2 == 1
      requires Copied(mem0, free0, tab0, mem, free, tab, roots, parent, child, a, dup, own)
      requires Walked(tab0, tab, parent, child, Flat(mem0, parent), a)
      requires a in Flat(mem0, parent) && Flat(mem0, parent)[a] == (pa, flags) && a !in Flat(mem, child)
      requires Away({pa}, mem0, free0, tab0)
      modifies this`mem, this`free, this`tab
      ensures Valid() && next == if ok then a + PAGESIZE else a
      ensures Copied(mem0, free0, tab0, mem, free, tab, roots, parent, child, next, dup', own')
      ensures Walked(tab0, tab, parent, child, Flat(mem0, parent), next)
      ensures ok <==> |old(free)| > Missing(old(mem), child, PX2(a), PX1(a))
      ensures !ok ==> |free| <= 1 && (free != {} ==> Low(mem, child, PX2(a), PX1(a)) == 0)
    {
      Untouched(mem0, free0, tab0, own.Keys, mem, free, tab, pa);
      ghost var content := mem[pa];
      ok, next, dup', own' := false, a, dup, own;
      var q := AllocCopy(pa);
      if q == 0 {
        return;
      }
      ok := PlaceCopy(child, a, q, flags, content, old(mem), old(free), old(tab));
      if ok {
        next, dup', own' := a + PAGESIZE, dup[a := q], own[q := a];
        CopiedAdd(mem0, free0, tab0, old(mem), old(free), old(tab), mem, free, tab, roots, parent, child, a, dup, own, q,
                  content, next);
      } else {
        CopiedGrown(mem0, free0, tab0, old(mem), old(free), old(tab), mem, free, tab, roots, parent, child, a, dup, own);
      }
      WalkedChild(tab0, old(tab), tab, parent, child, Flat(mem0, parent), a, next);
    }

    /** The walk in the parent. It takes no page if `a` is mapped. */
    method FindParent(parent: nat, child: nat, a: nat, ghost mem0: Memory, ghost free0: set<nat>, ghost tab0: Tables,
                      ghost dup: map<nat, nat>, ghost own: map<nat, nat>) returns (t: nat)
      requires Valid() && parent in roots && child in roots && parent != child && a < VASPACE && a % PAGESIZE == 0
      requires Copied(mem0, free0, tab0, mem, free, tab, roots, parent, child, a, dup, own)
      requires Walked(tab0, tab, parent, child, Flat(mem0, parent), a)
      modifies this`mem, this`free, this`tab
      ensures Valid() && Copied(mem0, free0, tab0, mem, free, tab, roots, parent, child, a, dup, own)
      ensures Walked(tab0, tab, parent, child, Flat(mem0, parent), a)
      ensures t != 0 ==> t in mem
      ensures a in Flat(mem0, parent) <==> t != 0 && IsValid(mem[t][PX0(a)])
      ensures a in Flat(mem0, parent) ==>
        && Flat(mem0, parent)[a] == (Pte2Pa(mem[t][PX0(a)]), Flags(mem[t][PX0(a)]))
        && mem == old(mem) && free == old(free)
    {
      ParentSame(mem0, mem, roots, parent, child);
      NotMissing(mem, parent, a);
      t := WalkCreate(parent, a);
      WalkedParent(tab0, old(tab), tab, parent, child, Flat(mem0, parent), a);
      CopiedGrown(mem0, free0, tab0, old(mem), old(free), old(tab), mem, free, tab, roots, parent, child, a, dup, own);
      ParentSame(mem0, mem, roots, parent, child);
      Found(mem, free, tab, roots, parent, a, t);
    }

    /** One turn of copy_pagetable()'s loop. A page whose tables cannot be had is not mapped, so skipping it is right. */
    method CopyTurn(parent: nat, child: nat, a: nat, ghost sz: nat, ghost mem0: Memory, ghost free0: set<nat>, ghost tab0: Tables,
                    ghost dup: map<nat, nat>, ghost own: map<nat, nat>)
      returns (ok: bool, next: nat, ghost dup': map<nat, nat>, ghost own': map<nat, nat>)
      requires Valid() && parent in roots && child in roots && parent != child && a < sz <= VASPACE && a % PAGESIZE == 0
      requires CanCopy(mem0, free0, tab0, parent, child, sz)
      requires Copied(mem0, free0, tab0, mem, free, tab, roots, parent, child, a, dup, own)
      requires Walked(tab0, tab, parent, child, Flat(mem0, parent), a)
      modifies this`mem, this`free, this`tab
      ensures Valid() && next == if ok then a + PAGESIZE else a
      ensures Copied(mem0, free0, tab0, mem, free, tab, roots, parent, child, next, dup', own')
      ensures Walked(tab0, tab, parent, child, Flat(mem0, parent), next)
      ensures !ok <==> a in Flat(mem0, parent) && |old(free)| <= Missing(old(mem), child, PX2(a), PX1(a))
      ensures !ok ==> |free| <= 1 && (free != {} ==> Low(mem, child, PX2(a), PX1(a)) == 0)
    {
      ok, next, dup', own' := true, a + PAGESIZE, dup, own;
      var t := FindParent(parent, child, a, mem0, free0, tab0, dup, own);
      if t == 0 || !IsValid(mem[t][PX0(a)]) {
        CopiedSkip(mem0, free0, tab0, mem, free, tab, roots, parent, child, a, dup, own, next);
        WalkedLater(tab0, tab, parent, child, Flat(mem0, parent), a, next);
        return;
      }
      var pte := mem[t][PX0(a)];
      CopiesOwned(mem0, free0, tab0, mem, free, tab, roots, parent, child, a, dup, own, sz);
      FlagsOfValid(pte);
      ok, next, dup', own' := CopyPage(child, a, Pte2Pa(pte), Flags(pte), parent, mem0, free0, tab0, dup, own);
    }

    /** The cleanup after a failed copy; false is a panic in unmap_page(). */
    method CopyUndo(child: nat, a: nat, ghost parent: nat, ghost sz: nat, ghost mem0: Memory, ghost free0: set<nat>,
                    ghost tab0: Tables, ghost dup: map<nat, nat>, ghost own: map<nat, nat>)
      returns (ok: bool)
      requires Valid() && child in roots && a < sz <= VASPACE && a % PAGESIZE == 0
      requires CanCopy(mem0, free0, tab0, parent, child, sz)
      requires Copied(mem0, free0, tab0, mem, free, tab, roots, parent, child, a, dup, own)
      modifies this`mem, this`free, this`tab
      ensures Valid() && AllLeavesSame(mem0, mem, roots - {child})
      ensures ok ==> Conserved(mem0, free0, tab0, mem, free, tab) && Flat(mem, child) == Flat(mem0, child)
      ensures ok ==> (old(free) + own.Keys <= free <==> NoGap(old(mem), child, old(free), own, 0, a))
      ensures AreLeaves(Flat(mem0, parent), 0, sz) ==> ok
    {
      CopiesOwned(mem0, free0, tab0, mem, free, tab, roots, parent, child, a, dup, own, sz);
      ok := UnmapPage(child, 0, a / PAGESIZE, true, own, a);
      LeavesTrans(mem0, old(mem), mem, roots - {child});
      if ok {
        Undone(mem0, free0, tab0, old(mem), old(free), old(tab), mem, free, tab, roots, parent, child, a, dup, own, sz);
      }
    }

    /** copy_pagetable(). On success every page the parent maps below `sz` has a copy of its own in the child, with equal
        content and flags. A failure leaves the child's flat map as it was and loses no page. It happens at a page the
        parent maps, in the state `stop` with at most one page free, and then only because a table is missing. All pages
        free then, and the copies made so far, `own`, are free in the end exactly when CleanStop holds. The parent's
        mappings stay as they are in any case. */
    method CopyPagetable(parent: nat, child: nat, sz: nat)
      returns (r: MapResult, ghost dup: map<nat, nat>, ghost own: map<nat, nat>, ghost stop: Stop)
      requires Valid() && parent in roots && child in roots && parent != child && sz <= VASPACE
      requires CanCopy(mem, free, tab, parent, child, sz)
      modifies this`mem, this`free, this`tab
      ensures Valid() && AllLeavesSame(old(mem), mem, roots - {child})
      ensures r == Ok ==> Copied(old(mem), old(free), old(tab), mem, free, tab, roots, parent, child, sz, dup, own)
      ensures r == NoMemory ==> Conserved(old(mem), old(free), old(tab), mem, free, tab)
      ensures r == NoMemory ==> Flat(mem, child) == Flat(old(mem), child)
      ensures r == NoMemory ==>
        && stop.a < sz && stop.a in Flat(old(mem), parent) && Inv(stop.mem, stop.free, stop.tab, roots)
        && |stop.free| <= 1 && (stop.free != {} ==> Low(stop.mem, child, PX2(stop.a), PX1(stop.a)) == 0)
        && Copied(old(mem), old(free), old(tab), stop.mem, stop.free, stop.tab, roots, parent, child, stop.a, dup, own)
        && Walked(old(tab), stop.tab, parent, child, Flat(old(mem), parent), stop.a)
      ensures r == NoMemory ==>
        (stop.free + own.Keys <= free <==> CleanStop(old(mem), parent, child, stop.a, stop.free != {}))
      ensures r == NoMemory && Tight(old(mem), parent, child, sz) ==> stop.free + own.Keys <= free
      ensures r == Panic ==> !AreLeaves(Flat(old(mem), parent), 0, sz)
    {
      var a := 0;
      dup, own, stop := map[], map[], Stop(mem, free, tab, 0);
      CopiedStart(mem, free, tab, roots, parent, child);
      while a < sz
        invariant Valid() && a % PAGESIZE == 0 && a < sz + PAGESIZE
        invariant Copied(old(mem), old(free), old(tab), mem, free, tab, roots, parent, child, a, dup, own)
        invariant Walked(old(tab), tab, parent, child, Flat(old(mem), parent), a)
      {
        var ok, next;
        ok, next, dup, own := CopyTurn(parent, child, a, sz, old(mem), old(free), old(tab), dup, own);
        if !ok {
          stop := Stop(mem, free, tab, next);
          GapIsBelow(old(mem), old(free), old(tab), mem, free, tab, roots, parent, child, next, dup, own, free != {});
          if Tight(old(mem), parent, child, sz) {
            TightIsClean(old(mem), parent, child, sz, next, free != {});
          }
          ok := CopyUndo(child, next, parent, sz, old(mem), old(free), old(tab), dup, own);
          return if ok then NoMemory else Panic, dup, own, stop;
        }
        NextPage(a, next, 0);
        a := next;
      }
      CopiedEnd(old(mem), old(free), old(tab), mem, free, tab, roots, parent, child, a, dup, own, sz);
      return Ok, dup, own, stop;
    }

    /** A copy whose cleanup loses a page. The parent maps pages 0 and 0x40_0000, the child has tables for the first 2 MB, and
        one page is free. It becomes the copy of page 0, goes back to the allocator when memory runs out at 0x40_0000, and
        is taken for the child's table of the region in between. */
    method GapRun(parent: nat, child: nat, ghost c: nat) returns (r: MapResult, ghost own: map<nat, nat>)
      requires Valid() && parent in roots && child in roots && parent != child && free == {c}
      requires CanCopy(mem, free, tab, parent, child, 0x40_1000) && GapAt(mem, parent, child)
      modifies this`mem, this`free, this`tab
      ensures r == NoMemory && own.Keys == {c} && c !in free && c in tab
    {
      ghost var dup, stop;
      r, dup, own, stop := CopyPagetable(parent, child, 0x40_1000);
      GapNotOk(old(mem), old(tab), mem, free, tab, roots, parent, child, dup, own, c);
      GapFound(old(mem), old(tab), stop, roots, parent, child, dup, own, c);
      assert stop.free + own.Keys == {c};
      NotLost(old(mem), {c}, old(tab), mem, free, tab, c);
    }
  }
}
