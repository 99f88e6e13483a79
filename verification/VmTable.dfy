/** Physical pages as kernel/kalloc.c and kernel/vm.c use them: a free list threaded through the free pages,
    three-level Sv39 page tables (section 4.4 of the RISC-V Privileged Architecture, version 20211203), and the
    pages they map.

    Pages are numbered by frame (physical address / 4096); frame 0 is the null pointer. A page-table entry is
    given by its decoded fields. `own` says who has each page, `node` where each table of each address space
    is, and `leaf` what each virtual page maps to; `list` is the free list, its head last. `Inv` ties them all to
    the pages themselves. */
module VmTable {

  const ENTRIES: int := 512
  const PGSIZE: int := 4096
  const NPAGES: int := 0x8000                 // (PHYSTOP - KERNBASE) / PGSIZE
  const MAXVPN: int := 0x400_0000             // MAXVA / PGSIZE
  const TRAPVPN: int := MAXVPN - 2            // TRAPFRAME / PGSIZE; the trampoline is the page above

  datatype Pte = Pte(ppn: int, v: bool, r: bool, w: bool, x: bool, u: bool)
  datatype Page = Ptes(e: seq<Pte>) | Bytes(b: seq<int>) | Run(next: int)

  /** A table of an address space: the root has level 2 and prefix 0, a table of level l covers the virtual
      pages vpn with vpn / 512^(l+1) == prefix. */
  datatype Key = Key(root: int, level: int, prefix: int)
  datatype Va = Va(root: int, vpn: int)
  datatype Owner = Free(at: int) | Loose | Table(key: Key) | Leaf(va: Va)

  datatype Vm = Vm(mem: map<int, Page>, list: seq<int>, own: map<int, Owner>, node: map<Key, int>, leaf: map<Va, Pte>)

  const NoPte := Pte(0, false, false, false, false, false)

  function NoPtes(): (r: seq<Pte>)
    ensures |r| == ENTRIES && forall i :: 0 <= i < ENTRIES ==> r[i] == NoPte
  {
    seq(ENTRIES, i => NoPte)
  }

  function Filled(x: int): (r: seq<int>)
    ensures |r| == PGSIZE && forall i :: 0 <= i < PGSIZE ==> r[i] == x
  {
    seq(PGSIZE, i => x)
  }

  ghost predicate KeyOk(k: Key) {
    || (k.level == 2 && k.prefix == 0)
    || (k.level == 1 && 0 <= k.prefix < ENTRIES)
    || (k.level == 0 && 0 <= k.prefix < ENTRIES * ENTRIES)
  }

  ghost function Child(k: Key, i: int): Key {
    Key(k.root, k.level - 1, k.prefix * ENTRIES + i)
  }

  ghost function Parent(k: Key): Key {
    Key(k.root, k.level + 1, k.prefix / ENTRIES)
  }

  /** The virtual page whose entry is entry i of table k. */
  ghost function VaAt(k: Key, i: int): Va {
    Va(k.root, k.prefix * ENTRIES + i)
  }

  /** The table that holds the entry of a virtual page. */
  ghost function Low(va: Va): Key {
    Key(va.root, 0, va.vpn / ENTRIES)
  }

  ghost predicate User(va: Va) {
    va.vpn < TRAPVPN
  }

  // ---------------------------------------------------------------- the invariant

  /** The free list runs through exactly the free pages. */
  ghost predicate ListOk(mem: map<int, Page>, list: seq<int>, own: map<int, Owner>) {
    && (forall f :: f in own ==> f in mem && 0 < f)
    && (forall i :: 0 <= i < |list| ==> list[i] in own && own[list[i]] == Free(i))
    && (forall f :: f in own && own[f].Free? ==>
          0 <= own[f].at < |list| && list[own[f].at] == f && mem[f] == Run(Top(list[..own[f].at])))
  }

  /** The head of a free list. */
  ghost function Top(list: seq<int>): int {
    if list == [] then 0 else list[|list| - 1]
  }

  /** Every table has its own page, and hangs below another table unless it is a root. */
  ghost predicate NodeOk(own: map<int, Owner>, node: map<Key, int>) {
    && (forall k :: k in node ==> KeyAt(own, node, k))
    && (forall f :: f in own && own[f].Table? ==> own[f].key in node && node[own[f].key] == f)
  }

  ghost predicate KeyAt(own: map<int, Owner>, node: map<Key, int>, k: Key)
    requires k in node
  {
    && KeyOk(k) && 0 < node[k] && node[k] in own && own[node[k]] == Table(k)
    && (k.level == 2 ==> node[k] == k.root)
    && (k.level < 2 ==> Parent(k) in node)
  }

  /** Every mapped user page has its own page. */
  ghost predicate LeafOk(own: map<int, Owner>, node: map<Key, int>, leaf: map<Va, Pte>) {
    && (forall va :: va in leaf ==> LeafAt(own, node, leaf, va))
    && (forall f :: f in own && own[f].Leaf? ==>
          own[f].va in leaf && User(own[f].va) && leaf[own[f].va].ppn == f)
  }

  /** Mapped user pages hold bytes. */
  ghost predicate DataOk(mem: map<int, Page>, own: map<int, Owner>) {
    forall f :: f in own && own[f].Leaf? ==> f in mem && mem[f].Bytes? && |mem[f].b| == PGSIZE
  }

  ghost predicate LeafAt(own: map<int, Owner>, node: map<Key, int>, leaf: map<Va, Pte>, va: Va)
    requires va in leaf
  {
    && 0 <= va.vpn < MAXVPN && Low(va) in node && leaf[va].v && leaf[va].r
    && (if User(va) then leaf[va].ppn in own && own[leaf[va].ppn] == Leaf(va) else !leaf[va].u)
  }

  /** The entries of every table are what `node` and `leaf` say; one entry (hi of table hf) may be exempt. */
  ghost predicate TableOk(mem: map<int, Page>, node: map<Key, int>, leaf: map<Va, Pte>, hf: int, hi: int) {
    && (forall k :: k in node ==> IsTable(mem, node[k]))
    && (forall k, i :: k in node && 0 <= i < ENTRIES && !(node[k] == hf && i == hi) ==> EntryOk(mem, node, leaf, k, i))
  }

  ghost predicate IsTable(mem: map<int, Page>, f: int) {
    f in mem && mem[f].Ptes? && |mem[f].e| == ENTRIES
  }

  ghost predicate EntryOk(mem: map<int, Page>, node: map<Key, int>, leaf: map<Va, Pte>, k: Key, i: int)
    requires k in node
  {
    && IsTable(mem, node[k]) && 0 <= i < ENTRIES
    && var p := mem[node[k]].e[i];
    if k.level == 0 then
      (p.v <==> VaAt(k, i) in leaf) && (p.v ==> p == leaf[VaAt(k, i)])
    else
      (p.v <==> Child(k, i) in node) && (p.v ==> p.ppn == node[Child(k, i)] && !p.r && !p.w && !p.x)
  }

  ghost predicate Inv(s: Vm, hf: int, hi: int) {
    && ListOk(s.mem, s.list, s.own)
    && NodeOk(s.own, s.node)
    && LeafOk(s.own, s.node, s.leaf)
    && DataOk(s.mem, s.own)
    && TableOk(s.mem, s.node, s.leaf, hf, hi)
  }

  /** Every page is in hand, and there is no address space. */
  ghost function AtBoot(pages: map<int, Page>): Vm {
    Vm(pages, [], map f | f in pages :: Loose, map[], map[])
  }

  lemma AtBootInv(pages: map<int, Page>)
    requires forall f :: f in pages ==> 0 < f
    ensures Inv(AtBoot(pages), -1, 0) && |AtBoot(pages).own| == |pages|
  {
    assert AtBoot(pages).own.Keys == pages.Keys;
    assert |AtBoot(pages).own| == |AtBoot(pages).own.Keys|;
  }

  // ---------------------------------------------------------------- changes that leave the tables alone

  /** Nothing is written to the page of a table. */
  lemma TablesKeep(mem: map<int, Page>, mem': map<int, Page>, node: map<Key, int>, leaf: map<Va, Pte>, hf: int, hi: int)
    requires TableOk(mem, node, leaf, hf, hi)
    requires forall k :: k in node ==> node[k] in mem' && mem'[node[k]] == mem[node[k]]
    ensures TableOk(mem', node, leaf, hf, hi)
  {
    forall k, i | k in node && 0 <= i < ENTRIES && !(node[k] == hf && i == hi) ensures EntryOk(mem', node, leaf, k, i) {
      assert EntryOk(mem, node, leaf, k, i);
    }
  }

  /** A page that changes hands outside the tables. */
  lemma OwnersKeep(s: Vm, f: int, o: Owner)
    requires NodeOk(s.own, s.node) && LeafOk(s.own, s.node, s.leaf)
    requires f in s.own && (s.own[f].Free? || s.own[f] == Loose) && (o.Free? || o == Loose)
    ensures NodeOk(s.own[f := o], s.node)
    ensures LeafOk(s.own[f := o], s.node, s.leaf)
  {
    NodesKeep(s.own, s.node, f, o);
    LeavesKeep(s.own, s.node, s.leaf, f, o);
  }

  lemma NodesKeep(own: map<int, Owner>, node: map<Key, int>, f: int, o: Owner)
    requires NodeOk(own, node) && f in own && !own[f].Table? && !o.Table?
    ensures NodeOk(own[f := o], node)
  {
    forall k | k in node ensures KeyAt(own[f := o], node, k) {
      assert KeyAt(own, node, k);
    }
  }

  lemma LeavesKeep(own: map<int, Owner>, node: map<Key, int>, leaf: map<Va, Pte>, f: int, o: Owner)
    requires LeafOk(own, node, leaf) && f in own && !own[f].Leaf? && !o.Leaf?
    ensures LeafOk(own[f := o], node, leaf)
  {
    forall va | va in leaf ensures LeafAt(own[f := o], node, leaf, va) {
      assert LeafAt(own, node, leaf, va);
    }
  }

  /** A page that is no table's can be written without touching the tables. */
  lemma WriteKeepsTables(s: Vm, f: int, p: Page, hf: int, hi: int)
    requires NodeOk(s.own, s.node) && f in s.own && !s.own[f].Table?
    requires TableOk(s.mem, s.node, s.leaf, hf, hi)
    ensures TableOk(s.mem[f := p], s.node, s.leaf, hf, hi)
  {
    forall k | k in s.node ensures s.node[k] != f && s.node[k] in s.mem {
      assert KeyAt(s.own, s.node, k) && IsTable(s.mem, s.node[k]);
    }
    TablesKeep(s.mem, s.mem[f := p], s.node, s.leaf, hf, hi);
  }

  // ---------------------------------------------------------------- kalloc and kfree

  ghost function Alloc(s: Vm): Vm
    requires 0 < |s.list|
  {
    var n := |s.list| - 1;
    s.(list := s.list[..n], own := s.own[s.list[n] := Loose], mem := s.mem[s.list[n] := Bytes(Filled(5))])
  }

  lemma AllocKeepsList(s: Vm)
    requires ListOk(s.mem, s.list, s.own) && 0 < |s.list|
    ensures ListOk(Alloc(s).mem, Alloc(s).list, Alloc(s).own)
    ensures Top(s.list) in s.own && s.own[Top(s.list)].Free? && s.mem[Top(s.list)] == Run(Top(Alloc(s).list))
  {
    var s' := Alloc(s);
    var top := s.list[|s.list| - 1];
    assert s.own[top] == Free(|s.list| - 1);
    forall f | f in s'.own && s'.own[f].Free? ensures s'.list[..s'.own[f].at] == s.list[..s.own[f].at] {
    }
  }

  lemma AllocKeepsInv(s: Vm, hf: int, hi: int)
    requires Inv(s, hf, hi) && 0 < |s.list|
    ensures Inv(Alloc(s), hf, hi)
    ensures Top(s.list) in s.own && s.own[Top(s.list)].Free? && s.mem[Top(s.list)] == Run(Top(Alloc(s).list))
  {
    hide ListOk, NodeOk, LeafOk, TableOk;
    AllocKeepsList(s);
    OwnersKeep(s, Top(s.list), Loose);
    WriteKeepsTables(s, Top(s.list), Bytes(Filled(5)), hf, hi);
  }

  ghost function Release(s: Vm, f: int): Vm {
    s.(list := s.list + [f], own := s.own[f := Free(|s.list|)], mem := s.mem[f := Run(Top(s.list))])
  }

  lemma ReleaseKeepsList(s: Vm, f: int)
    requires ListOk(s.mem, s.list, s.own) && f in s.own && s.own[f] == Loose
    ensures ListOk(Release(s, f).mem, Release(s, f).list, Release(s, f).own)
  {
    var s' := Release(s, f);
    forall g | g in s'.own && s'.own[g].Free?
      ensures s'.list[..s'.own[g].at] == if g == f then s.list else s.list[..s.own[g].at]
    {
    }
  }

  lemma ReleaseKeepsInv(s: Vm, f: int, hf: int, hi: int)
    requires Inv(s, hf, hi) && f in s.own && s.own[f] == Loose
    ensures Inv(Release(s, f), hf, hi)
  {
    hide ListOk, NodeOk, LeafOk, TableOk;
    ReleaseKeepsList(s, f);
    OwnersKeep(s, f, Free(|s.list|));
    WriteKeepsTables(s, f, Run(Top(s.list)), hf, hi);
  }

  // ---------------------------------------------------------------- writing a page

  /** A page in hand or a mapped page gets new bytes. */
  lemma WriteKeepsInv(s: Vm, f: int, b: seq<int>, hf: int, hi: int)
    requires Inv(s, hf, hi) && f in s.own && (s.own[f].Leaf? || s.own[f] == Loose) && |b| == PGSIZE
    ensures Inv(s.(mem := s.mem[f := Bytes(b)]), hf, hi)
  {
    hide NodeOk, LeafOk, TableOk;
    WriteKeepsTables(s, f, Bytes(b), hf, hi);
  }

  // ---------------------------------------------------------------- one entry of a table

  /** What entry i of table k must be. */
  ghost predicate Fits(s: Vm, k: Key, i: int, p: Pte) {
    if k.level == 0 then
      (p.v <==> VaAt(k, i) in s.leaf) && (p.v ==> p == s.leaf[VaAt(k, i)])
    else
      (p.v <==> Child(k, i) in s.node) && (p.v ==> p.ppn == s.node[Child(k, i)] && !p.r && !p.w && !p.x)
  }

  ghost function SetEntry(s: Vm, k: Key, i: int, p: Pte): Vm
    requires k in s.node && IsTable(s.mem, s.node[k]) && 0 <= i < ENTRIES
  {
    s.(mem := s.mem[s.node[k] := Ptes(s.mem[s.node[k]].e[i := p])])
  }

  /** Writing the exempt entry as it must be completes the tables. */
  lemma SetEntryKeepsInv(s: Vm, k: Key, i: int, p: Pte)
    requires k in s.node && 0 <= i < ENTRIES && Inv(s, s.node[k], i) && Fits(s, k, i, p)
    ensures IsTable(s.mem, s.node[k]) && Inv(SetEntry(s, k, i, p), -1, 0)
  {
    hide ListOk, NodeOk, LeafOk, TableOk;
    TableAt(s, k, s.node[k], i);
    SetEntryKeepsTables(s, k, i, p);
    TablePageKeeps(s, k, SetEntry(s, k, i, p).mem);
  }

  lemma TableAt(s: Vm, k: Key, hf: int, hi: int)
    requires k in s.node && NodeOk(s.own, s.node) && TableOk(s.mem, s.node, s.leaf, hf, hi)
    ensures KeyAt(s.own, s.node, k) && IsTable(s.mem, s.node[k])
  {
  }

  /** Writing a table's page does not disturb the free list or the mapped pages. */
  lemma TablePageKeeps(s: Vm, k: Key, mem': map<int, Page>)
    requires k in s.node && KeyAt(s.own, s.node, k)
    requires ListOk(s.mem, s.list, s.own) && DataOk(s.mem, s.own)
    requires forall f :: f in s.mem ==> f in mem'
    requires forall f :: f in s.mem && f != s.node[k] ==> mem'[f] == s.mem[f]
    ensures ListOk(mem', s.list, s.own) && DataOk(mem', s.own)
  {
  }

  lemma SetEntryKeepsTables(s: Vm, k: Key, i: int, p: Pte)
    requires k in s.node && 0 <= i < ENTRIES && IsTable(s.mem, s.node[k]) && Fits(s, k, i, p)
    requires NodeOk(s.own, s.node) && TableOk(s.mem, s.node, s.leaf, s.node[k], i)
    ensures TableOk(SetEntry(s, k, i, p).mem, s.node, s.leaf, -1, 0)
  {
    var mem' := SetEntry(s, k, i, p).mem;
    forall k2 | k2 in s.node ensures IsTable(mem', s.node[k2]) {
      assert IsTable(s.mem, s.node[k2]);
    }
    forall k2, j | k2 in s.node && 0 <= j < ENTRIES ensures EntryOk(mem', s.node, s.leaf, k2, j) {
      assert KeyAt(s.own, s.node, k) && KeyAt(s.own, s.node, k2);
      assert IsTable(mem', s.node[k2]);
      if s.node[k2] != s.node[k] || j != i {
        assert EntryOk(s.mem, s.node, s.leaf, k2, j);
      }
    }
  }

  // ---------------------------------------------------------------- a new table

  lemma ParentOfChild(k: Key, i: int)
    requires 0 <= i < ENTRIES && KeyOk(k) && 0 < k.level
    ensures KeyOk(Child(k, i)) && Parent(Child(k, i)) == k
  {
  }

  lemma LowOf(k: Key, i: int)
    requires 0 <= i < ENTRIES && k.level == 0
    ensures Low(VaAt(k, i)) == k
  {
  }

  /** Tables are only below tables, and mappings only in tables. */
  lemma NothingBelow(s: Vm, k: Key, j: int)
    requires NodeOk(s.own, s.node) && LeafOk(s.own, s.node, s.leaf) && k !in s.node && KeyOk(k) && 0 <= j < ENTRIES
    ensures 0 < k.level ==> Child(k, j) !in s.node
    ensures k.level == 0 ==> VaAt(k, j) !in s.leaf
  {
    if 0 < k.level {
      ParentOfChild(k, j);
      assert Child(k, j) in s.node ==> KeyAt(s.own, s.node, Child(k, j));
    } else {
      LowOf(k, j);
      assert VaAt(k, j) in s.leaf ==> LeafAt(s.own, s.node, s.leaf, VaAt(k, j));
    }
  }

  /** A page in hand becomes an empty table. */
  ghost function AddTable(s: Vm, k: Key, f: int): Vm {
    s.(mem := s.mem[f := Ptes(NoPtes())], own := s.own[f := Table(k)], node := s.node[k := f])
  }

  lemma AddTableKeepsNodes(s: Vm, k: Key, f: int)
    requires NodeOk(s.own, s.node)
    requires f in s.own && 0 < f && s.own[f] == Loose && k !in s.node && KeyOk(k)
    requires if k.level == 2 then f == k.root else Parent(k) in s.node
    ensures NodeOk(AddTable(s, k, f).own, AddTable(s, k, f).node)
  {
    var s' := AddTable(s, k, f);
    forall k2 | k2 in s'.node ensures KeyAt(s'.own, s'.node, k2) {
      if k2 != k {
        assert KeyAt(s.own, s.node, k2);
      }
    }
  }

  lemma AddTableKeepsLeaves(s: Vm, k: Key, f: int)
    requires LeafOk(s.own, s.node, s.leaf)
    requires f in s.own && s.own[f] == Loose && k !in s.node
    ensures LeafOk(AddTable(s, k, f).own, AddTable(s, k, f).node, s.leaf)
  {
    forall va | va in s.leaf ensures LeafAt(AddTable(s, k, f).own, AddTable(s, k, f).node, s.leaf, va) {
      assert LeafAt(s.own, s.node, s.leaf, va);
    }
  }

  /** The new table must be linked: the entry above it is exempt until then. */
  lemma AddTableKeepsTables(s: Vm, k: Key, f: int, hf: int, hi: int)
    requires NodeOk(s.own, s.node) && LeafOk(s.own, s.node, s.leaf) && TableOk(s.mem, s.node, s.leaf, -1, 0)
    requires f in s.own && s.own[f] == Loose && k !in s.node && KeyOk(k)
    requires k.level < 2 ==> Parent(k) in s.node && hf == s.node[Parent(k)] && hi == k.prefix % ENTRIES
    ensures TableOk(AddTable(s, k, f).mem, AddTable(s, k, f).node, s.leaf, hf, hi)
  {
    var s' := AddTable(s, k, f);
    forall k2 | k2 in s'.node ensures IsTable(s'.mem, s'.node[k2]) {
      if k2 != k {
        assert KeyAt(s.own, s.node, k2);
        assert IsTable(s.mem, s.node[k2]);
      }
    }
    forall k2, j | k2 in s'.node && 0 <= j < ENTRIES && !(s'.node[k2] == hf && j == hi)
      ensures EntryOk(s'.mem, s'.node, s.leaf, k2, j)
    {
      assert IsTable(s'.mem, s'.node[k2]);
      if k2 == k {
        NothingBelow(s, k, j);
        assert Child(k, j) != k;
      } else {
        assert KeyAt(s.own, s.node, k2);
        assert EntryOk(s.mem, s.node, s.leaf, k2, j);
        assert Child(k2, j) == k && 0 < k2.level ==> Parent(k) == k2;
      }
    }
  }

  lemma AddTableKeepsInv(s: Vm, k: Key, f: int, hf: int, hi: int)
    requires Inv(s, -1, 0)
    requires f in s.own && s.own[f] == Loose && k !in s.node && KeyOk(k)
    requires if k.level == 2 then f == k.root
            else Parent(k) in s.node && hf == s.node[Parent(k)] && hi == k.prefix % ENTRIES
    ensures Inv(AddTable(s, k, f), hf, hi)
  {
    hide NodeOk, LeafOk, TableOk;
    AddTableKeepsNodes(s, k, f);
    AddTableKeepsLeaves(s, k, f);
    AddTableKeepsTables(s, k, f, hf, hi);
  }

  /** An empty table leaves its address space; the entry above it is then exempt. */
  ghost function DropTable(s: Vm, k: Key): Vm
    requires k in s.node
  {
    s.(own := s.own[s.node[k] := Loose], node := s.node - {k})
  }

  /** No table hangs below table k, and nothing is mapped in it. */
  ghost predicate Bare(s: Vm, k: Key) {
    forall j :: 0 <= j < ENTRIES ==> if k.level == 0 then VaAt(k, j) !in s.leaf else Child(k, j) !in s.node
  }

  lemma DropTableKeepsNodes(s: Vm, k: Key)
    requires NodeOk(s.own, s.node) && LeafOk(s.own, s.node, s.leaf) && k in s.node && Bare(s, k)
    ensures NodeOk(DropTable(s, k).own, DropTable(s, k).node)
  {
    var s' := DropTable(s, k);
    assert KeyAt(s.own, s.node, k);
    forall k2 | k2 in s'.node ensures KeyAt(s'.own, s'.node, k2) {
      assert KeyAt(s.own, s.node, k2);
      var j := k2.prefix % ENTRIES;
      assert k2.level < 2 && Parent(k2) == k ==> Child(k, j) == k2;
    }
  }

  lemma DropTableKeepsLeaves(s: Vm, k: Key)
    requires NodeOk(s.own, s.node) && LeafOk(s.own, s.node, s.leaf) && k in s.node && Bare(s, k)
    ensures LeafOk(DropTable(s, k).own, DropTable(s, k).node, s.leaf)
  {
    var s' := DropTable(s, k);
    assert KeyAt(s.own, s.node, k);
    forall va | va in s.leaf ensures LeafAt(s'.own, s'.node, s.leaf, va) {
      assert LeafAt(s.own, s.node, s.leaf, va);
      var j := va.vpn % ENTRIES;
      assert Low(va) == k ==> VaAt(k, j) == va;
    }
  }

  lemma DropTableKeepsTables(s: Vm, k: Key, hf: int, hi: int)
    requires NodeOk(s.own, s.node) && TableOk(s.mem, s.node, s.leaf, -1, 0) && k in s.node
    requires k.level < 2 ==> Parent(k) in s.node && hf == s.node[Parent(k)] && hi == k.prefix % ENTRIES
    ensures TableOk(s.mem, DropTable(s, k).node, s.leaf, hf, hi)
  {
    var s' := DropTable(s, k);
    forall k2 | k2 in s'.node ensures IsTable(s.mem, s'.node[k2]) {
      assert IsTable(s.mem, s.node[k2]);
    }
    forall k2, j | k2 in s'.node && 0 <= j < ENTRIES && !(s'.node[k2] == hf && j == hi)
      ensures EntryOk(s.mem, s'.node, s.leaf, k2, j)
    {
      assert KeyAt(s.own, s.node, k2) && KeyAt(s.own, s.node, k);
      assert EntryOk(s.mem, s.node, s.leaf, k2, j);
      assert Child(k2, j) == k && 0 < k2.level ==> Parent(k) == k2;
    }
  }

  lemma DropTableKeepsInv(s: Vm, k: Key, hf: int, hi: int)
    requires Inv(s, -1, 0) && k in s.node && Bare(s, k)
    requires k.level < 2 ==> Parent(k) in s.node && hf == s.node[Parent(k)] && hi == k.prefix % ENTRIES
    ensures Inv(DropTable(s, k), hf, hi)
    ensures s.node[k] in s.own && s.own[s.node[k]] == Table(k)
  {
    hide NodeOk, LeafOk, TableOk, Bare;
    TableAt(s, k, -1, 0);
    DropTableKeepsNodes(s, k);
    DropTableKeepsLeaves(s, k);
    DropTableKeepsTables(s, k, hf, hi);
  }

  // ---------------------------------------------------------------- mapping a page

  /** A virtual page is mapped: a user page takes over the page in hand. Its entry is exempt until written. */
  ghost function Attach(s: Vm, va: Va, p: Pte): Vm {
    s.(leaf := s.leaf[va := p], own := if User(va) then s.own[p.ppn := Leaf(va)] else s.own)
  }

  ghost predicate CanAttach(s: Vm, va: Va, p: Pte) {
    && 0 <= va.vpn < MAXVPN && va !in s.leaf && Low(va) in s.node && p.v && p.r
    && if User(va) then
         p.ppn in s.own && s.own[p.ppn] == Loose && p.ppn in s.mem && s.mem[p.ppn].Bytes? && |s.mem[p.ppn].b| == PGSIZE
       else !p.u
  }

  lemma AttachKeepsLeaves(s: Vm, va: Va, p: Pte)
    requires LeafOk(s.own, s.node, s.leaf) && CanAttach(s, va, p)
    ensures LeafOk(Attach(s, va, p).own, s.node, Attach(s, va, p).leaf)
  {
    var s' := Attach(s, va, p);
    forall w | w in s'.leaf ensures LeafAt(s'.own, s.node, s'.leaf, w) {
      if w != va {
        assert LeafAt(s.own, s.node, s.leaf, w);
      }
    }
  }

  /** A change to one mapping concerns one entry. */
  lemma LeafKeepsTables(s: Vm, leaf': map<Va, Pte>, va: Va)
    requires NodeOk(s.own, s.node) && TableOk(s.mem, s.node, s.leaf, -1, 0) && Low(va) in s.node
    requires forall w :: w != va ==> (w in s.leaf <==> w in leaf') && (w in s.leaf ==> leaf'[w] == s.leaf[w])
    ensures TableOk(s.mem, s.node, leaf', s.node[Low(va)], va.vpn % ENTRIES)
  {
    var hf, hi := s.node[Low(va)], va.vpn % ENTRIES;
    forall k, i | k in s.node && 0 <= i < ENTRIES && !(s.node[k] == hf && i == hi)
      ensures EntryOk(s.mem, s.node, leaf', k, i)
    {
      assert KeyAt(s.own, s.node, k);
      assert EntryOk(s.mem, s.node, s.leaf, k, i);
      assert k.level == 0 && VaAt(k, i) == va ==> Low(va) == k && hi == i;
    }
  }

  lemma AttachKeepsInv(s: Vm, va: Va, p: Pte)
    requires Inv(s, -1, 0) && CanAttach(s, va, p)
    ensures Inv(Attach(s, va, p), s.node[Low(va)], va.vpn % ENTRIES)
  {
    hide NodeOk, LeafOk, TableOk;
    AttachKeepsLeaves(s, va, p);
    LeafKeepsTables(s, Attach(s, va, p).leaf, va);
    if User(va) {
      NodesKeep(s.own, s.node, p.ppn, Leaf(va));
    }
  }

  /** The reverse: the page of a user mapping is in hand again. */
  ghost function Detach(s: Vm, va: Va): Vm
    requires va in s.leaf
  {
    s.(leaf := s.leaf - {va}, own := if User(va) then s.own[s.leaf[va].ppn := Loose] else s.own)
  }

  lemma DetachKeepsLeaves(s: Vm, va: Va)
    requires LeafOk(s.own, s.node, s.leaf) && va in s.leaf
    ensures LeafOk(Detach(s, va).own, s.node, Detach(s, va).leaf)
  {
    var s' := Detach(s, va);
    assert LeafAt(s.own, s.node, s.leaf, va);
    forall w | w in s'.leaf ensures LeafAt(s'.own, s.node, s'.leaf, w) {
      assert LeafAt(s.own, s.node, s.leaf, w);
    }
  }

  lemma MappingAt(s: Vm, va: Va)
    requires LeafOk(s.own, s.node, s.leaf) && va in s.leaf
    ensures LeafAt(s.own, s.node, s.leaf, va)
  {
  }

  lemma DetachKeepsInv(s: Vm, va: Va)
    requires Inv(s, -1, 0) && va in s.leaf
    ensures LeafAt(s.own, s.node, s.leaf, va)
    ensures Inv(Detach(s, va), s.node[Low(va)], va.vpn % ENTRIES)
  {
    hide NodeOk, LeafOk, TableOk;
    MappingAt(s, va);
    DetachKeepsLeaves(s, va);
    LeafKeepsTables(s, Detach(s, va).leaf, va);
    if User(va) {
      NodesKeep(s.own, s.node, s.leaf[va].ppn, Loose);
    }
  }

  /** Only the permissions of a mapping change. */
  lemma RemapKeepsInv(s: Vm, va: Va, p: Pte)
    requires Inv(s, -1, 0) && va in s.leaf && p.v && p.r && p.ppn == s.leaf[va].ppn && (p.u ==> s.leaf[va].u)
    ensures LeafAt(s.own, s.node, s.leaf, va)
    ensures Inv(s.(leaf := s.leaf[va := p]), s.node[Low(va)], va.vpn % ENTRIES)
  {
    hide NodeOk, TableOk;
    MappingAt(s, va);
    LeafKeepsTables(s, s.leaf[va := p], va);
    forall w | w in s.leaf ensures LeafAt(s.own, s.node, s.leaf[va := p], w) {
      assert LeafAt(s.own, s.node, s.leaf, w);
    }
  }
}
