/** Address spaces as kernel/proc.c makes them: the trampoline, the trapframe, and user pages. */
module VmSpace {
  import opened VmTable
  import opened VmFree
  import opened VmChange

  function TrampolinePte(f: int): Pte {
    Pte(f, true, true, false, true, false)
  }

  function TrapframePte(f: int): Pte {
    Pte(f, true, true, true, false, false)
  }

  /** Every page is whose it was, and free pages are still free. */
  ghost predicate Unharmed(s: Vm, s': Vm) {
    && s'.leaf == s.leaf && s'.node == s.node
    && Settled(s, s') && Stays(s, s')
    && (forall f :: f in s.own && s.own[f].Free? ==> s'.own[f].Free?)
  }

  /** A step on the way to a new address space: all that has changed belongs to it. */
  ghost predicate Building(s: Vm, s': Vm, root: int) {
    && Key(root, 2, 0) in s'.node
    && (forall k :: k in s.node ==> k.root != root) && (forall va :: va in s.leaf ==> va.root != root)
    && (forall va :: va in s.leaf ==> va in s'.leaf && s'.leaf[va] == s.leaf[va])
    && (forall va :: va in s'.leaf && va !in s.leaf ==> va.root == root && !User(va))
    && Settled(s, s') && Stays(s, s')
    && (forall f :: f in s.own && s.own[f].Free? ==> FreeOrTable(s'.own[f], root))
    && NodesGrow(s, s', root)
  }

  /** A new address space that maps the trampoline and the trapframe. */
  ghost predicate NewSpace(s: Vm, s': Vm, root: int, trampoline: int, trapframe: int) {
    && Building(s, s', root)
    && s'.leaf ==
       s.leaf[Va(root, MAXVPN - 1) := TrampolinePte(trampoline)][Va(root, TRAPVPN) := TrapframePte(trapframe)]
  }

  lemma UnharmedSelf(s: Vm)
    requires Inv(s, -1, 0)
    ensures Unharmed(s, s)
  {
  }

  lemma CreatedBuilding(s: Vm, s': Vm, root: int)
    requires Created(s, s', root)
    ensures Building(s, s', root) && s'.leaf == s.leaf
  {
  }

  lemma GrownBuilding(s: Vm, s0: Vm, s': Vm, root: int)
    requires Building(s, s0, root) && Grown(s0, s', root)
    ensures Building(s, s', root) && s'.leaf == s0.leaf
  {
  }

  lemma MappedBuilding(s: Vm, s0: Vm, s': Vm, va: Va, p: Pte)
    requires Building(s, s0, va.root) && Mapped(s0, s', va, p) && !User(va)
    ensures Building(s, s', va.root) && s'.leaf == s0.leaf[va := p]
  {
  }

  /** Taking back all that a new address space had leaves everything as it was. */
  lemma BuildingGone(s: Vm, s0: Vm, s': Vm, root: int)
    requires Building(s, s0, root) && Gone(s0, s', root) && s0.leaf == s.leaf && Inv(s, -1, 0)
    ensures Unharmed(s, s')
  {
    hide Inv;
    OwnersElsewhere(s, root);
  }

  lemma OwnersElsewhere(s: Vm, root: int)
    requires Inv(s, -1, 0)
    requires forall k :: k in s.node ==> k.root != root
    requires forall va :: va in s.leaf ==> va.root != root
    ensures forall f :: f in s.own ==> !BelongsTo(s.own[f], root)
  {
  }

  lemma BuildingRoot(s: Vm, s': Vm, root: int)
    requires Building(s, s', root)
    ensures Key(root, 2, 0) in s'.node && forall va :: va in s.leaf ==> va.root != root
  {
  }

  lemma CreatedCount(s: Vm, s': Vm, root: int, vpn: int)
    requires Created(s, s', root) && 0 <= vpn < MAXVPN
    ensures Missing(s', root, vpn, 2) == 2 && |s'.list| == |s.list| - 1 && 0 < root
  {
  }

  /** The tables of a space that has just been created, after the trampoline and the trapframe have been mapped. */
  lemma CreatedTables(s: Vm, s1: Vm, s2: Vm, s': Vm, root: int)
    requires Created(s, s1, root) && TablesFor(s1, s2, root, MAXVPN - 1) && TablesFor(s2, s', root, TRAPVPN)
    ensures NewTables(s', root)
  {
    assert OnWay(root, MAXVPN - 1, 0) == OnWay(root, TRAPVPN, 0) &&
           OnWay(root, MAXVPN - 1, 1) == OnWay(root, TRAPVPN, 1);
  }

  /** The trapframe's entry is in the same table as the trampoline's. */
  lemma SameTable(s: Vm, root: int)
    requires Inv(s, -1, 0) && Va(root, MAXVPN - 1) in s.leaf
    ensures Missing(s, root, TRAPVPN, 2) == 0
  {
    Lookup(s, Va(root, MAXVPN - 1));
    Lookup(s, Va(root, TRAPVPN));
    assert Low(Va(root, MAXVPN - 1)) == Low(Va(root, TRAPVPN));
  }

  /** The mappings of a process: the trampoline, the trapframe, and user pages below sz. */
  ghost predicate Process(s: Vm, root: int, sz: int, trampoline: int, trapframe: int) {
    && Key(root, 2, 0) in s.node && 0 <= sz && Pages(sz) <= TRAPVPN
    && Va(root, MAXVPN - 1) in s.leaf && s.leaf[Va(root, MAXVPN - 1)] == TrampolinePte(trampoline)
    && Va(root, TRAPVPN) in s.leaf && s.leaf[Va(root, TRAPVPN)] == TrapframePte(trapframe)
    && (forall va :: va in s.leaf && va.root == root && User(va) ==> va.vpn < Pages(sz))
  }

  lemma NewProcess(s: Vm, s': Vm, root: int, trampoline: int, trapframe: int)
    requires NewSpace(s, s', root, trampoline, trapframe)
    ensures Process(s', root, 0, trampoline, trapframe)
  {
  }

  /** The trampoline and the trapframe are not mapped any more; no page changes hands. */
  ghost predicate UserPart(s: Vm, s': Vm, root: int) {
    && s'.node == s.node && s'.leaf == s.leaf - {Va(root, MAXVPN - 1), Va(root, TRAPVPN)}
    && (forall f :: f in s.own <==> f in s'.own)
    && (forall f :: f in s.own ==> s'.own[f] == s.own[f])
    && Stays(s, s')
  }

  lemma UnmapsLast(s: Vm, s1: Vm, s': Vm, root: int)
    requires Unmapped(s, s1, Va(root, MAXVPN - 1), false) && Unmapped(s1, s', Va(root, TRAPVPN), false)
    ensures UserPart(s, s', root)
  {
  }

  lemma UserOnly(s: Vm, s': Vm, root: int, n: int)
    requires Inv(s, -1, 0) && UserPart(s, s', root)
    requires forall va :: va in s.leaf && va.root == root && User(va) ==> va.vpn < n
    ensures forall va :: va in s'.leaf && va.root == root ==> va.vpn < n
  {
    hide Inv, Stays;
    forall va | va in s'.leaf && va.root == root ensures va.vpn < n {
      InRange(s, va);
    }
  }

  lemma InRange(s: Vm, va: Va)
    requires Inv(s, -1, 0) && va in s.leaf
    ensures 0 <= va.vpn < MAXVPN
  {
    MappingAt(s, va);
  }

  lemma LastGone(s: Vm, s1: Vm, s': Vm, root: int)
    requires UserPart(s, s1, root) && Gone(s1, s', root)
    ensures Gone(s, s', root)
  {
  }

  // ---------------------------------------------------------------- what the invariant says

  /** Every page is on the free list, a table, a user page, or in hand: exactly one of these, and once. */
  lemma OneOwner(s: Vm, f: int)
    requires Inv(s, -1, 0) && f in s.own
    ensures s.own[f].Free? <==> exists i :: 0 <= i < |s.list| && s.list[i] == f
    ensures s.own[f].Table? <==> exists k :: k in s.node && s.node[k] == f
    ensures s.own[f].Leaf? <==> exists va :: va in s.leaf && User(va) && s.leaf[va].ppn == f
    ensures forall i, j :: 0 <= i < |s.list| && 0 <= j < |s.list| && s.list[i] == f && s.list[j] == f ==> i == j
    ensures forall k, l :: k in s.node && l in s.node && s.node[k] == f && s.node[l] == f ==> k == l
    ensures forall va, vb :: va in s.leaf && vb in s.leaf && User(va) && User(vb) ==>
              s.leaf[va].ppn == f && s.leaf[vb].ppn == f ==> va == vb
  {
    hide TableOk, DataOk;
    forall k | k in s.node && s.node[k] == f ensures s.own[f] == Table(k) {
      assert KeyAt(s.own, s.node, k);
    }
    forall va | va in s.leaf && User(va) && s.leaf[va].ppn == f ensures s.own[f] == Leaf(va) {
      assert LeafAt(s.own, s.node, s.leaf, va);
    }
    if s.own[f].Table? {
      assert s.own[f].key in s.node;
    } else if s.own[f].Leaf? {
      assert s.own[f].va in s.leaf;
    }
  }

  datatype Translation = Fault | To(pte: Pte)

  /** Sv39 address translation: the hardware's walk through the three tables from a root. */
  ghost function Translate(mem: map<int, Page>, f: int, vpn: int, level: int): Translation
    requires 0 <= vpn < MAXVPN && 0 <= level <= 2
    decreases level
  {
    if !IsTable(mem, f) then Fault
    else
      var p := mem[f].e[if level == 2 then vpn / 512 / 512 else if level == 1 then vpn / 512 % 512 else vpn % 512];
      if !p.v then Fault
      else if p.r || p.w || p.x then (if level == 0 then To(p) else Fault)
      else if level == 0 then Fault
      else Translate(mem, p.ppn, vpn, level - 1)
  }

  /** The tables of an address space translate exactly as `leaf` says. */
  lemma {:induction false} TranslateIsLeaf(s: Vm, root: int, vpn: int, level: int)
    requires Inv(s, -1, 0) && 0 <= vpn < MAXVPN && 0 <= level <= 2 && OnWay(root, vpn, level) in s.node
    ensures Translate(s.mem, s.node[OnWay(root, vpn, level)], vpn, level) ==
            if Va(root, vpn) in s.leaf then To(s.leaf[Va(root, vpn)]) else Fault
    decreases level
  {
    hide ListOk, DataOk, NodeOk, LeafOk, TableOk;
    Lookup(s, Va(root, vpn));
    EntryAt(s, OnWay(root, vpn, level), Index(vpn, level));
    if 0 < level {
      NextOnWay(root, vpn, level);
      if OnWay(root, vpn, level - 1) in s.node {
        TranslateIsLeaf(s, root, vpn, level - 1);
      } else {
        TableMissing(s, Va(root, vpn), level - 1);
      }
    }
  }

  lemma TableMissing(s: Vm, va: Va, level: int)
    requires Inv(s, -1, 0) && 0 <= va.vpn < MAXVPN && 0 <= level <= 1 && OnWay(va.root, va.vpn, level) !in s.node
    ensures va !in s.leaf
  {
    Lookup(s, va);
    NextOnWay(va.root, va.vpn, 1);
    ParentThere(s, Low(va));
  }

  lemma ParentThere(s: Vm, k: Key)
    requires Inv(s, -1, 0)
    ensures k in s.node && k.level < 2 ==> Parent(k) in s.node
  {
    if k in s.node {
      assert KeyAt(s.own, s.node, k);
    }
  }
}
