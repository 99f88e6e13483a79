/** The memory of the processes in the process table of kernel/proc.c.

    Every page is free or belongs to exactly one process, as its trapframe, as one of its page tables or as one of
    its user pages; or the kernel has taken it for something else, such as a pipe or the arguments of exec. Such a
    page is treated as the trapframe of a process of its own that has no address space. */
module ProcMemory {
  import Basics
  import opened VmTable
  import opened VmFree
  import opened VmChange
  import opened VmBytes
  import opened VmReach
  import opened VmSpace
  import opened VirtualMemory
  import ExecImage
  import Exec

  const NPROC: int := 64
  const TWO64: int := 0x1_0000_0000_0000_0000

  /** The memory of a process: its trapframe's page and its root table, 0 if it has none, and its size. */
  datatype Slot = Slot(used: bool, frame: int, root: int, sz: int)

  const NoProc := Slot(false, 0, 0, 0)

  ghost predicate SlotOk(s: Vm, x: Slot, trampoline: int) {
    && (!x.used ==> x == NoProc) && 0 <= x.sz
    && (x.frame != 0 ==> x.frame in s.own && s.own[x.frame] == Loose)
    && (x.root != 0 ==> x.frame != 0 && Process(s, x.root, x.sz, trampoline, x.frame))
  }

  ghost predicate HasSpace(ps: seq<Slot>, root: int) {
    root != 0 && exists p :: 0 <= p < |ps| && ps[p].root == root
  }

  ghost predicate HasFrame(ps: seq<Slot>, f: int) {
    f != 0 && exists p :: 0 <= p < |ps| && ps[p].frame == f
  }

  /** The slots share nothing, every address space is in one of them, and so is every page in hand. */
  ghost predicate ProcsOk(s: Vm, ps: seq<Slot>, trampoline: int) {
    && (forall p :: 0 <= p < |ps| ==> SlotOk(s, ps[p], trampoline))
    && (forall p, q :: 0 <= p < q < |ps| ==> Apart(ps[p], ps[q]))
    && (forall k :: k in s.node ==> HasSpace(ps, k.root))
    && (forall f :: f in s.own && s.own[f] == Loose ==> HasFrame(ps, f))
  }

  ghost predicate Apart(x: Slot, y: Slot) {
    (x.root != 0 ==> x.root != y.root) && (x.frame != 0 ==> x.frame != y.frame)
  }

  /** The size is not beyond the trapframe. */
  ghost predicate Regular(x: Slot) {
    0 <= x.sz && Pages(x.sz) <= TRAPVPN
  }

  /** The user pages of a process whose size is beyond its trapframe lie below the trapframe. */
  ghost function Clip(x: Slot): Slot {
    if x.sz < 0 || Pages(x.sz) <= TRAPVPN then x else x.(sz := TRAPVPN * PGSIZE)
  }

  lemma ClipKeeps(x: Slot)
    ensures Clip(x).frame == x.frame && Clip(x).root == x.root
  {
  }

  ghost function Clipped(ps: seq<Slot>): (r: seq<Slot>)
    ensures |r| == |ps| && forall p :: 0 <= p < |ps| ==> r[p] == Clip(ps[p])
  {
    seq(|ps|, p requires 0 <= p < |ps| => Clip(ps[p]))
  }

  /** An address space is as it was. */
  ghost predicate SameSpace(s: Vm, s': Vm, root: int) {
    && (forall va: Va :: va.root == root ==> (va in s.leaf <==> va in s'.leaf))
    && (forall va: Va :: va.root == root && va in s.leaf && va in s'.leaf ==> s'.leaf[va] == s.leaf[va])
    && (forall k: Key :: k.root == root ==> (k in s.node <==> k in s'.node))
  }

  lemma SameProcess(s: Vm, s': Vm, root: int, sz: int, trampoline: int, frame: int)
    requires Process(s, root, sz, trampoline, frame) && SameSpace(s, s', root)
    ensures Process(s', root, sz, trampoline, frame)
  {
  }

  /** What a step of one process must do for the others. */
  ghost predicate Local(s: Vm, s': Vm, ps: seq<Slot>, p: int, x: Slot)
    requires 0 <= p < |ps|
  {
    && (forall q :: 0 <= q < |ps| && q != p ==> Apart(ps[q], x) && Apart(x, ps[q]))
    && (forall q :: 0 <= q < |ps| && q != p && ps[q].root != 0 ==> SameSpace(s, s', ps[q].root))
    && (forall q :: 0 <= q < |ps| && q != p && ps[q].frame != 0 ==>
       ps[q].frame in s'.own && s'.own[ps[q].frame] == Loose)
    && (forall k :: k in s'.node ==> (x.root != 0 && k.root == x.root) || (k in s.node && k.root != ps[p].root))
    && (forall f :: f in s'.own && s'.own[f] == Loose ==>
          (f != 0 && f == x.frame) || (f in s.own && s.own[f] == Loose && f != ps[p].frame))
  }

  lemma LocalStep(s: Vm, s': Vm, ps: seq<Slot>, p: int, x: Slot, trampoline: int)
    requires ProcsOk(s, ps, trampoline) && 0 <= p < |ps| && Local(s, s', ps, p, x) && SlotOk(s', x, trampoline)
    ensures ProcsOk(s', ps[p := x], trampoline)
  {
    hide Process, SameSpace;
    var ps' := ps[p := x];
    forall q | 0 <= q < |ps'| ensures SlotOk(s', ps'[q], trampoline) {
      if q != p {
        assert SlotOk(s, ps[q], trampoline);
        if ps[q].root != 0 { SameProcess(s, s', ps[q].root, ps[q].sz, trampoline, ps[q].frame); }
      }
    }
    forall q, r | 0 <= q < r < |ps'| ensures Apart(ps'[q], ps'[r]) {
      assert Apart(ps[q], ps[r]);
    }
    forall k | k in s'.node ensures HasSpace(ps', k.root) {
      if x.root != 0 && k.root == x.root {
        assert ps'[p].root == k.root;
      } else {
        var q :| 0 <= q < |ps| && ps[q].root == k.root;
        assert ps'[q].root == k.root;
      }
    }
    forall f | f in s'.own && s'.own[f] == Loose ensures HasFrame(ps', f) {
      if f == x.frame {
        assert ps'[p].frame == f;
      } else {
        var q :| 0 <= q < |ps| && ps[q].frame == f;
        assert ps'[q].frame == f;
      }
    }
  }

  // ---------------------------------------------------------------- what the invariant says

  /** Process p has page f. */
  ghost predicate Has(s: Vm, ps: seq<Slot>, p: int, f: int)
    requires 0 <= p < |ps| && f in s.own
  {
    ps[p].frame == f || BelongsTo(s.own[f], ps[p].root)
  }

  lemma SlotIs(s: Vm, ps: seq<Slot>, p: int, trampoline: int)
    requires ProcsOk(s, ps, trampoline) && 0 <= p < |ps|
    ensures SlotOk(s, ps[p], trampoline)
  {
  }

  /** Every page is free, or in exactly one slot. */
  lemma OneSlot(s: Vm, ps: seq<Slot>, trampoline: int, f: int)
    requires Inv(s, -1, 0) && ProcsOk(s, ps, trampoline) && f in s.own
    ensures s.own[f].Free? <==> forall p :: 0 <= p < |ps| ==> !Has(s, ps, p, f)
    ensures forall p, q :: 0 <= p < |ps| && 0 <= q < |ps| && Has(s, ps, p, f) && Has(s, ps, q, f) ==> p == q
  {
    hide Process;
    OwnersHaveRoots(s, f);
    forall p | 0 <= p < |ps| ensures SlotOk(s, ps[p], trampoline) {}
    forall p, q | 0 <= p < q < |ps| ensures !(Has(s, ps, p, f) && Has(s, ps, q, f)) {
      assert Apart(ps[p], ps[q]);
    }
    if s.own[f] == Loose {
      assert HasFrame(ps, f);
      var p :| 0 <= p < |ps| && ps[p].frame == f;
      assert Has(s, ps, p, f);
    } else if !s.own[f].Free? {
      var root := if s.own[f].Table? then s.own[f].key.root else s.own[f].va.root;
      assert HasSpace(ps, root);
      var p :| 0 <= p < |ps| && ps[p].root == root;
      assert Has(s, ps, p, f);
    }
  }

  lemma OwnersHaveRoots(s: Vm, f: int)
    requires Inv(s, -1, 0) && f in s.own
    ensures 0 < f
    ensures s.own[f].Table? ==> s.own[f].key in s.node && 0 < s.own[f].key.root
    ensures s.own[f].Leaf? ==> Low(s.own[f].va) in s.node && 0 < s.own[f].va.root
  {
    if s.own[f].Table? {
      NoTables(s, s.own[f].key);
    } else if s.own[f].Leaf? {
      MappingAt(s, s.own[f].va);
      NoTables(s, Low(s.own[f].va));
    }
  }

  /** The one address space that maps a process's trapframe there is its own. */
  lemma TrapframeMapped(s: Vm, ps: seq<Slot>, trampoline: int, p: int, root: int)
    requires Inv(s, -1, 0) && ProcsOk(s, ps, trampoline) && 0 <= p < |ps| && ps[p].root != 0
    ensures Va(root, TRAPVPN) in s.leaf && s.leaf[Va(root, TRAPVPN)].ppn == ps[p].frame <==> root == ps[p].root
  {
    assert SlotOk(s, ps[p], trampoline);
    if Va(root, TRAPVPN) in s.leaf {
      MappingAt(s, Va(root, TRAPVPN));
      assert HasSpace(ps, Low(Va(root, TRAPVPN)).root);
      var q :| 0 <= q < |ps| && ps[q].root == root;
      assert SlotOk(s, ps[q], trampoline);
      assert p < q ==> Apart(ps[p], ps[q]);
      assert q < p ==> Apart(ps[q], ps[p]);
    }
  }

  /** When kexec commits, exactly the two address spaces of its process map the trapframe. */
  lemma DuringExec(s: Vm, s': Vm, ps: seq<Slot>, trampoline: int, p: int, new': int, sz: int, root: int)
    requires Inv(s, -1, 0) && Inv(s', -1, 0) && ProcsOk(s, ps, trampoline) && 0 <= p < |ps| && ps[p].root != 0
    requires ExecImage.Private(s, s', new') && Process(s', new', sz, trampoline, ps[p].frame)
    ensures Va(root, TRAPVPN) in s'.leaf && s'.leaf[Va(root, TRAPVPN)].ppn == ps[p].frame <==>
            root == ps[p].root || root == new'
  {
    hide Inv;
    TrapframeMapped(s, ps, trampoline, p, root);
    TrapframeMapped(s, ps, trampoline, p, ps[p].root);
  }

  // ---------------------------------------------------------------- steps

  /** Everything process x had is free; nothing else has changed. */
  ghost predicate Freed(s: Vm, s': Vm, x: Slot) {
    && (forall va :: va in s'.leaf <==> va in s.leaf && va.root != x.root)
    && (forall va :: va in s'.leaf ==> s'.leaf[va] == s.leaf[va])
    && (forall k :: k in s'.node <==> k in s.node && k.root != x.root)
    && (forall k :: k in s'.node ==> s'.node[k] == s.node[k])
    && (forall f :: f in s.own <==> f in s'.own)
    && (forall f :: f in s.own ==>
          if f == x.frame || BelongsTo(s.own[f], x.root) then s'.own[f].Free? else s'.own[f] == s.own[f])
    && (forall f :: f in s.own && (s.own[f].Leaf? || s.own[f] == Loose) && s'.own[f] == s.own[f] ==>
          f in s.mem && f in s'.mem && s'.mem[f] == s.mem[f])
  }

  /** The trapframe's page is freed, and then the address space, if there are any. */
  lemma FreedSteps(s: Vm, s1: Vm, s': Vm, x: Slot)
    requires Inv(s, -1, 0)
    requires if x.frame != 0 then x.frame in s.own && s.own[x.frame] == Loose && s1 == Release(s, x.frame) else s1 == s
    requires if x.root != 0 then Gone(s1, s', x.root) else s' == s1
    ensures Freed(s, s', x)
  {
    hide Inv;
    OwnedInMemory(s);
    RootsPositive(s);
  }

  lemma RootsPositive(s: Vm)
    requires Inv(s, -1, 0)
    ensures forall k :: k in s.node ==> k.root != 0
    ensures forall va :: va in s.leaf ==> va.root != 0
    ensures forall f :: f in s.own ==> !BelongsTo(s.own[f], 0)
  {
    forall k | k in s.node ensures k.root != 0 {
      NoTables(s, k);
      assert KeyAt(s.own, s.node, Key(k.root, 2, 0));
    }
    forall va | va in s.leaf ensures va.root != 0 {
      MappingAt(s, va);
      assert Low(va) in s.node;
    }
    LeafOwnersMapped(s);
    KeysOk(s);
  }

  lemma FreedLocal(s: Vm, s': Vm, ps: seq<Slot>, p: int, trampoline: int)
    requires ProcsOk(s, ps, trampoline) && 0 <= p < |ps| && Freed(s, s', ps[p])
    ensures Local(s, s', ps, p, NoProc)
  {
    hide Process;
    forall q | 0 <= q < |ps| && q != p ensures Apart(ps[q], NoProc) && Apart(ps[p], ps[q]) && Apart(ps[q], ps[p]) {
      assert q < p ==> Apart(ps[q], ps[p]);
      assert p < q ==> Apart(ps[p], ps[q]);
    }
    forall q | 0 <= q < |ps| && q != p && ps[q].frame != 0
      ensures ps[q].frame in s'.own && s'.own[ps[q].frame] == Loose
    {
      assert SlotOk(s, ps[q], trampoline);
    }
  }

  /** A page is taken for the trapframe. */
  lemma FrameLocal(s: Vm, ps: seq<Slot>, p: int, trampoline: int)
    requires Inv(s, -1, 0) && ProcsOk(s, ps, trampoline) && 0 <= p < |ps| && ps[p] == NoProc && s.list != []
    ensures Local(s, Alloc(s), ps, p, Slot(true, Top(s.list), 0, 0))
    ensures SlotOk(Alloc(s), Slot(true, Top(s.list), 0, 0), trampoline)
  {
    hide Process, Inv;
    TopIsPage(s);
    forall q | 0 <= q < |ps| && q != p ensures SlotOk(s, ps[q], trampoline) {}
  }

  /** Address spaces other than a and b are as they were, and so is what is in hand. */
  ghost predicate Confined(s: Vm, s': Vm, a: int, b: int) {
    && (forall va: Va :: va.root != a && va.root != b ==> (va in s.leaf <==> va in s'.leaf))
    && (forall va: Va :: va.root != a && va.root != b && va in s.leaf && va in s'.leaf ==> s'.leaf[va] == s.leaf[va])
    && (forall k: Key :: k.root != a && k.root != b ==> (k in s.node <==> k in s'.node))
    && (forall f :: f in s.own <==> f in s'.own)
    && (forall f :: f in s.own ==> (s.own[f] == Loose <==> s'.own[f] == Loose))
  }

  /** Another process and its address space. */
  lemma OtherProc(s: Vm, ps: seq<Slot>, p: int, q: int, trampoline: int)
    requires ProcsOk(s, ps, trampoline) && 0 <= p < |ps| && 0 <= q < |ps| && p != q
    ensures Apart(ps[p], ps[q]) && Apart(ps[q], ps[p]) && SlotOk(s, ps[q], trampoline)
    ensures ps[q].root != 0 ==> Key(ps[q].root, 2, 0) in s.node
  {
    assert q < p ==> Apart(ps[q], ps[p]);
    assert p < q ==> Apart(ps[p], ps[q]);
    assert SlotOk(s, ps[q], trampoline);
  }

  lemma FramesPositive(s: Vm, ps: seq<Slot>, trampoline: int)
    requires ProcsOk(s, ps, trampoline)
    ensures forall f :: f in s.own && s.own[f] == Loose ==> f != 0
  {
  }

  /** A step within the address space of one process, or one that gives it a new one. */
  lemma ConfinedLocal(s: Vm, s': Vm, ps: seq<Slot>, p: int, x: Slot, trampoline: int)
    requires ProcsOk(s, ps, trampoline) && 0 <= p < |ps| && x.frame == ps[p].frame && x.root != 0
    requires Confined(s, s', ps[p].root, x.root)
    requires x.root != ps[p].root ==> forall k :: k in s.node ==> k.root != x.root
    requires x.root != ps[p].root ==> forall k :: k in s'.node ==> k.root != ps[p].root
    ensures Local(s, s', ps, p, x)
  {
    hide Process, ProcsOk;
    FramesPositive(s, ps, trampoline);
    forall q | 0 <= q < |ps| && q != p
      ensures Apart(ps[q], x) && Apart(x, ps[q]) && SlotOk(s, ps[q], trampoline)
      ensures ps[q].root != 0 ==> SameSpace(s, s', ps[q].root)
    {
      OtherProc(s, ps, p, q, trampoline);
    }
  }

  lemma NewConfined(s: Vm, s': Vm, root: int, trampoline: int, frame: int)
    requires NewSpace(s, s', root, trampoline, frame)
    ensures Confined(s, s', 0, root) && forall k :: k in s.node ==> k.root != root
  {
  }

  lemma CopiedConfined(s: Vm, s': Vm, old': int, new': int, n: int)
    requires Copied(s, s', old', new', 0, n)
    ensures Confined(s, s', new', new')
  {
  }

  lemma ReplacedConfined(s: Vm, s': Vm, old': int, new': int)
    requires ExecImage.Replaced(s, s', old', new')
    ensures Confined(s, s', old', new')
  {
  }

  lemma UsedLocal(s: Vm, ps: seq<Slot>, p: int, trampoline: int)
    requires ProcsOk(s, ps, trampoline) && 0 <= p < |ps| && ps[p] == NoProc
    ensures ProcsOk(s, ps[p := Slot(true, 0, 0, 0)], trampoline)
  {
    hide Process;
    forall q | 0 <= q < |ps| && q != p
      ensures SlotOk(s, ps[q], trampoline) && Apart(ps[p], ps[q]) && Apart(ps[q], ps[p])
    {
      OtherProc(s, ps, p, q, trampoline);
    }
    FramesPositive(s, ps, trampoline);
    forall k | k in s.node ensures k.root != 0 { assert HasSpace(ps, k.root); }
    LocalStep(s, s, ps, p, Slot(true, 0, 0, 0), trampoline);
  }

  /** The trapframe's page and the address space have been given back: everything is as it was. */
  lemma AllocUndone(s: Vm, s1: Vm, s': Vm, x: Slot)
    requires Inv(s, -1, 0) && s.list != [] && Unharmed(Alloc(s), s1) && Inv(s1, -1, 0)
    requires x == Slot(true, Top(s.list), 0, 0) && Freed(s1, s', x)
    ensures Unharmed(s, s')
  {
    hide Inv;
    AllocKeepsInv(s, -1, 0);
    OwnedInMemory(s);
    RootsPositive(s1);
  }

  /** Only the trapframe's page has changed hands: it is free now. */
  ghost predicate FrameFreed(s: Vm, s': Vm, f: int) {
    && s'.leaf == s.leaf && s'.node == s.node
    && (forall g :: g in s.own <==> g in s'.own)
    && (forall g :: g in s.own && !s.own[g].Free? ==> if g == f then s'.own[g].Free? else s'.own[g] == s.own[g])
    && (forall g :: g in s.own && s.own[g].Free? ==> s'.own[g].Free?)
    && (forall g :: g in s.own && g != f && (s.own[g].Leaf? || s.own[g] == Loose) ==>
          g in s.mem && g in s'.mem && s'.mem[g] == s.mem[g])
  }

  lemma BuildFreed(s: Vm, s1: Vm, s': Vm, x: Slot)
    requires Building(s, s1, x.root) && Freed(s1, s', x) && x.frame in s.own && s.own[x.frame] == Loose
    requires forall f :: f in s.own ==> !BelongsTo(s.own[f], x.root)
    ensures FrameFreed(s, s', x.frame)
  {
  }

  lemma FrameUndone(s: Vm, s': Vm)
    requires Inv(s, -1, 0) && s.list != [] && FrameFreed(Alloc(s), s', Top(s.list))
    ensures Unharmed(s, s')
  {
    hide Inv;
    AllocKeepsInv(s, -1, 0);
    OwnedInMemory(s);
  }

  lemma BuildUndone(s: Vm, s1: Vm, s2: Vm, s': Vm, x: Slot, trampoline: int)
    requires Inv(s, -1, 0) && s.list != [] && x.frame == Top(s.list)
    requires NewSpace(Alloc(s), s1, x.root, trampoline, x.frame) && Grown(s1, s2, x.root) && Freed(s2, s', x)
    ensures Unharmed(s, s')
  {
    hide Inv, Grown, Building, Freed, Unharmed, FrameFreed;
    AllocKeepsInv(s, -1, 0);
    BuildingElsewhere(Alloc(s), s1, x.root);
    GrownBuilding(Alloc(s), s1, s2, x.root);
    BuildFreed(Alloc(s), s2, s', x);
    FrameUndone(s, s');
  }

  lemma BuildingElsewhere(s: Vm, s': Vm, root: int)
    requires Inv(s, -1, 0) && Building(s, s', root)
    ensures forall f :: f in s.own ==> !BelongsTo(s.own[f], root)
  {
    hide Inv;
    OwnersElsewhere(s, root);
  }

  lemma UnharmedProcs(s: Vm, s': Vm, ps: seq<Slot>, trampoline: int)
    requires ProcsOk(s, ps, trampoline) && Unharmed(s, s')
    ensures ProcsOk(s', ps, trampoline)
  {
    hide Process;
    forall q | 0 <= q < |ps| ensures SlotOk(s', ps[q], trampoline) {
      assert SlotOk(s, ps[q], trampoline);
      if ps[q].root != 0 { SameProcess(s, s', ps[q].root, ps[q].sz, trampoline, ps[q].frame); }
    }
  }

  lemma NewProcs(s: Vm, s': Vm, ps: seq<Slot>, p: int, root: int, trampoline: int)
    requires Inv(s', -1, 0) && ProcsOk(s, ps, trampoline) && 0 <= p < |ps| && ps[p].used && ps[p].frame != 0 &&
             ps[p].root == 0
    requires NewSpace(s, s', root, trampoline, ps[p].frame) && root != 0
    ensures ProcsOk(s', ps[p := Slot(true, ps[p].frame, root, 0)], trampoline)
  {
    hide Inv, Process, Local, Confined, NewSpace;
    var x := Slot(true, ps[p].frame, root, 0);
    assert SlotOk(s, ps[p], trampoline);
    NewProcess(s, s', root, trampoline, ps[p].frame);
    NewConfined(s, s', root, trampoline, ps[p].frame);
    RootsPositive(s');
    ConfinedLocal(s, s', ps, p, x, trampoline);
    FrameStays(s, s', 0, root, ps[p].frame);
    LocalStep(s, s', ps, p, x, trampoline);
  }

  /** A step that leaves everything to the address space of one process. */
  lemma GrownProcs(s: Vm, s': Vm, ps: seq<Slot>, p: int, trampoline: int)
    requires ProcsOk(s, ps, trampoline) && 0 <= p < |ps| && ps[p].root != 0 && Grown(s, s', ps[p].root)
    ensures ProcsOk(s', ps, trampoline)
  {
    hide Local, Process, Confined, Grown;
    var root, f := ps[p].root, ps[p].frame;
    assert SlotOk(s, ps[p], trampoline);
    GrownConfined(s, s', root);
    GrownProcess(s, s', root, ps[p].sz, trampoline, f);
    ConfinedLocal(s, s', ps, p, ps[p], trampoline);
    FrameStays(s, s', root, root, f);
    LocalStep(s, s', ps, p, ps[p], trampoline);
    assert ps[p := ps[p]] == ps;
  }

  lemma GrownProcess(s: Vm, s': Vm, root: int, sz: int, trampoline: int, frame: int)
    requires Process(s, root, sz, trampoline, frame) && Grown(s, s', root)
    ensures Process(s', root, sz, trampoline, frame)
  {
  }

  lemma GrownConfined(s: Vm, s': Vm, root: int)
    requires Grown(s, s', root)
    ensures Confined(s, s', root, root)
  {
  }

  lemma SizeOk(s: Vm, ps: seq<Slot>, p: int, trampoline: int)
    requires ProcsOk(s, ps, trampoline) && 0 <= p < |ps|
    ensures 0 <= ps[p].sz
  {
    assert SlotOk(s, ps[p], trampoline);
  }

  /** Parent and child before uvmcopy. */
  lemma ForkReady(s: Vm, ps: seq<Slot>, p: int, q: int, hi: int, trampoline: int)
    requires ProcsOk(s, ps, trampoline) && 0 <= p < |ps| && 0 <= q < |ps| && p != q
    requires ps[p].root != 0 && ps[q].root != 0 && ps[q].sz == 0
    ensures Key(ps[p].root, 2, 0) in s.node && Key(ps[q].root, 2, 0) in s.node && ps[p].root != ps[q].root
    ensures Va(ps[p].root, TRAPVPN) in s.leaf && Va(ps[q].root, TRAPVPN) in s.leaf
    ensures forall va :: va in s.leaf && User(va) ==> !Within(va, ps[q].root, 0, hi)
  {
    OtherProc(s, ps, p, q, trampoline);
    OtherProc(s, ps, q, p, trampoline);
    assert Pages(0) == 0;
  }

  /** What the copy takes, in terms of the parent before the child was made. */
  lemma ForkNeeds(s0: Vm, s: Vm, from: int, y: Slot, hi: int, trampoline: int)
    requires s0.list != [] && NewSpace(Alloc(s0), s, y.root, trampoline, y.frame) && from != y.root && 0 <= hi
    requires NewTables(s, y.root)
    ensures CopyNeed(s, from, y.root, hi) == ForkNeed(s0, from, hi)
  {
    CopyNeedIsForkNeed(s0, s, from, y.root, hi);
  }

  lemma CopiedProcess(s: Vm, s': Vm, parent: int, child: int, sz: int, trampoline: int, frame: int)
    requires 0 <= sz && Pages(sz) <= TRAPVPN && Process(s, child, 0, trampoline, frame)
    requires Copied(s, s', parent, child, 0, Pages(sz))
    ensures Process(s', child, sz, trampoline, frame)
  {
    assert Pages(0) == 0;
  }

  lemma CopiedProcs(s: Vm, s': Vm, ps: seq<Slot>, p: int, q: int, trampoline: int)
    requires ProcsOk(s, ps, trampoline) && 0 <= p < |ps| && 0 <= q < |ps| && p != q
    requires ps[q].used && ps[p].root != 0 && ps[q].root != 0 && ps[q].sz == 0 && 0 <= ps[p].sz &&
             Pages(ps[p].sz) <= TRAPVPN
    requires Copied(s, s', ps[p].root, ps[q].root, 0, Pages(ps[p].sz))
    ensures ProcsOk(s', ps[q := ps[q].(sz := ps[p].sz)], trampoline)
  {
    hide Process, Copied, Confined, Local;
    var x := ps[q].(sz := ps[p].sz);
    OtherProc(s, ps, p, q, trampoline);
    CopiedConfined(s, s', ps[p].root, x.root, Pages(x.sz));
    CopiedProcess(s, s', ps[p].root, x.root, x.sz, trampoline, x.frame);
    ConfinedLocal(s, s', ps, q, x, trampoline);
    FrameStays(s, s', x.root, x.root, x.frame);
    LocalStep(s, s', ps, q, x, trampoline);
  }

  /** kexec gives a process another address space. */
  lemma ReplacedProcs(s: Vm, s': Vm, ps: seq<Slot>, p: int, root: int, sz: int, trampoline: int)
    requires Inv(s', -1, 0) && ProcsOk(s, ps, trampoline) && 0 <= p < |ps| && ps[p].used && ps[p].root != 0
    requires ExecImage.Replaced(s, s', ps[p].root, root) && Process(s', root, sz, trampoline, ps[p].frame)
    ensures ProcsOk(s', ps[p := ps[p].(root := root, sz := sz)], trampoline) && 0 <= sz && Pages(sz) <= TRAPVPN
  {
    hide Inv, Confined, Local;
    var x := ps[p].(root := root, sz := sz);
    RootsPositive(s');
    assert SlotOk(s, ps[p], trampoline) && Key(root, 2, 0) in s'.node;
    ReplacedConfined(s, s', ps[p].root, root);
    hide Process;
    ConfinedLocal(s, s', ps, p, x, trampoline);
    FrameStays(s, s', ps[p].root, root, x.frame);
    LocalStep(s, s', ps, p, x, trampoline);
  }

  lemma FrameStays(s: Vm, s': Vm, a: int, b: int, f: int)
    requires Confined(s, s', a, b) && f in s.own && s.own[f] == Loose
    ensures f in s'.own && s'.own[f] == Loose
  {
  }

  // ---------------------------------------------------------------- what the processes see

  lemma AllocSameMemory(s: Vm)
    requires Inv(s, -1, 0) && s.list != [] && Inv(Alloc(s), -1, 0)
    ensures SameMemory(s, Alloc(s))
  {
    hide ListOk, NodeOk, TableOk;
    TopIsPage(s);
    forall va | User(va) && va in s.leaf ensures PageOf(Alloc(s), va) == PageOf(s, va) {
      MappingAt(s, va);
    }
  }

  lemma NewSpaceSameMemory(s: Vm, s': Vm, root: int, trampoline: int, frame: int)
    requires Inv(s, -1, 0) && Inv(s', -1, 0) && NewSpace(s, s', root, trampoline, frame)
    ensures SameMemory(s, s')
  {
    hide ListOk, NodeOk, TableOk;
    forall va | User(va) ensures PageOf(s', va) == PageOf(s, va) {
      if va in s.leaf { MappingAt(s, va); }
    }
  }

  /** The child sees what the parent saw, and nobody else sees a difference. */
  ghost predicate Forked(s: Vm, s': Vm, parent: int, child: int, sz: int)
    requires Inv(s, -1, 0) && Inv(s', -1, 0)
  {
    && (forall a :: 0 <= a < sz ==> ByteAt(s', child, a) == ByteAt(s, parent, a))
    && (forall va :: User(va) && va.root != child ==> PageOf(s', va) == PageOf(s, va))
  }

  lemma CopiedForked(s: Vm, s1: Vm, s': Vm, parent: int, child: int, sz: int)
    requires Inv(s, -1, 0) && Inv(s1, -1, 0) && Inv(s', -1, 0) && 0 <= sz && Pages(sz) <= TRAPVPN
    requires SameMemory(s, s1) && Copied(s1, s', parent, child, 0, Pages(sz))
    requires forall va :: va in s1.leaf ==> !Within(va, child, 0, Pages(sz))
    ensures Forked(s, s', parent, child, sz)
  {
    hide Inv, PageOf, Copied;
    var n := Pages(sz);
    CopiedSameMemory(s1, s', parent, child, n, 0);
    forall a | 0 <= a < sz ensures ByteAt(s', child, a) == ByteAt(s, parent, a) {
      CopiedSameMemory(s1, s', parent, child, n, a / PGSIZE);
      assert User(Va(parent, a / PGSIZE));
    }
  }

  // ---------------------------------------------------------------- growing and touching memory

  /** A process changes its size and what it has mapped, in its own address space. */
  lemma SpaceProcs(s: Vm, s': Vm, ps: seq<Slot>, p: int, sz: int, trampoline: int)
    requires ProcsOk(s, ps, trampoline) && 0 <= p < |ps| && ps[p].root != 0 && 0 <= sz
    requires Confined(s, s', ps[p].root, ps[p].root) && Process(s', ps[p].root, sz, trampoline, ps[p].frame)
    ensures ProcsOk(s', ps[p := ps[p].(sz := sz)], trampoline)
  {
    hide Local, Process, Confined;
    var x := ps[p].(sz := sz);
    assert SlotOk(s, ps[p], trampoline);
    ConfinedLocal(s, s', ps, p, x, trampoline);
    FrameStays(s, s', x.root, x.root, x.frame);
    LocalStep(s, s', ps, p, x, trampoline);
  }

  lemma ExtendedStep(s: Vm, s': Vm, root: int, sz: int, new': int, w: bool, x: bool, trampoline: int, frame: int)
    requires Process(s, root, sz, trampoline, frame) && 0 <= sz <= new' && Pages(new') <= TRAPVPN
    requires Extended(s, s', root, Pages(sz), Pages(new'), w, x)
    ensures Confined(s, s', root, root) && Process(s', root, new', trampoline, frame)
  {
  }

  lemma ShrunkStep(s: Vm, s': Vm, root: int, sz: int, new': int, trampoline: int, frame: int)
    requires Process(s, root, sz, trampoline, frame) && 0 <= new' <= sz && Shrunk(s, s', root, Pages(new'), Pages(sz))
    ensures Confined(s, s', root, root) && Process(s', root, new', trampoline, frame)
  {
    ExecImage.PagesGrow(new', sz);
  }

  lemma FaultedStep(s: Vm, s': Vm, root: int, sz: int, trampoline: int, frame: int)
    requires Process(s, root, sz, trampoline, frame) && Faulted(s, s', root, sz)
    ensures Confined(s, s', root, root) && Process(s', root, sz, trampoline, frame)
  {
    forall va | va in s'.leaf && va.root == root && User(va) ensures va.vpn < Pages(sz) {
      assert va !in s.leaf ==> va.vpn * PGSIZE < sz;
    }
  }

  lemma SizeStep(s: Vm, root: int, sz: int, new': int, trampoline: int, frame: int)
    requires Process(s, root, sz, trampoline, frame) && sz <= new'
    ensures Confined(s, s, root, root)
    ensures Process(s, root, new', trampoline, frame) <==> Pages(new') <= TRAPVPN
  {
    ExecImage.PagesGrow(sz, new');
  }

  lemma FaultedProcs(s: Vm, s': Vm, ps: seq<Slot>, p: int, trampoline: int)
    requires ProcsOk(s, ps, trampoline) && 0 <= p < |ps| && ps[p].root != 0 && Faulted(s, s', ps[p].root, ps[p].sz)
    ensures ProcsOk(s', ps, trampoline)
  {
    hide Faulted, Process, Confined;
    SpaceOf(s, ps, p, trampoline);
    FaultedStep(s, s', ps[p].root, ps[p].sz, trampoline, ps[p].frame);
    SpaceProcs(s, s', ps, p, ps[p].sz, trampoline);
    assert ps[p := ps[p].(sz := ps[p].sz)] == ps;
  }

  lemma ClipGrows(x: Slot, y: Slot)
    requires 0 <= x.sz <= y.sz && y == x.(sz := y.sz)
    ensures Clip(y) == Clip(x).(sz := Clip(y).sz) && Clip(x).sz <= Clip(y).sz && Regular(Clip(y))
  {
  }

  /** A page that has been mapped lies below the trapframe. */
  lemma FaultedClip(s: Vm, s': Vm, x: Slot, trampoline: int)
    requires 0 <= x.sz && Faulted(s, s', x.root, x.sz)
    ensures Faulted(s, s', x.root, Clip(x).sz)
  {
  }

  /** The address space of a process that has one. */
  lemma SpaceOf(s: Vm, ps: seq<Slot>, p: int, trampoline: int)
    requires ProcsOk(s, ps, trampoline) && 0 <= p < |ps| && ps[p].root != 0
    ensures Process(s, ps[p].root, ps[p].sz, trampoline, ps[p].frame)
    ensures Key(ps[p].root, 2, 0) in s.node && 0 <= ps[p].sz && Pages(ps[p].sz) <= TRAPVPN
  {
    assert SlotOk(s, ps[p], trampoline);
  }

  /** A process of size 0 has no user page. */
  lemma NoUserPages(s: Vm, ps: seq<Slot>, p: int, trampoline: int)
    requires ProcsOk(s, ps, trampoline) && 0 <= p < |ps| && ps[p].root != 0 && ps[p].sz == 0
    ensures forall v :: 0 <= v < TRAPVPN ==> Va(ps[p].root, v) !in s.leaf
  {
    SpaceOf(s, ps, p, trampoline);
    assert Pages(0) == 0;
    forall v | 0 <= v < TRAPVPN ensures Va(ps[p].root, v) !in s.leaf {
      assert User(Va(ps[p].root, v));
    }
  }

  lemma RoomFor(s: Vm, root: int, sz: int, hi: int, trampoline: int, frame: int)
    requires Process(s, root, sz, trampoline, frame)
    ensures Va(root, TRAPVPN) in s.leaf
    ensures forall va :: va in s.leaf && User(va) ==> !Within(va, root, Pages(sz), hi)
  {
  }

  // ---------------------------------------------------------------- pages the kernel takes

  lemma EmptySlot(s: Vm, ps: seq<Slot>, trampoline: int)
    requires ProcsOk(s, ps, trampoline)
    ensures ProcsOk(s, ps + [NoProc], trampoline)
  {
    hide Process;
    var ps' := ps + [NoProc];
    forall p | 0 <= p < |ps'| ensures SlotOk(s, ps'[p], trampoline) {
      assert p < |ps| ==> SlotOk(s, ps[p], trampoline);
    }
    forall p, q | 0 <= p < q < |ps'| ensures Apart(ps'[p], ps'[q]) {
      assert q < |ps| ==> Apart(ps[p], ps[q]);
    }
    forall k | k in s.node ensures HasSpace(ps', k.root) {
      var q :| 0 <= q < |ps| && ps[q].root == k.root;
      assert ps'[q].root == k.root;
    }
    forall f | f in s.own && s.own[f] == Loose ensures HasFrame(ps', f) {
      var q :| 0 <= q < |ps| && ps[q].frame == f;
      assert ps'[q].frame == f;
    }
  }

  class ProcTable {
    const memory: Memory
    const trampoline: int
    const procs: array<Slot>
    ghost var kernel: seq<Slot>       // the pages that the kernel has taken for itself

    /** All slots: the table's, and one for each page of the kernel. */
    ghost function All(): seq<Slot>
      reads this`kernel, procs
    {
      Clipped(procs[..]) + kernel
    }

    ghost predicate Valid()
      reads this, memory, procs
    {
      && memory.Valid() && procs.Length == NPROC && ProcsOk(memory.s, All(), trampoline)
      && forall i :: 0 <= i < |kernel| ==> kernel[i].root == 0
    }

    /** procinit: there are no processes, and all memory is free. */
    constructor (m: Memory, t: int)
      requires m.Valid() && m.s.node == map[] && forall f :: f in m.s.own ==> m.s.own[f].Free?
      ensures Valid() && memory == m && trampoline == t && fresh(procs) && kernel == []
      ensures forall p :: 0 <= p < NPROC ==> procs[p] == NoProc
    {
      memory, trampoline, kernel := m, t, [];
      procs := new Slot[NPROC](i => NoProc);
    }

    /** Every page of the machine is free, or exactly one process has it, or the kernel has taken it once. */
    lemma OneProcess(f: int)
      requires Valid() && f in memory.s.own
      ensures memory.s.own[f].Free? <==>
                (forall p :: 0 <= p < NPROC ==> !Has(memory.s, procs[..], p, f)) &&
                (forall i :: 0 <= i < |kernel| ==> kernel[i].frame != f)
      ensures forall p, q :: 0 <= p < NPROC && 0 <= q < NPROC ==>
                Has(memory.s, procs[..], p, f) && Has(memory.s, procs[..], q, f) ==> p == q
      ensures forall p, i :: 0 <= p < NPROC && 0 <= i < |kernel| ==>
                !(Has(memory.s, procs[..], p, f) && kernel[i].frame == f)
      ensures forall i, j :: 0 <= i < j < |kernel| ==> !(kernel[i].frame == f && kernel[j].frame == f)
    {
      hide Inv, ProcsOk, BelongsTo, Clip;
      var ps := All();
      OneSlot(memory.s, ps, trampoline, f);
      RootsPositive(memory.s);
      forall p | 0 <= p < NPROC ensures Has(memory.s, ps, p, f) <==> Has(memory.s, procs[..], p, f) {
        ClipKeeps(procs[p]);
      }
      forall i | 0 <= i < |kernel| ensures Has(memory.s, ps, NPROC + i, f) <==> kernel[i].frame == f {
        assert ps[NPROC + i] == kernel[i];
      }
    }

    /** kalloc for a pipe, for the arguments of exec, and the like. */
    method KernelAlloc() returns (f: int)
      requires Valid()
      modifies this`kernel, memory
      ensures Valid() && (f == 0 <==> old(memory.s).list == [])
      ensures f == 0 ==> memory.s == old(memory.s) && kernel == old(kernel)
      ensures f != 0 ==> memory.s == Alloc(old(memory.s)) && kernel == old(kernel) + [Slot(true, f, 0, 0)]
      ensures SameMemory(old(memory.s), memory.s)
    {
      hide Inv, Local, Process, SameMemory, Grown;
      ghost var s0, ps0 := memory.s, All();
      GrownSelf(s0, 0);
      GrownSameMemory(s0, s0, 0);
      f := memory.KAlloc();
      if f == 0 { return; }
      AllocSameMemory(s0);
      EmptySlot(s0, ps0, trampoline);
      FrameLocal(s0, ps0 + [NoProc], |ps0|, trampoline);
      LocalStep(s0, memory.s, ps0 + [NoProc], |ps0|, Slot(true, f, 0, 0), trampoline);
      kernel := kernel + [Slot(true, f, 0, 0)];
      assert All() == (ps0 + [NoProc])[|ps0| := Slot(true, f, 0, 0)];
    }

    /** kfree of such a page. */
    method KernelFree(f: int, ghost i: int)
      requires Valid() && 0 <= i < |kernel| && kernel[i] == Slot(true, f, 0, 0) && f != 0
      modifies this`kernel, memory
      ensures Valid() && kernel == old(kernel)[i := NoProc] && memory.s == Release(old(memory.s), f)
    {
      hide Inv, Local, Process, Freed;
      ghost var s0, ps0, p := memory.s, All(), NPROC + i;
      assert ps0[p] == kernel[i] && SlotOk(s0, ps0[p], trampoline);
      memory.KFree(f, -1, 0);
      FreedSteps(s0, memory.s, memory.s, ps0[p]);
      FreedLocal(s0, memory.s, ps0, p, trampoline);
      LocalStep(s0, memory.s, ps0, p, NoProc, trampoline);
      kernel := kernel[i := NoProc];
      assert All() == ps0[p := NoProc];
    }

    /** freeproc: whatever the process has is free, and no other process loses a page. */
    method FreeProc(p: int)
      requires Valid() && 0 <= p < NPROC && Regular(procs[p])
      modifies procs, memory
      ensures Valid() && procs[..] == old(procs[..])[p := NoProc] && Freed(old(memory.s), memory.s, old(procs[p]))
      ensures old(procs[p]).frame == 0 && old(procs[p]).root == 0 ==> memory.s == old(memory.s)
    {
      hide Inv, Gone, Freed, Process, Local, ProcsOk;
      var x := procs[p];
      ghost var s0, ps0 := memory.s, All();
      assert ps0[p] == x;
      SlotIs(s0, ps0, p, trampoline);
      if x.frame != 0 {
        memory.KFree(x.frame, -1, 0);
      }
      ghost var s1 := memory.s;
      if x.root != 0 {
        SameProcess(s0, s1, x.root, x.sz, trampoline, x.frame);
        memory.ProcFreePagetable(x.root, x.sz, trampoline, x.frame);
      }
      FreedSteps(s0, s1, memory.s, x);
      FreedLocal(s0, memory.s, ps0, p, trampoline);
      LocalStep(s0, memory.s, ps0, p, NoProc, trampoline);
      procs[p] := NoProc;
      assert All() == ps0[p := NoProc];
      assert procs[..] == old(procs[..])[p := NoProc];
    }

    /** The loop of allocproc: the first unused slot, or NPROC. */
    method Unused() returns (p: int)
      requires Valid()
      ensures 0 <= p <= NPROC && (p < NPROC ==> !procs[p].used)
      ensures forall q :: 0 <= q < p ==> procs[q].used
    {
      p := 0;
      while p < NPROC && procs[p].used
        invariant 0 <= p <= NPROC && forall q :: 0 <= q < p ==> procs[q].used
      {
        p := p + 1;
      }
    }

    /** allocproc: a process with a trapframe and an address space that has no user page; or, if all slots are used
        or fewer than four pages are free, nothing, and then every page is where it was. */
    method AllocProc() returns (p: int)
      requires Valid()
      modifies procs, memory
      ensures Valid() && -1 <= p < NPROC
      ensures p == -1 <==> (forall q :: 0 <= q < NPROC ==> old(procs[q]).used) || |old(memory.s).list| < 4
      ensures p == -1 ==> procs[..] == old(procs[..]) && Unharmed(old(memory.s), memory.s)
      ensures p != -1 ==> old(procs[p]) == NoProc && procs[..] == old(procs[..])[p := procs[p]]
      ensures p != -1 ==>
               procs[p].used && procs[p].root != 0 && procs[p].sz == 0 && procs[p].frame == Top(old(memory.s).list)
      ensures p != -1 ==> NewSpace(Alloc(old(memory.s)), memory.s, procs[p].root, trampoline, procs[p].frame)
      ensures p != -1 ==> |memory.s.list| == |old(memory.s).list| - 4 && SameMemory(old(memory.s), memory.s)
      ensures p != -1 ==> NewTables(memory.s, procs[p].root)
    {
      hide Inv, Process, Local, Unharmed, Freed, Building, SameMemory, NewTables;
      ghost var s0, ps0 := memory.s, All();
      UnharmedSelf(s0);
      p := Unused();
      if p == NPROC { return -1; }
      assert ps0[p] == procs[p] && SlotOk(s0, ps0[p], trampoline);
      UsedLocal(s0, ps0, p, trampoline);
      procs[p] := Slot(true, 0, 0, 0);
      assert All() == ps0[p := Slot(true, 0, 0, 0)];
      var f := memory.KAlloc();
      if f == 0 {
        FreeProc(p);
        assert procs[..] == old(procs[..]);
        return -1;
      }
      FrameLocal(s0, ps0, p, trampoline);
      LocalStep(s0, memory.s, ps0, p, Slot(true, f, 0, 0), trampoline);
      procs[p] := Slot(true, f, 0, 0);
      assert All() == ps0[p := Slot(true, f, 0, 0)] && procs[..] == old(procs[..])[p := procs[p]];
      p := AddSpace(p, s0, old(procs[..]));
    }

    /** The rest of allocproc. */
    method AddSpace(p0: int, ghost s0: Vm, ghost ps0: seq<Slot>) returns (p: int)
      requires Valid() && 0 <= p0 < NPROC && Inv(s0, -1, 0) && s0.list != [] && memory.s == Alloc(s0)
      requires |ps0| == NPROC && ps0[p0] == NoProc && procs[..] == ps0[p0 := Slot(true, Top(s0.list), 0, 0)]
      modifies procs, memory
      ensures Valid() && (p == -1 || p == p0)
      ensures p == -1 <==> |s0.list| < 4
      ensures p == -1 ==> procs[..] == ps0 && Unharmed(s0, memory.s)
      ensures p != -1 ==> procs[..] == ps0[p := procs[p]] && procs[p].used && procs[p].root != 0
      ensures p != -1 ==> procs[p].sz == 0 && procs[p].frame == Top(s0.list)
      ensures p != -1 ==> NewSpace(Alloc(s0), memory.s, procs[p].root, trampoline, procs[p].frame)
      ensures p != -1 ==> |memory.s.list| == |s0.list| - 4 && SameMemory(s0, memory.s)
      ensures p != -1 ==> NewTables(memory.s, procs[p].root)
    {
      hide Inv, Process, Local, Unharmed, Freed, Building, SameMemory, NewTables;
      TopIsPage(s0);
      p := p0;
      var f := procs[p].frame;
      ghost var s1, ps1 := memory.s, All();
      var root := memory.ProcPagetable(trampoline, f);
      if root == 0 {
        ghost var s2 := memory.s;
        UnharmedProcs(s1, s2, ps1, trampoline);
        FreeProc(p);
        AllocUndone(s0, s2, memory.s, Slot(true, f, 0, 0));
        assert procs[..] == ps0;
        return -1;
      }
      AllocSameMemory(s0);
      NewSpaceSameMemory(s1, memory.s, root, trampoline, f);
      SameTrans(s0, s1, memory.s);
      NewProcs(s1, memory.s, ps1, p, root, trampoline);
      procs[p] := Slot(true, f, root, 0);
      assert All() == ps1[p := Slot(true, f, root, 0)] && procs[..] == ps0[p := procs[p]];
    }

    /** kfork's memory: the child gets its own copy of everything below the parent's size, or there is no child and
        every page is where it was. It fails exactly without a slot, or with fewer pages than four, the pages that the
        parent has, and the tables for them. A parent whose size is beyond its trapframe has no child: uvmcopy comes to
        the trapframe, which the child has already, and mappages panics, or memory runs out before. */
    method Fork(p: int) returns (q: int, panics: bool)
      requires Valid() && 0 <= p < NPROC && procs[p].root != 0
      modifies procs, memory
      ensures (!panics ==> Valid()) && -1 <= q < NPROC && procs[p] == old(procs[p]) && 0 <= procs[p].sz
      ensures panics <==>
                && (exists r :: 0 <= r < NPROC && !old(procs[r]).used)
                && TRAPVPN < Pages(procs[p].sz)
                && 4 + ForkNeed(old(memory.s), procs[p].root, TRAPVPN) < |old(memory.s).list|
      ensures q == -1 && !panics ==> procs[..] == old(procs[..]) && Unharmed(old(memory.s), memory.s)
      ensures q != -1 <==>
                && (exists r :: 0 <= r < NPROC && !old(procs[r]).used)
                && Pages(procs[p].sz) <= TRAPVPN
                && 4 + ForkNeed(old(memory.s), procs[p].root, Pages(procs[p].sz)) <= |old(memory.s).list|
      ensures q != -1 ==> old(procs[q]) == NoProc && procs[..] == old(procs[..])[q := procs[q]]
      ensures q != -1 ==> procs[q].used && procs[q].root != 0 && procs[q].sz == procs[p].sz
      ensures q != -1 ==> Forked(old(memory.s), memory.s, procs[p].root, procs[q].root, procs[p].sz)
    {
      hide Inv, ProcsOk, Unharmed, Freed, SameMemory, NewSpace, Forked, NewTables, ForkNeed;
      ghost var s0 := memory.s;
      assert All()[p] == Clip(procs[p]);
      SizeOk(s0, All(), p, trampoline);
      panics := false;
      q := AllocProc();
      if q == -1 { return; }
      assert procs[p] == old(procs[p]);
      var r := CopyParent(p, q, s0, old(procs[..]));
      if r != Fine { return -1, r == Remap; }
    }

    /** The rest of kfork's memory. */
    method CopyParent(p: int, q: int, ghost s0: Vm, ghost ps0: seq<Slot>) returns (r: Mapping)
      requires Valid() && 0 <= p < NPROC && 0 <= q < NPROC && p != q && procs[p].root != 0
      requires procs[q].used && procs[q].root != 0 && procs[q].sz == 0 && 0 <= procs[p].sz
      requires Inv(s0, -1, 0) && s0.list != [] && procs[q].frame == Top(s0.list) && SameMemory(s0, memory.s)
      requires NewSpace(Alloc(s0), memory.s, procs[q].root, trampoline, procs[q].frame)
      requires |ps0| == NPROC && ps0[q] == NoProc && procs[..] == ps0[q := procs[q]]
      requires NewTables(memory.s, procs[q].root)
      modifies procs, memory
      ensures (r != Remap ==> Valid()) && procs[p] == old(procs[p]) && 0 <= procs[p].sz
      ensures r == Fine <==>
                && Pages(procs[p].sz) <= TRAPVPN
                && ForkNeed(s0, procs[p].root, Pages(procs[p].sz)) <= |old(memory.s).list|
      ensures r == Remap <==>
                TRAPVPN < Pages(procs[p].sz) && ForkNeed(s0, procs[p].root, TRAPVPN) < |old(memory.s).list|
      ensures r == OutOfMemory ==> procs[..] == ps0 && Unharmed(s0, memory.s)
      ensures r == Fine ==> procs[..] == ps0[q := procs[q]] && procs[q] == old(procs[q]).(sz := procs[p].sz)
      ensures r == Fine ==> Forked(s0, memory.s, procs[p].root, procs[q].root, procs[p].sz)
    {
      hide Inv, ProcsOk, Unharmed, Freed, SameMemory, NewSpace, Grown, Copied, Forked, NewTables, ForkNeed, CopyNeed;
      ghost var s1, ps1 := memory.s, All();
      var x, y := procs[p], procs[q];
      assert ps1[p] == Clip(x) && ps1[q] == y;
      ForkReady(s1, ps1, p, q, Pages(x.sz), trampoline);
      ForkNeeds(s0, s1, x.root, y, Pages(x.sz), trampoline);
      ForkNeeds(s0, s1, x.root, y, TRAPVPN, trampoline);
      r := memory.UvmCopy(x.root, y.root, x.sz);
      if r == Remap { return; }
      if r == OutOfMemory {
        ghost var s2 := memory.s;
        GrownProcs(s1, s2, ps1, q, trampoline);
        FreeProc(q);
        BuildUndone(s0, s1, s2, memory.s, y, trampoline);
        assert procs[..] == ps0;
        return;
      }
      CopiedProcs(s1, memory.s, ps1, p, q, trampoline);
      CopiedForked(s0, s1, memory.s, x.root, y.root, x.sz);
      procs[q] := y.(sz := x.sz);
      assert All() == ps1[q := y.(sz := x.sz)] && procs[..] == ps0[q := procs[q]];
    }

    /** kexec for a process of the table; epc and sp are the registers that it sets. */
    method KExec(p: int, isElf: bool, segs: seq<ExecImage.Segment>, argv: seq<seq<int>>, entry: int)
      returns (res: ExecImage.Outcome, argc: int, epc: int, sp: int)
      requires Valid() && 0 <= p < NPROC && procs[p].root != 0 && Regular(procs[p]) && ExecImage.SegmentsOk(segs)
      modifies procs, memory
      ensures res != ExecImage.Overflow ==> Valid() && procs[..] == old(procs[..])[p := procs[p]]
      ensures res == ExecImage.Failed ==> argc == -1 && procs[p] == old(procs[p]) && Unharmed(old(memory.s), memory.s)
      ensures res == ExecImage.Done ==> argc == |argv| && procs[p].used && procs[p].frame == old(procs[p]).frame
      ensures res == ExecImage.Done ==> ExecImage.Replaced(old(memory.s), memory.s, old(procs[p]).root, procs[p].root)
      ensures res == ExecImage.Done ==>
                epc == entry && ExecImage.Ready(memory.s, procs[p].root, procs[p].sz, sp, segs, argv)
      ensures res == ExecImage.Done <==>
                && isElf && ExecImage.Buildable(|old(memory.s).list|, segs)
                && ExecImage.ArgsFit(argv, ExecImage.StackTop(segs))
      ensures res == ExecImage.Overflow <==>
                && isElf && ExecImage.Buildable(|old(memory.s).list|, segs)
                && ExecImage.ArgsOverflow(argv, ExecImage.StackTop(segs))
    {
      hide Inv, Local, Unharmed, Process, ExecImage.Ready, ExecImage.Replaced, ExecImage.Buildable, ExecImage.ArgsFit;
      hide ExecImage.ArgsOverflow;
      ghost var s0, ps0 := memory.s, All();
      var x := procs[p];
      assert ps0[p] == x && SlotOk(s0, ps0[p], trampoline);
      var e := new Exec.Proc(memory, trampoline, x.frame, x.root, x.sz);
      res, argc := e.KExec(isElf, segs, argv, entry);
      epc, sp := e.epc, e.sp;
      if res == ExecImage.Overflow { return; }
      if res == ExecImage.Failed {
        UnharmedProcs(s0, memory.s, ps0, trampoline);
        assert procs[..] == old(procs[..])[p := procs[p]];
        return;
      }
      ReplacedProcs(s0, memory.s, ps0, p, e.root, e.sz, trampoline);
      procs[p] := x.(root := e.root, sz := e.sz);
      assert All() == ps0[p := procs[p]] && procs[..] == old(procs[..])[p := procs[p]];
    }

    /** growproc. Growing is all or nothing, except that it panics exactly if the new size is beyond the trapframe and
        there are pages for everything below it and one more. */
    method GrowProc(p: int, n: int) returns (r: Mapping)
      requires Valid() && 0 <= p < NPROC && procs[p].root != 0 && Regular(procs[p])
      requires -0x8000_0000 <= n < 0x8000_0000
      modifies procs, memory
      ensures 0 <= old(procs[p]).sz && Pages(old(procs[p]).sz) <= TRAPVPN && (r != Remap ==> Valid())
      ensures r == Remap <==>
                && n > 0 && TRAPVPN < Pages(old(procs[p]).sz + n)
                && Need(old(memory.s), procs[p].root, Pages(old(procs[p]).sz), TRAPVPN) < |old(memory.s).list|
      ensures r == Fine <==>
                || n <= 0
                || (Pages(old(procs[p]).sz + n) <= TRAPVPN &&
                    Need(old(memory.s), procs[p].root, Pages(old(procs[p]).sz), Pages(old(procs[p]).sz + n))
                    <= |old(memory.s).list|)
      ensures r != Fine ==> procs[..] == old(procs[..])
      ensures r == OutOfMemory ==> Grown(old(memory.s), memory.s, procs[p].root)
      ensures r == Fine ==> procs[..] == old(procs[..])[p := old(procs[p]).(sz := Basics.NewSize(old(procs[p]).sz, n))]
      ensures r == Fine && n > 0 ==>
                Extended(old(memory.s), memory.s, procs[p].root, Pages(old(procs[p]).sz), Pages(procs[p].sz),
                         true, false)
      ensures r == Fine && n < 0 ==>
                && 0 <= procs[p].sz <= old(procs[p]).sz
                && Shrunk(old(memory.s), memory.s, procs[p].root, Pages(procs[p].sz), Pages(old(procs[p]).sz))
      ensures r == Fine && n == 0 ==> memory.s == old(memory.s)
      ensures procs[p].root == old(procs[p]).root
    {
      hide Inv, ProcsOk, Extended, Grown, Shrunk, Need, Process;
      assert All()[p] == procs[p];
      SpaceOf(memory.s, All(), p, trampoline);
      if n > 0 {
        r := Extend(p, n);
      } else {
        if n < 0 { Retract(p, n); }
        r := Fine;
      }
    }

    /** growproc upwards. */
    method Extend(p: int, n: int) returns (r: Mapping)
      requires Valid() && 0 <= p < NPROC && procs[p].root != 0 && 0 < n < 0x8000_0000
      requires 0 <= procs[p].sz && Pages(procs[p].sz) <= TRAPVPN
      modifies procs, memory
      ensures r != Remap ==> Valid()
      ensures r == Remap <==>
                && TRAPVPN < Pages(old(procs[p]).sz + n)
                && Need(old(memory.s), procs[p].root, Pages(old(procs[p]).sz), TRAPVPN) < |old(memory.s).list|
      ensures r == Fine <==>
                && Pages(old(procs[p]).sz + n) <= TRAPVPN
                && Need(old(memory.s), procs[p].root, Pages(old(procs[p]).sz), Pages(old(procs[p]).sz + n))
                   <= |old(memory.s).list|
      ensures procs[..] ==
              if r == Fine then old(procs[..])[p := old(procs[p]).(sz := old(procs[p]).sz + n)] else old(procs[..])
      ensures r == OutOfMemory ==> Grown(old(memory.s), memory.s, procs[p].root)
      ensures r == Fine ==>
                Extended(old(memory.s), memory.s, procs[p].root, Pages(old(procs[p]).sz), Pages(procs[p].sz),
                         true, false)
    {
      hide Inv, ProcsOk, Extended, Grown, Need, Process, Confined;
      var x := procs[p];
      ghost var s0, ps0 := memory.s, All();
      assert ps0[p] == x;
      SpaceOf(s0, ps0, p, trampoline);
      RoomFor(s0, x.root, x.sz, Pages(x.sz + n), trampoline, x.frame);
      var sz;
      r, sz := memory.UvmAlloc(x.root, x.sz, x.sz + n, true, false);
      if r == Remap { return; }
      if r == OutOfMemory {
        GrownProcs(s0, memory.s, ps0, p, trampoline);
        return;
      }
      ExtendedStep(s0, memory.s, x.root, x.sz, sz, true, false, trampoline, x.frame);
      SpaceProcs(s0, memory.s, ps0, p, sz, trampoline);
      procs[p] := x.(sz := sz);
      assert All() == ps0[p := x.(sz := sz)] && procs[..] == old(procs[..])[p := x.(sz := sz)];
    }

    /** growproc downwards; a size that would be negative wraps, and uvmdealloc then does nothing. */
    method Retract(p: int, n: int)
      requires Valid() && 0 <= p < NPROC && procs[p].root != 0 && -0x8000_0000 <= n < 0
      requires 0 <= procs[p].sz && Pages(procs[p].sz) <= TRAPVPN
      modifies procs, memory
      ensures Valid() && procs[..] == old(procs[..])[p := old(procs[p]).(sz := Basics.NewSize(old(procs[p]).sz, n))]
      ensures 0 <= procs[p].sz <= old(procs[p]).sz
      ensures Shrunk(old(memory.s), memory.s, procs[p].root, Pages(procs[p].sz), Pages(old(procs[p]).sz))
    {
      hide Inv, ProcsOk, Shrunk, Process, Confined;
      var x := procs[p];
      ghost var s0, ps0 := memory.s, All();
      assert ps0[p] == x;
      SpaceOf(s0, ps0, p, trampoline);
      var sz := memory.UvmDealloc(x.root, x.sz, if x.sz + n < 0 then x.sz + n + TWO64 else x.sz + n);
      ShrunkStep(s0, memory.s, x.root, x.sz, sz, trampoline, x.frame);
      SpaceProcs(s0, memory.s, ps0, p, sz, trampoline);
      procs[p] := x.(sz := sz);
      assert All() == ps0[p := x.(sz := sz)] && procs[..] == old(procs[..])[p := x.(sz := sz)];
    }

    /** The lazy branch of sbrk: only the size changes, and no process sees a difference. The code does not check that
        the size stays at or below the trapframe; what that does is in Fork and Fault. */
    method SbrkLazy(p: int, n: int) returns (ok: bool)
      requires Valid() && 0 <= p < NPROC && procs[p].root != 0 && 0 <= n < 0x8000_0000
      modifies procs
      ensures Valid() && (ok <==> old(procs[p]).sz + n < TWO64)
      ensures procs[..] == if ok then old(procs[..])[p := old(procs[p]).(sz := old(procs[p]).sz + n)]
              else old(procs[..])
    {
      hide Inv, ProcsOk, Process, Confined;
      var x := procs[p];
      ghost var ps0 := All();
      assert ps0[p] == Clip(x);
      SpaceOf(memory.s, ps0, p, trampoline);
      if x.sz + n >= TWO64 { return false; }
      ghost var y := x.(sz := x.sz + n);
      ClipGrows(x, y);
      SizeStep(memory.s, x.root, Clip(x).sz, Clip(y).sz, trampoline, x.frame);
      SpaceProcs(memory.s, memory.s, ps0, p, Clip(y).sz, trampoline);
      procs[p] := x.(sz := x.sz + n);
      assert All() == ps0[p := Clip(y)] && procs[..] == old(procs[..])[p := y];
      ok := true;
    }

    /** A page fault of a process, at any address: a page is mapped or not, and walk panics exactly if the address is
        MAXVA or more and yet below the size. */
    method Fault(p: int, va: int) returns (f: int, panics: bool)
      requires Valid() && 0 <= p < NPROC && procs[p].root != 0 && 0 <= va
      modifies memory
      ensures Valid() && SameMemory(old(memory.s), memory.s)
      ensures panics <==> MAXVPN <= va / PGSIZE && va < procs[p].sz
      ensures f != 0 <==>
                && va < procs[p].sz && va / PGSIZE < MAXVPN && Va(procs[p].root, va / PGSIZE) !in old(memory.s).leaf
                && Missing(old(memory.s), procs[p].root, va / PGSIZE, 2) + 1 <= |old(memory.s).list|
    {
      hide Inv, ProcsOk, Faulted, SameMemory, Confined;
      var x := procs[p];
      ghost var s0, ps0 := memory.s, All();
      assert ps0[p] == Clip(x);
      SpaceOf(s0, ps0, p, trampoline);
      f, panics := memory.VmFault(x.root, va, x.sz);
      FaultedClip(s0, memory.s, x, trampoline);
      FaultedProcs(s0, memory.s, ps0, p, trampoline);
    }

    /** copyout to a process. */
    method CopyOut(p: int, dst: int, src: seq<int>) returns (ok: bool, ghost done: int)
      requires Valid() && 0 <= p < NPROC && procs[p].root != 0 && Regular(procs[p]) && 0 <= dst
      modifies memory
      ensures Valid() && 0 <= done <= |src| && (ok <==> done == |src|)
      ensures Written(old(memory.s), memory.s, procs[p].root, dst, src[..done])
      ensures ok <==> CopyFits(old(memory.s), procs[p].root, dst, |src|, procs[p].sz, true)
      ensures !ok ==> CopyStops(old(memory.s), procs[p].root, dst, done, procs[p].sz, true)
    {
      hide Inv, ProcsOk, Faulted, SameMemory, Written, Process, Confined, CopyFits, CopyStops;
      var x := procs[p];
      ghost var s0, ps0 := memory.s, All();
      assert ps0[p] == x;
      SpaceOf(s0, ps0, p, trampoline);
      ok, done := memory.CopyOut(x.root, dst, src, x.sz);
      FaultedProcs(s0, memory.s, ps0, p, trampoline);
    }

    /** copyin from a process. */
    method CopyIn(p: int, src: int, len: int) returns (ok: bool, d: seq<int>)
      requires Valid() && 0 <= p < NPROC && procs[p].root != 0 && Regular(procs[p]) && 0 <= src && 0 <= len
      modifies memory
      ensures Valid() && SameMemory(old(memory.s), memory.s)
      ensures |d| <= len && (ok <==> |d| == len) && IsSlice(old(memory.s), procs[p].root, src, d)
      ensures ok <==> CopyFits(old(memory.s), procs[p].root, src, len, procs[p].sz, false)
      ensures !ok ==> CopyStops(old(memory.s), procs[p].root, src, |d|, procs[p].sz, false)
    {
      hide Inv, ProcsOk, Faulted, SameMemory, IsSlice, Process, Confined, CopyFits, CopyStops;
      var x := procs[p];
      ghost var s0, ps0 := memory.s, All();
      assert ps0[p] == x;
      SpaceOf(s0, ps0, p, trampoline);
      ok, d := memory.CopyIn(x.root, src, len, x.sz);
      FaultedProcs(s0, memory.s, ps0, p, trampoline);
    }
  }

  /** Lazy calls of sbrk that raise the size of a process. */
  method RaiseTo(t: ProcTable, p: int, sz: int)
    requires t.Valid() && 0 <= p < NPROC && t.procs[p].root != 0 && 0 <= t.procs[p].sz <= sz < TWO64
    modifies t.procs
    ensures t.Valid() && t.procs[..] == old(t.procs[..])[p := old(t.procs[p]).(sz := sz)]
  {
    hide ProcsOk, Inv;
    while t.procs[p].sz < sz
      invariant t.Valid() && t.procs[p].sz <= sz
      invariant t.procs[..] == old(t.procs[..])[p := old(t.procs[p]).(sz := t.procs[p].sz)]
      decreases sz - t.procs[p].sz
    {
      var n := if sz - t.procs[p].sz < 0x8000_0000 then sz - t.procs[p].sz else 0x7fff_ffff;
      ghost var ps := t.procs[..];
      var ok := t.SbrkLazy(p, n);
      assert t.procs[..][p] == ps[p].(sz := ps[p].sz + n);
    }
  }

  /** The page below the trapframe shares its tables. */
  lemma OnePageNeeded(s: Vm, root: int, sz: int, trampoline: int, frame: int)
    requires Inv(s, -1, 0) && Process(s, root, sz, trampoline, frame)
    ensures Need(s, root, TRAPVPN - 1, TRAPVPN) == 1
  {
    hide ListOk, TableOk, DataOk;
    var va := Va(root, TRAPVPN);
    MappingAt(s, va);
    assert OnWay(root, TRAPVPN - 1, 0) == Low(va);
    assert KeyAt(s.own, s.node, Low(va));
    assert OnWay(root, TRAPVPN - 1, 1) == Parent(Low(va));
    assert Need(s, root, TRAPVPN - 1, TRAPVPN - 1) == 0;
  }

  /** A machine with one process and two free pages more than it has. */
  method OneProcessOnly(pages: map<int, Page>, lo: int, hi: int, trampoline: int) returns (t: ProcTable, p: int)
    requires 0 < lo <= hi && 6 <= hi - lo && |pages| <= NPAGES && forall f :: f in pages <==> lo <= f < hi
    ensures fresh(t) && fresh(t.memory) && fresh(t.procs) && t.trampoline == trampoline
    ensures t.Valid() && 0 <= p < NPROC && t.procs[p].root != 0 && t.procs[p].sz == 0
    ensures |t.memory.s.list| == hi - lo - 4 && forall q :: 0 <= q < NPROC && q != p ==> !t.procs[q].used
  {
    hide Inv, ProcsOk, SameMemory, NewSpace, Unharmed;
    var m := new Memory(pages, lo, hi);
    t := new ProcTable(m, trampoline);
    assert !t.procs[0].used;
    ghost var ps := t.procs[..];
    p := t.AllocProc();
    assert t.procs[..] == ps[p := t.procs[p]];
    forall q | 0 <= q < NPROC && q != p ensures !t.procs[q].used {
      assert t.procs[..][q] == ps[q];
    }
  }

  /** A process without user pages has nothing to copy. */
  lemma {:induction false} NothingToCopy(s: Vm, root: int, hi: int)
    requires 0 <= hi <= TRAPVPN && forall v :: 0 <= v < hi ==> Va(root, v) !in s.leaf
    ensures ForkNeed(s, root, hi) == 0
  {
    if hi > 0 { NothingToCopy(s, root, hi - 1); }
  }

  /** The input on which kfork panics: a process of size 0 raises its size lazily to one page beyond the trapframe, and
      forks. Nine pages of memory are enough for that. */
  method ForkMeetsTrapframe(pages: map<int, Page>, lo: int, hi: int, trampoline: int)
    returns (t: ProcTable, p: int, panics: bool)
    requires 0 < lo <= hi && 9 <= hi - lo && |pages| <= NPAGES && forall f :: f in pages <==> lo <= f < hi
    ensures 0 <= p < NPROC && t.procs.Length == NPROC && t.procs[p].sz == (TRAPVPN + 1) * PGSIZE && panics
  {
    hide Inv, ProcsOk, Process, ForkNeed, Unharmed, Forked;
    t, p := OneProcessOnly(pages, lo, hi, trampoline);
    assert t.All()[p] == t.procs[p];
    NoUserPages(t.memory.s, t.All(), p, trampoline);
    NothingToCopy(t.memory.s, t.procs[p].root, TRAPVPN);
    var sz := (TRAPVPN + 1) * PGSIZE;
    ghost var ps, r := t.procs[..], if p == 0 then 1 else 0;
    RaiseTo(t, p, sz);
    assert t.procs[..][p].sz == sz && t.procs[..][r] == ps[r] && !t.procs[r].used;
    var q;
    q, panics := t.Fork(p);
  }

  /** The input on which a page fault panics: the size is raised beyond MAXVA, and the process touches MAXVA. */
  method FaultMeetsMaxva(pages: map<int, Page>, lo: int, hi: int, trampoline: int)
    returns (t: ProcTable, p: int, panics: bool)
    requires 0 < lo <= hi && 6 <= hi - lo && |pages| <= NPAGES && forall f :: f in pages <==> lo <= f < hi
    ensures 0 <= p < NPROC && t.procs.Length == NPROC && t.procs[p].sz == MAXVPN * PGSIZE + 1 && panics
  {
    hide Inv, ProcsOk, SameMemory, Missing;
    t, p := OneProcessOnly(pages, lo, hi, trampoline);
    RaiseTo(t, p, MAXVPN * PGSIZE + 1);
    assert t.procs[..][p].sz == MAXVPN * PGSIZE + 1;
    var f;
    f, panics := t.Fault(p, MAXVPN * PGSIZE);
  }

  /** The input on which growth panics: a process raises its size lazily to one page below the trapframe and then asks
      for two pages at once. Six pages of memory are enough for that. */
  method SbrkMeetsTrapframe(pages: map<int, Page>, lo: int, hi: int, trampoline: int)
    returns (t: ProcTable, p: int, r: Mapping)
    requires 0 < lo <= hi && 6 <= hi - lo && |pages| <= NPAGES && forall f :: f in pages <==> lo <= f < hi
    ensures 0 <= p < NPROC && t.procs.Length == NPROC && t.procs[p].sz == (TRAPVPN - 1) * PGSIZE && r == Remap
  {
    hide Inv, ProcsOk, Need, Process, Grown, Extended, Shrunk;
    t, p := OneProcessOnly(pages, lo, hi, trampoline);
    var sz := (TRAPVPN - 1) * PGSIZE;
    RaiseTo(t, p, sz);
    assert t.procs[..][p].sz == sz && t.All()[p] == t.procs[p];
    SpaceOf(t.memory.s, t.All(), p, trampoline);
    OnePageNeeded(t.memory.s, t.procs[p].root, sz, trampoline, t.procs[p].frame);
    r := t.GrowProc(p, 2 * PGSIZE);
    assert t.procs[..][p].sz == sz;
  }
}
