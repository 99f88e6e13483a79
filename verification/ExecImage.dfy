/** What kernel/exec.c builds: the bytes of a program image and the layout of its argument stack. */
module ExecImage {
  import opened Basics
  import opened VmTable
  import opened VmFree
  import opened VmChange
  import opened VmBytes
  import opened VmReach
  import opened VmSpace

  const USERSTACK: int := 1
  const MAXARG: int := 32
  const TWO32: int := 0x1_0000_0000
  const TWO64: int := 0x1_0000_0000_0000_0000

  /** A program header, and the bytes the file has at its offset. */
  datatype Segment = Segment(load: bool, flags: int, filesz: int, memsz: int, vaddr: int, data: seq<int>)

  /** How building an image may end. Overflow is the write past the end of kexec's array of MAXARG pointers. */
  datatype Outcome = Done | Failed | Overflow

  /** All fields are 64-bit values, and the flags a 32-bit one. */
  ghost predicate SegmentsOk(segs: seq<Segment>) {
    forall i :: 0 <= i < |segs| ==>
      && 0 <= segs[i].filesz < TWO64 && 0 <= segs[i].memsz < TWO64 && 0 <= segs[i].vaddr < TWO64
      && 0 <= segs[i].flags < TWO32
  }

  /** The bytes that loadseg copies: its size parameter has 32 bits. */
  function Loaded(g: Segment): (n: int)
    ensures 0 <= n < TWO32 && (0 <= g.filesz ==> n <= g.filesz)
  {
    g.filesz % TWO32
  }

  /** The byte at an address once the first n segments are loaded: the last one that covers it counts. */
  ghost function ImageByte(segs: seq<Segment>, n: int, a: int): int
    requires 0 <= n <= |segs|
    decreases n
  {
    if n == 0 then 0
    else
      var g := segs[n - 1];
      if g.load && g.vaddr <= a < g.vaddr + g.filesz % TWO32 && a - g.vaddr < |g.data| then g.data[a - g.vaddr]
      else ImageByte(segs, n - 1, a)
  }

  /** The size of the image once the first n segments are loaded. */
  function SizeAfter(segs: seq<Segment>, n: int): (sz: int)
    requires 0 <= n <= |segs|
    ensures 0 <= sz
    decreases n
  {
    if n == 0 then 0
    else
      var before, g := SizeAfter(segs, n - 1), segs[n - 1];
      if g.load && before <= g.vaddr + g.memsz then g.vaddr + g.memsz else before
  }

  /** The headers that kexec accepts. */
  predicate Good(segs: seq<Segment>, n: int)
    requires 0 <= n < |segs|
  {
    var g := segs[n];
    g.load ==> && g.filesz <= g.memsz && g.vaddr + g.memsz < TWO64 && g.vaddr % PGSIZE == 0
               && g.filesz % TWO32 <= |g.data| && 0 < SizeAfter(segs, n + 1)
  }

  predicate AllGood(segs: seq<Segment>) {
    forall n :: 0 <= n < |segs| ==> Good(segs, n)
  }

  /** The top of the stack: above the image, the guard page and the stack pages. */
  function StackTop(segs: seq<Segment>): int {
    Pages(SizeAfter(segs, |segs|)) * PGSIZE + (USERSTACK + 1) * PGSIZE
  }

  /** The arguments and the pointers to them fit the stack below top. */
  predicate ArgsFit(argv: seq<seq<int>>, top: int) {
    |argv| < MAXARG && top - USERSTACK * PGSIZE <= ArgvAt(argv, top)
  }

  /** There are exactly MAXARG arguments, and they fit: no place is left for the null pointer after them. */
  predicate ArgsOverflow(argv: seq<seq<int>>, top: int) {
    |argv| == MAXARG && top - USERSTACK * PGSIZE <= Sp(argv, MAXARG, top)
  }

  /** The pages that kexec takes: the root table, those for the trapframe, the image and the stack, and their tables. */
  function ImageNeed(segs: seq<Segment>): int {
    3 + FreshNeed(Pages(SizeAfter(segs, |segs|)) + USERSTACK + 1)
  }

  /** The segments and the stack can be made. */
  predicate Buildable(free: int, segs: seq<Segment>) {
    AllGood(segs) && ImageNeed(segs) <= free
  }

  lemma PagesGrow(a: int, b: int)
    requires 0 <= a <= b
    ensures Pages(a) <= Pages(b)
  {
  }

  lemma {:induction false} SizeGrows(segs: seq<Segment>, m: int, n: int)
    requires 0 <= m <= n <= |segs|
    ensures SizeAfter(segs, m) <= SizeAfter(segs, n)
    decreases n
  {
    if m < n {
      SizeGrows(segs, m, n - 1);
    }
  }

  ghost predicate HasImage(s: Vm, root: int, segs: seq<Segment>, n: int, end: int)
    requires Inv(s, -1, 0) && 0 <= n <= |segs|
  {
    forall a :: 0 <= a < end ==> ByteAt(s, root, a) == ImageByte(segs, n, a)
  }

  // ---------------------------------------------------------------- permissions

  /** The virtual pages from lo to hi are mapped for user code, readable, and writable or executable as said. */
  ghost predicate Allows(s: Vm, root: int, lo: int, hi: int, w: bool, x: bool) {
    forall vpn :: lo <= vpn < hi ==> Va(root, vpn) in s.leaf && Grants(s.leaf[Va(root, vpn)], w, x)
  }

  ghost predicate Grants(p: Pte, w: bool, x: bool) {
    p.v && p.r && p.u && p.w == w && p.x == x
  }

  /** Each page of the image has the permissions of the segment that it was mapped for: in a program header, bit 0 of
      the flags is execution and bit 1 is writing. */
  ghost predicate HasPerms(s: Vm, root: int, segs: seq<Segment>, n: int)
    requires 0 <= n <= |segs|
  {
    forall k :: 0 <= k < n && segs[k].load ==>
      Allows(s, root, Pages(SizeAfter(segs, k)), Pages(SizeAfter(segs, k + 1)),
             segs[k].flags / 2 % 2 == 1, segs[k].flags % 2 == 1)
  }

  /** What was mapped is mapped as it was. */
  ghost predicate LeavesStay(s: Vm, s': Vm) {
    forall va :: va in s.leaf ==> va in s'.leaf && s'.leaf[va] == s.leaf[va]
  }

  lemma GrownStays(s: Vm, s': Vm, root: int)
    requires Grown(s, s', root)
    ensures LeavesStay(s, s')
  {
  }

  lemma SameLeaves(s: Vm, s': Vm)
    requires s'.leaf == s.leaf
    ensures LeavesStay(s, s')
  {
  }

  lemma SamePerms(s: Vm, s': Vm, root: int, segs: seq<Segment>, n: int)
    requires 0 <= n <= |segs| && HasPerms(s, root, segs, n) && LeavesStay(s, s')
    ensures HasPerms(s', root, segs, n)
  {
    forall k | 0 <= k < n && segs[k].load
      ensures Allows(s', root, Pages(SizeAfter(segs, k)), Pages(SizeAfter(segs, k + 1)),
                     segs[k].flags / 2 % 2 == 1, segs[k].flags % 2 == 1)
    {
      AllowsStays(s, s', root, Pages(SizeAfter(segs, k)), Pages(SizeAfter(segs, k + 1)),
                  segs[k].flags / 2 % 2 == 1, segs[k].flags % 2 == 1);
    }
  }

  lemma AllowsStays(s: Vm, s': Vm, root: int, lo: int, hi: int, w: bool, x: bool)
    requires Allows(s, root, lo, hi, w, x)
    requires forall vpn :: lo <= vpn < hi && Va(root, vpn) in s.leaf ==>
               Va(root, vpn) in s'.leaf && s'.leaf[Va(root, vpn)] == s.leaf[Va(root, vpn)]
    ensures Allows(s', root, lo, hi, w, x)
  {
  }

  /** A segment that has been given its pages; one that adds none lies within what was there. */
  lemma MorePerms(s: Vm, root: int, segs: seq<Segment>, n: int)
    requires 0 <= n < |segs| && HasPerms(s, root, segs, n) && Pages(SizeAfter(segs, n)) <= Pages(SizeAfter(segs, n + 1))
    requires segs[n].load && SizeAfter(segs, n) < SizeAfter(segs, n + 1) ==>
               Allows(s, root, Pages(SizeAfter(segs, n)), Pages(SizeAfter(segs, n + 1)),
                      segs[n].flags / 2 % 2 == 1, segs[n].flags % 2 == 1)
    ensures HasPerms(s, root, segs, n + 1)
  {
  }

  /** The guard page lies above the image. */
  lemma GuardedPerms(s: Vm, s': Vm, root: int, segs: seq<Segment>, va: Va)
    requires HasPerms(s, root, segs, |segs|) && Guarded(s, s', va) && Pages(SizeAfter(segs, |segs|)) <= va.vpn
    ensures HasPerms(s', root, segs, |segs|)
  {
    forall k | 0 <= k < |segs| && segs[k].load
      ensures Allows(s', root, Pages(SizeAfter(segs, k)), Pages(SizeAfter(segs, k + 1)),
                     segs[k].flags / 2 % 2 == 1, segs[k].flags % 2 == 1)
    {
      SizeGrows(segs, k + 1, |segs|);
      PagesGrow(SizeAfter(segs, k + 1), SizeAfter(segs, |segs|));
      AllowsStays(s, s', root, Pages(SizeAfter(segs, k)), Pages(SizeAfter(segs, k + 1)),
                  segs[k].flags / 2 % 2 == 1, segs[k].flags % 2 == 1);
    }
  }

  // ---------------------------------------------------------------- an address space nobody else sees

  /** All that has changed belongs to a new address space. */
  ghost predicate Private(s: Vm, s': Vm, root: int) {
    && Key(root, 2, 0) in s'.node
    && (forall k :: k in s.node ==> k.root != root) && (forall va :: va in s.leaf ==> va.root != root)
    && (forall f :: f in s.own ==> !BelongsTo(s.own[f], root))
    && (forall va :: va in s.leaf ==> va in s'.leaf && s'.leaf[va] == s.leaf[va])
    && (forall va :: va in s'.leaf && va !in s.leaf ==> va.root == root)
    && Settled(s, s') && Stays(s, s')
    && (forall f :: f in s.own && s.own[f].Free? ==> s'.own[f].Free? || BelongsTo(s'.own[f], root))
    && NodesGrow(s, s', root)
  }

  lemma BuildingPrivate(s: Vm, s': Vm, root: int)
    requires Inv(s, -1, 0) && Building(s, s', root)
    ensures Private(s, s', root)
  {
    hide Inv;
    OwnersElsewhere(s, root);
  }

  lemma ExtendedPrivate(s: Vm, s0: Vm, s': Vm, root: int, lo: int, hi: int, w: bool, x: bool)
    requires Private(s, s0, root) && Extended(s0, s', root, lo, hi, w, x)
    ensures Private(s, s', root)
  {
  }

  lemma GrownPrivate(s: Vm, s0: Vm, s': Vm, root: int)
    requires Private(s, s0, root) && Grown(s0, s', root)
    ensures Private(s, s', root)
  {
  }

  lemma FaultedPrivate(s: Vm, s0: Vm, s': Vm, root: int, sz: int)
    requires Private(s, s0, root) && Faulted(s0, s', root, sz)
    ensures Private(s, s', root)
  {
  }

  /** Giving the address space up leaves everything as it was. */
  lemma PrivateGone(s: Vm, s0: Vm, s': Vm, root: int)
    requires Private(s, s0, root) && Gone(s0, s', root)
    ensures Unharmed(s, s')
  {
  }

  /** Every virtual page from lo to hi is mapped for user code. */
  ghost predicate AllUser(s: Vm, root: int, lo: int, hi: int) {
    forall vpn :: lo <= vpn < hi ==> Va(root, vpn) in s.leaf && s.leaf[Va(root, vpn)].u
  }

  /** The pages mapped from 0 to n are n. */
  lemma {:induction false} MappedFrames(s: Vm, root: int, n: int) returns (fs: set<int>)
    requires Inv(s, -1, 0) && 0 <= n <= TRAPVPN && AllUser(s, root, 0, n)
    ensures |fs| == n && forall f :: f in fs ==> f in s.own && s.own[f].Leaf? && s.own[f].va.vpn < n
  {
    hide ListOk, NodeOk, TableOk, DataOk;
    if n == 0 {
      fs := {};
    } else {
      fs := MappedFrames(s, root, n - 1);
      MappingAt(s, Va(root, n - 1));
      fs := fs + {s.leaf[Va(root, n - 1)].ppn};
    }
  }

  /** Neither the mapped pages nor the free ones are more than the pages of the machine. */
  lemma FewPages(s: Vm, root: int, n: int)
    requires Inv(s, -1, 0) && 0 <= n <= TRAPVPN && AllUser(s, root, 0, n)
    ensures n <= |s.own| && |s.list| <= |s.own|
  {
    hide NodeOk, LeafOk, TableOk, DataOk;
    var fs := MappedFrames(s, root, n);
    forall f: int | f in fs ensures f in s.own.Keys {}
    SubsetSize(fs, s.own.Keys);
    DistinctSize(s.list);
    SubsetSize((set f | f in s.list), s.own.Keys);
  }

  /** An address space on its way to become a process's: what lies below sz is mapped, and nobody else sees it. */
  ghost predicate Making(s: Vm, s': Vm, root: int, sz: int, trampoline: int, trapframe: int) {
    && Private(s, s', root) && Process(s', root, sz, trampoline, trapframe) && AllUser(s', root, 0, Pages(sz))
  }

  lemma NewMaking(s: Vm, s': Vm, root: int, trampoline: int, trapframe: int)
    requires Inv(s, -1, 0) && NewSpace(s, s', root, trampoline, trapframe)
    ensures Making(s, s', root, 0, trampoline, trapframe)
  {
    hide Inv, Private, Building;
    BuildingPrivate(s, s', root);
    NewProcess(s, s', root, trampoline, trapframe);
  }

  lemma ExtendedProcess(s: Vm, s': Vm, root: int, sz: int, new': int, w: bool, x: bool, trampoline: int, trapframe: int)
    requires Process(s, root, sz, trampoline, trapframe) && AllUser(s, root, 0, Pages(sz))
    requires sz <= new' && Pages(new') <= TRAPVPN && Extended(s, s', root, Pages(sz), Pages(new'), w, x)
    ensures Process(s', root, new', trampoline, trapframe) && AllUser(s', root, 0, Pages(new'))
  {
    forall vpn | 0 <= vpn < Pages(new') ensures Va(root, vpn) in s'.leaf && s'.leaf[Va(root, vpn)].u {
      if Pages(sz) <= vpn {
        assert Within(Va(root, vpn), root, Pages(sz), Pages(new'));
        assert FreshZero(s, s', s'.leaf[Va(root, vpn)], w, x);
      }
    }
  }

  lemma MakingExtended(s0: Vm, s: Vm, s': Vm, root: int, sz: int, new': int, w: bool, x: bool, trampoline: int,
                       trapframe: int)
    requires Making(s0, s, root, sz, trampoline, trapframe)
    requires sz <= new' && Pages(new') <= TRAPVPN && Extended(s, s', root, Pages(sz), Pages(new'), w, x)
    ensures Making(s0, s', root, new', trampoline, trapframe)
  {
    hide Private, AllUser, Extended;
    ExtendedPrivate(s0, s, s', root, Pages(sz), Pages(new'), w, x);
    ExtendedProcess(s, s', root, sz, new', w, x, trampoline, trapframe);
  }

  lemma MakingGrown(s0: Vm, s: Vm, s': Vm, root: int, sz: int, trampoline: int, trapframe: int)
    requires Making(s0, s, root, sz, trampoline, trapframe) && Grown(s, s', root)
    ensures Making(s0, s', root, sz, trampoline, trapframe)
  {
    hide Private;
    GrownPrivate(s0, s, s', root);
    GrownNode(s, s', root);
  }

  lemma MakingFaulted(s0: Vm, s: Vm, s': Vm, root: int, sz: int, trampoline: int, trapframe: int)
    requires Making(s0, s, root, sz, trampoline, trapframe) && Faulted(s, s', root, 0) && s'.leaf == s.leaf
    ensures Making(s0, s', root, sz, trampoline, trapframe)
  {
    hide Private;
    FaultedPrivate(s0, s, s', root, 0);
    FaultedNode(s, s', root, 0);
  }

  /** Nothing is mapped between the size of a process and the trapframe. */
  lemma RoomAbove(s: Vm, root: int, sz: int, hi: int, trampoline: int, trapframe: int)
    requires Process(s, root, sz, trampoline, trapframe)
    ensures forall va :: va in s.leaf && User(va) ==> !Within(va, root, Pages(sz), hi)
  {
  }

  /** The first n pages of a new address space have been mapped since it was made, and no more has been taken. */
  ghost predicate TakenUpTo(s: Vm, s': Vm, root: int, n: int) {
    TablesUpTo(s, s', root, 0, n) && |s'.list| == |s.list| - Need(s, root, 0, n)
  }

  lemma TakenNone(s: Vm, root: int)
    ensures TakenUpTo(s, s, root, 0)
  {
    TablesNone(s, root, 0);
  }

  lemma TakenFits(s: Vm, s': Vm, root: int, n: int)
    requires TakenUpTo(s, s', root, n)
    ensures Need(s, root, 0, n) <= |s.list|
  {
  }

  /** What the image and the stack take together. */
  lemma ImageNeeds(s: Vm, root: int, segs: seq<Segment>)
    requires NewTables(s, root)
    ensures var n := Pages(SizeAfter(segs, |segs|));
            && Need(s, root, 0, n + USERSTACK + 1) + 3 == ImageNeed(segs)
            && Need(s, root, 0, n) <= Need(s, root, 0, n + USERSTACK + 1)
            && StackTop(segs) == (n + USERSTACK + 1) * PGSIZE
  {
    hide NewTables, Need, FreshNeed;
    var n := Pages(SizeAfter(segs, |segs|));
    NeedIsFreshNeed(s, root, n + USERSTACK + 1);
    NeedGrows(s, root, 0, n, n + USERSTACK + 1);
  }

  lemma TakenStays(s: Vm, s0: Vm, s': Vm, root: int, n: int)
    requires TakenUpTo(s, s0, root, n) && s'.node == s0.node && s'.list == s0.list
    ensures TakenUpTo(s, s', root, n)
  {
  }

  /** What more growth takes, counted from the start. */
  lemma TakenNeeds(s: Vm, s0: Vm, root: int, n: int, hi: int)
    requires TakenUpTo(s, s0, root, n) && 0 <= n <= hi
    ensures Need(s0, root, n, hi) <= |s0.list| <==> Need(s, root, 0, hi) <= |s.list|
  {
    hide TablesUpTo;
    NeedJoin(s, s0, root, 0, n, hi);
  }

  lemma TakenMore(s: Vm, s0: Vm, s': Vm, root: int, n: int, hi: int)
    requires TakenUpTo(s, s0, root, n) && 0 <= n <= hi && TablesUpTo(s0, s', root, n, hi)
    requires |s'.list| == |s0.list| - Need(s0, root, n, hi)
    ensures TakenUpTo(s, s', root, hi)
  {
    hide TablesUpTo;
    NeedJoin(s, s0, root, 0, n, hi);
    TablesJoin(s, s0, s', root, 0, n, hi);
  }

  // ---------------------------------------------------------------- the image

  lemma NewImage(s: Vm, s': Vm, root: int, segs: seq<Segment>, trampoline: int, trapframe: int, end: int)
    requires Inv(s', -1, 0) && Process(s', root, 0, trampoline, trapframe) && end <= TRAPVPN * PGSIZE
    ensures HasImage(s', root, segs, 0, end)
  {
    forall a | 0 <= a < end ensures ByteAt(s', root, a) == 0 {
      var vpn := a / PGSIZE;
      assert Va(root, vpn) !in s'.leaf;
    }
  }

  lemma SameImage(s: Vm, s': Vm, root: int, segs: seq<Segment>, n: int, end: int)
    requires Inv(s, -1, 0) && Inv(s', -1, 0) && SameMemory(s, s') && 0 <= n <= |segs| && end <= TRAPVPN * PGSIZE
    requires HasImage(s, root, segs, n, end)
    ensures HasImage(s', root, segs, n, end)
  {
    hide Inv, PageOf;
    forall a | 0 <= a < end ensures ByteAt(s', root, a) == ByteAt(s, root, a) {
      assert PageOf(s', Va(root, a / PGSIZE)) == PageOf(s, Va(root, a / PGSIZE));
    }
  }

  lemma LoadedImage(s: Vm, s': Vm, root: int, segs: seq<Segment>, n: int, end: int)
    requires Inv(s, -1, 0) && Inv(s', -1, 0) && 0 <= n < |segs| && end <= TRAPVPN * PGSIZE
    requires HasImage(s, root, segs, n, end) && segs[n].load && Loaded(segs[n]) <= |segs[n].data|
    requires Written(s, s', root, segs[n].vaddr, segs[n].data[..Loaded(segs[n])])
    ensures HasImage(s', root, segs, n + 1, end)
  {
    hide Inv, ByteAt, Written;
    var g := segs[n];
    forall a | 0 <= a < end ensures ByteAt(s', root, a) == ImageByte(segs, n + 1, a) {
      ReadWritten(s, s', root, g.vaddr, g.data[..Loaded(g)], a);
    }
  }

  lemma SkippedImage(s: Vm, root: int, segs: seq<Segment>, n: int, end: int)
    requires Inv(s, -1, 0) && 0 <= n < |segs| && HasImage(s, root, segs, n, end) && !segs[n].load
    ensures HasImage(s, root, segs, n + 1, end)
  {
    hide Inv, ByteAt;
  }

  lemma MappedUpTo(s: Vm, root: int, n: int, m: int)
    requires AllUser(s, root, 0, n) && m <= n
    ensures forall lo :: 0 <= lo ==> AllUser(s, root, lo, m)
  {
  }

  // ---------------------------------------------------------------- the argument stack

  /** Where the n-th argument string goes: below the one before it, aligned to 16 bytes. */
  function Sp(argv: seq<seq<int>>, n: int, top: int): int
    requires 0 <= n <= |argv|
    decreases n
  {
    if n == 0 then top
    else
      var x := Sp(argv, n - 1, top) - (|argv[n - 1]| + 1);
      x - x % 16
  }

  /** Where the array of pointers to the strings goes. */
  function ArgvAt(argv: seq<seq<int>>, top: int): int {
    var x := Sp(argv, |argv|, top) - (|argv| + 1) * 8;
    x - x % 16
  }

  /** 64-bit numbers in memory, the least significant byte first. */
  function Encode(us: seq<int>): (r: seq<int>)
    ensures |r| == 8 * |us|
  {
    if us == [] then []
    else Encode(us[..|us| - 1]) + Word(us[|us| - 1])
  }

  function Word(u: int): (r: seq<int>)
    ensures |r| == 8
  {
    [u % 256, u / 256 % 256, u / 0x1_0000 % 256, u / 0x100_0000 % 256, u / 0x1_0000_0000 % 256,
     u / 0x100_0000_0000 % 256, u / 0x1_0000_0000_0000 % 256, u / 0x100_0000_0000_0000 % 256]
  }

  /** Lower and lower, each string below the one before, all aligned. */
  lemma {:induction false} SpDecreases(argv: seq<seq<int>>, m: int, n: int, top: int)
    requires 0 <= m < n <= |argv|
    ensures Sp(argv, n, top) % 16 == 0
    ensures Sp(argv, n, top) + |argv[n - 1]| + 1 <= Sp(argv, m, top)
    decreases n
  {
    if m < n - 1 {
      SpDecreases(argv, m, n - 1, top);
    }
  }

  lemma ArgvBelow(argv: seq<seq<int>>, n: int, top: int)
    requires 0 <= n <= |argv|
    ensures ArgvAt(argv, top) % 16 == 0 && ArgvAt(argv, top) + 8 * (|argv| + 1) <= Sp(argv, n, top)
  {
    if n < |argv| {
      SpDecreases(argv, n, |argv|, top);
    }
  }

  /** If all strings and pointers fit, or all of MAXARG strings, then so do the first n strings. */
  lemma StringsFit(argv: seq<seq<int>>, n: int, top: int)
    requires 0 <= n <= |argv|
    ensures ArgsFit(argv, top) || ArgsOverflow(argv, top) ==> top - USERSTACK * PGSIZE <= Sp(argv, n, top)
  {
    ArgvBelow(argv, n, top);
    if n < |argv| { SpDecreases(argv, n, |argv|, top); }
  }

  /** How the arguments fare once all strings are pushed. */
  lemma ArgsEnd(argv: seq<seq<int>>, top: int)
    ensures |argv| > MAXARG ==> !ArgsFit(argv, top) && !ArgsOverflow(argv, top)
    ensures |argv| == MAXARG ==> !ArgsFit(argv, top) &&
                                 (ArgsOverflow(argv, top) <==> top - USERSTACK * PGSIZE <= Sp(argv, |argv|, top))
    ensures |argv| < MAXARG ==> !ArgsOverflow(argv, top) &&
                                (ArgsFit(argv, top) <==> top - USERSTACK * PGSIZE <= ArgvAt(argv, top))
    ensures Sp(argv, 0, top) == top
  {
  }

  /** The first n argument strings are in memory, each with its terminator. */
  ghost predicate Placed(s: Vm, root: int, argv: seq<seq<int>>, n: int, top: int)
    requires Inv(s, -1, 0) && 0 <= n <= |argv|
  {
    forall j :: 0 <= j < n ==> PlacedAt(s, root, argv, j, top)
  }

  ghost predicate PlacedAt(s: Vm, root: int, argv: seq<seq<int>>, j: int, top: int)
    requires Inv(s, -1, 0) && 0 <= j < |argv|
  {
    0 <= Sp(argv, j + 1, top) && IsSlice(s, root, Sp(argv, j + 1, top), argv[j] + [0])
  }

  /** The pointers to the n first strings. */
  function Pointers(argv: seq<seq<int>>, n: int, top: int): (us: seq<int>)
    requires 0 <= n <= |argv|
    ensures |us| == n && forall j :: 0 <= j < n ==> us[j] == Sp(argv, j + 1, top)
  {
    seq(n, j requires 0 <= j < n => Sp(argv, j + 1, top))
  }

  /** What a later write elsewhere leaves alone. */
  lemma SliceKept(s: Vm, s': Vm, root: int, at: int, d: seq<int>, at': int, d': seq<int>)
    requires Inv(s, -1, 0) && Inv(s', -1, 0) && 0 <= at && IsSlice(s, root, at, d) && Written(s, s', root, at', d')
    requires at' + |d'| <= at && at + |d| <= TRAPVPN * PGSIZE
    ensures IsSlice(s', root, at, d)
  {
    hide Inv, ByteAt, Written;
    forall i | 0 <= i < |d| ensures d[i] == ByteAt(s', root, at + i) {
      assert d[i] == ByteAt(s, root, at + i);
      ReadWritten(s, s', root, at', d', at + i);
    }
  }

  lemma SliceWritten(s: Vm, s': Vm, root: int, at: int, d: seq<int>)
    requires Inv(s, -1, 0) && Inv(s', -1, 0) && 0 <= at && Written(s, s', root, at, d) && at + |d| <= TRAPVPN * PGSIZE
    ensures IsSlice(s', root, at, d)
  {
    hide Inv, ByteAt, Written;
    forall i | 0 <= i < |d| ensures d[i] == ByteAt(s', root, at + i) {
      ReadWritten(s, s', root, at, d, at + i);
    }
  }

  lemma PlacedKept(s: Vm, s': Vm, root: int, argv: seq<seq<int>>, n: int, top: int, at: int, d: seq<int>)
    requires Inv(s, -1, 0) && Inv(s', -1, 0) && 0 <= n <= |argv| && top <= TRAPVPN * PGSIZE
    requires Placed(s, root, argv, n, top) && Written(s, s', root, at, d) && at + |d| <= Sp(argv, n, top)
    ensures Placed(s', root, argv, n, top)
  {
    hide Inv, IsSlice, Written;
    forall j | 0 <= j < n ensures PlacedAt(s', root, argv, j, top) {
      assert PlacedAt(s, root, argv, j, top);
      SpDecreases(argv, j, j + 1, top);
      if j + 1 < n { SpDecreases(argv, j + 1, n, top); }
      if 0 < j { SpDecreases(argv, 0, j, top); }
      SliceKept(s, s', root, Sp(argv, j + 1, top), argv[j] + [0], at, d);
    }
  }

  lemma PlacedMore(s: Vm, root: int, argv: seq<seq<int>>, n: int, top: int)
    requires Inv(s, -1, 0) && 0 <= n < |argv| && Placed(s, root, argv, n, top)
    requires 0 <= Sp(argv, n + 1, top) && IsSlice(s, root, Sp(argv, n + 1, top), argv[n] + [0])
    ensures Placed(s, root, argv, n + 1, top)
  {
    hide Inv, IsSlice;
    assert PlacedAt(s, root, argv, n, top);
  }

  /** The pages from base to top can be written by user code. */
  ghost predicate Writable(s: Vm, root: int, base: int, top: int) {
    forall vpn :: base <= vpn * PGSIZE && vpn * PGSIZE < top ==>
      Va(root, vpn) in s.leaf && s.leaf[Va(root, vpn)].u && s.leaf[Va(root, vpn)].w
  }

  lemma WritableAt(s: Vm, root: int, base: int, top: int, a: int)
    requires Writable(s, root, base, top) && base % PGSIZE == 0 && 0 <= base <= a < top
    ensures Va(root, a / PGSIZE) in s.leaf && Accessible(s, root, a / PGSIZE, 0, true)
  {
    assert base <= a / PGSIZE * PGSIZE < top;
  }

  /** A copy to the stack needs no page. */
  lemma WritableFits(s: Vm, root: int, base: int, top: int, at: int, n: int)
    requires Writable(s, root, base, top) && base % PGSIZE == 0 && 0 <= base <= at && at + n <= top && 0 <= n
    ensures CopyFits(s, root, at, n, 0, true)
  {
    hide Writable, Accessible;
    forall a | at <= a < at + n ensures Accessible(s, root, a / PGSIZE, 0, true) {
      WritableAt(s, root, base, top, a);
    }
    forall v | at / PGSIZE <= v < PageEnd(at, n) ensures Va(root, v) in s.leaf {
      WritableAt(s, root, base, top, if v == at / PGSIZE then at else v * PGSIZE);
    }
    MappedNeedNothing(s, root, at / PGSIZE, PageEnd(at, n));
  }

  /** Nothing is mapped on demand below address 0. */
  lemma FaultedSame(s: Vm, s': Vm, root: int)
    requires Faulted(s, s', root, 0) && Inv(s', -1, 0)
    ensures s'.leaf == s.leaf
  {
    hide ListOk, NodeOk, TableOk, DataOk, Settled, NodesGrow, Elsewhere;
    forall va | va in s'.leaf ensures va in s.leaf {
      assert LeafAt(s'.own, s'.node, s'.leaf, va);
    }
  }

  /** Bytes below an address are as they were. */
  ghost predicate SameBelow(s: Vm, s': Vm, root: int, end: int)
    requires Inv(s, -1, 0) && Inv(s', -1, 0)
  {
    forall a :: 0 <= a < end ==> ByteAt(s', root, a) == ByteAt(s, root, a)
  }

  lemma SameBelowMore(s: Vm, s0: Vm, s': Vm, root: int, end: int, at: int, d: seq<int>)
    requires Inv(s, -1, 0) && Inv(s0, -1, 0) && Inv(s', -1, 0) && end <= at && end <= TRAPVPN * PGSIZE
    requires SameBelow(s, s0, root, end) && Written(s0, s', root, at, d)
    ensures SameBelow(s, s', root, end)
  {
    hide Inv, ByteAt, Written;
    forall a | 0 <= a < end ensures ByteAt(s', root, a) == ByteAt(s0, root, a) {
      ReadWritten(s0, s', root, at, d, a);
    }
  }

  /** The first n argument strings have been pushed, and nothing else has changed. */
  ghost predicate Pushed(s: Vm, s': Vm, root: int, argv: seq<seq<int>>, n: int, base: int, top: int)
    requires Inv(s, -1, 0) && Inv(s', -1, 0) && 0 <= n <= |argv|
  {
    Faulted(s, s', root, 0) && s'.leaf == s.leaf && Placed(s', root, argv, n, top) && SameBelow(s, s', root, base)
  }

  lemma PushedNone(s: Vm, root: int, argv: seq<seq<int>>, base: int, top: int)
    requires Inv(s, -1, 0)
    ensures Pushed(s, s, root, argv, 0, base, top)
  {
    hide Inv, Faulted;
    GrownSelf(s, root);
    GrownFaulted(s, s, root, 0);
  }

  /** A write below the strings that are there. */
  lemma PushedBelow(s: Vm, s0: Vm, s': Vm, root: int, argv: seq<seq<int>>, n: int, base: int, top: int, at: int,
                    d: seq<int>)
    requires Inv(s, -1, 0) && Inv(s0, -1, 0) && Inv(s', -1, 0) && 0 <= n <= |argv| && top <= TRAPVPN * PGSIZE
    requires Pushed(s, s0, root, argv, n, base, top)
    requires Faulted(s0, s', root, 0) && s'.leaf == s0.leaf && Written(s0, s', root, at, d)
    requires 0 <= base <= at && at + |d| <= Sp(argv, n, top) <= top
    ensures Pushed(s, s', root, argv, n, base, top) && IsSlice(s', root, at, d)
  {
    hide Inv, Faulted, Written, Placed, SameBelow, IsSlice;
    FaultedTrans(s, s0, s', root, 0);
    PlacedKept(s0, s', root, argv, n, top, at, d);
    SliceWritten(s0, s', root, at, d);
    SameBelowMore(s, s0, s', root, base, at, d);
  }

  lemma PushedMore(s: Vm, s': Vm, root: int, argv: seq<seq<int>>, n: int, base: int, top: int)
    requires Inv(s, -1, 0) && Inv(s', -1, 0) && 0 <= n < |argv| && Pushed(s, s', root, argv, n, base, top)
    requires 0 <= Sp(argv, n + 1, top) && IsSlice(s', root, Sp(argv, n + 1, top), argv[n] + [0])
    ensures Pushed(s, s', root, argv, n + 1, base, top)
  {
    hide Inv, Faulted, Placed, SameBelow, IsSlice;
    PlacedMore(s', root, argv, n, top);
  }

  /** The stack stays where it is. */
  lemma PushedStack(s: Vm, s': Vm, root: int, argv: seq<seq<int>>, n: int, base: int, top: int)
    requires Inv(s, -1, 0) && Inv(s', -1, 0) && 0 <= n <= |argv| && Pushed(s, s', root, argv, n, base, top)
    requires Writable(s, root, base, top) && Key(root, 2, 0) in s.node
    ensures Writable(s', root, base, top) && Key(root, 2, 0) in s'.node
  {
    hide Inv, Placed, SameBelow;
    SameWritable(s, s', root, base, top);
    FaultedNode(s, s', root, 0);
  }

  lemma SpBelow(argv: seq<seq<int>>, n: int, top: int)
    requires 0 <= n <= |argv|
    ensures Sp(argv, n, top) <= top
    ensures n < |argv| ==> Sp(argv, n + 1, top) + |argv[n]| + 1 <= Sp(argv, n, top)
  {
    if 0 < n { SpDecreases(argv, 0, n, top); }
    if n < |argv| { SpDecreases(argv, n, n + 1, top); }
  }

  lemma SameWritable(s: Vm, s': Vm, root: int, base: int, top: int)
    requires Writable(s, root, base, top) && s'.leaf == s.leaf
    ensures Writable(s', root, base, top)
  {
  }

  lemma PushedFewer(s: Vm, s': Vm, root: int, argv: seq<seq<int>>, n: int, base: int, top: int)
    requires Inv(s, -1, 0) && Inv(s', -1, 0) && 0 <= n <= |argv| && Pushed(s, s', root, argv, n, base, top)
    ensures Pushed(s, s', root, argv, 0, base, top)
  {
    hide Inv, Faulted, IsSlice, SameBelow;
  }

  // ---------------------------------------------------------------- the finished image

  /** PGROUNDUP does not change which pages are below the size. */
  lemma RoundedMaking(s: Vm, s': Vm, root: int, sz: int, trampoline: int, trapframe: int)
    requires Making(s, s', root, sz, trampoline, trapframe)
    ensures Making(s, s', root, Pages(sz) * PGSIZE, trampoline, trapframe)
  {
    assert Pages(Pages(sz) * PGSIZE) == Pages(sz);
  }

  /** The new pages have the permissions asked for. */
  lemma ExtendedAllows(s: Vm, s': Vm, root: int, lo: int, hi: int, w: bool, x: bool)
    requires Extended(s, s', root, lo, hi, w, x)
    ensures Allows(s', root, lo, hi, w, x) && LeavesStay(s, s')
  {
    forall vpn | lo <= vpn < hi ensures Va(root, vpn) in s'.leaf && Grants(s'.leaf[Va(root, vpn)], w, x) {
      assert Within(Va(root, vpn), root, lo, hi);
      assert FreshZero(s, s', s'.leaf[Va(root, vpn)], w, x);
    }
  }

  /** Pages that can be written make a stack. */
  lemma AllowsWritable(s: Vm, root: int, lo: int, hi: int)
    requires Allows(s, root, lo, hi, true, false)
    ensures Writable(s, root, lo * PGSIZE, hi * PGSIZE)
  {
    forall vpn | lo * PGSIZE <= vpn * PGSIZE && vpn * PGSIZE < hi * PGSIZE
      ensures Va(root, vpn) in s.leaf && s.leaf[Va(root, vpn)].u && s.leaf[Va(root, vpn)].w
    {
      assert lo <= vpn < hi;
    }
  }

  /** The stack guard: one page that user code may not touch. */
  ghost predicate Guarded(s: Vm, s': Vm, va: Va) {
    && va in s.leaf && s'.leaf == s.leaf[va := s.leaf[va].(u := false)]
    && s'.own == s.own && s'.node == s.node
    && (forall f :: f in s'.own && !s'.own[f].Table? ==> f in s.mem && f in s'.mem && s'.mem[f] == s.mem[f])
  }

  lemma GuardedPrivate(s: Vm, s0: Vm, s': Vm, va: Va)
    requires Private(s, s0, va.root) && Guarded(s0, s', va)
    ensures Private(s, s', va.root)
  {
  }

  lemma GuardedProcess(s: Vm, s': Vm, va: Va, sz: int, trampoline: int, trapframe: int)
    requires Process(s, va.root, sz, trampoline, trapframe) && Guarded(s, s', va) && User(va)
    ensures Process(s', va.root, sz, trampoline, trapframe)
  {
  }

  lemma GuardedAllows(s: Vm, s': Vm, va: Va, hi: int)
    requires Guarded(s, s', va) && Allows(s, va.root, va.vpn, hi, true, false)
    ensures Allows(s', va.root, va.vpn + 1, hi, true, false)
  {
  }

  lemma GuardedSameMemory(s: Vm, s': Vm, va: Va)
    requires Inv(s, -1, 0) && Inv(s', -1, 0) && Guarded(s, s', va)
    ensures SameMemory(s, s')
  {
    hide ListOk, NodeOk, TableOk;
    forall vb | User(vb) && vb in s.leaf ensures PageOf(s', vb) == PageOf(s, vb) {
      MappingAt(s, vb);
    }
  }

  /** The page at an address is mapped, but not for user code. */
  ghost predicate NoTouch(s: Vm, root: int, a: int) {
    Va(root, a / PGSIZE) in s.leaf && !s.leaf[Va(root, a / PGSIZE)].u
  }

  /** A process image: its segments with their permissions, its guard page, a stack that cannot be executed, and its
      arguments from the top of the stack down. */
  ghost predicate Ready(s: Vm, root: int, sz: int, sp: int, segs: seq<Segment>, argv: seq<seq<int>>)
    requires Inv(s, -1, 0)
  {
    var base := sz - USERSTACK * PGSIZE;
    && AllGood(segs) && sz == StackTop(segs)
    && HasImage(s, root, segs, |segs|, base)
    && NoTouch(s, root, base - PGSIZE)
    && HasPerms(s, root, segs, |segs|) && Allows(s, root, base / PGSIZE, sz / PGSIZE, true, false)
    && |argv| < MAXARG && 0 <= base <= sp && sp % 16 == 0 && sp == ArgvAt(argv, sz)
    && Placed(s, root, argv, |argv|, sz)
    && HasPointers(s, root, sp, argv, sz)
  }

  /** The 64-bit number at an address, the least significant byte first. */
  ghost function WordIn(s: Vm, root: int, a: int): int
    requires Inv(s, -1, 0) && 0 <= a
  {
    ByteAt(s, root, a) + 0x100 * ByteAt(s, root, a + 1) + 0x1_0000 * ByteAt(s, root, a + 2)
    + 0x100_0000 * ByteAt(s, root, a + 3) + 0x1_0000_0000 * ByteAt(s, root, a + 4)
    + 0x100_0000_0000 * ByteAt(s, root, a + 5) + 0x1_0000_0000_0000 * ByteAt(s, root, a + 6)
    + 0x100_0000_0000_0000 * ByteAt(s, root, a + 7)
  }

  /** argv in user memory: the addresses of the strings, one after the other, and 0. */
  ghost predicate HasPointers(s: Vm, root: int, sp: int, argv: seq<seq<int>>, top: int)
    requires Inv(s, -1, 0) && 0 <= sp
  {
    forall j :: 0 <= j <= |argv| ==> PointerAt(s, root, sp, argv, j, top)
  }

  ghost predicate PointerAt(s: Vm, root: int, sp: int, argv: seq<seq<int>>, j: int, top: int)
    requires Inv(s, -1, 0) && 0 <= sp && 0 <= j <= |argv|
  {
    WordIn(s, root, sp + 8 * j) == if j < |argv| then Sp(argv, j + 1, top) else 0
  }

  lemma {:induction false} EncodeAt(us: seq<int>, j: int)
    requires 0 <= j < |us|
    ensures Encode(us)[8 * j..8 * j + 8] == Word(us[j])
    decreases |us|
  {
    if j < |us| - 1 {
      EncodeAt(us[..|us| - 1], j);
      assert Encode(us)[8 * j..8 * j + 8] == Encode(us[..|us| - 1])[8 * j..8 * j + 8];
    }
  }

  lemma Quotients(u: int)
    ensures u / 256 / 256 == u / 0x1_0000 && u / 0x1_0000 / 256 == u / 0x100_0000
    ensures u / 0x100_0000 / 256 == u / 0x1_0000_0000 && u / 0x1_0000_0000 / 256 == u / 0x100_0000_0000
    ensures u / 0x100_0000_0000 / 256 == u / 0x1_0000_0000_0000
    ensures u / 0x1_0000_0000_0000 / 256 == u / 0x100_0000_0000_0000
  {
  }

  /** A number is its last digit and the rest, to base 256. */
  lemma Digit(u: int)
    ensures u == u % 256 + 256 * (u / 256)
  {
  }

  lemma WordValue(u: int)
    requires 0 <= u < TWO64
    ensures var w := Word(u);
            w[0] + 0x100 * w[1] + 0x1_0000 * w[2] + 0x100_0000 * w[3] + 0x1_0000_0000 * w[4]
            + 0x100_0000_0000 * w[5] + 0x1_0000_0000_0000 * w[6] + 0x100_0000_0000_0000 * w[7] == u
  {
    Quotients(u);
    var q1, q2, q3, q4 := u / 256, u / 0x1_0000, u / 0x100_0000, u / 0x1_0000_0000;
    var q5, q6, q7 := u / 0x100_0000_0000, u / 0x1_0000_0000_0000, u / 0x100_0000_0000_0000;
    Digit(u);
    Digit(q1);
    Digit(q2);
    Digit(q3);
    Digit(q4);
    Digit(q5);
    Digit(q6);
    assert q7 % 256 == q7;
  }

  lemma PointersRead(s: Vm, root: int, sp: int, argv: seq<seq<int>>, top: int)
    requires Inv(s, -1, 0) && 0 <= sp && top < TWO64 && Placed(s, root, argv, |argv|, top)
    requires IsSlice(s, root, sp, Encode(Pointers(argv, |argv|, top) + [0]))
    ensures HasPointers(s, root, sp, argv, top)
  {
    hide Inv, ByteAt, Encode, Word, IsSlice;
    var us := Pointers(argv, |argv|, top) + [0];
    forall j | 0 <= j <= |argv| ensures PointerAt(s, root, sp, argv, j, top) {
      if j < |argv| {
        assert PlacedAt(s, root, argv, j, top);
        SpDecreases(argv, 0, j + 1, top);
      }
      EncodeAt(us, j);
      WordValue(us[j]);
      SliceWord(s, root, sp, Encode(us), j);
    }
  }

  lemma SliceWord(s: Vm, root: int, sp: int, d: seq<int>, j: int)
    requires Inv(s, -1, 0) && 0 <= sp && 0 <= j && 8 * j + 8 <= |d| && IsSlice(s, root, sp, d)
    ensures var w := d[8 * j..8 * j + 8];
            WordIn(s, root, sp + 8 * j) ==
            w[0] + 0x100 * w[1] + 0x1_0000 * w[2] + 0x100_0000 * w[3] + 0x1_0000_0000 * w[4]
            + 0x100_0000_0000 * w[5] + 0x1_0000_0000_0000 * w[6] + 0x100_0000_0000_0000 * w[7]
  {
    hide Inv, ByteAt;
    var w, a := d[8 * j..8 * j + 8], sp + 8 * j;
    forall i | 0 <= i < 8 ensures w[i] == ByteAt(s, root, a + i) {
      assert d[8 * j + i] == ByteAt(s, root, sp + (8 * j + i));
    }
  }

  lemma BelowImage(s: Vm, s': Vm, root: int, segs: seq<Segment>, n: int, base: int)
    requires Inv(s, -1, 0) && Inv(s', -1, 0) && 0 <= n <= |segs| && base <= TRAPVPN * PGSIZE
    requires HasImage(s, root, segs, n, TRAPVPN * PGSIZE) && SameBelow(s, s', root, base)
    ensures HasImage(s', root, segs, n, base)
  {
    hide Inv, ByteAt;
  }

  // ---------------------------------------------------------------- giving up the old image

  lemma OldProcess(s: Vm, s': Vm, old': int, new': int, sz: int, trampoline: int, trapframe: int)
    requires Process(s, old', sz, trampoline, trapframe) && Private(s, s', new')
    ensures Process(s', old', sz, trampoline, trapframe) && old' != new'
  {
  }

  /** The old address space is gone, and all other changes belong to the new one. */
  ghost predicate Replaced(s: Vm, s': Vm, old': int, new': int) {
    && (forall va: Va :: va.root != old' && va.root != new' ==> (va in s.leaf <==> va in s'.leaf))
    && (forall va :: va in s.leaf && va in s'.leaf && va.root != new' ==> s'.leaf[va] == s.leaf[va])
    && (forall va :: va in s'.leaf ==> va.root != old')
    && (forall k :: k in s.node ==> k.root != new') && (forall k :: k in s'.node ==> k.root != old')
    && (forall k: Key :: k.root != old' && k.root != new' ==> (k in s.node <==> k in s'.node))
    && (forall f :: f in s.own <==> f in s'.own)
    && (forall f :: f in s.own ==>
          if BelongsTo(s.own[f], old') then s'.own[f].Free?
          else if s.own[f].Free? then s'.own[f].Free? || BelongsTo(s'.own[f], new')
          else s'.own[f] == s.own[f])
    && (forall f :: f in s.own && (s.own[f].Leaf? || s.own[f] == Loose) && !BelongsTo(s.own[f], old') ==>
          f in s.mem && f in s'.mem && s'.mem[f] == s.mem[f])
  }

  lemma GoneReplaced(s: Vm, s1: Vm, s': Vm, old': int, new': int)
    requires Private(s, s1, new') && Gone(s1, s', old') && old' != new'
    ensures Replaced(s, s', old', new')
  {
    forall f | f in s.own && (s.own[f].Leaf? || s.own[f] == Loose) && !BelongsTo(s.own[f], old')
      ensures f in s.mem && f in s'.mem && s'.mem[f] == s.mem[f] && s'.own[f] == s.own[f]
    {
      assert s1.own[f] == s.own[f];
    }
  }

  /** Others do not see an address space go. */
  lemma GonePages(s: Vm, s': Vm, old': int, va: Va)
    requires Inv(s, -1, 0) && Inv(s', -1, 0) && Gone(s, s', old') && va.root != old'
    ensures PageOf(s', va) == PageOf(s, va)
  {
    hide ListOk, NodeOk, TableOk;
    if va in s.leaf && User(va) {
      MappingAt(s, va);
    }
  }

  lemma GoneBytes(s: Vm, s': Vm, old': int, root: int, a: int)
    requires Inv(s, -1, 0) && Inv(s', -1, 0) && Gone(s, s', old') && root != old' && 0 <= a
    ensures ByteAt(s', root, a) == ByteAt(s, root, a)
  {
    hide Inv, PageOf, Gone;
    GonePages(s, s', old', Va(root, a / PGSIZE));
  }

  lemma GoneReady(s: Vm, s': Vm, old': int, root: int, sz: int, sp: int, segs: seq<Segment>, argv: seq<seq<int>>)
    requires Inv(s, -1, 0) && Inv(s', -1, 0) && Gone(s, s', old') && root != old'
    requires Ready(s, root, sz, sp, segs, argv)
    ensures Ready(s', root, sz, sp, segs, argv)
  {
    hide Inv, ByteAt;
    forall a | 0 <= a ensures ByteAt(s', root, a) == ByteAt(s, root, a) {
      GoneBytes(s, s', old', root, a);
    }
    forall j | 0 <= j < |argv| ensures PlacedAt(s', root, argv, j, sz) {
      assert PlacedAt(s, root, argv, j, sz);
    }
    forall j | 0 <= j <= |argv| ensures PointerAt(s', root, sp, argv, j, sz) {
      assert PointerAt(s, root, sp, argv, j, sz);
    }
    GonePerms(s, s', old', root, segs);
  }

  lemma GonePerms(s: Vm, s': Vm, old': int, root: int, segs: seq<Segment>)
    requires HasPerms(s, root, segs, |segs|) && Gone(s, s', old') && root != old'
    ensures HasPerms(s', root, segs, |segs|)
  {
    forall k | 0 <= k < |segs| && segs[k].load
      ensures Allows(s', root, Pages(SizeAfter(segs, k)), Pages(SizeAfter(segs, k + 1)),
                     segs[k].flags / 2 % 2 == 1, segs[k].flags % 2 == 1)
    {
      AllowsStays(s, s', root, Pages(SizeAfter(segs, k)), Pages(SizeAfter(segs, k + 1)),
                  segs[k].flags / 2 % 2 == 1, segs[k].flags % 2 == 1);
    }
  }

  lemma GoneProcess(s: Vm, s': Vm, old': int, root: int, sz: int, trampoline: int, trapframe: int)
    requires Process(s, root, sz, trampoline, trapframe) && Gone(s, s', old') && root != old'
    ensures Process(s', root, sz, trampoline, trapframe)
  {
  }

  lemma UnharmedProcess(s: Vm, s': Vm, root: int, sz: int, trampoline: int, trapframe: int)
    requires Process(s, root, sz, trampoline, trapframe) && Unharmed(s, s')
    ensures Process(s', root, sz, trampoline, trapframe)
  {
  }

  lemma ProcessRoot(s: Vm, root: int, sz: int, trampoline: int, trapframe: int)
    requires Process(s, root, sz, trampoline, trapframe)
    ensures Key(root, 2, 0) in s.node && sz <= TRAPVPN * PGSIZE
  {
  }

  lemma GuardMapped(s: Vm, root: int, sz: int, vpn: int)
    requires 0 <= sz && AllUser(s, root, 0, Pages(sz)) && 0 <= vpn < Pages(sz)
    ensures Va(root, vpn) in s.leaf
  {
  }

  lemma PushedProcess(s: Vm, s1: Vm, s': Vm, root: int, argv: seq<seq<int>>, n: int, base: int, top: int,
                      trampoline: int, trapframe: int)
    requires Inv(s1, -1, 0) && Inv(s', -1, 0) && 0 <= n <= |argv| && Pushed(s1, s', root, argv, n, base, top)
    requires Private(s, s1, root) && Process(s1, root, top, trampoline, trapframe)
    ensures Private(s, s', root) && Process(s', root, top, trampoline, trapframe)
  {
    hide Inv, Placed, SameBelow, Private, Faulted;
    FaultedPrivate(s, s1, s', root, 0);
    FaultedNode(s1, s', root, 0);
  }

  lemma PushedReady(s: Vm, s': Vm, root: int, segs: seq<Segment>, argv: seq<seq<int>>, sz: int, sp: int)
    requires Inv(s, -1, 0) && Inv(s', -1, 0) && ArgsFit(argv, sz)
    requires AllGood(segs) && sz == StackTop(segs) && sz <= TRAPVPN * PGSIZE
    requires Pushed(s, s', root, argv, |argv|, sz - USERSTACK * PGSIZE, sz)
    requires HasImage(s, root, segs, |segs|, TRAPVPN * PGSIZE) && NoTouch(s, root, sz - USERSTACK * PGSIZE - PGSIZE)
    requires HasPerms(s, root, segs, |segs|)
    requires Allows(s, root, (sz - USERSTACK * PGSIZE) / PGSIZE, sz / PGSIZE, true, false)
    requires sp == ArgvAt(argv, sz) && 0 <= sp
    requires IsSlice(s', root, sp, Encode(Pointers(argv, |argv|, sz) + [0]))
    ensures Ready(s', root, sz, sp, segs, argv)
  {
    hide Inv, Placed, SameBelow, Faulted, HasImage, IsSlice, HasPerms, HasPointers;
    SamePerms(s, s', root, segs, |segs|);
    PointersRead(s', root, sp, argv, sz);
    ArgvBelow(argv, 0, sz);
    BelowImage(s, s', root, segs, |segs|, sz - USERSTACK * PGSIZE);
  }
}
