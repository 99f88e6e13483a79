/** kernel/exec.c: replacing the image of a process, all or nothing. */
module Exec {
  import opened VmTable
  import opened VmFree
  import opened VmChange
  import opened VmBytes
  import opened VmReach
  import opened VmSpace
  import opened ExecImage
  import opened VirtualMemory

  class Proc {
    const memory: Memory
    const trampoline: int
    const trapframe: int
    var root: int
    var sz: int
    // the registers kexec sets in the trapframe
    var a1: int
    var epc: int
    var sp: int

    /** A process that has an address space already. */
    constructor (m: Memory, tramp: int, frame: int, root': int, sz': int)
      requires m.Valid() && Process(m.s, root', sz', tramp, frame)
      ensures memory == m && trampoline == tramp && trapframe == frame && root == root' && sz == sz'
    {
      memory, trampoline, trapframe, root, sz := m, tramp, frame, root', sz';
    }

    /** loadseg: copies the first n bytes of data to the mapped pages at vaddr; fails when the file is short. */
    method LoadSeg(root': int, vaddr: int, data: seq<int>, n: int) returns (ok: bool)
      requires memory.Valid() && Key(root', 2, 0) in memory.s.node
      requires 0 <= vaddr && vaddr % PGSIZE == 0 && 0 <= n && AllUser(memory.s, root', vaddr / PGSIZE, Pages(vaddr + n))
      modifies memory
      ensures memory.Valid() && Faulted(old(memory.s), memory.s, root', 0) && memory.s.leaf == old(memory.s).leaf
      ensures memory.s.list == old(memory.s).list && memory.s.node == old(memory.s).node
      ensures ok <==> n <= |data|
      ensures ok ==> Written(old(memory.s), memory.s, root', vaddr, data[..n])
    {
      hide Inv, Faulted, Written, Grown;
      GrownSelf(memory.s, root');
      GrownFaulted(memory.s, memory.s, root', 0);
      GrownSameMemory(memory.s, memory.s, root');
      WrittenNone(memory.s, memory.s, root', vaddr);
      var i := 0;
      ghost var did := 0;
      while i < n
        invariant 0 <= i && i % PGSIZE == 0 && did == (if i < n then i else n) && did <= |data|
        invariant memory.Valid() && Faulted(old(memory.s), memory.s, root', 0) && memory.s.leaf == old(memory.s).leaf
        invariant memory.s.list == old(memory.s).list && memory.s.node == old(memory.s).node
        invariant Written(old(memory.s), memory.s, root', vaddr, data[..did])
      {
        ghost var s0 := memory.s;
        var vpn := (vaddr + i) / PGSIZE;
        FaultedNode(old(memory.s), memory.s, root', 0);
        var pa := memory.WalkAddr(root', vpn);
        var k := if n - i < PGSIZE then n - i else PGSIZE;
        if |data| < i + k { return false; }
        memory.Store(pa, 0, data[i..i + k], Va(root', vpn), 0);
        FaultedTrans(old(memory.s), s0, memory.s, root', 0);
        WrittenMore(old(memory.s), s0, memory.s, root', vaddr, data[..i], data[i..i + k]);
        assert data[..i] + data[i..i + k] == data[..i + k];
        i := i + PGSIZE;
        did := if i < n then i else n;
      }
      ok := true;
    }

    /** uvmalloc on a new address space: it grows, or stays as it was. */
    method Grow(root': int, sz': int, new': int, w: bool, x: bool, ghost s0: Vm, ghost s1: Vm) returns (sz1: int)
      requires memory.Valid() && 0 <= new' && 0 <= sz' && TakenUpTo(s1, memory.s, root', Pages(sz'))
      requires Making(s0, memory.s, root', sz', trampoline, trapframe)
      modifies memory
      ensures memory.Valid() && SameMemory(old(memory.s), memory.s)
      ensures sz1 == 0 || (sz1 == if new' < sz' then sz' else new')
      ensures sz1 == 0 <==> (sz' == 0 && new' == 0) || (sz' <= new' && |s1.list| < Need(s1, root', 0, Pages(new')))
      ensures sz1 != 0 ==> 0 <= sz1 && TakenUpTo(s1, memory.s, root', Pages(sz1))
      ensures Making(s0, memory.s, root', if sz1 == 0 then sz' else sz1, trampoline, trapframe)
      ensures LeavesStay(old(memory.s), memory.s)
      ensures sz1 != 0 && sz' <= new' ==> Allows(memory.s, root', Pages(sz'), Pages(new'), w, x)
    {
      hide Inv, Extended, Grown, SameMemory, Private, Allows, LeavesStay, AllUser, TakenUpTo, TablesUpTo, Need;
      FewPages(memory.s, root', Pages(sz'));
      GrownSelf(memory.s, root');
      GrownSameMemory(memory.s, memory.s, root');
      GrownStays(memory.s, memory.s, root');
      RoomAbove(memory.s, root', sz', Pages(new'), trampoline, trapframe);
      NeedGrows(memory.s, root', Pages(sz'), Pages(sz'), TRAPVPN);
      NoNeed(memory.s, root', Pages(sz'));
      if TRAPVPN < Pages(new') { NeedGrows(memory.s, root', Pages(sz'), TRAPVPN, Pages(new')); }
      if sz' <= new' {
        PagesGrow(sz', new');
        TakenNeeds(s1, memory.s, root', Pages(sz'), Pages(new'));
      }
      var r;
      r, sz1 := memory.UvmAlloc(root', sz', new', w, x);
      if sz' <= new' {
        if r == Fine {
          TakenMore(s1, old(memory.s), memory.s, root', Pages(sz'), Pages(new'));
          MakingExtended(s0, old(memory.s), memory.s, root', sz', new', w, x, trampoline, trapframe);
          ExtendedSameMemory(old(memory.s), memory.s, root', Pages(sz'), Pages(new'), w, x);
          ExtendedAllows(old(memory.s), memory.s, root', Pages(sz'), Pages(new'), w, x);
        } else {
          MakingGrown(s0, old(memory.s), memory.s, root', sz', trampoline, trapframe);
          GrownSameMemory(old(memory.s), memory.s, root');
          GrownStays(old(memory.s), memory.s, root');
        }
      }
    }

    /** flags2perm */
    method FlagsToPerm(flags: int) returns (w: bool, x: bool)
      requires 0 <= flags < TWO32
      ensures w == (flags / 2 % 2 == 1) && x == (flags % 2 == 1)
    {
      w, x := false, false;
      var bits := flags as bv32;
      if bits & 0x1 != 0 { x := true; }
      if bits & 0x2 != 0 { w := true; }
    }

    /** A turn of kexec's loop over the program headers. */
    method LoadOne(root': int, sz': int, segs: seq<Segment>, k: int, ghost s0: Vm, ghost s1: Vm)
      returns (ok: bool, sz'': int)
      requires memory.Valid() && 0 <= k < |segs| && SegmentsOk(segs) && sz' == SizeAfter(segs, k)
      requires Making(s0, memory.s, root', sz', trampoline, trapframe) && TakenUpTo(s1, memory.s, root', Pages(sz'))
      requires HasImage(memory.s, root', segs, k, TRAPVPN * PGSIZE) && HasPerms(memory.s, root', segs, k)
      modifies memory
      ensures memory.Valid() && Making(s0, memory.s, root', sz'', trampoline, trapframe)
      ensures ok ==> HasImage(memory.s, root', segs, k + 1, TRAPVPN * PGSIZE) && HasPerms(memory.s, root', segs, k + 1)
      ensures ok <==> Good(segs, k) && Need(s1, root', 0, Pages(SizeAfter(segs, k + 1))) <= |s1.list|
      ensures ok ==> sz'' == SizeAfter(segs, k + 1) && TakenUpTo(s1, memory.s, root', Pages(sz''))
    {
      hide Inv, HasImage, Extended, Grown, Faulted, Written, SameMemory, Private, TakenUpTo, Need, Allows, HasPerms;
      hide LeavesStay;
      TakenFits(s1, memory.s, root', Pages(sz'));
      var g := segs[k];
      sz'' := sz';
      if !g.load {
        MorePerms(memory.s, root', segs, k);
        SkippedImage(memory.s, root', segs, k, TRAPVPN * PGSIZE);
        return true, sz';
      }
      if g.memsz < g.filesz { return false, sz'; }
      if (g.vaddr + g.memsz) % TWO64 < g.vaddr { return false, sz'; }
      if g.vaddr % PGSIZE != 0 { return false, sz'; }
      ghost var s2 := memory.s;
      var w, x := FlagsToPerm(g.flags);
      var sz1 := Grow(root', sz', g.vaddr + g.memsz, w, x, s0, s1);
      SamePerms(s2, memory.s, root', segs, k);
      SameImage(s2, memory.s, root', segs, k, TRAPVPN * PGSIZE);
      if sz1 == 0 { return false, sz'; }
      PagesGrow(sz', sz1);
      MorePerms(memory.s, root', segs, k);
      MappedUpTo(memory.s, root', Pages(sz1), Pages(g.vaddr + Loaded(g)));
      ghost var s3 := memory.s;
      sz'' := sz1;
      ok := LoadSeg(root', g.vaddr, g.data, Loaded(g));
      MakingFaulted(s0, s3, memory.s, root', sz1, trampoline, trapframe);
      TakenStays(s1, s3, memory.s, root', Pages(sz1));
      if ok {
        SameLeaves(s3, memory.s);
        SamePerms(s3, memory.s, root', segs, k + 1);
        LoadedImage(s3, memory.s, root', segs, k, TRAPVPN * PGSIZE);
      }
    }

    /** Writes bytes on the stack. copyout cannot fail there: the stack is mapped and writable. */
    method Push(root': int, at: int, d: seq<int>, ghost base: int, ghost top: int)
      requires memory.Valid() && Key(root', 2, 0) in memory.s.node
      requires 0 <= base <= at && at + |d| <= top <= TRAPVPN * PGSIZE && base % PGSIZE == 0
      requires Writable(memory.s, root', base, top)
      modifies memory
      ensures memory.Valid() && Faulted(old(memory.s), memory.s, root', 0) && memory.s.leaf == old(memory.s).leaf
      ensures Written(old(memory.s), memory.s, root', at, d)
    {
      hide Inv, Faulted, Written, Writable, CopyFits, CopyStops;
      WritableFits(memory.s, root', base, top, at, |d|);
      var ok;
      ghost var done;
      ok, done := memory.CopyOut(root', at, d, 0);
      assert d[..done] == d;
      FaultedSame(old(memory.s), memory.s, root');
    }

    /** A turn of kexec's loop over the arguments. */
    method PushString(root': int, base: int, top: int, argv: seq<seq<int>>, n: int, sp0: int, ghost s0: Vm)
      returns (ok: bool, sp': int)
      requires memory.Valid() && Inv(s0, -1, 0) && Key(root', 2, 0) in s0.node && 0 <= n < |argv|
      requires 0 <= base <= top <= TRAPVPN * PGSIZE && base % PGSIZE == 0 && Writable(s0, root', base, top)
      requires Pushed(s0, memory.s, root', argv, n, base, top) && sp0 == Sp(argv, n, top)
      modifies memory
      ensures memory.Valid() && sp' == Sp(argv, n + 1, top) && (ok <==> base <= sp')
      ensures Pushed(s0, memory.s, root', argv, if ok then n + 1 else n, base, top)
    {
      hide Inv, Faulted, Written, Writable, IsSlice, Pushed;
      ghost var s1 := memory.s;
      sp' := sp0 - (|argv[n]| + 1);
      sp' := sp' - sp' % 16;
      if sp' < base { return false, sp'; }
      SpBelow(argv, n, top);
      PushedStack(s0, s1, root', argv, n, base, top);
      Push(root', sp', argv[n] + [0], base, top);
      PushedBelow(s0, s1, memory.s, root', argv, n, base, top, sp', argv[n] + [0]);
      PushedMore(s0, memory.s, root', argv, n, base, top);
      ok := true;
    }

    /** The argument strings and the pointers to them, from the top of the stack down. */
    method PushArgs(root': int, base: int, top: int, argv: seq<seq<int>>) returns (res: Outcome, sp': int)
      requires memory.Valid() && Key(root', 2, 0) in memory.s.node && base == top - USERSTACK * PGSIZE
      requires 0 <= base <= top <= TRAPVPN * PGSIZE && base % PGSIZE == 0 && Writable(memory.s, root', base, top)
      modifies memory
      ensures memory.Valid()
      ensures res == Done <==> ArgsFit(argv, top)
      ensures res == Overflow <==> ArgsOverflow(argv, top)
      ensures Pushed(old(memory.s), memory.s, root', argv, if res == Done then |argv| else 0, base, top)
      ensures res == Done ==> sp' == ArgvAt(argv, top) && 0 <= sp'
      ensures res == Done ==> IsSlice(memory.s, root', sp', Encode(Pointers(argv, |argv|, top) + [0]))
    {
      hide Inv, Faulted, Written, Writable, IsSlice, Pushed, Sp, ArgvAt, ArgsFit, ArgsOverflow;
      ArgsEnd(argv, top);
      ghost var s0 := memory.s;
      PushedNone(s0, root', argv, base, top);
      var ustack := new int[MAXARG];
      var argc := 0;
      sp' := top;
      while argc < |argv|
        invariant 0 <= argc <= |argv| && argc <= MAXARG && base <= sp' == Sp(argv, argc, top)
        invariant memory.Valid() && Pushed(s0, memory.s, root', argv, argc, base, top)
        invariant ustack[..argc] == Pointers(argv, argc, top)
      {
        if argc >= MAXARG { PushedFewer(s0, memory.s, root', argv, argc, base, top); return Failed, 0; }
        StringsFit(argv, argc + 1, top);
        var ok;
        ok, sp' := PushString(root', base, top, argv, argc, sp', s0);
        if !ok { PushedFewer(s0, memory.s, root', argv, argc, base, top); return Failed, 0; }
        ustack[argc] := sp';
        argc := argc + 1;
      }
      if argc == MAXARG { PushedFewer(s0, memory.s, root', argv, argc, base, top); return Overflow, 0; }
      ustack[argc] := 0;
      var ok;
      ok, sp' := PushTable(root', base, top, argv, sp', ustack[..argc + 1], s0);
      res := if ok then Done else Failed;
    }

    /** The end of kexec's stack: the array of pointers. */
    method PushTable(root': int, base: int, top: int, argv: seq<seq<int>>, sp0: int, us: seq<int>, ghost s0: Vm)
      returns (ok: bool, sp': int)
      requires memory.Valid() && Inv(s0, -1, 0) && Key(root', 2, 0) in s0.node
      requires 0 <= base <= top <= TRAPVPN * PGSIZE && base % PGSIZE == 0 && Writable(s0, root', base, top)
      requires Pushed(s0, memory.s, root', argv, |argv|, base, top) && sp0 == Sp(argv, |argv|, top)
      requires us == Pointers(argv, |argv|, top) + [0]
      modifies memory
      ensures memory.Valid()
      ensures ok <==> base <= ArgvAt(argv, top)
      ensures Pushed(s0, memory.s, root', argv, if ok then |argv| else 0, base, top)
      ensures ok ==> sp' == ArgvAt(argv, top) && 0 <= sp' && IsSlice(memory.s, root', sp', Encode(us))
    {
      hide Inv, Faulted, Written, Writable, IsSlice, Pushed;
      ArgvBelow(argv, |argv|, top);
      SpBelow(argv, |argv|, top);
      sp' := sp0 - |us| * 8;
      sp' := sp' - sp' % 16;
      if sp' < base { PushedFewer(s0, memory.s, root', argv, |argv|, base, top); return false, 0; }
      ghost var s1 := memory.s;
      PushedStack(s0, s1, root', argv, |argv|, base, top);
      Push(root', sp', Encode(us), base, top);
      PushedBelow(s0, s1, memory.s, root', argv, |argv|, base, top, sp', Encode(us));
      ok := true;
    }

    /** The stack: a guard page that user code may not touch, and USERSTACK pages above it. */
    method AddStack(root': int, sz0: int, segs: seq<Segment>, ghost s0: Vm, ghost s1: Vm) returns (ok: bool, sz': int)
      requires memory.Valid() && Making(s0, memory.s, root', sz0, trampoline, trapframe)
      requires 0 <= sz0 && TakenUpTo(s1, memory.s, root', Pages(sz0))
      requires HasImage(memory.s, root', segs, |segs|, TRAPVPN * PGSIZE)
      requires HasPerms(memory.s, root', segs, |segs|) && sz0 == SizeAfter(segs, |segs|)
      modifies memory
      ensures memory.Valid() && Private(s0, memory.s, root') && Process(memory.s, root', sz', trampoline, trapframe)
      ensures ok ==> sz' == (Pages(sz0) + USERSTACK + 1) * PGSIZE
      ensures ok <==> Need(s1, root', 0, Pages(sz0) + USERSTACK + 1) <= |s1.list|
      ensures ok ==> HasImage(memory.s, root', segs, |segs|, TRAPVPN * PGSIZE)
      ensures ok ==> HasPerms(memory.s, root', segs, |segs|)
      ensures ok ==>
               Allows(memory.s, root', Pages(sz0) + 1, Pages(sz0) + USERSTACK + 1, true, false) &&
               NoTouch(memory.s, root', sz' - USERSTACK * PGSIZE - PGSIZE)
    {
      hide Inv, HasImage, SameMemory, Private, Allows, AllUser, TakenUpTo, Need, HasPerms, LeavesStay;
      RoundedMaking(s0, memory.s, root', sz0, trampoline, trapframe);
      sz' := Pages(sz0) * PGSIZE;
      ghost var s2 := memory.s;
      var guard := Pages(sz0);
      var sz1 := Grow(root', sz', sz' + (USERSTACK + 1) * PGSIZE, true, false, s0, s1);
      if sz1 == 0 { return false, sz'; }
      SameImage(s2, memory.s, root', segs, |segs|, TRAPVPN * PGSIZE);
      SamePerms(s2, memory.s, root', segs, |segs|);
      ghost var s3 := memory.s;
      GuardMapped(s3, root', sz1, guard);
      memory.UvmClear(root', guard);
      GuardedPrivate(s0, s3, memory.s, Va(root', guard));
      GuardedProcess(s3, memory.s, Va(root', guard), sz1, trampoline, trapframe);
      GuardedAllows(s3, memory.s, Va(root', guard), guard + USERSTACK + 1);
      GuardedPerms(s3, memory.s, root', segs, Va(root', guard));
      GuardedSameMemory(s3, memory.s, Va(root', guard));
      SameImage(s3, memory.s, root', segs, |segs|, TRAPVPN * PGSIZE);
      return true, sz1;
    }

    /** kexec's loop over the program headers. */
    method LoadAll(root': int, segs: seq<Segment>, ghost s0: Vm, ghost s1: Vm) returns (ok: bool, sz': int)
      requires memory.Valid() && SegmentsOk(segs) && Making(s0, memory.s, root', 0, trampoline, trapframe)
      requires TakenUpTo(s1, memory.s, root', 0)
      requires HasImage(memory.s, root', segs, 0, TRAPVPN * PGSIZE)
      modifies memory
      ensures memory.Valid() && Making(s0, memory.s, root', sz', trampoline, trapframe)
      ensures ok <==> AllGood(segs) && Need(s1, root', 0, Pages(SizeAfter(segs, |segs|))) <= |s1.list|
      ensures ok ==> sz' == SizeAfter(segs, |segs|) && TakenUpTo(s1, memory.s, root', Pages(sz'))
      ensures ok ==> HasImage(memory.s, root', segs, |segs|, TRAPVPN * PGSIZE)
      ensures ok ==> HasPerms(memory.s, root', segs, |segs|)
    {
      hide Inv, HasImage, Private, AllUser, Process, Good, TakenUpTo, Need, Allows;
      var i := 0;
      sz' := 0;
      while i < |segs|
        invariant 0 <= i <= |segs| && memory.Valid() && 0 <= sz' == SizeAfter(segs, i)
        invariant Making(s0, memory.s, root', sz', trampoline, trapframe)
        invariant HasImage(memory.s, root', segs, i, TRAPVPN * PGSIZE) && HasPerms(memory.s, root', segs, i)
        invariant forall n :: 0 <= n < i ==> Good(segs, n)
        invariant TakenUpTo(s1, memory.s, root', Pages(sz'))
      {
        SizeGrows(segs, i + 1, |segs|);
        PagesGrow(SizeAfter(segs, i + 1), SizeAfter(segs, |segs|));
        NeedGrows(s1, root', 0, Pages(SizeAfter(segs, i + 1)), Pages(SizeAfter(segs, |segs|)));
        ok, sz' := LoadOne(root', sz', segs, i, s0, s1);
        if !ok { return; }
        i := i + 1;
      }
      TakenFits(s1, memory.s, root', Pages(sz'));
      ok := true;
    }

    /** Fills a new address space: the segments, the stack, and the arguments. */
    method FillImage(root': int, segs: seq<Segment>, argv: seq<seq<int>>, ghost s0: Vm)
      returns (res: Outcome, sz': int, sp': int)
      requires memory.Valid() && SegmentsOk(segs) && Making(s0, memory.s, root', 0, trampoline, trapframe)
      requires HasImage(memory.s, root', segs, 0, TRAPVPN * PGSIZE) && NewTables(memory.s, root')
      modifies memory
      ensures memory.Valid() && Private(s0, memory.s, root') && Process(memory.s, root', sz', trampoline, trapframe)
      ensures res == Done ==> Ready(memory.s, root', sz', sp', segs, argv)
      ensures res == Done <==> Buildable(|old(memory.s).list| + 3, segs) && ArgsFit(argv, StackTop(segs))
      ensures res == Overflow <==> Buildable(|old(memory.s).list| + 3, segs) && ArgsOverflow(argv, StackTop(segs))
    {
      hide Inv, HasImage, Private, Writable, AllUser, Process, Pushed, IsSlice, Faulted, Good, ArgsFit, ArgsOverflow;
      hide TakenUpTo, NewTables, Need, FreshNeed, HasPerms, Allows;
      ghost var s1 := memory.s;
      TakenNone(s1, root');
      ImageNeeds(s1, root', segs);
      var ok;
      ok, sz' := LoadAll(root', segs, s0, s1);
      if !ok { return Failed, sz', 0; }
      ok, sz' := AddStack(root', sz', segs, s0, s1);
      if !ok { return Failed, sz', 0; }
      ghost var s2 := memory.s;
      ProcessRoot(s2, root', sz', trampoline, trapframe);
      var base := sz' - USERSTACK * PGSIZE;
      AllowsWritable(s2, root', base / PGSIZE, sz' / PGSIZE);
      res, sp' := PushArgs(root', base, sz', argv);
      PushedProcess(s0, s2, memory.s, root', argv, if res == Done then |argv| else 0, base, sz', trampoline, trapframe);
      if res == Done {
        PushedReady(s2, memory.s, root', segs, argv, sz', sp');
      }
    }

    /** kexec up to the commit: a finished image that nobody else sees, or nothing at all. */
    method BuildImage(segs: seq<Segment>, argv: seq<seq<int>>) returns (res: Outcome, root': int, sz': int, sp': int)
      requires memory.Valid() && SegmentsOk(segs)
      modifies memory
      ensures memory.Valid()
      ensures res == Failed ==> Unharmed(old(memory.s), memory.s)
      ensures res != Failed ==>
               Private(old(memory.s), memory.s, root') && Process(memory.s, root', sz', trampoline, trapframe)
      ensures res == Done ==> Ready(memory.s, root', sz', sp', segs, argv)
      ensures res == Done <==> Buildable(|old(memory.s).list|, segs) && ArgsFit(argv, StackTop(segs))
      ensures res == Overflow <==> Buildable(|old(memory.s).list|, segs) && ArgsOverflow(argv, StackTop(segs))
    {
      hide Inv, HasImage, Private, Process, Unharmed, Building, Gone, Good, Ready, Making, ArgsFit, ArgsOverflow;
      hide NewTables;
      ghost var s0 := memory.s;
      root' := memory.ProcPagetable(trampoline, trapframe);
      if root' == 0 { return Failed, 0, 0, 0; }
      NewMaking(s0, memory.s, root', trampoline, trapframe);
      NewProcess(s0, memory.s, root', trampoline, trapframe);
      NewImage(s0, memory.s, root', segs, trampoline, trapframe, TRAPVPN * PGSIZE);
      res, sz', sp' := FillImage(root', segs, argv, s0);
      if res == Failed {
        ghost var s1 := memory.s;
        memory.ProcFreePagetable(root', sz', trampoline, trapframe);
        PrivateGone(s0, s1, memory.s, root');
      }
    }

    /** kexec: on failure the process is as it was and every new page is free again; on success the new image
        runs from entry with its arguments, and everything the old image had is free. With exactly MAXARG
        arguments that fit, kexec writes past the end of its array instead; what follows then is not modelled. */
    method KExec(isElf: bool, segs: seq<Segment>, argv: seq<seq<int>>, entry: int) returns (res: Outcome, argc: int)
      requires memory.Valid() && Process(memory.s, root, sz, trampoline, trapframe) && SegmentsOk(segs)
      modifies this, memory
      ensures memory.Valid() && Process(memory.s, root, sz, trampoline, trapframe)
      ensures res == Done ==> argc == |argv| && isElf && epc == entry && a1 == sp
      ensures res == Done ==>
               Replaced(old(memory.s), memory.s, old(root), root) && Ready(memory.s, root, sz, sp, segs, argv)
      ensures res != Done ==> root == old(root) && sz == old(sz) && a1 == old(a1) && epc == old(epc) && sp == old(sp)
      ensures res == Failed ==> argc == -1 && Unharmed(old(memory.s), memory.s)
      ensures res == Done <==> isElf && Buildable(|old(memory.s).list|, segs) && ArgsFit(argv, StackTop(segs))
      ensures res == Overflow <==> isElf && Buildable(|old(memory.s).list|, segs) && ArgsOverflow(argv, StackTop(segs))
    {
      hide Inv, Ready, Private, Process, Unharmed, Gone, Replaced, Buildable, ArgsFit, ArgsOverflow;
      ghost var s0 := memory.s;
      UnharmedSelf(s0);
      if !isElf { return Failed, -1; }
      var root', sz', sp';
      res, root', sz', sp' := BuildImage(segs, argv);
      if res == Failed {
        UnharmedProcess(s0, memory.s, root, sz, trampoline, trapframe);
        return res, -1;
      }
      ghost var s1 := memory.s;
      OldProcess(s0, s1, root, root', sz, trampoline, trapframe);
      if res == Overflow { return res, -1; }
      a1 := sp';
      var oldroot, oldsz := root, sz;
      root, sz, epc, sp := root', sz', entry, sp';
      memory.ProcFreePagetable(oldroot, oldsz, trampoline, trapframe);
      GoneReplaced(s0, s1, memory.s, oldroot, root');
      GoneReady(s1, memory.s, oldroot, root', sz', sp', segs, argv);
      GoneProcess(s1, memory.s, oldroot, root', sz', trampoline, trapframe);
      argc := |argv|;
    }
  }
}
