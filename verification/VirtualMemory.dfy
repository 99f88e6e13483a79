/** kernel/kalloc.c and kernel/vm.c: page allocation and user page tables.

    The ghost state `s` records who has each page and what is mapped where (see VmTable); every method says
    how it changes. Virtual addresses are page numbers here, except where sizes in bytes are rounded. */
module VirtualMemory {
  import opened VmTable
  import opened VmFree
  import opened VmChange
  import opened VmBytes
  import opened VmReach
  import opened VmSpace

  class Memory {
    var mem: map<int, Page>
    var freelist: int
    ghost var s: Vm

    /** The state with entry hi of table hf still to be written; Valid() has no such entry. */
    ghost predicate Ok(hf: int, hi: int)
      reads this
    {
      s.mem == mem && freelist == Top(s.list) && Inv(s, hf, hi) && |s.own| <= NPAGES
    }

    ghost predicate Valid()
      reads this
    {
      Ok(-1, 0)
    }

    /** kinit: the pages lo to hi are all free, whatever is in them. */
    constructor (pages: map<int, Page>, lo: int, hi: int)
      requires 0 < lo <= hi && |pages| <= NPAGES && forall f :: f in pages <==> lo <= f < hi
      ensures Valid()
      ensures forall f :: f in s.own <==> lo <= f < hi
      ensures forall f :: f in s.own ==> s.own[f].Free?
      ensures s.node == map[] && s.leaf == map[] && |s.list| == hi - lo
    {
      mem, freelist, s := pages, 0, AtBoot(pages);
      new;
      AtBootInv(pages);
      FreeRange(lo, hi);
    }

    /** freerange: frees the pages lo to hi, one by one. */
    method FreeRange(lo: int, hi: int)
      requires Valid() && lo <= hi && forall f :: lo <= f < hi ==> f in s.own && s.own[f] == Loose
      modifies this
      ensures Valid() && s.node == old(s).node && s.leaf == old(s).leaf && |s.list| == |old(s).list| + hi - lo
      ensures forall f :: f in s.own <==> f in old(s).own
      ensures forall f :: f in s.own ==> if lo <= f < hi then s.own[f].Free? else s.own[f] == old(s).own[f]
    {
      hide Inv;
      var p := lo;
      while p < hi
        invariant lo <= p <= hi && Valid() && s.node == old(s).node && s.leaf == old(s).leaf
        invariant |s.list| == |old(s).list| + p - lo
        invariant forall f :: f in s.own <==> f in old(s).own
        invariant forall f :: f in s.own ==> if lo <= f < p then s.own[f].Free? else s.own[f] == old(s).own[f]
      {
        KFree(p, -1, 0);
        p := p + 1;
      }
    }

    /** kalloc: 0 when no page is free. */
    method KAlloc() returns (f: int)
      requires Valid()
      modifies this
      ensures Valid()
      ensures f == 0 <==> old(s).list == []
      ensures f == 0 ==> s == old(s)
      ensures f != 0 ==> s == Alloc(old(s)) && f == Top(old(s).list) && f in s.own && s.own[f] == Loose
      ensures f != 0 ==> 0 < f && f in old(s).own && old(s).own[f].Free?
    {
      f := freelist;
      TopIsPage(s);
      if f != 0 {
        AllocKeepsInv(s, -1, 0);
        freelist := mem[f].next;
        mem := mem[f := Bytes(Filled(5))];
        s := Alloc(s);
      }
    }

    /** kfree: its panic is the precondition that the page is in hand. */
    method KFree(f: int, ghost hf: int, ghost hi: int)
      requires Ok(hf, hi) && f in s.own && s.own[f] == Loose
      modifies this
      ensures Ok(hf, hi) && s == Release(old(s), f)
    {
      ReleaseKeepsInv(s, f, hf, hi);
      mem := mem[f := Run(freelist)];
      freelist := f;
      s := Release(s, f);
    }

    /** A page in hand becomes an empty table below entry i of table t. */
    method LinkNew(t: int, i: int, f: int, ghost k: Key)
      requires Valid() && k in s.node && s.node[k] == t && 0 < k.level && 0 <= i < ENTRIES && Child(k, i) !in s.node
      requires f in s.own && s.own[f] == Loose
      modifies this
      ensures IsTable(old(s).mem, t) && Valid() && s == Linked(old(s), k, i, f)
    {
      hide Inv;
      EntryAt(s, k, i);
      ParentOfChild(k, i);
      AddTableKeepsInv(s, Child(k, i), f, t, i);
      s := AddTable(s, Child(k, i), f);
      SetEntryKeepsInv(s, k, i, Pte(f, true, false, false, false, false));
      mem := mem[f := Ptes(NoPtes())];
      mem := mem[t := Ptes(mem[t].e[i := Pte(f, true, false, false, false, false)])];
      s := SetEntry(s, k, i, Pte(f, true, false, false, false, false));
    }

    /** One turn of walk's loop: the table below entry i of table t, made if need be and allowed. */
    method Descend(t: int, i: int, alloc: bool, ghost k: Key) returns (t': int)
      requires Valid() && k in s.node && s.node[k] == t && 0 < k.level && 0 <= i < ENTRIES
      modifies this
      ensures Valid() && Grown(old(s), s, k.root)
      ensures t' == 0 <==> Child(k, i) !in old(s).node && (!alloc || old(s).list == [])
      ensures t' != 0 ==> Child(k, i) in s.node && s.node[Child(k, i)] == t' && 0 < t'
      ensures t' == 0 || Child(k, i) in old(s).node ==> s == old(s)
      ensures t' != 0 && Child(k, i) !in old(s).node ==>
                |s.list| == |old(s).list| - 1 && forall k2 :: k2 in s.node <==> k2 in old(s).node || k2 == Child(k, i)
    {
      hide Inv;
      EntryAt(s, k, i);
      GrownSelf(s, k.root);
      var pte := mem[t].e[i];
      if pte.v {
        return pte.ppn;
      }
      if !alloc { return 0; }
      t' := KAlloc();
      if t' == 0 { return; }
      LinkGrown(old(s), k, i);
      LinkNew(t, i, t', k);
    }

    /** walk: where the entry of a virtual page is; 0 if a table is missing and may not or cannot be made. */
    method Walk(root: int, vpn: int, alloc: bool) returns (t: int)
      requires Valid() && Key(root, 2, 0) in s.node && 0 <= vpn < MAXVPN
      modifies this
      ensures Valid() && Grown(old(s), s, root)
      ensures t == 0 <==>
              (if alloc then |old(s).list| < Missing(old(s), root, vpn, 2) else 0 < Missing(old(s), root, vpn, 2))
      ensures t != 0 ==> Low(Va(root, vpn)) in s.node && s.node[Low(Va(root, vpn))] == t
      ensures !alloc || Missing(old(s), root, vpn, 2) == 0 ==> s == old(s)
      ensures t != 0 ==> |s.list| == |old(s).list| - Missing(old(s), root, vpn, 2)
      ensures t != 0 ==> TablesFor(old(s), s, root, vpn)
    {
      hide Inv, Grown;
      GrownSelf(s, root);
      RootAt(s, root);
      t := root;
      var level := 2;
      while level > 0
        invariant 0 <= level <= 2 && Valid() && Grown(old(s), s, root)
        invariant OnWay(root, vpn, level) in s.node && s.node[OnWay(root, vpn, level)] == t && 0 < t
        invariant |old(s).list| - |s.list| == Missing(old(s), root, vpn, 2) - Missing(s, root, vpn, level)
        invariant !alloc || Missing(old(s), root, vpn, 2) == 0 ==> s == old(s)
        invariant forall k :: k in s.node <==>
                    || k in old(s).node
                    || (level <= 1 && k == OnWay(root, vpn, 1))
                    || (level == 0 && k == OnWay(root, vpn, 0))
      {
        ghost var s0 := s;
        ghost var k := OnWay(root, vpn, level);
        NextOnWay(root, vpn, level);
        t := Descend(t, Index(vpn, level), alloc, k);
        GrownTrans(old(s), s0, s, root);
        if t == 0 { return; }
        MissingStep(s0, s, root, vpn, level);
        level := level - 1;
      }
    }

    /** mappages, for one page; it panics exactly if the virtual page is mapped. */
    method MapPage(root: int, vpn: int, p: Pte) returns (r: Mapping)
      requires Valid() && Key(root, 2, 0) in s.node && 0 <= vpn < MAXVPN && p.v && p.r
      requires Va(root, vpn) !in s.leaf ==> InHand(s, Va(root, vpn), p)
      modifies this
      ensures Valid()
      ensures r == Remap <==> Va(root, vpn) in old(s).leaf
      ensures r == Fine <==> Va(root, vpn) !in old(s).leaf && Missing(old(s), root, vpn, 2) <= |old(s).list|
      ensures r == Remap ==> s == old(s)
      ensures r == OutOfMemory ==> Grown(old(s), s, root)
      ensures r == Fine ==> Mapped(old(s), s, Va(root, vpn), p) && TablesFor(old(s), s, root, vpn)
      ensures r == Fine ==> |s.list| == |old(s).list| - Missing(old(s), root, vpn, 2)
    {
      hide Inv, Grown, Mapped, InHand;
      ghost var va := Va(root, vpn);
      Lookup(s, va);
      var t := Walk(root, vpn, true);
      if t == 0 { return OutOfMemory; }
      ghost var s1 := s;
      EntryAt(s, Low(va), vpn % ENTRIES);
      GrownLeaves(old(s), s, root);
      Lookup(s, va);
      if mem[t].e[vpn % ENTRIES].v { return Remap; }
      CanMap(old(s), s, va, p);
      AttachKeepsInv(s, va, p);
      s := Attach(s, va, p);
      SetEntryKeepsInv(s, Low(va), vpn % ENTRIES, p);
      mem := mem[t := Ptes(mem[t].e[vpn % ENTRIES := p])];
      s := SetEntry(s, Low(va), vpn % ENTRIES, p);
      MapChange(old(s), s1, va, p);
      r := Fine;
    }

    /** A turn of uvmalloc's loop, and the end of vmfault: maps a new zeroed page, or frees it again. */
    method MapZero(root: int, vpn: int, w: bool, x: bool) returns (r: Mapping, f: int)
      requires Valid() && Key(root, 2, 0) in s.node && 0 <= vpn < MAXVPN
      requires Va(root, vpn) !in s.leaf ==> vpn < TRAPVPN
      modifies this
      ensures Valid()
      ensures r == Remap <==> Va(root, vpn) in old(s).leaf && old(s).list != []
      ensures r == Fine <==> Va(root, vpn) !in old(s).leaf && Missing(old(s), root, vpn, 2) < |old(s).list|
      ensures r == OutOfMemory ==> Grown(old(s), s, root) && f == 0
      ensures r == Fine ==>
                Extended(old(s), s, root, vpn, vpn + 1, w, x) && 0 < f == s.leaf[Va(root, vpn)].ppn
      ensures r == Fine ==>
                |s.list| == |old(s).list| - Missing(old(s), root, vpn, 2) - 1 && TablesFor(old(s), s, root, vpn)
    {
      hide Inv, Grown, Extended, Mapped;
      GrownSelf(s, root);
      f := KAlloc();
      if f == 0 { return OutOfMemory, 0; }
      ghost var s1 := s;
      WriteKeepsInv(s, f, Filled(0), -1, 0);
      mem := mem[f := Bytes(Filled(0))];
      s := s.(mem := mem);
      ghost var s2 := s;
      var p := Pte(f, true, true, w, x, true);
      r := MapPage(root, vpn, p);
      if r == Fine {
        ZeroMapped(old(s), s, Va(root, vpn), p);
      } else if r == OutOfMemory {
        GrownLoose(s2, s, root, f);
        ZeroReleased(old(s), s, root);
        KFree(f, -1, 0);
        f := 0;
      }
    }

    /** uvmalloc's loop, in page numbers. It grows exactly if there are pages for all of it; with pages up to the
        trapframe and one more, it meets the trapframe and panics. */
    method GrowRange(root: int, lo: int, hi: int, w: bool, x: bool) returns (r: Mapping)
      requires Valid() && Key(root, 2, 0) in s.node && 0 <= lo <= TRAPVPN &&
               (TRAPVPN < hi ==> Va(root, TRAPVPN) in s.leaf)
      requires forall va :: va in s.leaf && User(va) ==> !Within(va, root, lo, hi)
      modifies this
      ensures Valid()
      ensures r == Fine <==> hi <= lo || (hi <= TRAPVPN && Need(old(s), root, lo, hi) <= |old(s).list|)
      ensures r == Remap <==> TRAPVPN < hi && Need(old(s), root, lo, TRAPVPN) < |old(s).list|
      ensures r == Fine ==> Extended(old(s), s, root, lo, if lo < hi then hi else lo, w, x)
      ensures r == Fine ==> |s.list| == |old(s).list| - Need(old(s), root, lo, hi)
      ensures r == Fine ==> TablesUpTo(old(s), s, root, lo, if lo < hi then hi else lo)
      ensures r == OutOfMemory ==> Grown(old(s), s, root)
    {
      hide Inv, Extended, Grown, Shrunk, TablesUpTo, TablesFor, NeedAt, Missing;
      ExtendedNone(s, root, lo, w, x);
      TablesNone(s, root, lo);
      var a := lo;
      while a < hi
        invariant lo <= a <= TRAPVPN && (a <= hi || a == lo) && Valid() && Extended(old(s), s, root, lo, a, w, x)
        invariant TablesUpTo(old(s), s, root, lo, a) && |s.list| == |old(s).list| - Need(old(s), root, lo, a)
      {
        ghost var s0 := s;
        assert Within(Va(root, a), root, lo, hi);
        ExtendedNode(old(s), s, root, lo, a, w, x);
        MissingIsNeed(old(s), s, root, lo, a);
        NeedGrows(old(s), root, lo, a + 1, if hi <= TRAPVPN then hi else if a < TRAPVPN then TRAPVPN else a + 1);
        var f;
        r, f := MapZero(root, a, w, x);
        if r == Remap { return; }
        if r == OutOfMemory {
          ghost var s1 := s;
          GrownNode(s0, s, root);
          UvmUnmap(root, lo, a - lo);
          ExtendedUndone(old(s), s0, s1, s, root, lo, a, w, x);
          return;
        }
        ExtendedMore(old(s), s0, s, root, lo, a, w, x);
        TablesMore(old(s), s0, s, root, lo, a);
        a := a + 1;
      }
      return Fine;
    }

    /** uvmalloc: maps the pages from oldsz to newsz, or none of them; or it panics at the trapframe. */
    method UvmAlloc(root: int, oldsz: int, newsz: int, w: bool, x: bool) returns (r: Mapping, sz: int)
      requires Valid() && Key(root, 2, 0) in s.node && 0 <= oldsz && 0 <= newsz && Pages(oldsz) <= TRAPVPN
      requires TRAPVPN < Pages(newsz) ==> Va(root, TRAPVPN) in s.leaf
      requires forall va :: va in s.leaf && User(va) ==> !Within(va, root, Pages(oldsz), Pages(newsz))
      modifies this
      ensures Valid()
      ensures r == Fine <==>
                || newsz < oldsz
                || (Pages(newsz) <= TRAPVPN && Need(old(s), root, Pages(oldsz), Pages(newsz)) <= |old(s).list|)
      ensures r == Remap <==> TRAPVPN < Pages(newsz) && Need(old(s), root, Pages(oldsz), TRAPVPN) < |old(s).list|
      ensures newsz < oldsz ==> sz == oldsz && s == old(s)
      ensures oldsz <= newsz && r == Fine ==> sz == newsz && Extended(old(s), s, root, Pages(oldsz), Pages(newsz), w, x)
      ensures oldsz <= newsz && r == Fine ==> |s.list| == |old(s).list| - Need(old(s), root, Pages(oldsz), Pages(newsz))
      ensures oldsz <= newsz && r == Fine ==> TablesUpTo(old(s), s, root, Pages(oldsz), Pages(newsz))
      ensures r == OutOfMemory ==> sz == 0 && Grown(old(s), s, root)
    {
      hide Inv, Extended, Grown, Need, TablesUpTo;
      if newsz < oldsz { return Fine, oldsz; }
      NoNeed(s, root, Pages(oldsz));
      r := GrowRange(root, Pages(oldsz), Pages(newsz), w, x);
      sz := if r == Fine then newsz else 0;
    }

    /** uvmdealloc */
    method UvmDealloc(root: int, oldsz: int, newsz: int) returns (sz: int)
      requires Valid() && Key(root, 2, 0) in s.node && 0 <= oldsz && 0 <= newsz && Pages(oldsz) <= TRAPVPN
      modifies this
      ensures Valid()
      ensures sz == if newsz < oldsz then newsz else oldsz
      ensures Shrunk(old(s), s, root, Pages(sz), Pages(oldsz))
    {
      hide Inv, Shrunk;
      ShrunkNone(s, root, Pages(oldsz));
      if newsz >= oldsz { return oldsz; }
      if Pages(newsz) < Pages(oldsz) {
        UvmUnmap(root, Pages(newsz), Pages(oldsz) - Pages(newsz));
      }
      return newsz;
    }

    /** freewalk: frees table t and every table below it, each once; it never meets a mapping. The entry above
        t still points to it afterwards. */
    method FreeWalk(t: int, ghost k: Key)
      requires Valid() && k in s.node && s.node[k] == t && KeyOk(k)
      requires forall va :: va in s.leaf ==> va.root != k.root
      modifies this
      ensures Ok(Above(old(s), k), k.prefix % ENTRIES) && Cut(old(s), s, k, ENTRIES, true)
      decreases k.level
    {
      hide Inv, Cut, Below;
      CutNone(s, k);
      EntryIsTable(s, k, 0);
      var i := 0;
      while i < ENTRIES
        invariant 0 <= i <= ENTRIES && Valid() && Cut(old(s), s, k, i, false)
        invariant k in s.node && s.node[k] == t && s.leaf == old(s).leaf
      {
        EntryIsTable(s, k, i);
        var pte := mem[t].e[i];
        ghost var s0 := s;
        if pte.v && !pte.r && !pte.w && !pte.x {
          FreeWalk(pte.ppn, Child(k, i));
          CutFacts(s0, s, k, i);
          CutMore(old(s), s0, s, k, i);
          SetEntryKeepsInv(s, k, i, NoPte);
          CutThenWrite(old(s), s, k, i, NoPte);
          mem := mem[t := Ptes(mem[t].e[i := NoPte])];
          s := SetEntry(s, k, i, NoPte);
        } else if pte.v {
          assert false;
        } else if k.level == 0 {
          CutLowest(old(s), s, k, i);
        } else {
          CutNothing(old(s), s, k, i);
        }
        i := i + 1;
      }
      CutBare(old(s), s, k);
      CutAll(old(s), s, k);
      ParentKept(old(s), s, k);
      DropTableKeepsInv(s, k, Above(old(s), k), k.prefix % ENTRIES);
      s := DropTable(s, k);
      KFree(t, Above(old(s), k), k.prefix % ENTRIES);
    }

    /** A turn of uvmcopy's loop: gives the child its own copy of a page the parent has. */
    method CopyPage(old': int, new': int, vpn: int) returns (ok: bool)
      requires Valid() && Key(old', 2, 0) in s.node && Key(new', 2, 0) in s.node && old' != new'
      requires 0 <= vpn < TRAPVPN && Va(new', vpn) !in s.leaf
      modifies this
      ensures Valid()
      ensures if ok then Copied(old(s), s, old', new', vpn, vpn + 1) else Grown(old(s), s, new')
      ensures Va(old', vpn) !in old(s).leaf ==> ok && s == old(s)
      ensures Va(old', vpn) in old(s).leaf ==> (ok <==> Missing(old(s), new', vpn, 2) < |old(s).list|)
      ensures Va(old', vpn) in old(s).leaf && ok ==>
                |s.list| == |old(s).list| - Missing(old(s), new', vpn, 2) - 1 && TablesFor(old(s), s, new', vpn)
    {
      hide Inv, Grown, Mapped, Copied;
      CopiedNone(s, old', new', vpn);
      GrownSelf(s, new');
      Lookup(s, Va(old', vpn));
      var t := Walk(old', vpn, false);
      if t == 0 { return true; }
      EntryAt(s, Low(Va(old', vpn)), vpn % ENTRIES);
      var pte := mem[t].e[vpn % ENTRIES];
      if !pte.v { return true; }
      SourcePage(s, old', vpn);
      var f := KAlloc();
      if f == 0 { return false; }
      WriteKeepsInv(s, f, mem[pte.ppn].b, -1, 0);
      mem := mem[f := mem[pte.ppn]];
      s := s.(mem := mem);
      ghost var s2 := s;
      var r := MapPage(new', vpn, pte.(ppn := f));
      ok := r == Fine;
      if ok {
        CopyMapped(old(s), s, old', new', vpn);
      } else {
        GrownLoose(s2, s, new', f);
        CopyReleased(old(s), s, old', new', vpn);
        KFree(f, -1, 0);
      }
    }

    /** The turn of uvmcopy's loop at the trapframe, which both have. Its bytes are not modelled. */
    method CopyTrapframe(old': int, new': int) returns (r: Mapping)
      requires Valid() && Key(old', 2, 0) in s.node && Key(new', 2, 0) in s.node
      requires Va(old', TRAPVPN) in s.leaf && Va(new', TRAPVPN) in s.leaf
      modifies this
      ensures Valid() && r != Fine && (r == Remap <==> old(s).list != []) && (r == OutOfMemory ==> s == old(s))
    {
      hide Inv, Grown, Mapped;
      Lookup(s, Va(old', TRAPVPN));
      var t := Walk(old', TRAPVPN, false);
      EntryAt(s, Low(Va(old', TRAPVPN)), TRAPVPN % ENTRIES);
      var pte := mem[t].e[TRAPVPN % ENTRIES];
      var f := KAlloc();
      if f == 0 { return OutOfMemory; }
      r := MapPage(new', TRAPVPN, pte.(ppn := f));
    }

    /** uvmcopy: the child gets a copy of every page the parent has below sz, or no page at all; if sz is beyond the
        trapframe, mappages panics there, or memory runs out before. */
    method UvmCopy(old': int, new': int, sz: int) returns (r: Mapping)
      requires Valid() && Key(old', 2, 0) in s.node && Key(new', 2, 0) in s.node && old' != new'
      requires 0 <= sz && (TRAPVPN < Pages(sz) ==> Va(old', TRAPVPN) in s.leaf && Va(new', TRAPVPN) in s.leaf)
      requires forall va :: va in s.leaf && User(va) ==> !Within(va, new', 0, Pages(sz))
      modifies this
      ensures Valid()
      ensures r == Fine <==> Pages(sz) <= TRAPVPN && CopyNeed(old(s), old', new', Pages(sz)) <= |old(s).list|
      ensures r == Remap <==> TRAPVPN < Pages(sz) && CopyNeed(old(s), old', new', TRAPVPN) < |old(s).list|
      ensures r == Fine ==> Copied(old(s), s, old', new', 0, Pages(sz))
      ensures r == OutOfMemory ==> Grown(old(s), s, new')
    {
      hide Inv, Grown, Copied, Shrunk, TablesCopied, TablesFor, CopyNeedAt, Missing;
      CopiedNone(s, old', new', 0);
      NothingTraversed(s, old', new');
      var n := Pages(sz);
      var i := 0;
      while i < n
        invariant 0 <= i <= n && i <= TRAPVPN && Valid() && Copied(old(s), s, old', new', 0, i)
        invariant TablesCopied(old(s), s, old', new', i) && |s.list| == |old(s).list| - CopyNeed(old(s), old', new', i)
      {
        ghost var s0 := s;
        assert i < TRAPVPN ==> Within(Va(new', i), new', 0, n);
        CopiedNode(old(s), s, old', new', i);
        if i < TRAPVPN {
          r := CopyNext(old', new', i, old(s), if n <= TRAPVPN then n else TRAPVPN);
        } else {
          GrownSelf(s, new');
          r := CopyTrapframe(old', new');
          if r == Remap { return; }
        }
        if r == OutOfMemory {
          ghost var s1 := s;
          GrownNode(s0, s, new');
          UvmUnmap(new', 0, i);
          CopiedUndone(old(s), s0, s1, s, old', new', i);
          return;
        }
        CopiedMore(old(s), s0, s, old', new', i);
        i := i + 1;
      }
      r := Fine;
    }

    /** Any other turn, with what it takes of the whole need. */
    method CopyNext(old': int, new': int, i: int, ghost sa: Vm, ghost end: int) returns (r: Mapping)
      requires Valid() && Key(old', 2, 0) in s.node && Key(new', 2, 0) in s.node && old' != new'
      requires 0 <= i < end <= TRAPVPN && Va(new', i) !in s.leaf && (Va(old', i) in s.leaf <==> Va(old', i) in sa.leaf)
      requires TablesCopied(sa, s, old', new', i) && |s.list| == |sa.list| - CopyNeed(sa, old', new', i)
      modifies this
      ensures Valid() && r != Remap
      ensures if r == Fine then Copied(old(s), s, old', new', i, i + 1) else Grown(old(s), s, new')
      ensures r == Fine ==> TablesCopied(sa, s, old', new', i + 1)
      ensures r == Fine ==> |s.list| == |sa.list| - CopyNeed(sa, old', new', i + 1)
      ensures r != Fine ==> |sa.list| < CopyNeed(sa, old', new', end)
    {
      hide Inv, Grown, Copied, TablesCopied, TablesFor, CopyNeedAt, Missing;
      ghost var s0 := s;
      CopyNeedGrows(sa, old', new', i + 1, end);
      var ok := CopyPage(old', new', i);
      if Va(old', i) in sa.leaf {
        PageCopied(sa, s0, s, old', new', i);
      } else {
        NothingCopied(sa, s0, old', new', i);
      }
      r := if ok then Fine else OutOfMemory;
    }

    /** uvmclear */
    method UvmClear(root: int, vpn: int)
      requires Valid() && Va(root, vpn) in s.leaf && Key(root, 2, 0) in s.node && 0 <= vpn < MAXVPN
      modifies this
      ensures Valid() && s.own == old(s).own && s.node == old(s).node && s.list == old(s).list
      ensures s.leaf == old(s).leaf[Va(root, vpn) := old(s).leaf[Va(root, vpn)].(u := false)]
      ensures forall f :: f in s.own && !s.own[f].Table? ==> f in old(s).mem && f in s.mem && s.mem[f] == old(s).mem[f]
    {
      hide Inv, Grown;
      ghost var va := Va(root, vpn);
      Lookup(s, va);
      var t := Walk(root, vpn, false);
      EntryAt(s, Low(va), vpn % ENTRIES);
      OwnedInMemory(s);
      var p := mem[t].e[vpn % ENTRIES].(u := false);
      RemapKeepsInv(s, va, p);
      s := s.(leaf := s.leaf[va := p]);
      SetEntryKeepsInv(s, Low(va), vpn % ENTRIES, p);
      mem := mem[t := Ptes(mem[t].e[vpn % ENTRIES := p])];
      s := SetEntry(s, Low(va), vpn % ENTRIES, p);
    }

    /** uvmcreate: an empty address space, named by the page of its root table. */
    method UvmCreate() returns (root: int)
      requires Valid()
      modifies this
      ensures Valid()
      ensures root == 0 <==> old(s).list == []
      ensures root == 0 ==> s == old(s)
      ensures root != 0 ==> Created(old(s), s, root)
    {
      hide Inv;
      root := KAlloc();
      if root == 0 { return; }
      NoSuchRoot(s, root);
      CreateChange(old(s), root);
      AddTableKeepsInv(s, Key(root, 2, 0), root, -1, 0);
      mem := mem[root := Ptes(NoPtes())];
      s := AddTable(s, Key(root, 2, 0), root);
    }

    /** uvmfree: with only user pages below sz mapped, all that the address space had is free afterwards. */
    method UvmFree(root: int, sz: int)
      requires Valid() && Key(root, 2, 0) in s.node && 0 <= sz && Pages(sz) <= TRAPVPN
      requires forall va :: va in s.leaf && va.root == root ==> va.vpn < Pages(sz)
      modifies this
      ensures Valid() && Gone(old(s), s, root)
    {
      hide Inv, Shrunk, Gone, Cut;
      ShrunkNone(s, root, 0);
      if sz > 0 {
        UvmUnmap(root, 0, Pages(sz));
      }
      ghost var s1 := s;
      ShrunkAll(old(s), s, root, Pages(sz));
      RootAt(s, root);
      FreeWalk(root, Key(root, 2, 0));
      CutRoot(s1, s, root);
      ShrunkGone(old(s), s1, s, root, Pages(sz));
    }

    /** One turn of uvmunmap's loop. */
    method UnmapPage(root: int, vpn: int, free: bool)
      requires Valid() && Key(root, 2, 0) in s.node && 0 <= vpn < MAXVPN && (free ==> User(Va(root, vpn)))
      modifies this
      ensures Valid()
      ensures if Va(root, vpn) in old(s).leaf then Unmapped(old(s), s, Va(root, vpn), free) else s == old(s)
    {
      hide Inv, Grown, Unmapped;
      ghost var va := Va(root, vpn);
      Lookup(s, va);
      var t := Walk(root, vpn, false);
      if t == 0 { return; }
      EntryAt(s, Low(va), vpn % ENTRIES);
      var pte := mem[t].e[vpn % ENTRIES];
      if !pte.v { return; }
      DetachKeepsInv(s, va);
      UnmapChange(s, va, free);
      s := Detach(s, va);
      if free {
        KFree(pte.ppn, t, vpn % ENTRIES);
      }
      SetEntryKeepsInv(s, Low(va), vpn % ENTRIES, NoPte);
      mem := mem[t := Ptes(mem[t].e[vpn % ENTRIES := NoPte])];
      s := SetEntry(s, Low(va), vpn % ENTRIES, NoPte);
    }

    /** uvmunmap, freeing the pages. */
    method UvmUnmap(root: int, vpn: int, n: int)
      requires Valid() && Key(root, 2, 0) in s.node && 0 <= vpn && 0 <= n && vpn + n <= TRAPVPN
      modifies this
      ensures Valid() && Shrunk(old(s), s, root, vpn, vpn + n)
    {
      hide Inv, Shrunk, Unmapped;
      ShrunkNone(s, root, vpn);
      var a := vpn;
      while a < vpn + n
        invariant vpn <= a <= vpn + n && Valid() && Shrunk(old(s), s, root, vpn, a)
      {
        ghost var s0 := s;
        ShrunkNode(old(s), s, root, vpn, a);
        UnmapPage(root, a, true);
        ShrunkMore(old(s), s0, s, root, vpn, a);
        a := a + 1;
      }
    }

    /** walkaddr: the page of a virtual page that user code may touch; 0 if there is none. */
    method WalkAddr(root: int, vpn: int) returns (f: int)
      requires Valid() && Key(root, 2, 0) in s.node && 0 <= vpn
      modifies this
      ensures Valid() && s == old(s)
      ensures f != 0 <==> Va(root, vpn) in s.leaf && s.leaf[Va(root, vpn)].u
      ensures f != 0 ==> f == s.leaf[Va(root, vpn)].ppn && vpn < TRAPVPN
    {
      hide Inv, Grown;
      MappedBelow(s, Va(root, vpn));
      if vpn >= MAXVPN { return 0; }
      Lookup(s, Va(root, vpn));
      var t := Walk(root, vpn, false);
      if t == 0 { return 0; }
      EntryAt(s, Low(Va(root, vpn)), vpn % ENTRIES);
      var pte := mem[t].e[vpn % ENTRIES];
      if !pte.v { return 0; }
      if !pte.u { return 0; }
      return pte.ppn;
    }

    /** vmfault: maps a zeroed page if the address is below sz, not mapped, and memory allows; no process sees
        a difference. If sz is beyond MAXVA, walk panics for addresses from there on. */
    method VmFault(root: int, va: int, sz: int) returns (f: int, panics: bool)
      requires Valid() && Key(root, 2, 0) in s.node && 0 <= va && 0 <= sz
      requires TRAPVPN < Pages(sz) ==> Va(root, TRAPVPN) in s.leaf && Va(root, MAXVPN - 1) in s.leaf
      modifies this
      ensures Valid() && Faulted(old(s), s, root, sz) && SameMemory(old(s), s)
      ensures panics <==> MAXVPN <= va / PGSIZE && va < sz
      ensures f != 0 <==>
               va < sz && va / PGSIZE < MAXVPN && Va(root, va / PGSIZE) !in old(s).leaf &&
               Missing(old(s), root, va / PGSIZE, 2) + 1 <= |old(s).list|
      ensures f != 0 ==> va / PGSIZE < TRAPVPN && Va(root, va / PGSIZE) in s.leaf
      ensures f != 0 ==> s.leaf[Va(root, va / PGSIZE)] == Pte(f, true, true, true, false, true)
      ensures f != 0 ==> Paged(old(s), s, root, va / PGSIZE)
    {
      hide Inv, Grown, Extended, Faulted, SameMemory, TablesFor, Missing;
      GrownSelf(s, root);
      GrownFaulted(s, s, root, sz);
      GrownSameMemory(s, s, root);
      panics := false;
      if va >= sz { return 0, false; }
      var vpn := va / PGSIZE;
      if vpn >= MAXVPN { return 0, true; }
      var mapped := IsMapped(root, vpn);
      if mapped { return 0, false; }
      var r;
      r, f := MapZero(root, vpn, true, false);
      if f == 0 {
        GrownFaulted(old(s), s, root, sz);
        GrownSameMemory(old(s), s, root);
      } else {
        ExtendedFaulted(old(s), s, root, vpn, sz);
        ExtendedSameMemory(old(s), s, root, vpn, vpn + 1, true, false);
        ExtendedAt(old(s), s, root, vpn);
        ExtendedOnly(old(s), s, root, vpn);
      }
    }

    /** ismapped */
    method IsMapped(root: int, vpn: int) returns (yes: bool)
      requires Valid() && Key(root, 2, 0) in s.node && 0 <= vpn < MAXVPN
      modifies this
      ensures Valid() && s == old(s)
      ensures yes <==> Va(root, vpn) in s.leaf
    {
      hide Inv, Grown;
      Lookup(s, Va(root, vpn));
      var t := Walk(root, vpn, false);
      if t == 0 { return false; }
      EntryAt(s, Low(Va(root, vpn)), vpn % ENTRIES);
      return mem[t].e[vpn % ENTRIES].v;
    }

    /** The page that a copy needs next: mapped already, or mapped now. */
    method Reach(root: int, vpn: int, sz: int) returns (f: int)
      requires Valid() && Key(root, 2, 0) in s.node && 0 <= vpn && 0 <= sz && Pages(sz) <= TRAPVPN
      modifies this
      ensures Valid() && Faulted(old(s), s, root, sz) && SameMemory(old(s), s)
      ensures f != 0 <==> Accessible(old(s), root, vpn, sz, false) && CanReach(old(s), root, vpn)
      ensures f != 0 ==>
               vpn < TRAPVPN && Va(root, vpn) in s.leaf && s.leaf[Va(root, vpn)].ppn == f && s.leaf[Va(root, vpn)].u
      ensures f != 0 ==> Paged(old(s), s, root, vpn)
    {
      hide Inv, Faulted, SameMemory, Grown, TablesFor, Missing;
      GrownSelf(s, root);
      GrownFaulted(s, s, root, sz);
      GrownSameMemory(s, s, root);
      f := WalkAddr(root, vpn);
      if f == 0 {
        var panics;
        f, panics := VmFault(root, vpn * PGSIZE, sz);
      }
    }

    /** Copies bytes into a user page that is mapped. */
    method Store(f: int, o: int, d: seq<int>, ghost va: Va, ghost sz: int)
      requires Valid() && va in s.leaf && User(va) && s.leaf[va].ppn == f && 0 <= o && o + |d| <= PGSIZE
      modifies this
      ensures Valid() && Faulted(old(s), s, va.root, sz) && s.leaf == old(s).leaf && s.list == old(s).list
      ensures s.node == old(s).node
      ensures Written(old(s), s, va.root, va.vpn * PGSIZE + o, d)
    {
      hide Inv, Faulted, Written;
      SourcePage(s, va.root, va.vpn);
      PageIs(s, va);
      WritePage(s, va, o, d);
      mem := mem[f := Bytes(mem[f].b[..o] + d + mem[f].b[o + |d|..])];
      FaultedWrite(s, va, mem[f].b, sz);
      s := s.(mem := mem);
    }

    /** One turn of copyout's loop: bytes for one page. */
    method CopyOutPage(root: int, at: int, d: seq<int>, sz: int) returns (ok: bool)
      requires Valid() && Key(root, 2, 0) in s.node && 0 <= at && 0 <= sz && Pages(sz) <= TRAPVPN
      requires |d| <= PGSIZE - at % PGSIZE
      modifies this
      ensures Valid() && Faulted(old(s), s, root, sz)
      ensures ok <==> Accessible(old(s), root, at / PGSIZE, sz, true) && CanReach(old(s), root, at / PGSIZE)
      ensures if ok then Written(old(s), s, root, at, d) else SameMemory(old(s), s)
      ensures ok ==> Paged(old(s), s, root, at / PGSIZE) && at / PGSIZE < MAXVPN
    {
      hide Inv, Faulted, SameMemory, Written, Grown, Paged, CanReach;
      var vpn := at / PGSIZE;
      GrownSelf(s, root);
      GrownFaulted(s, s, root, sz);
      GrownSameMemory(s, s, root);
      MappedBelow(s, Va(root, vpn));
      if vpn >= MAXVPN { return false; }
      var f := Reach(root, vpn, sz);
      if f == 0 { return false; }
      ghost var s1 := s;
      FaultedAccess(old(s), s, root, sz, vpn, true);
      Lookup(s, Va(root, vpn));
      FaultedNode(old(s), s, root, sz);
      var t := Walk(root, vpn, false);
      EntryAt(s, Low(Va(root, vpn)), vpn % ENTRIES);
      if !mem[t].e[vpn % ENTRIES].w { return false; }
      var o := at % PGSIZE;
      Store(f, o, d, Va(root, vpn), sz);
      PagedStays(old(s), s1, s, root, vpn);
      FaultedTrans(old(s), s1, s, root, sz);
      WrittenNone(old(s), s1, root, at);
      WrittenMore(old(s), s1, s, root, at, [], d);
      assert [] + d == d;
      ok := true;
    }

    /** copyout: writes exactly the bytes of src, or a prefix of them when a page cannot be written or had. */
    method CopyOut(root: int, dst: int, src: seq<int>, sz: int) returns (ok: bool, ghost done: int)
      requires Valid() && Key(root, 2, 0) in s.node && 0 <= dst && 0 <= sz && Pages(sz) <= TRAPVPN
      modifies this
      ensures Valid() && Faulted(old(s), s, root, sz)
      ensures 0 <= done <= |src| && Written(old(s), s, root, dst, src[..done]) && (ok <==> done == |src|)
      ensures ok <==> CopyFits(old(s), root, dst, |src|, sz, true)
      ensures !ok ==> CopyStops(old(s), root, dst, done, sz, true)
    {
      hide Inv, Faulted, SameMemory, Written, Accessible, AllAccessible, ReachedUpTo, Paged, CanReach, PageEnd,
        CopyFits;
      hide CopyStops;
      FaultedSelf(s, root, sz);
      WrittenNone(s, s, root, dst);
      NoneAccessible(s, root, dst, sz, true);
      ReachedNone(s, root, dst / PGSIZE);
      NoPages(dst);
      var pos, dstva := 0, dst;
      while pos < |src|
        invariant 0 <= pos <= |src| && Valid() && Faulted(old(s), s, root, sz)
        invariant pos < |src| ==> dstva == dst + pos && (0 < pos ==> dstva % PGSIZE == 0)
        invariant Written(old(s), s, root, dst, src[..pos])
        invariant AllAccessible(old(s), root, dst, pos, sz, true)
        invariant ReachedUpTo(old(s), s, root, dst / PGSIZE, PageEnd(dst, pos))
      {
        ghost var s0 := s;
        var va0 := dstva / PGSIZE * PGSIZE;
        var n := PGSIZE - (dstva - va0);
        if n > |src| - pos {
          n := |src| - pos;
        }
        PageStep(dst, pos, n, |src|);
        FaultedNode(old(s), s, root, sz);
        FaultedAccess(old(s), s, root, sz, dstva / PGSIZE, true);
        ok := CopyOutPage(root, dstva, src[pos..pos + n], sz);
        FaultedTrans(old(s), s0, s, root, sz);
        if !ok {
          StopsIsUnfit(old(s), s0, root, dst, pos, |src|, sz, true);
          WrittenNone(s0, s, root, dst + pos);
          WrittenMore(old(s), s0, s, root, dst, src[..pos], []);
          assert src[..pos] + [] == src[..pos];
          return false, pos;
        }
        WrittenMore(old(s), s0, s, root, dst, src[..pos], src[pos..pos + n]);
        assert src[..pos] + src[pos..pos + n] == src[..pos + n];
        AccessibleMore(old(s), root, dst, pos, n, sz, true);
        ReachMore(old(s), s0, s, root, dst / PGSIZE, dstva / PGSIZE);
        pos := pos + n;
        dstva := va0 + PGSIZE;
      }
      assert src[..pos] == src;
      FitsSoFar(old(s), s, root, dst, |src|, sz, true);
      ok, done := true, pos;
    }

    /** One turn of copyin's loop: bytes of one page. */
    method CopyInPage(root: int, at: int, n: int, sz: int) returns (ok: bool, d: seq<int>)
      requires Valid() && Key(root, 2, 0) in s.node && 0 <= at && 0 <= sz && Pages(sz) <= TRAPVPN
      requires 0 <= n <= PGSIZE - at % PGSIZE
      modifies this
      ensures Valid() && Faulted(old(s), s, root, sz) && SameMemory(old(s), s)
      ensures ok <==> Accessible(old(s), root, at / PGSIZE, sz, false) && CanReach(old(s), root, at / PGSIZE)
      ensures ok ==> |d| == n && IsSlice(old(s), root, at, d)
      ensures ok ==> Paged(old(s), s, root, at / PGSIZE) && at / PGSIZE < TRAPVPN
    {
      hide Inv, Faulted, SameMemory, IsSlice, Grown, Paged, CanReach;
      var f := Reach(root, at / PGSIZE, sz);
      if f == 0 { return false, []; }
      var o := at % PGSIZE;
      SourcePage(s, root, at / PGSIZE);
      PageIs(s, Va(root, at / PGSIZE));
      d := mem[f].b[o..o + n];
      SliceOfPage(s, root, at, n);
      SliceSame(old(s), s, root, at, d);
      ok := true;
    }

    /** copyin: reads exactly the bytes asked for, or a prefix of them when a page cannot be read or had. */
    method CopyIn(root: int, src: int, len: int, sz: int) returns (ok: bool, d: seq<int>)
      requires Valid() && Key(root, 2, 0) in s.node && 0 <= src && 0 <= len && 0 <= sz && Pages(sz) <= TRAPVPN
      modifies this
      ensures Valid() && Faulted(old(s), s, root, sz) && SameMemory(old(s), s)
      ensures |d| <= len && IsSlice(old(s), root, src, d) && (ok <==> |d| == len)
      ensures ok <==> CopyFits(old(s), root, src, len, sz, false)
      ensures !ok ==> CopyStops(old(s), root, src, |d|, sz, false)
    {
      hide Inv, Faulted, SameMemory, IsSlice, Accessible, AllAccessible, ReachedUpTo, Paged, CanReach, PageEnd,
        CopyFits;
      hide CopyStops;
      FaultedSelf(s, root, sz);
      SliceNone(s, root, src);
      NoneAccessible(s, root, src, sz, false);
      ReachedNone(s, root, src / PGSIZE);
      NoPages(src);
      var srcva := src;
      d := [];
      while |d| < len
        invariant |d| <= len && Valid() && Faulted(old(s), s, root, sz) && SameMemory(old(s), s)
        invariant |d| < len ==> srcva == src + |d| && (0 < |d| ==> srcva % PGSIZE == 0)
        invariant IsSlice(old(s), root, src, d)
        invariant AllAccessible(old(s), root, src, |d|, sz, false)
        invariant ReachedUpTo(old(s), s, root, src / PGSIZE, PageEnd(src, |d|))
      {
        ghost var s0 := s;
        var va0 := srcva / PGSIZE * PGSIZE;
        var n := PGSIZE - (srcva - va0);
        if n > len - |d| {
          n := len - |d|;
        }
        PageStep(src, |d|, n, len);
        FaultedNode(old(s), s, root, sz);
        FaultedAccess(old(s), s, root, sz, srcva / PGSIZE, false);
        var e;
        ok, e := CopyInPage(root, srcva, n, sz);
        FaultedTrans(old(s), s0, s, root, sz);
        SameTrans(old(s), s0, s);
        if !ok {
          StopsIsUnfit(old(s), s0, root, src, |d|, len, sz, false);
          return false, d;
        }
        SliceSame(old(s), s0, root, srcva, e);
        SliceMore(old(s), root, src, d, e);
        AccessibleMore(old(s), root, src, |d|, n, sz, false);
        ReachMore(old(s), s0, s, root, src / PGSIZE, srcva / PGSIZE);
        d := d + e;
        srcva := va0 + PGSIZE;
      }
      FitsSoFar(old(s), s, root, src, len, sz, false);
      ok := true;
    }

    /** proc_pagetable: an address space with only the trampoline and the trapframe, or nothing when fewer than
        three pages are free. The last mapping never fails, for its tables are there. */
    method ProcPagetable(trampoline: int, trapframe: int) returns (root: int)
      requires Valid()
      modifies this
      ensures Valid()
      ensures root == 0 <==> |old(s).list| < 3
      ensures if root == 0 then Unharmed(old(s), s) else NewSpace(old(s), s, root, trampoline, trapframe)
      ensures root != 0 ==> |s.list| == |old(s).list| - 3 && NewTables(s, root)
      ensures root != 0 ==> s.leaf[Va(root, MAXVPN - 1)] == Pte(trampoline, true, true, false, true, false)
      ensures root != 0 ==> s.leaf[Va(root, TRAPVPN)] == Pte(trapframe, true, true, true, false, false)
    {
      hide Inv, Gone, Mapped, Created, Unharmed, Building, Grown, NewTables, TablesFor;
      ghost var s0 := s;
      UnharmedSelf(s);
      root := UvmCreate();
      if root == 0 { return; }
      ghost var s1 := s;
      CreatedBuilding(s0, s, root);
      CreatedCount(s0, s, root, MAXVPN - 1);
      BuildingRoot(s0, s, root);
      var r := MapPage(root, MAXVPN - 1, TrampolinePte(trampoline));
      if r != Fine {
        GrownBuilding(s0, s1, s, root);
        BuildingRoot(s0, s, root);
        ghost var s2 := s;
        UvmFree(root, 0);
        BuildingGone(s0, s2, s, root);
        return 0;
      }
      ghost var s2 := s;
      MappedBuilding(s0, s1, s, Va(root, MAXVPN - 1), TrampolinePte(trampoline));
      BuildingRoot(s0, s, root);
      SameTable(s, root);
      r := MapPage(root, TRAPVPN, TrapframePte(trapframe));
      MappedBuilding(s0, s2, s, Va(root, TRAPVPN), TrapframePte(trapframe));
      CreatedTables(s0, s1, s2, s, root);
    }

    /** proc_freepagetable: everything the process had is free, except the trapframe. */
    method ProcFreePagetable(root: int, sz: int, ghost trampoline: int, ghost trapframe: int)
      requires Valid() && Process(s, root, sz, trampoline, trapframe)
      modifies this
      ensures Valid() && Gone(old(s), s, root)
    {
      hide Inv, Gone, Unmapped;
      ghost var s0 := s;
      UnmapPage(root, MAXVPN - 1, false);
      ghost var s1 := s;
      StillMapped(s0, s, Va(root, MAXVPN - 1), Va(root, TRAPVPN));
      UnmapPage(root, TRAPVPN, false);
      UnmapsLast(s0, s1, s, root);
      UserOnly(s0, s, root, Pages(sz));
      ghost var s2 := s;
      UvmFree(root, sz);
      LastGone(s0, s2, s, root);
    }
  }
}
