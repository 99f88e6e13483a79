/** The memory a process sees: the bytes of its mapped pages, and zeros where nothing is mapped yet. */
module VmBytes {
  import opened VmTable
  import opened VmChange

  /** The bytes of a user page. */
  ghost function PageOf(s: Vm, va: Va): (b: seq<int>)
    requires Inv(s, -1, 0)
    ensures |b| == PGSIZE
  {
    if va in s.leaf && User(va) then
      MappingAt(s, va);
      s.mem[s.leaf[va].ppn].b
    else Filled(0)
  }

  /** Every process sees the same memory in both states. */
  ghost predicate SameMemory(s: Vm, s': Vm)
    requires Inv(s, -1, 0) && Inv(s', -1, 0)
  {
    forall va :: User(va) ==> PageOf(s', va) == PageOf(s, va)
  }

  lemma GrownSameMemory(s: Vm, s': Vm, root: int)
    requires Inv(s, -1, 0) && Inv(s', -1, 0) && Grown(s, s', root)
    ensures SameMemory(s, s')
  {
    hide ListOk, NodeOk, TableOk;
    forall va | User(va) && va in s.leaf ensures PageOf(s', va) == PageOf(s, va) {
      MappingAt(s, va);
    }
  }

  /** Mapping zeroed pages where nothing was mapped does not show. */
  lemma ExtendedSameMemory(s: Vm, s': Vm, root: int, lo: int, hi: int, w: bool, x: bool)
    requires Inv(s, -1, 0) && Inv(s', -1, 0) && Extended(s, s', root, lo, hi, w, x)
    requires forall va :: va in s.leaf ==> !Within(va, root, lo, hi)
    ensures SameMemory(s, s')
  {
    hide ListOk, NodeOk, TableOk;
    forall va | User(va) ensures PageOf(s', va) == PageOf(s, va) {
      if va in s.leaf {
        MappingAt(s, va);
      } else if va in s'.leaf {
        assert FreshZero(s, s', s'.leaf[va], w, x);
      }
    }
  }

  /** The child of a fork sees the parent's memory, and nobody else sees a change. */
  lemma CopiedSameMemory(s: Vm, s': Vm, old': int, new': int, n: int, vpn: int)
    requires Inv(s, -1, 0) && Inv(s', -1, 0) && Copied(s, s', old', new', 0, n)
    requires forall va :: va in s.leaf ==> !Within(va, new', 0, n)
    requires n <= TRAPVPN
    ensures 0 <= vpn < n ==> PageOf(s', Va(new', vpn)) == PageOf(s, Va(old', vpn))
    ensures forall va :: User(va) && !Within(va, new', 0, n) ==> PageOf(s', va) == PageOf(s, va)
  {
    hide ListOk, NodeOk, TableOk;
    if 0 <= vpn < n {
      assert Within(Va(new', vpn), new', 0, n);
      if Va(old', vpn) in s.leaf {
        assert Va(new', vpn) in s'.leaf && Va(new', vpn) !in s.leaf;
        assert FreshCopy(s, s', s.leaf[Va(old', vpn)], s'.leaf[Va(new', vpn)]);
      }
    }
    forall va | User(va) && !Within(va, new', 0, n) ensures PageOf(s', va) == PageOf(s, va) {
      if va in s.leaf {
        MappingAt(s, va);
      }
    }
  }

  /** No two user pages of any processes share a page. */
  lemma PagesApart(s: Vm, va: Va, vb: Va)
    requires Inv(s, -1, 0) && va in s.leaf && vb in s.leaf && User(va) && User(vb) && va != vb
    ensures s.leaf[va].ppn != s.leaf[vb].ppn
  {
    MappingAt(s, va);
    MappingAt(s, vb);
  }

  // ---------------------------------------------------------------- bytes written

  /** Page number vpn after the bytes d have been written at address at. */
  ghost function Patch(page: seq<int>, vpn: int, at: int, d: seq<int>): (r: seq<int>)
    requires |page| == PGSIZE
    ensures |r| == PGSIZE
    ensures forall o :: 0 <= o < PGSIZE ==>
              r[o] == (if at <= vpn * PGSIZE + o < at + |d| then d[vpn * PGSIZE + o - at] else page[o])
  {
    seq(PGSIZE, o requires 0 <= o < PGSIZE =>
      if at <= vpn * PGSIZE + o < at + |d| then d[vpn * PGSIZE + o - at] else page[o])
  }

  lemma PatchNone(page: seq<int>, vpn: int, at: int)
    requires |page| == PGSIZE
    ensures Patch(page, vpn, at, []) == page
  {
  }

  lemma PatchMore(page: seq<int>, vpn: int, at: int, d: seq<int>, e: seq<int>)
    requires |page| == PGSIZE
    ensures Patch(Patch(page, vpn, at, d), vpn, at + |d|, e) == Patch(page, vpn, at, d + e)
  {
  }

  lemma PatchElsewhere(page: seq<int>, vpn: int, at: int, d: seq<int>)
    requires |page| == PGSIZE
    requires at + |d| <= vpn * PGSIZE || (vpn + 1) * PGSIZE <= at
    ensures Patch(page, vpn, at, d) == page
  {
  }

  lemma PatchHere(page: seq<int>, vpn: int, at: int, d: seq<int>)
    requires |page| == PGSIZE && vpn * PGSIZE <= at && at + |d| <= (vpn + 1) * PGSIZE
    ensures var o := at - vpn * PGSIZE;
            Patch(page, vpn, at, d) == page[..o] + d + page[o + |d|..]
  {
  }

  /** The bytes d have been written at address at of one process. */
  ghost predicate Written(s: Vm, s': Vm, root: int, at: int, d: seq<int>)
    requires Inv(s, -1, 0) && Inv(s', -1, 0)
  {
    forall va :: User(va) ==>
      PageOf(s', va) == if va.root == root then Patch(PageOf(s, va), va.vpn, at, d) else PageOf(s, va)
  }

  lemma WrittenNone(s: Vm, s': Vm, root: int, at: int)
    requires Inv(s, -1, 0) && Inv(s', -1, 0)
    ensures Written(s, s', root, at, []) <==> SameMemory(s, s')
  {
    hide Inv, PageOf;
    forall va | User(va) ensures Patch(PageOf(s, va), va.vpn, at, []) == PageOf(s, va) {
      PatchNone(PageOf(s, va), va.vpn, at);
    }
  }

  lemma WrittenMore(s: Vm, s0: Vm, s': Vm, root: int, at: int, d: seq<int>, e: seq<int>)
    requires Inv(s, -1, 0) && Inv(s0, -1, 0) && Inv(s', -1, 0)
    requires Written(s, s0, root, at, d) && Written(s0, s', root, at + |d|, e)
    ensures Written(s, s', root, at, d + e)
  {
    hide Inv, PageOf;
    forall va | User(va)
      ensures PageOf(s', va) == if va.root == root then Patch(PageOf(s, va), va.vpn, at, d + e) else PageOf(s, va)
    {
      PatchMore(PageOf(s, va), va.vpn, at, d, e);
    }
  }

  /** Writing within one mapped page. */
  lemma WritePage(s: Vm, va: Va, o: int, d: seq<int>)
    requires Inv(s, -1, 0) && va in s.leaf && User(va) && 0 <= o && o + |d| <= PGSIZE
    ensures LeafAt(s.own, s.node, s.leaf, va)
    ensures var f, page := s.leaf[va].ppn, PageOf(s, va);
            var s' := s.(mem := s.mem[f := Bytes(page[..o] + d + page[o + |d|..])]);
            Inv(s', -1, 0) && Written(s, s', va.root, va.vpn * PGSIZE + o, d)
  {
    hide ListOk, NodeOk, TableOk;
    MappingAt(s, va);
    var f, page := s.leaf[va].ppn, PageOf(s, va);
    var b := page[..o] + d + page[o + |d|..];
    WriteKeepsInv(s, f, b, -1, 0);
    var s' := s.(mem := s.mem[f := Bytes(b)]);
    forall vb | User(vb)
      ensures PageOf(s', vb) ==
              if vb.root == va.root then Patch(PageOf(s, vb), vb.vpn, va.vpn * PGSIZE + o, d) else PageOf(s, vb)
    {
      if vb == va {
        PatchHere(page, va.vpn, va.vpn * PGSIZE + o, d);
      } else {
        if vb in s.leaf { PagesApart(s, va, vb); }
        if vb.root == va.root { PatchElsewhere(PageOf(s, vb), vb.vpn, va.vpn * PGSIZE + o, d); }
      }
    }
  }

  // ---------------------------------------------------------------- what copying may do

  /** A page can be read (or written) on behalf of the process: it is mapped for it, or it lies below sz and
      is not mapped yet. */
  ghost predicate Accessible(s: Vm, root: int, vpn: int, sz: int, write: bool) {
    if Va(root, vpn) in s.leaf then s.leaf[Va(root, vpn)].u && (write ==> s.leaf[Va(root, vpn)].w)
    else vpn * PGSIZE < sz
  }

  /** All bytes of a range can be reached. */
  ghost predicate AllAccessible(s: Vm, root: int, at: int, n: int, sz: int, write: bool) {
    forall a :: at <= a < at + n ==> Accessible(s, root, a / PGSIZE, sz, write)
  }

  lemma NoneAccessible(s: Vm, root: int, at: int, sz: int, write: bool)
    ensures AllAccessible(s, root, at, 0, sz, write)
  {
  }

  /** The next bytes lie on one page. */
  lemma AccessibleMore(s: Vm, root: int, at: int, pos: int, n: int, sz: int, write: bool)
    requires AllAccessible(s, root, at, pos, sz, write) && 0 <= at && 0 <= pos && 0 <= n <= PGSIZE - (at + pos) % PGSIZE
    requires Accessible(s, root, (at + pos) / PGSIZE, sz, write)
    ensures AllAccessible(s, root, at, pos + n, sz, write)
  {
    hide Accessible;
    forall a | at + pos <= a < at + pos + n ensures a / PGSIZE == (at + pos) / PGSIZE {
    }
  }

  /** Only new pages below sz have been mapped, readable and writable, on pages that were free. */
  ghost predicate Faulted(s: Vm, s': Vm, root: int, sz: int) {
    && (forall va :: va in s.leaf ==> va in s'.leaf && s'.leaf[va] == s.leaf[va])
    && (forall va :: va in s'.leaf && va !in s.leaf ==>
          && va.root == root && User(va) && va.vpn * PGSIZE < sz
          && s'.leaf[va] == Pte(s'.leaf[va].ppn, true, true, true, false, true)
          && s'.leaf[va].ppn in s.own && s.own[s'.leaf[va].ppn].Free?)
    && Settled(s, s') && NodesGrow(s, s', root) && Elsewhere(s, s', root)
    && (forall f :: f in s.own && s.own[f].Free? ==>
       FreeOrTable(s'.own[f], root) || (s'.own[f].Leaf? && s'.own[f].va.root == root))
  }

  /** Pages in hand and pages of other address spaces keep their contents. */
  ghost predicate Elsewhere(s: Vm, s': Vm, root: int) {
    forall f :: f in s.own && (s.own[f] == Loose || (s.own[f].Leaf? && s.own[f].va.root != root)) ==>
      f in s.mem && f in s'.mem && s'.mem[f] == s.mem[f]
  }

  lemma FaultedTrans(s: Vm, s0: Vm, s': Vm, root: int, sz: int)
    requires Faulted(s, s0, root, sz) && Faulted(s0, s', root, sz)
    ensures Faulted(s, s', root, sz)
  {
  }

  lemma FaultedAccess(s: Vm, s': Vm, root: int, sz: int, vpn: int, write: bool)
    requires Faulted(s, s', root, sz)
    ensures Accessible(s', root, vpn, sz, write) <==> Accessible(s, root, vpn, sz, write)
    ensures Va(root, vpn) in s.leaf ==> Va(root, vpn) in s'.leaf
  {
  }

  lemma GrownFaulted(s: Vm, s': Vm, root: int, sz: int)
    requires Grown(s, s', root)
    ensures Faulted(s, s', root, sz)
  {
  }

  lemma ExtendedFaulted(s: Vm, s': Vm, root: int, vpn: int, sz: int)
    requires Extended(s, s', root, vpn, vpn + 1, true, false) && vpn < TRAPVPN && vpn * PGSIZE < sz &&
             Va(root, vpn) !in s.leaf
    ensures Faulted(s, s', root, sz)
  {
    forall va | va in s'.leaf && va !in s.leaf
      ensures va == Va(root, vpn) && FreshZero(s, s', s'.leaf[va], true, false)
    {
    }
  }

  lemma FaultedNode(s: Vm, s': Vm, root: int, sz: int)
    requires Faulted(s, s', root, sz)
    ensures forall k :: k in s.node ==> k in s'.node
  {
  }

  /** Writing the bytes of a page of the address space maps nothing. */
  lemma FaultedWrite(s: Vm, va: Va, b: seq<int>, sz: int)
    requires Inv(s, -1, 0) && va in s.leaf && User(va)
    ensures Faulted(s, s.(mem := s.mem[s.leaf[va].ppn := Bytes(b)]), va.root, sz)
  {
    hide ListOk, NodeOk, TableOk;
    MappingAt(s, va);
    InMemory(s);
  }

  lemma InMemory(s: Vm)
    requires Inv(s, -1, 0)
    ensures forall f :: f in s.own ==> f in s.mem
  {
  }

  lemma MappedBelow(s: Vm, va: Va)
    requires Inv(s, -1, 0)
    ensures va in s.leaf ==> 0 <= va.vpn < MAXVPN && (s.leaf[va].u ==> User(va) && 0 < s.leaf[va].ppn)
  {
    if va in s.leaf {
      MappingAt(s, va);
    }
  }

  lemma ExtendedAt(s: Vm, s': Vm, root: int, vpn: int)
    requires Extended(s, s', root, vpn, vpn + 1, true, false)
    ensures Va(root, vpn) in s'.leaf &&
            s'.leaf[Va(root, vpn)] == Pte(s'.leaf[Va(root, vpn)].ppn, true, true, true, false, true)
  {
    assert Within(Va(root, vpn), root, vpn, vpn + 1);
    assert FreshZero(s, s', s'.leaf[Va(root, vpn)], true, false);
  }

  lemma PageIs(s: Vm, va: Va)
    requires Inv(s, -1, 0) && va in s.leaf && User(va) && s.leaf[va].ppn in s.mem && s.mem[s.leaf[va].ppn].Bytes?
    ensures PageOf(s, va) == s.mem[s.leaf[va].ppn].b
  {
  }

  // ---------------------------------------------------------------- bytes read

  /** What the process reads at an address. */
  ghost function ByteAt(s: Vm, root: int, a: int): int
    requires Inv(s, -1, 0) && 0 <= a
  {
    PageOf(s, Va(root, a / PGSIZE))[a % PGSIZE]
  }

  /** d is what the process has from address at on. */
  ghost predicate IsSlice(s: Vm, root: int, at: int, d: seq<int>)
    requires Inv(s, -1, 0) && 0 <= at
  {
    forall i :: 0 <= i < |d| ==> d[i] == ByteAt(s, root, at + i)
  }

  lemma SliceNone(s: Vm, root: int, at: int)
    requires Inv(s, -1, 0) && 0 <= at
    ensures IsSlice(s, root, at, [])
  {
  }

  /** Part of a page is a slice. */
  lemma SliceOfPage(s: Vm, root: int, at: int, n: int)
    requires Inv(s, -1, 0) && 0 <= at && 0 <= n <= PGSIZE - at % PGSIZE
    ensures IsSlice(s, root, at, PageOf(s, Va(root, at / PGSIZE))[at % PGSIZE..at % PGSIZE + n])
  {
    hide Inv, PageOf;
    var vpn, o := at / PGSIZE, at % PGSIZE;
    var d := PageOf(s, Va(root, vpn))[o..o + n];
    forall i | 0 <= i < n ensures d[i] == ByteAt(s, root, at + i) {
      assert at + i == vpn * PGSIZE + (o + i);
      assert (at + i) / PGSIZE == vpn && (at + i) % PGSIZE == o + i;
    }
  }

  lemma SliceMore(s: Vm, root: int, at: int, d: seq<int>, e: seq<int>)
    requires Inv(s, -1, 0) && 0 <= at && IsSlice(s, root, at, d) && IsSlice(s, root, at + |d|, e)
    ensures IsSlice(s, root, at, d + e)
  {
    hide Inv, ByteAt;
    forall i | 0 <= i < |d + e| ensures (d + e)[i] == ByteAt(s, root, at + i) {
      if |d| <= i {
        var j := i - |d|;
        assert e[j] == ByteAt(s, root, at + |d| + j);
      }
    }
  }

  lemma SliceSame(s: Vm, s': Vm, root: int, at: int, d: seq<int>)
    requires Inv(s, -1, 0) && Inv(s', -1, 0) && SameMemory(s, s') && 0 <= at && IsSlice(s', root, at, d)
    requires at / PGSIZE < TRAPVPN && |d| <= PGSIZE - at % PGSIZE
    ensures IsSlice(s, root, at, d)
  {
    hide Inv, PageOf;
    var vpn := at / PGSIZE;
    assert PageOf(s', Va(root, vpn)) == PageOf(s, Va(root, vpn));
    forall i | 0 <= i < |d| ensures d[i] == ByteAt(s, root, at + i) {
      assert at + i == vpn * PGSIZE + (at % PGSIZE + i);
      assert (at + i) / PGSIZE == vpn;
      assert d[i] == ByteAt(s', root, at + i);
    }
  }

  lemma SameTrans(s: Vm, s0: Vm, s': Vm)
    requires Inv(s, -1, 0) && Inv(s0, -1, 0) && Inv(s', -1, 0) && SameMemory(s, s0) && SameMemory(s0, s')
    ensures SameMemory(s, s')
  {
    hide Inv, PageOf;
    forall va | User(va) ensures PageOf(s', va) == PageOf(s, va) {
    }
  }

  /** Reading back what was written. */
  lemma ReadWritten(s: Vm, s': Vm, root: int, at: int, d: seq<int>, a: int)
    requires Inv(s, -1, 0) && Inv(s', -1, 0) && Written(s, s', root, at, d) && 0 <= a && a / PGSIZE < TRAPVPN
    ensures ByteAt(s', root, a) == if at <= a < at + |d| then d[a - at] else ByteAt(s, root, a)
  {
    hide Inv, PageOf;
    var va := Va(root, a / PGSIZE);
    assert PageOf(s', va) == Patch(PageOf(s, va), va.vpn, at, d);
    assert va.vpn * PGSIZE + a % PGSIZE == a;
  }
}
