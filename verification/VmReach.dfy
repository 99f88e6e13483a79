/** The pages that a copy to or from a process takes: those of its range that are not mapped yet, and their tables. */
module VmReach {
  import opened VmTable
  import opened VmChange
  import opened VmBytes

  /** The page after the last of n bytes from an address on. */
  function PageEnd(at: int, n: int): int {
    if n <= 0 then at / PGSIZE else (at + n - 1) / PGSIZE + 1
  }

  /** The pages that reaching virtual page a takes, once those from lo on have been reached. */
  ghost function FaultNeedAt(s: Vm, root: int, lo: int, a: int): (n: int)
    ensures 0 <= n <= 3
  {
    if Va(root, a) in s.leaf then 0 else NeedAt(s, root, lo, a)
  }

  /** The pages that reaching the virtual pages lo to hi takes. */
  ghost function FaultNeed(s: Vm, root: int, lo: int, hi: int): (n: int)
    ensures 0 <= n
    decreases hi - lo
  {
    if hi <= lo then 0 else FaultNeed(s, root, lo, hi - 1) + FaultNeedAt(s, root, lo, hi - 1)
  }

  lemma {:induction false} FaultNeedGrows(s: Vm, root: int, lo: int, a: int, hi: int)
    requires lo <= a <= hi
    ensures FaultNeed(s, root, lo, a) <= FaultNeed(s, root, lo, hi)
    decreases hi - a
  {
    hide FaultNeedAt;
    if a < hi { FaultNeedGrows(s, root, lo, a, hi - 1); }
  }

  /** Pages that are mapped take nothing. */
  lemma {:induction false} MappedNeedNothing(s: Vm, root: int, lo: int, hi: int)
    requires forall v :: lo <= v < hi ==> Va(root, v) in s.leaf
    ensures FaultNeed(s, root, lo, hi) == 0
    decreases hi - lo
  {
    if lo < hi { MappedNeedNothing(s, root, lo, hi - 1); }
  }

  /** There are pages for virtual page a and its tables, if it is not mapped. */
  ghost predicate CanReach(s: Vm, root: int, a: int) {
    Va(root, a) in s.leaf || Missing(s, root, a, 2) < |s.list|
  }

  lemma ExtendedOnly(s: Vm, s': Vm, root: int, a: int)
    requires Extended(s, s', root, a, a + 1, true, false)
    ensures forall v :: a < v ==> (Va(root, v) in s'.leaf <==> Va(root, v) in s.leaf)
  {
  }

  /** Virtual page a has been reached: it was mapped, or it is now. */
  ghost predicate Paged(s: Vm, s': Vm, root: int, a: int) {
    if Va(root, a) in s.leaf then s'.node == s.node && s'.leaf == s.leaf && s'.list == s.list
    else
      && TablesFor(s, s', root, a) && |s'.list| == |s.list| - Missing(s, root, a, 2) - 1
      && forall v :: a < v ==> (Va(root, v) in s'.leaf <==> Va(root, v) in s.leaf)
  }

  /** Writing bytes changes nothing about that. */
  lemma PagedStays(s: Vm, s0: Vm, s': Vm, root: int, a: int)
    requires Paged(s, s0, root, a) && s'.node == s0.node && s'.leaf == s0.leaf && s'.list == s0.list
    ensures Paged(s, s', root, a)
  {
  }

  /** The virtual pages lo to a have been reached, in order. */
  ghost predicate ReachedUpTo(s: Vm, s': Vm, root: int, lo: int, a: int) {
    && TablesUpTo(s, s', root, lo, a) && |s'.list| == |s.list| - FaultNeed(s, root, lo, a)
    && forall v :: a <= v ==> (Va(root, v) in s'.leaf <==> Va(root, v) in s.leaf)
  }

  lemma ReachedNone(s: Vm, root: int, lo: int)
    ensures ReachedUpTo(s, s, root, lo, lo)
  {
    TablesNone(s, root, lo);
  }

  /** What the next page takes. */
  lemma ReachNeeds(s: Vm, s0: Vm, root: int, lo: int, a: int)
    requires Inv(s0, -1, 0) && 0 <= lo <= a < MAXVPN && ReachedUpTo(s, s0, root, lo, a)
    ensures Va(root, a) in s0.leaf <==> Va(root, a) in s.leaf
    ensures |s0.list| == |s.list| - FaultNeed(s, root, lo, a)
    ensures Va(root, a) !in s0.leaf ==>
              FaultNeed(s, root, lo, a + 1) == FaultNeed(s, root, lo, a) + Missing(s0, root, a, 2) + 1
  {
    hide NeedAt, Missing;
    MissingIsNeed(s, s0, root, lo, a);
  }

  lemma ReachMore(s: Vm, s0: Vm, s': Vm, root: int, lo: int, a: int)
    requires Inv(s, -1, 0) && Inv(s0, -1, 0) && 0 <= lo <= a < MAXVPN
    requires ReachedUpTo(s, s0, root, lo, a) && Paged(s0, s', root, a)
    ensures ReachedUpTo(s, s', root, lo, a + 1)
  {
    hide Inv, NeedAt, Missing, TablesUpTo, TablesFor, Crossed;
    ReachNeeds(s, s0, root, lo, a);
    if Va(root, a) in s.leaf {
      TablesThere(s, s0, s', root, lo, a);
    } else {
      TablesMore(s, s0, s', root, lo, a);
    }
  }

  /** A page that was mapped has its tables. */
  lemma TablesThere(s: Vm, s0: Vm, s': Vm, root: int, lo: int, a: int)
    requires Inv(s, -1, 0) && 0 <= lo <= a < MAXVPN && Va(root, a) in s.leaf
    requires TablesUpTo(s, s0, root, lo, a) && s'.node == s0.node
    ensures TablesUpTo(s, s', root, lo, a + 1)
  {
    hide Inv, Crossed;
    Lookup(s, Va(root, a));
    forall k ensures k in s'.node <==> k in s.node || Crossed(k, root, lo, a + 1) {
      CrossedMore(k, root, lo, a);
    }
  }

  lemma NoPages(at: int)
    ensures PageEnd(at, 0) == at / PGSIZE
  {
  }

  lemma FaultedSelf(s: Vm, root: int, sz: int)
    requires Inv(s, -1, 0)
    ensures Faulted(s, s, root, sz) && SameMemory(s, s)
  {
    hide Inv, Faulted, Grown, SameMemory;
    GrownSelf(s, root);
    GrownFaulted(s, s, root, sz);
    GrownSameMemory(s, s, root);
  }

  /** Where a copy is after the bytes of one more page. */
  lemma PageStep(at: int, pos: int, n: int, len: int)
    requires 0 <= at && 0 <= pos < len && (0 < pos ==> (at + pos) % PGSIZE == 0)
    requires n == if PGSIZE - (at + pos) % PGSIZE > len - pos then len - pos else PGSIZE - (at + pos) % PGSIZE
    ensures 0 < n && PageEnd(at, pos) == (at + pos) / PGSIZE && PageEnd(at, pos + n) == PageEnd(at, pos) + 1
    ensures pos + n < len ==> (at + pos) / PGSIZE * PGSIZE + PGSIZE == at + pos + n
    ensures pos + n < len ==> (at + pos + n) % PGSIZE == 0
    ensures at / PGSIZE <= PageEnd(at, pos) < PageEnd(at, len)
  {
  }

  /** Every byte can be reached, and there are pages for those that are not mapped yet. */
  ghost predicate CopyFits(s: Vm, root: int, at: int, n: int, sz: int, write: bool) {
    AllAccessible(s, root, at, n, sz, write) && FaultNeed(s, root, at / PGSIZE, PageEnd(at, n)) <= |s.list|
  }

  /** Why a copy stops at a byte: its page cannot be reached, or the pages up to it are too many. */
  ghost predicate CopyStops(s: Vm, root: int, at: int, pos: int, sz: int, write: bool) {
    || !Accessible(s, root, (at + pos) / PGSIZE, sz, write)
    || |s.list| < FaultNeed(s, root, at / PGSIZE, (at + pos) / PGSIZE + 1)
  }

  lemma StopsIsUnfit(s: Vm, s0: Vm, root: int, at: int, pos: int, len: int, sz: int, write: bool)
    requires Inv(s0, -1, 0) && 0 <= at && 0 <= pos < len && Faulted(s, s0, root, sz) && 0 <= sz && Pages(sz) <= TRAPVPN
    requires PageEnd(at, pos) == (at + pos) / PGSIZE && ReachedUpTo(s, s0, root, at / PGSIZE, PageEnd(at, pos))
    requires !(Accessible(s0, root, (at + pos) / PGSIZE, sz, write) && CanReach(s0, root, (at + pos) / PGSIZE))
    ensures CopyStops(s, root, at, pos, sz, write) && !CopyFits(s, root, at, len, sz, write)
  {
    hide Inv, Faulted, ReachedUpTo, Missing, FaultNeed;
    var lo, a := at / PGSIZE, (at + pos) / PGSIZE;
    FaultedAccess(s, s0, root, sz, a, write);
    if Accessible(s, root, a, sz, write) {
      ReachNeeds(s, s0, root, lo, a);
      FaultNeedGrows(s, root, lo, a + 1, PageEnd(at, len));
    }
  }

  lemma FitsSoFar(s: Vm, s0: Vm, root: int, at: int, len: int, sz: int, write: bool)
    requires AllAccessible(s, root, at, len, sz, write) && ReachedUpTo(s, s0, root, at / PGSIZE, PageEnd(at, len))
    ensures CopyFits(s, root, at, len, sz, write)
  {
  }
}
