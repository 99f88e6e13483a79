/** How the operations of kernel/vm.c change the state: what each changes, what it leaves alone, and how the
    changes compose. */
module VmChange {
  import opened VmTable
  import opened VmFree

  /** How mapping pages may end; Remap is mappages's panic on a virtual page that is mapped. */
  datatype Mapping = Fine | OutOfMemory | Remap

  // ---------------------------------------------------------------- how the state may change

  /** Nothing but free pages changes hands, and what is mapped or in hand keeps its contents; new tables
      belong to the given address space. */
  ghost predicate Grown(s: Vm, s': Vm, root: int) {
    && s'.leaf == s.leaf
    && Settled(s, s') && Stays(s, s')
    && (forall f :: f in s.own && s.own[f].Free? ==> FreeOrTable(s'.own[f], root))
    && NodesGrow(s, s', root)
  }

  ghost predicate FreeOrTable(o: Owner, root: int) {
    o.Free? || (o.Table? && o.key.root == root)
  }

  ghost predicate Settled(s: Vm, s': Vm) {
    && (forall f :: f in s.own <==> f in s'.own)
    && (forall f :: f in s.own && !s.own[f].Free? ==> s'.own[f] == s.own[f])
  }

  ghost predicate Stays(s: Vm, s': Vm) {
    forall f :: f in s.own && (s.own[f].Leaf? || s.own[f] == Loose) ==>
      f in s.mem && f in s'.mem && s'.mem[f] == s.mem[f]
  }

  ghost predicate NodesGrow(s: Vm, s': Vm, root: int) {
    && (forall k :: k in s.node ==> k in s'.node && s'.node[k] == s.node[k])
    && (forall k :: k in s'.node && k !in s.node ==> k.root == root)
  }

  /** One more virtual page is mapped, to the page that was in hand if it is a user page. */
  ghost predicate Mapped(s: Vm, s': Vm, va: Va, p: Pte) {
    && s'.leaf == s.leaf[va := p]
    && (forall f :: f in s.own <==> f in s'.own)
    && (forall f :: f in s.own && !s.own[f].Free? ==>
       s'.own[f] == if User(va) && f == p.ppn then Leaf(va) else s.own[f])
    && (forall f :: f in s.own && s.own[f].Free? ==> FreeOrTable(s'.own[f], va.root))
    && Stays(s, s') && NodesGrow(s, s', va.root)
  }

  /** One virtual page is not mapped any more; the page of a user mapping is free or in hand. */
  ghost predicate Unmapped(s: Vm, s': Vm, va: Va, free: bool) {
    && va in s.leaf && s'.leaf == s.leaf - {va} && s'.node == s.node
    && (forall f :: f in s.own <==> f in s'.own)
    && (forall f :: f in s.own && !(User(va) && f == s.leaf[va].ppn) ==> s'.own[f] == s.own[f])
    && (User(va) ==> s.leaf[va].ppn in s.own && s.own[s.leaf[va].ppn] == Leaf(va) &&
                     (if free then s'.own[s.leaf[va].ppn].Free? else s'.own[s.leaf[va].ppn] == Loose))
    && (forall f :: f in s.own && (s.own[f].Leaf? || s.own[f] == Loose) && s'.own[f] == s.own[f] ==>
          f in s.mem && f in s'.mem && s'.mem[f] == s.mem[f])
  }

  /** The virtual pages lo to hi of an address space are not mapped any more, and their pages are free. */
  ghost predicate Shrunk(s: Vm, s': Vm, root: int, lo: int, hi: int) {
    && s'.node == s.node
    && (forall va :: va in s'.leaf <==> va in s.leaf && !Within(va, root, lo, hi))
    && (forall va :: va in s'.leaf ==> s'.leaf[va] == s.leaf[va])
    && (forall f :: f in s.own <==> f in s'.own)
    && (forall f :: f in s.own ==>
          if s.own[f].Leaf? && Within(s.own[f].va, root, lo, hi) then s'.own[f].Free? else s'.own[f] == s.own[f])
    && (forall f :: f in s.own && (s.own[f].Leaf? || s.own[f] == Loose) && s'.own[f] == s.own[f] ==>
          f in s.mem && f in s'.mem && s'.mem[f] == s.mem[f])
  }

  /** The virtual pages lo to hi are mapped to zeroed pages that were free. */
  ghost predicate Extended(s: Vm, s': Vm, root: int, lo: int, hi: int, w: bool, x: bool) {
    && (forall va :: va in s'.leaf <==> va in s.leaf || Within(va, root, lo, hi))
    && (forall va :: va in s.leaf ==> s'.leaf[va] == s.leaf[va])
    && (forall va :: va in s'.leaf && Within(va, root, lo, hi) ==> FreshZero(s, s', s'.leaf[va], w, x))
    && Settled(s, s') && Stays(s, s')
    && (forall f :: f in s.own && s.own[f].Free? ==>
          FreeOrTable(s'.own[f], root) || (s'.own[f].Leaf? && Within(s'.own[f].va, root, lo, hi)))
    && NodesGrow(s, s', root)
  }

  ghost predicate FreshZero(s: Vm, s': Vm, p: Pte, w: bool, x: bool) {
    && p == Pte(p.ppn, true, true, w, x, true)
    && p.ppn in s.own && s.own[p.ppn].Free?
    && p.ppn in s'.own && s'.own[p.ppn].Leaf?
    && p.ppn in s'.mem && s'.mem[p.ppn] == Bytes(Filled(0))
  }

  /** PGROUNDUP(sz) / PGSIZE */
  function Pages(sz: int): (n: int)
    requires 0 <= sz
    ensures (n - 1) * PGSIZE < sz <= n * PGSIZE
  {
    (sz + PGSIZE - 1) / PGSIZE
  }

  /** The child has, on pages that were free, what the parent has at the virtual pages lo to hi. */
  ghost predicate Copied(s: Vm, s': Vm, old': int, new': int, lo: int, hi: int) {
    && (forall va :: va in s'.leaf <==> va in s.leaf || (Within(va, new', lo, hi) && Va(old', va.vpn) in s.leaf))
    && (forall va :: va in s.leaf ==> s'.leaf[va] == s.leaf[va])
    && (forall va :: va in s'.leaf && va !in s.leaf ==>
       Va(old', va.vpn) in s.leaf && FreshCopy(s, s', s.leaf[Va(old', va.vpn)], s'.leaf[va]))
    && Settled(s, s') && Stays(s, s')
    && (forall f :: f in s.own && s.own[f].Free? ==>
          FreeOrTable(s'.own[f], new') || (s'.own[f].Leaf? && Within(s'.own[f].va, new', lo, hi)))
    && NodesGrow(s, s', new')
  }

  /** The same permissions and the same bytes, on a page that was free. */
  ghost predicate FreshCopy(s: Vm, s': Vm, p: Pte, q: Pte) {
    && q == p.(ppn := q.ppn)
    && q.ppn in s.own && s.own[q.ppn].Free?
    && q.ppn in s'.own && s'.own[q.ppn].Leaf?
    && p.ppn in s.own && s.own[p.ppn].Leaf?
    && p.ppn in s.mem && q.ppn in s'.mem && s'.mem[q.ppn] == s.mem[p.ppn]
  }

  ghost predicate Within(va: Va, root: int, lo: int, hi: int) {
    va.root == root && lo <= va.vpn < hi
  }

  lemma GrownTrans(s: Vm, s': Vm, s'': Vm, root: int)
    requires Grown(s, s', root) && Grown(s', s'', root)
    ensures Grown(s, s'', root)
  {
  }

  lemma GrownSelf(s: Vm, root: int)
    requires Inv(s, -1, 0)
    ensures Grown(s, s, root)
  {
  }

  // ---------------------------------------------------------------- walking

  /** The tables on the way to a virtual page. */
  ghost function OnWay(root: int, vpn: int, level: int): Key {
    Key(root, level, if level == 2 then 0 else if level == 1 then vpn / (ENTRIES * ENTRIES) else vpn / ENTRIES)
  }

  /** PX(level, va) */
  function Index(vpn: int, level: int): (i: int)
    requires 0 <= vpn < MAXVPN && 0 <= level <= 2
    ensures 0 <= i < ENTRIES
  {
    if level == 2 then vpn / (ENTRIES * ENTRIES) % ENTRIES
    else if level == 1 then vpn / ENTRIES % ENTRIES
    else vpn % ENTRIES
  }

  lemma NextOnWay(root: int, vpn: int, level: int)
    requires 0 <= vpn < MAXVPN && 1 <= level <= 2
    ensures Child(OnWay(root, vpn, level), Index(vpn, level)) == OnWay(root, vpn, level - 1)
    ensures KeyOk(OnWay(root, vpn, level)) && KeyOk(OnWay(root, vpn, level - 1))
    ensures Parent(OnWay(root, vpn, level - 1)) == OnWay(root, vpn, level)
    ensures OnWay(root, vpn, level - 1).prefix % ENTRIES == Index(vpn, level)
  {
  }

  /** How many tables are missing on the way to a virtual page, from a level down. */
  ghost function Missing(s: Vm, root: int, vpn: int, level: int): (n: int)
    ensures 0 <= n <= 2
  {
    if level <= 0 then 0
    else if level == 1 then if OnWay(root, vpn, 0) in s.node then 0 else 1
    else if OnWay(root, vpn, 1) !in s.node then 2
    else if OnWay(root, vpn, 0) in s.node then 0 else 1
  }

  /** The new tables are exactly those on the way to one virtual page. */
  ghost predicate TablesFor(s: Vm, s': Vm, root: int, vpn: int) {
    forall k :: k in s'.node <==> k in s.node || k == OnWay(root, vpn, 0) || k == OnWay(root, vpn, 1)
  }

  /** Table k is on the way to one of the virtual pages lo to hi. */
  ghost predicate Crossed(k: Key, root: int, lo: int, hi: int) {
    && k.root == root && lo < hi
    && ((k.level == 0 && lo / ENTRIES <= k.prefix <= (hi - 1) / ENTRIES)
        || (k.level == 1 && lo / (ENTRIES * ENTRIES) <= k.prefix <= (hi - 1) / (ENTRIES * ENTRIES)))
  }

  ghost predicate TablesUpTo(s: Vm, s': Vm, root: int, lo: int, hi: int) {
    forall k :: k in s'.node <==> k in s.node || Crossed(k, root, lo, hi)
  }

  lemma CrossedMore(k: Key, root: int, lo: int, a: int)
    requires 0 <= lo <= a
    ensures Crossed(k, root, lo, a + 1) <==> Crossed(k, root, lo, a) || k == OnWay(root, a, 0) || k == OnWay(root, a, 1)
  {
  }

  lemma TablesNone(s: Vm, root: int, lo: int)
    ensures TablesUpTo(s, s, root, lo, lo)
  {
  }

  lemma NoNeed(s: Vm, root: int, lo: int)
    ensures Need(s, root, lo, lo) == 0
  {
  }

  lemma TablesMore(s: Vm, s0: Vm, s': Vm, root: int, lo: int, a: int)
    requires 0 <= lo <= a && TablesUpTo(s, s0, root, lo, a) && TablesFor(s0, s', root, a)
    ensures TablesUpTo(s, s', root, lo, a + 1)
  {
    var hi := a + 1;
    forall k ensures k in s'.node <==> k in s.node || Crossed(k, root, lo, hi) {
      CrossedMore(k, root, lo, a);
    }
  }

  /** The pages that mapping virtual page a takes, once those from lo on are mapped: itself and its missing tables. */
  ghost function NeedAt(s: Vm, root: int, lo: int, a: int): (n: int)
    ensures 1 <= n <= 3
  {
    1 + (if OnWay(root, a, 0) in s.node || Crossed(OnWay(root, a, 0), root, lo, a) then 0 else 1)
      + (if OnWay(root, a, 1) in s.node || Crossed(OnWay(root, a, 1), root, lo, a) then 0 else 1)
  }

  /** The pages that mapping the virtual pages lo to hi takes. */
  ghost function Need(s: Vm, root: int, lo: int, hi: int): (n: int)
    ensures lo <= hi ==> hi - lo <= n <= 3 * (hi - lo)
    decreases hi - lo
  {
    if hi <= lo then 0 else Need(s, root, lo, hi - 1) + NeedAt(s, root, lo, hi - 1)
  }

  lemma {:induction false} NeedGrows(s: Vm, root: int, lo: int, a: int, hi: int)
    requires lo <= a <= hi
    ensures Need(s, root, lo, a) + (hi - a) <= Need(s, root, lo, hi)
    decreases hi - a
  {
    hide NeedAt;
    if a < hi { NeedGrows(s, root, lo, a, hi - 1); }
  }

  lemma MissingIsNeed(s: Vm, s0: Vm, root: int, lo: int, a: int)
    requires Inv(s0, -1, 0) && 0 <= lo <= a < MAXVPN && TablesUpTo(s, s0, root, lo, a)
    ensures Missing(s0, root, a, 2) + 1 == NeedAt(s, root, lo, a)
  {
    NextOnWay(root, a, 1);
    assert OnWay(root, a, 0) in s0.node ==> KeyAt(s0.own, s0.node, OnWay(root, a, 0));
  }

  lemma CrossedJoin(k: Key, root: int, lo: int, a: int, hi: int)
    requires 0 <= lo <= a <= hi
    ensures Crossed(k, root, lo, hi) <==> Crossed(k, root, lo, a) || Crossed(k, root, a, hi)
  {
  }

  lemma TablesJoin(s: Vm, s0: Vm, s': Vm, root: int, lo: int, a: int, hi: int)
    requires 0 <= lo <= a <= hi && TablesUpTo(s, s0, root, lo, a) && TablesUpTo(s0, s', root, a, hi)
    ensures TablesUpTo(s, s', root, lo, hi)
  {
    hide Crossed;
    forall k ensures k in s'.node <==> k in s.node || Crossed(k, root, lo, hi) {
      CrossedJoin(k, root, lo, a, hi);
    }
  }

  /** What growing in two stretches takes is what growing at once does. */
  lemma {:induction false} NeedJoin(s: Vm, s0: Vm, root: int, lo: int, a: int, hi: int)
    requires 0 <= lo <= a <= hi && TablesUpTo(s, s0, root, lo, a)
    ensures Need(s, root, lo, hi) == Need(s, root, lo, a) + Need(s0, root, a, hi)
    decreases hi - a
  {
    hide Crossed;
    if a < hi {
      NeedJoin(s, s0, root, lo, a, hi - 1);
      CrossedJoin(OnWay(root, hi - 1, 0), root, lo, a, hi - 1);
      CrossedJoin(OnWay(root, hi - 1, 1), root, lo, a, hi - 1);
    }
  }

  /** One of the pages that address space `from` has below hi lies under the same table of a level as page v. */
  ghost predicate SharesTable(s: Vm, from: int, hi: int, v: int, level: int) {
    exists w :: 0 <= w < hi && Va(from, w) in s.leaf && OnWay(from, w, level) == OnWay(from, v, level)
  }

  /** Table k of address space root is on the way to a page that address space `from` has below hi. */
  ghost predicate Traversed(s: Vm, from: int, k: Key, root: int, hi: int) {
    exists w :: 0 <= w < hi && Va(from, w) in s.leaf && (k == OnWay(root, w, 0) || k == OnWay(root, w, 1))
  }

  ghost predicate TablesCopied(s: Vm, s': Vm, from: int, root: int, hi: int) {
    forall k :: k in s'.node <==> k in s.node || Traversed(s, from, k, root, hi)
  }

  /** The pages that copying page v of address space `from` to root takes, once those below it are copied. */
  ghost function CopyNeedAt(s: Vm, from: int, root: int, v: int): (n: int)
    ensures 0 <= n <= 3
  {
    if Va(from, v) !in s.leaf then 0
    else
      1 + (if OnWay(root, v, 0) in s.node || SharesTable(s, from, v, v, 0) then 0 else 1)
        + (if OnWay(root, v, 1) in s.node || SharesTable(s, from, v, v, 1) then 0 else 1)
  }

  /** The pages that copying all pages below hi takes. */
  ghost function CopyNeed(s: Vm, from: int, root: int, hi: int): (n: int)
    ensures 0 <= hi ==> 0 <= n <= 3 * hi
    decreases hi
  {
    if hi <= 0 then 0 else CopyNeed(s, from, root, hi - 1) + CopyNeedAt(s, from, root, hi - 1)
  }

  lemma {:induction false} CopyNeedGrows(s: Vm, from: int, root: int, a: int, hi: int)
    requires 0 <= a <= hi
    ensures CopyNeed(s, from, root, a) <= CopyNeed(s, from, root, hi)
    decreases hi - a
  {
    hide CopyNeedAt;
    if a < hi { CopyNeedGrows(s, from, root, a, hi - 1); }
  }

  lemma NothingTraversed(s: Vm, from: int, root: int)
    ensures TablesCopied(s, s, from, root, 0) && CopyNeed(s, from, root, 0) == 0
  {
  }

  /** A page that the parent does not have takes nothing. */
  lemma NothingCopied(s: Vm, s0: Vm, from: int, root: int, a: int)
    requires 0 <= a && TablesCopied(s, s0, from, root, a) && Va(from, a) !in s.leaf
    ensures TablesCopied(s, s0, from, root, a + 1) && CopyNeedAt(s, from, root, a) == 0
  {
    var hi := a + 1;
    forall k ensures Traversed(s, from, k, root, hi) <==> Traversed(s, from, k, root, a) {
      if Traversed(s, from, k, root, hi) {
        var w :| 0 <= w < hi && Va(from, w) in s.leaf && (k == OnWay(root, w, 0) || k == OnWay(root, w, 1));
        assert w != a;
      }
    }
  }

  /** Another page takes itself and the tables it lacks. */
  lemma PageCopied(s: Vm, s0: Vm, s': Vm, from: int, root: int, a: int)
    requires Inv(s0, -1, 0) && 0 <= a < MAXVPN && TablesCopied(s, s0, from, root, a) && Va(from, a) in s.leaf
    ensures Missing(s0, root, a, 2) + 1 == CopyNeedAt(s, from, root, a)
    ensures TablesFor(s0, s', root, a) ==> TablesCopied(s, s', from, root, a + 1)
  {
    var hi := a + 1;
    forall k ensures Traversed(s, from, k, root, hi) <==>
                       Traversed(s, from, k, root, a) || k == OnWay(root, a, 0) || k == OnWay(root, a, 1)
    {
      if Traversed(s, from, k, root, hi) {
        var w :| 0 <= w < hi && Va(from, w) in s.leaf && (k == OnWay(root, w, 0) || k == OnWay(root, w, 1));
      }
    }
    TraversedShares(s, from, root, a, 0);
    TraversedShares(s, from, root, a, 1);
    NextOnWay(root, a, 1);
    assert OnWay(root, a, 0) in s0.node ==> KeyAt(s0.own, s0.node, OnWay(root, a, 0));
  }

  lemma TraversedShares(s: Vm, from: int, root: int, a: int, level: int)
    requires level == 0 || level == 1
    ensures Traversed(s, from, OnWay(root, a, level), root, a) <==> SharesTable(s, from, a, a, level)
  {
    if Traversed(s, from, OnWay(root, a, level), root, a) {
      var k := OnWay(root, a, level);
      var w :| 0 <= w < a && Va(from, w) in s.leaf && (k == OnWay(root, w, 0) || k == OnWay(root, w, 1));
      assert OnWay(from, w, level) == OnWay(from, a, level);
    }
    if SharesTable(s, from, a, a, level) {
      var w :| 0 <= w < a && Va(from, w) in s.leaf && OnWay(from, w, level) == OnWay(from, a, level);
      assert OnWay(root, a, level) == OnWay(root, w, level);
    }
  }

  /** The pages that a fork takes for the memory below hi: every page the parent has, and the tables for them other than
      those that the trapframe needs anyway. */
  ghost function ForkNeed(s: Vm, root: int, hi: int): (n: int)
    ensures 0 <= hi ==> 0 <= n <= 3 * hi
    decreases hi
  {
    if hi <= 0 then 0 else ForkNeed(s, root, hi - 1) + ForkNeedAt(s, root, hi - 1)
  }

  ghost function ForkNeedAt(s: Vm, root: int, v: int): (n: int)
    ensures 0 <= n <= 3
  {
    if Va(root, v) !in s.leaf then 0
    else
      1 + (if UnderTrapframe(v, 0) || SharesTable(s, root, v, v, 0) then 0 else 1)
        + (if UnderTrapframe(v, 1) || SharesTable(s, root, v, v, 1) then 0 else 1)
  }

  /** Page v lies under the same table of a level as the trapframe. */
  ghost predicate UnderTrapframe(v: int, level: int) {
    OnWay(0, v, level) == OnWay(0, TRAPVPN, level)
  }

  /** The only tables of the address space are the root and those for the trapframe. */
  ghost predicate NewTables(s: Vm, root: int) {
    forall k: Key :: k.root == root ==>
      (k in s.node <==> k == Key(root, 2, 0) || k == OnWay(root, TRAPVPN, 0) || k == OnWay(root, TRAPVPN, 1))
  }

  /** The pages that mapping the first n virtual pages of a new address space takes. The first page under a table needs
      the table, except under those that the trapframe has. */
  function FreshNeed(n: int): (r: int)
    ensures 0 <= n ==> n <= r <= 3 * n
    decreases n
  {
    if n <= 0 then 0
    else
      var v := n - 1;
      FreshNeed(v) + 1
      + (if v % ENTRIES == 0 && v / ENTRIES != TRAPVPN / ENTRIES then 1 else 0)
      + (if v % (ENTRIES * ENTRIES) == 0 && v / (ENTRIES * ENTRIES) != TRAPVPN / (ENTRIES * ENTRIES) then 1 else 0)
  }

  lemma {:induction false} NeedIsFreshNeed(s: Vm, root: int, n: int)
    requires NewTables(s, root) && 0 <= n
    ensures Need(s, root, 0, n) == FreshNeed(n)
    decreases n
  {
    if n > 0 {
      NeedIsFreshNeed(s, root, n - 1);
      NewTable(s, root, n - 1);
      CrossedFirst(root, n - 1);
    }
  }

  lemma CrossedFirst(root: int, v: int)
    requires 0 <= v
    ensures Crossed(OnWay(root, v, 0), root, 0, v) <==> v % ENTRIES != 0
    ensures Crossed(OnWay(root, v, 1), root, 0, v) <==> v % (ENTRIES * ENTRIES) != 0
  {
  }

  lemma {:induction false} CopyNeedIsForkNeed(s0: Vm, s: Vm, from: int, root: int, hi: int)
    requires NewTables(s, root) && 0 <= hi && forall v :: Va(from, v) in s.leaf <==> Va(from, v) in s0.leaf
    ensures CopyNeed(s, from, root, hi) == ForkNeed(s0, from, hi)
    decreases hi
  {
    hide SharesTable, NewTables;
    if hi > 0 {
      CopyNeedIsForkNeed(s0, s, from, root, hi - 1);
      SharesSame(s0, s, from, hi - 1, 0);
      SharesSame(s0, s, from, hi - 1, 1);
      NewTable(s, root, hi - 1);
    }
  }

  lemma SharesSame(s0: Vm, s: Vm, from: int, v: int, level: int)
    requires forall v :: Va(from, v) in s.leaf <==> Va(from, v) in s0.leaf
    ensures SharesTable(s, from, v, v, level) <==> SharesTable(s0, from, v, v, level)
  {
  }

  lemma NewTable(s: Vm, root: int, v: int)
    requires NewTables(s, root)
    ensures OnWay(root, v, 0) in s.node <==> UnderTrapframe(v, 0)
    ensures OnWay(root, v, 1) in s.node <==> UnderTrapframe(v, 1)
  {
  }

  ghost function Linked(s: Vm, k: Key, i: int, f: int): Vm
    requires k in s.node && IsTable(s.mem, s.node[k]) && 0 <= i < ENTRIES && f != s.node[k] && k != Child(k, i)
  {
    SetEntry(AddTable(s, Child(k, i), f), k, i, Pte(f, true, false, false, false, false))
  }

  lemma LinkGrown(s: Vm, k: Key, i: int)
    requires Inv(s, -1, 0) && k in s.node && 0 < k.level && 0 <= i < ENTRIES && Child(k, i) !in s.node && s.list != []
    ensures var f, s1 := Top(s.list), Alloc(s);
            && k in s1.node && IsTable(s1.mem, s1.node[k]) && f != s1.node[k] && k != Child(k, i)
            && Grown(s, Linked(s1, k, i, f), k.root)
  {
    hide Inv;
    AllocKeepsInv(s, -1, 0);
    EntryAt(s, k, i);
    OwnedInMemory(s);
  }

  lemma OwnedInMemory(s: Vm)
    requires Inv(s, -1, 0)
    ensures forall f :: f in s.own ==> f in s.mem && 0 < f
  {
  }

  /** A user page may only be mapped to a page in hand that holds bytes; the trapframe and the trampoline are
      not for user code. */
  ghost predicate InHand(s: Vm, va: Va, p: Pte) {
    if User(va) then
      p.ppn in s.own && s.own[p.ppn] == Loose && p.ppn in s.mem && s.mem[p.ppn].Bytes? && |s.mem[p.ppn].b| == PGSIZE
    else !p.u
  }

  lemma CanMap(s: Vm, s': Vm, va: Va, p: Pte)
    requires Grown(s, s', va.root) && va !in s.leaf && p.v && p.r && InHand(s, va, p)
    requires 0 <= va.vpn < MAXVPN && Low(va) in s'.node
    ensures CanAttach(s', va, p) && va !in s'.leaf
  {
  }

  lemma MapChange(s: Vm, s1: Vm, va: Va, p: Pte)
    requires Grown(s, s1, va.root) && Inv(s1, -1, 0) && CanAttach(s1, va, p)
    requires IsTable(s1.mem, s1.node[Low(va)])
    ensures Mapped(s, SetEntry(Attach(s1, va, p), Low(va), va.vpn % ENTRIES, p), va, p)
  {
    hide Inv;
    EntryAt(s1, Low(va), va.vpn % ENTRIES);
  }

  /** What the tables say about a virtual page. */
  lemma Lookup(s: Vm, va: Va)
    requires Inv(s, -1, 0) && 0 <= va.vpn < MAXVPN
    ensures va in s.leaf ==> LeafAt(s.own, s.node, s.leaf, va)
    ensures Low(va) == OnWay(va.root, va.vpn, 0) && VaAt(Low(va), va.vpn % ENTRIES) == va
    ensures va in s.leaf ==> Missing(s, va.root, va.vpn, 2) == 0
    ensures Missing(s, va.root, va.vpn, 2) == 0 <==> Low(va) in s.node
  {
    NextOnWay(va.root, va.vpn, 1);
    assert Low(va) in s.node ==> KeyAt(s.own, s.node, Low(va));
  }

  lemma UnmapChange(s: Vm, va: Va, free: bool)
    requires Inv(s, -1, 0) && va in s.leaf && LeafAt(s.own, s.node, s.leaf, va) && (free ==> User(va))
    requires IsTable(s.mem, s.node[Low(va)])
    ensures var s1 := Detach(s, va);
            var s2 := if free then Release(s1, s.leaf[va].ppn) else s1;
            IsTable(s2.mem, s2.node[Low(va)]) && Unmapped(s, SetEntry(s2, Low(va), va.vpn % ENTRIES, NoPte), va, free)
  {
    hide Inv;
    EntryAt(s, Low(va), va.vpn % ENTRIES);
    OwnedInMemory(s);
  }

  /** Taking a free page, zeroing it, and mapping it. */
  ghost function Zeroed(s: Vm): Vm
    requires 0 < |s.list|
  {
    Alloc(s).(mem := Alloc(s).mem[Top(s.list) := Bytes(Filled(0))])
  }

  lemma ZeroMapped(s: Vm, s': Vm, va: Va, p: Pte)
    requires Inv(s, -1, 0) && s.list != [] && User(va) && va !in s.leaf
    requires p == Pte(Top(s.list), true, true, p.w, p.x, true)
    requires Mapped(Zeroed(s), s', va, p)
    ensures Extended(s, s', va.root, va.vpn, va.vpn + 1, p.w, p.x)
    ensures va in s'.leaf && s'.leaf[va] == p
  {
    hide Inv;
    AllocKeepsInv(s, -1, 0);
    OwnedInMemory(s);
    var hi := va.vpn + 1;
    assert forall w: Va :: Within(w, va.root, va.vpn, hi) ==> w == va;
  }

  lemma ExtendedNone(s: Vm, root: int, lo: int, w: bool, x: bool)
    requires Inv(s, -1, 0)
    ensures Extended(s, s, root, lo, lo, w, x)
  {
  }

  lemma ExtendedNode(s: Vm, s': Vm, root: int, lo: int, a: int, w: bool, x: bool)
    requires Extended(s, s', root, lo, a, w, x)
    ensures forall k :: k in s.node ==> k in s'.node
    ensures Va(root, a) in s.leaf <==> Va(root, a) in s'.leaf
  {
  }

  lemma GrownLeaves(s: Vm, s': Vm, root: int)
    requires Grown(s, s', root)
    ensures s'.leaf == s.leaf
  {
  }

  lemma GrownNode(s: Vm, s': Vm, root: int)
    requires Grown(s, s', root)
    ensures forall k :: k in s.node ==> k in s'.node
  {
  }

  lemma ExtendedMore(s: Vm, s0: Vm, s': Vm, root: int, lo: int, a: int, w: bool, x: bool)
    requires lo <= a && Extended(s, s0, root, lo, a, w, x) && Extended(s0, s', root, a, a + 1, w, x)
    ensures Extended(s, s', root, lo, a + 1, w, x)
  {
    hide FreshZero;
    forall va | va in s'.leaf && Within(va, root, lo, a + 1) ensures FreshZero(s, s', s'.leaf[va], w, x) {
      if Within(va, root, lo, a) {
        FreshStays(s, s0, s', s0.leaf[va], w, x);
      } else {
        FreshBefore(s, s0, s', s'.leaf[va], w, x);
      }
    }
  }

  lemma FreshStays(s: Vm, s0: Vm, s': Vm, p: Pte, w: bool, x: bool)
    requires FreshZero(s, s0, p, w, x) && Settled(s0, s') && Stays(s0, s')
    ensures FreshZero(s, s', p, w, x)
  {
  }

  lemma FreshBefore(s: Vm, s0: Vm, s': Vm, p: Pte, w: bool, x: bool)
    requires FreshZero(s0, s', p, w, x) && Settled(s, s0)
    ensures FreshZero(s, s', p, w, x)
  {
  }

  /** Mapping pages and unmapping them again leaves only tables behind. */
  lemma ExtendedUndone(s: Vm, s0: Vm, s1: Vm, s': Vm, root: int, lo: int, a: int, w: bool, x: bool)
    requires Extended(s, s0, root, lo, a, w, x) && Grown(s0, s1, root) && Shrunk(s1, s', root, lo, a) && a <= TRAPVPN
    requires forall va :: va in s.leaf && User(va) ==> !Within(va, root, lo, a)
    requires Inv(s, -1, 0)
    ensures Grown(s, s', root)
  {
    hide Inv;
    LeavesAreMapped(s);
  }

  lemma LeavesAreMapped(s: Vm)
    requires Inv(s, -1, 0)
    ensures forall f :: f in s.own && s.own[f].Leaf? ==> s.own[f].va in s.leaf && User(s.own[f].va)
  {
  }

  lemma GrownLoose(s: Vm, s': Vm, root: int, f: int)
    requires Grown(s, s', root) && f in s.own && s.own[f] == Loose
    ensures f in s'.own && s'.own[f] == Loose
  {
  }

  lemma ZeroReleased(s: Vm, s': Vm, root: int)
    requires Inv(s, -1, 0) && s.list != [] && Grown(Zeroed(s), s', root)
    ensures Grown(s, Release(s', Top(s.list)), root)
  {
    hide Inv;
    AllocKeepsInv(s, -1, 0);
    OwnedInMemory(s);
  }

  lemma ShrunkNone(s: Vm, root: int, lo: int)
    requires Inv(s, -1, 0)
    ensures Shrunk(s, s, root, lo, lo)
  {
  }

  lemma ShrunkNode(s: Vm, s': Vm, root: int, lo: int, hi: int)
    requires Shrunk(s, s', root, lo, hi)
    ensures s'.node == s.node
  {
  }

  lemma ShrunkMore(s: Vm, s0: Vm, s': Vm, root: int, lo: int, a: int)
    requires Shrunk(s, s0, root, lo, a) && lo <= a < TRAPVPN && Inv(s, -1, 0)
    requires if Va(root, a) in s0.leaf then Unmapped(s0, s', Va(root, a), true) else s' == s0
    ensures Shrunk(s, s', root, lo, a + 1)
  {
    hide Inv;
    LeafOwners(s, root, a);
  }

  /** At most one page is mapped at a virtual page, and only if the page table says so. */
  lemma LeafOwners(s: Vm, root: int, vpn: int)
    requires Inv(s, -1, 0)
    ensures forall f :: f in s.own && s.own[f] == Leaf(Va(root, vpn)) ==>
              Va(root, vpn) in s.leaf && s.leaf[Va(root, vpn)].ppn == f
  {
  }

  lemma RootAt(s: Vm, root: int)
    requires Inv(s, -1, 0) && Key(root, 2, 0) in s.node
    ensures s.node[Key(root, 2, 0)] == root && 0 < root
  {
    assert KeyAt(s.own, s.node, Key(root, 2, 0));
  }

  /** A table below a missing table is missing. */
  lemma MissingStep(s: Vm, s': Vm, root: int, vpn: int, level: int)
    requires Inv(s, -1, 0) && 0 <= vpn < MAXVPN && 1 <= level <= 2
    requires forall k :: k in s'.node <==> k in s.node || k == OnWay(root, vpn, level - 1)
    ensures Missing(s, root, vpn, level) ==
            Missing(s', root, vpn, level - 1) + if OnWay(root, vpn, level - 1) in s.node then 0 else 1
  {
    NextOnWay(root, vpn, 1);
    assert OnWay(root, vpn, 0) in s.node ==> KeyAt(s.own, s.node, OnWay(root, vpn, 0));
  }

  /** Without mappings in the address space, a valid entry of its tables points to a table. */
  lemma EntryIsTable(s: Vm, k: Key, i: int)
    requires Inv(s, -1, 0) && k in s.node && 0 <= i < ENTRIES
    requires forall va :: va in s.leaf ==> va.root != k.root
    ensures KeyAt(s.own, s.node, k) && IsTable(s.mem, s.node[k])
    ensures var p := s.mem[s.node[k]].e[i];
            && (p.v ==> 0 < k.level && !p.r && !p.w && !p.x && Child(k, i) in s.node && p.ppn == s.node[Child(k, i)])
            && (!p.v && 0 < k.level ==> Child(k, i) !in s.node)
    ensures 0 < k.level ==> Parent(Child(k, i)) == k && KeyOk(Child(k, i)) && Child(k, i).prefix % ENTRIES == i
  {
    EntryAt(s, k, i);
    if 0 < k.level {
      ParentOfChild(k, i);
    }
  }

  ghost predicate Created(s: Vm, s': Vm, root: int) {
    && root in s.own && s.own[root].Free? && 0 < root && |s'.list| == |s.list| - 1
    && s'.leaf == s.leaf && s'.node == s.node[Key(root, 2, 0) := root]
    && (forall k :: k in s.node ==> k.root != root) && (forall va :: va in s.leaf ==> va.root != root)
    && (forall f :: f in s.own <==> f in s'.own)
    && (forall f :: f in s.own ==> s'.own[f] == if f == root then Table(Key(root, 2, 0)) else s.own[f])
    && Stays(s, s')
  }

  /** A page that is not a root table has no address space. */
  lemma {:induction false} NoTables(s: Vm, k: Key)
    requires NodeOk(s.own, s.node) && k in s.node
    ensures Key(k.root, 2, 0) in s.node && s.node[Key(k.root, 2, 0)] == k.root
    ensures k.root in s.own && s.own[k.root].Table?
    decreases 2 - k.level
  {
    assert KeyAt(s.own, s.node, k);
    if k.level < 2 {
      NoTables(s, Parent(k));
    }
  }

  lemma NoSuchRoot(s: Vm, root: int)
    requires Inv(s, -1, 0) && root in s.own && !s.own[root].Table?
    ensures forall k :: k in s.node ==> k.root != root
    ensures forall va :: va in s.leaf ==> va.root != root
  {
    forall k | k in s.node ensures k.root != root {
      NoTables(s, k);
    }
    forall va | va in s.leaf ensures va.root != root {
      assert LeafAt(s.own, s.node, s.leaf, va);
      assert Low(va) in s.node;
    }
  }

  lemma CreateChange(s: Vm, root: int)
    requires Inv(s, -1, 0) && s.list != [] && root == Top(s.list)
    ensures Created(s, AddTable(Alloc(s), Key(root, 2, 0), root), root)
  {
    hide Inv;
    AllocKeepsInv(s, -1, 0);
    OwnedInMemory(s);
    NoSuchRoot(s, root);
  }

  lemma ShrunkAll(s: Vm, s': Vm, root: int, n: int)
    requires Shrunk(s, s', root, 0, n) && Inv(s, -1, 0)
    requires forall va :: va in s.leaf && va.root == root ==> va.vpn < n
    ensures s'.node == s.node && forall va :: va in s'.leaf ==> va.root != root
  {
    forall va | va in s.leaf ensures 0 <= va.vpn {
      assert LeafAt(s.own, s.node, s.leaf, va);
    }
  }

  lemma ShrunkGone(s: Vm, s1: Vm, s': Vm, root: int, n: int)
    requires Inv(s, -1, 0) && Shrunk(s, s1, root, 0, n) && Gone(s1, s', root)
    requires forall va :: va in s1.leaf ==> va.root != root
    ensures Gone(s, s', root)
  {
    hide Inv;
    LeafOwnersMapped(s);
  }

  lemma CopiedNone(s: Vm, old': int, new': int, lo: int)
    requires Inv(s, -1, 0)
    ensures Copied(s, s, old', new', lo, lo)
    ensures Va(old', lo) !in s.leaf ==> Copied(s, s, old', new', lo, lo + 1)
  {
  }

  lemma SourcePage(s: Vm, root: int, vpn: int)
    requires Inv(s, -1, 0) && Va(root, vpn) in s.leaf && vpn < TRAPVPN
    ensures var f := s.leaf[Va(root, vpn)].ppn;
            f in s.own && s.own[f].Leaf? && f in s.mem && s.mem[f].Bytes? && |s.mem[f].b| == PGSIZE
    ensures s.leaf[Va(root, vpn)].v && s.leaf[Va(root, vpn)].r
  {
    MappingAt(s, Va(root, vpn));
  }

  /** Taking a free page and copying another to it. */
  ghost function Duplicated(s: Vm, p: Pte): Vm
    requires 0 < |s.list| && p.ppn in s.mem
  {
    Alloc(s).(mem := Alloc(s).mem[Top(s.list) := s.mem[p.ppn]])
  }

  lemma CopyMapped(s: Vm, s': Vm, old': int, new': int, vpn: int)
    requires Inv(s, -1, 0) && s.list != [] && 0 <= vpn < TRAPVPN && Va(new', vpn) !in s.leaf && Va(old', vpn) in s.leaf
    requires s.leaf[Va(old', vpn)].ppn in s.mem
    requires Mapped(Duplicated(s, s.leaf[Va(old', vpn)]), s', Va(new', vpn), s.leaf[Va(old', vpn)].(ppn := Top(s.list)))
    ensures Copied(s, s', old', new', vpn, vpn + 1)
  {
    hide Inv;
    AllocKeepsInv(s, -1, 0);
    OwnedInMemory(s);
    SourcePage(s, old', vpn);
    var hi := vpn + 1;
    assert forall w: Va :: Within(w, new', vpn, hi) ==> w == Va(new', vpn);
  }

  lemma CopyReleased(s: Vm, s': Vm, old': int, new': int, vpn: int)
    requires Inv(s, -1, 0) && s.list != [] && vpn < TRAPVPN && Va(old', vpn) in s.leaf
    requires s.leaf[Va(old', vpn)].ppn in s.mem
    requires Grown(Duplicated(s, s.leaf[Va(old', vpn)]), s', new')
    ensures Grown(s, Release(s', Top(s.list)), new')
  {
    hide Inv;
    AllocKeepsInv(s, -1, 0);
    OwnedInMemory(s);
    SourcePage(s, old', vpn);
  }

  lemma CopiedNode(s: Vm, s': Vm, old': int, new': int, a: int)
    requires Copied(s, s', old', new', 0, a)
    ensures forall k :: k in s.node ==> k in s'.node
    ensures Va(new', a) !in s.leaf <==> Va(new', a) !in s'.leaf
    ensures old' != new' ==> (Va(old', a) in s'.leaf <==> Va(old', a) in s.leaf)
  {
  }

  lemma CopiedMore(s: Vm, s0: Vm, s': Vm, old': int, new': int, a: int)
    requires Inv(s, -1, 0) && old' != new' && 0 <= a < TRAPVPN
    requires Copied(s, s0, old', new', 0, a) && Copied(s0, s', old', new', a, a + 1)
    ensures Copied(s, s', old', new', 0, a + 1)
  {
    hide FreshCopy, Inv;
    forall va | va in s'.leaf && va !in s.leaf
      ensures Va(old', va.vpn) in s.leaf && FreshCopy(s, s', s.leaf[Va(old', va.vpn)], s'.leaf[va])
    {
      if va in s0.leaf {
        CopyStays(s, s0, s', s.leaf[Va(old', va.vpn)], s0.leaf[va]);
      } else {
        SourcePage(s, old', va.vpn);
        CopyBefore(s, s0, s', s0.leaf[Va(old', va.vpn)], s'.leaf[va]);
      }
    }
  }

  lemma CopyStays(s: Vm, s0: Vm, s': Vm, p: Pte, q: Pte)
    requires FreshCopy(s, s0, p, q) && Settled(s0, s') && Stays(s0, s')
    ensures FreshCopy(s, s', p, q)
  {
  }

  lemma CopyBefore(s: Vm, s0: Vm, s': Vm, p: Pte, q: Pte)
    requires FreshCopy(s0, s', p, q) && Settled(s, s0) && Stays(s, s0)
    requires p.ppn in s.own && s.own[p.ppn].Leaf?
    ensures FreshCopy(s, s', p, q)
  {
  }

  lemma CopiedUndone(s: Vm, s0: Vm, s1: Vm, s': Vm, old': int, new': int, a: int)
    requires Copied(s, s0, old', new', 0, a) && Grown(s0, s1, new') && Shrunk(s1, s', new', 0, a)
    requires forall va :: va in s.leaf ==> !Within(va, new', 0, a)
    requires Inv(s, -1, 0)
    ensures Grown(s, s', new')
  {
    hide Inv;
    LeavesAreMapped(s);
  }

  lemma CutFacts(s: Vm, s': Vm, k: Key, i: int)
    requires Cut(s, s', Child(k, i), ENTRIES, true) && k in s.node && 0 < k.level
    ensures k in s'.node && s'.node[k] == s.node[k] && s'.leaf == s.leaf && Child(k, i) !in s'.node
  {
  }

  lemma ParentKept(s: Vm, s': Vm, k: Key)
    requires Inv(s, -1, 0) && Cut(s, s', k, ENTRIES, false) && k in s.node
    ensures k.level < 2 ==> Parent(k) in s'.node && s'.node[Parent(k)] == Above(s, k)
  {
    assert KeyAt(s.own, s.node, k);
  }

  lemma TopIsPage(s: Vm)
    requires Inv(s, -1, 0)
    ensures Top(s.list) == 0 <==> s.list == []
    ensures s.list != [] ==>
             0 < Top(s.list) && Top(s.list) in s.own && s.own[Top(s.list)].Free? && Top(s.list) in s.mem &&
             s.mem[Top(s.list)].Run?
  {
    if s.list != [] {
      var n := |s.list| - 1;
      assert s.list[n] in s.own;
    }
  }

  lemma EntryAt(s: Vm, k: Key, i: int)
    requires Inv(s, -1, 0) && k in s.node && 0 <= i < ENTRIES
    ensures KeyAt(s.own, s.node, k) && IsTable(s.mem, s.node[k]) && EntryOk(s.mem, s.node, s.leaf, k, i)
    ensures 0 < k.level && Child(k, i) in s.node ==> 0 < s.node[Child(k, i)]
  {
    assert KeyAt(s.own, s.node, k);
    assert 0 < k.level && Child(k, i) in s.node ==> KeyAt(s.own, s.node, Child(k, i));
  }

  lemma StillMapped(s: Vm, s': Vm, va: Va, vb: Va)
    requires Unmapped(s, s', va, false) && va != vb && vb in s.leaf
    ensures vb in s'.leaf && s'.node == s.node
  {
  }
}
