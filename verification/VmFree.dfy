/** The effect of freewalk: whole subtrees of tables leave an address space. */
module VmFree {
  import opened VmTable

  /** Table k2 is below one of the first i entries of table k. */
  ghost predicate Below(k2: Key, k: Key, i: int) {
    && k2.root == k.root && 0 <= k2.level < k.level
    && k.prefix * ENTRIES <= Ancestor(k2, k.level - 1) < k.prefix * ENTRIES + i
  }

  /** The prefix of the table at level l (at most one up) above table k. */
  ghost function Ancestor(k: Key, l: int): int {
    if k.level == l then k.prefix else k.prefix / ENTRIES
  }

  ghost predicate Removed(k2: Key, k: Key, i: int, whole: bool) {
    Below(k2, k, i) || (whole && k2 == k)
  }

  /** The tables below the first i entries of table k (and table k too) are free; nothing else has changed. */
  ghost predicate Cut(s: Vm, s': Vm, k: Key, i: int, whole: bool) {
    && s'.leaf == s.leaf
    && (forall k2 :: k2 in s'.node <==> k2 in s.node && !Removed(k2, k, i, whole))
    && (forall k2 :: k2 in s'.node ==> s'.node[k2] == s.node[k2])
    && (forall f :: f in s.own <==> f in s'.own)
    && (forall f :: f in s.own ==>
          if s.own[f].Table? && Removed(s.own[f].key, k, i, whole) then s'.own[f].Free? else s'.own[f] == s.own[f])
    && (forall f :: f in s.own && (s.own[f].Leaf? || s.own[f] == Loose) ==>
          f in s.mem && f in s'.mem && s'.mem[f] == s.mem[f])
  }

  lemma CutNone(s: Vm, k: Key)
    requires Inv(s, -1, 0)
    ensures Cut(s, s, k, 0, false)
  {
  }

  lemma BelowMore(k2: Key, k: Key, i: int)
    requires KeyOk(k) && KeyOk(k2) && 0 < k.level && 0 <= i < ENTRIES
    ensures Below(k2, k, i + 1) <==> Below(k2, k, i) || Removed(k2, Child(k, i), ENTRIES, true)
    ensures Removed(k2, Child(k, i), ENTRIES, true) && k2 != Child(k, i) ==> Parent(k2) == Child(k, i)
  {
  }

  /** Nothing is below a table that is not there. */
  lemma CutNothing(s: Vm, s0: Vm, k: Key, i: int)
    requires Inv(s, -1, 0) && Inv(s0, -1, 0) && Cut(s, s0, k, i, false) && k in s0.node && 0 < k.level &&
             0 <= i < ENTRIES
    requires Child(k, i) !in s0.node
    ensures Cut(s, s0, k, i + 1, false)
  {
    hide TableOk, ListOk, LeafOk, DataOk;
    assert KeyAt(s0.own, s0.node, k);
    forall k2 | k2 in s.node ensures k2 in s0.node <==> !Removed(k2, k, i + 1, false) {
      assert KeyAt(s.own, s.node, k2);
      BelowMore(k2, k, i);
      assert k2 in s0.node ==> KeyAt(s0.own, s0.node, k2);
    }
  }

  lemma CutMore(s: Vm, s0: Vm, s1: Vm, k: Key, i: int)
    requires Inv(s, -1, 0) && Cut(s, s0, k, i, false) && Cut(s0, s1, Child(k, i), ENTRIES, true)
    requires KeyOk(k) && 0 < k.level && 0 <= i < ENTRIES
    ensures Cut(s, s1, k, i + 1, false)
  {
    hide Inv, Removed;
    var n := i + 1;
    KeysOk(s);
    forall k2 | k2 in s.node
      ensures Removed(k2, k, n, false) <==> Removed(k2, k, i, false) || Removed(k2, Child(k, i), ENTRIES, true)
    {
      RemovedMore(k2, k, i);
    }
    forall f | f in s.own
      ensures if s.own[f].Table? && Removed(s.own[f].key, k, n, false) then s1.own[f].Free? else s1.own[f] == s.own[f]
    {
    }
  }

  lemma KeysOk(s: Vm)
    requires Inv(s, -1, 0)
    ensures forall k2 :: k2 in s.node ==> KeyOk(k2)
    ensures forall f :: f in s.own && s.own[f].Table? ==> s.own[f].key in s.node
  {
    forall k2 | k2 in s.node ensures KeyOk(k2) {
      assert KeyAt(s.own, s.node, k2);
    }
  }

  lemma RemovedMore(k2: Key, k: Key, i: int)
    requires KeyOk(k) && KeyOk(k2) && 0 < k.level && 0 <= i < ENTRIES
    ensures Removed(k2, k, i + 1, false) <==> Removed(k2, k, i, false) || Removed(k2, Child(k, i), ENTRIES, true)
  {
    BelowMore(k2, k, i);
  }

  /** Writing an entry of a table changes nothing that Cut speaks of. */
  lemma CutThenWrite(s: Vm, s1: Vm, k: Key, i: int, p: Pte)
    requires Inv(s, -1, 0) && Cut(s, s1, k, i + 1, false) && k in s1.node && IsTable(s1.mem, s1.node[k]) &&
             0 <= i < ENTRIES
    requires k in s.node && KeyAt(s.own, s.node, k)
    ensures Cut(s, SetEntry(s1, k, i, p), k, i + 1, false)
  {
    hide Inv;
  }

  /** A table of level 0 has no tables below it. */
  lemma CutLowest(s: Vm, s0: Vm, k: Key, i: int)
    requires Cut(s, s0, k, i, false) && k.level == 0
    ensures Cut(s, s0, k, i + 1, false)
  {
  }

  lemma CutBare(s: Vm, s1: Vm, k: Key)
    requires Cut(s, s1, k, ENTRIES, false) && KeyOk(k)
    requires forall va :: va in s.leaf ==> va.root != k.root
    ensures Bare(s1, k)
  {
    forall j | 0 <= j < ENTRIES && 0 < k.level ensures Below(Child(k, j), k, ENTRIES) {
      ParentOfChild(k, j);
    }
  }

  lemma CutAll(s: Vm, s1: Vm, k: Key)
    requires Inv(s, -1, 0) && Inv(s1, -1, 0) && Cut(s, s1, k, ENTRIES, false) && k in s1.node
    ensures Cut(s, Release(DropTable(s1, k), s1.node[k]), k, ENTRIES, true)
  {
    hide Inv, Below;
    OwnersOfTables(s, k);
    OwnersOfTables(s1, k);
    KeysOk(s);
  }

  lemma OwnersOfTables(s: Vm, k: Key)
    requires Inv(s, -1, 0) && k in s.node
    ensures forall f :: f in s.own && s.own[f] == Table(k) ==> f == s.node[k]
    ensures s.node[k] in s.own && s.own[s.node[k]] == Table(k)
  {
    assert KeyAt(s.own, s.node, k);
  }

  /** Where the entry above table k is; -1 for a root. */
  ghost function Above(s: Vm, k: Key): int {
    if k.level < 2 && Parent(k) in s.node then s.node[Parent(k)] else -1
  }

  /** The address space is gone: every table and every user page it had is free, nothing else has changed. */
  ghost predicate Gone(s: Vm, s': Vm, root: int) {
    && (forall va :: va in s'.leaf <==> va in s.leaf && va.root != root)
    && (forall va :: va in s'.leaf ==> s'.leaf[va] == s.leaf[va])
    && (forall k :: k in s'.node <==> k in s.node && k.root != root)
    && (forall k :: k in s'.node ==> s'.node[k] == s.node[k])
    && (forall f :: f in s.own <==> f in s'.own)
    && (forall f :: f in s.own ==> if BelongsTo(s.own[f], root) then s'.own[f].Free? else s'.own[f] == s.own[f])
    && (forall f :: f in s.own && (s.own[f].Leaf? || s.own[f] == Loose) && !BelongsTo(s.own[f], root) ==>
          f in s.mem && f in s'.mem && s'.mem[f] == s.mem[f])
  }

  ghost predicate BelongsTo(o: Owner, root: int) {
    (o.Table? && o.key.root == root) || (o.Leaf? && o.va.root == root)
  }

  /** All tables of an address space are below its root. */
  lemma BelowRoot(k: Key, root: int)
    requires KeyOk(k)
    ensures Removed(k, Key(root, 2, 0), ENTRIES, true) <==> k.root == root
  {
  }

  /** Cutting the root of an address space without mappings. */
  lemma CutRoot(s: Vm, s': Vm, root: int)
    requires Inv(s, -1, 0) && Cut(s, s', Key(root, 2, 0), ENTRIES, true)
    requires forall va :: va in s.leaf ==> va.root != root
    ensures Gone(s, s', root)
  {
    hide Inv, Removed;
    KeysOk(s);
    LeafOwnersMapped(s);
    forall k | k in s.node ensures Removed(k, Key(root, 2, 0), ENTRIES, true) <==> k.root == root {
      BelowRoot(k, root);
    }
  }

  lemma LeafOwnersMapped(s: Vm)
    requires Inv(s, -1, 0)
    ensures forall f :: f in s.own && s.own[f].Leaf? ==> s.own[f].va in s.leaf && User(s.own[f].va)
    ensures forall f :: f in s.own ==> f in s.mem && 0 < f
  {
  }
}
