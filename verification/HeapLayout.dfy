/** The free list of user/umalloc.c as a value: a circular, address-ordered, coalescing list.

    Addresses count Header units. A block's header is its first unit: `ptr` and `size` are the two
    words of the header at an address. */
module HeapLayout {
  import opened Basics

  const NULL: int := 0

  /** What the headers and the program together mean: the free blocks in address order, starting
      with the empty block `base`; the headers of the blocks handed out; all blocks with their sizes;
      and for every unit obtained from sbrk the header of the block it belongs to. */
  datatype Layout = Layout(ring: seq<int>, live: set<int>, blocks: map<int, int>, cell: map<int, int>, brk: int)

  /** Following ptr from base visits the ring's blocks in order and comes back to base. */
  ghost predicate LinksOk(ring: seq<int>, base: int, ptr: map<int, int>) {
    var k := |ring|;
    && k > 0 && ring[0] == base
    && (forall i {:trigger ptr[ring[i]]} {:trigger ring[i] in ptr} :: 0 <= i < k ==> ring[i] in ptr)
    && (forall i {:trigger ptr[ring[i]]} :: 0 <= i < k - 1 ==> ptr[ring[i]] == ring[i + 1])
    && ptr[ring[k - 1]] == base
  }

  /** Addresses ascend from base, the only empty block, and blocks do not overlap. */
  ghost predicate OrderOk(ring: seq<int>, base: int, size: map<int, int>) {
    && |ring| > 0 && ring[0] == base
    && (forall i :: 0 <= i < |ring| ==> ring[i] in size)
    && size[base] == 0
    && (forall i :: 0 < i < |ring| ==> size[ring[i]] > 0)
    && (forall i, j :: 0 <= i < j < |ring| ==> ring[i] < ring[j] && ring[i] + size[ring[i]] <= ring[j])
  }

  /** Every unit lies in exactly one block. */
  ghost predicate Tiled(blocks: map<int, int>, cell: map<int, int>) {
    && (forall x :: x in cell ==> cell[x] in blocks && cell[x] <= x < cell[x] + blocks[cell[x]])
    && (forall a, x :: a in blocks && a <= x < a + blocks[a] ==> x in cell && cell[x] == a)
  }

  /** The blocks are those handed out and those on the list, and no block is both. */
  ghost predicate BlocksOk(l: Layout, base: int, size: map<int, int>) {
    && (forall a :: a in l.blocks <==> a in l.live || (a in l.ring && a != base))
    && (forall a :: a in l.live ==> a !in l.ring)
    && (forall a :: a in l.blocks ==> a in size && size[a] == l.blocks[a] > 0 && base < a && a + l.blocks[a] <= l.brk)
  }

  /** Neighbours on the list do not touch, except perhaps at positions lo to hi. */
  ghost predicate ApartBut(ring: seq<int>, size: map<int, int>, lo: int, hi: int) {
    forall i {:trigger size[ring[i]]} {:trigger ring[i] in size} ::
      0 <= i < |ring| - 1 && !(lo <= i < hi) ==> ring[i] in size && ring[i] + size[ring[i]] < ring[i + 1]
  }

  /** All of the invariant but the last part, which free breaks on the way. */
  ghost predicate ListOk(l: Layout, base: int, ptr: map<int, int>, size: map<int, int>) {
    && NULL < base < l.brk
    && LinksOk(l.ring, base, ptr) && OrderOk(l.ring, base, size) && BlocksOk(l, base, size) && Tiled(l.blocks, l.cell)
  }

  ghost predicate HeapOk(l: Layout, base: int, ptr: map<int, int>, size: map<int, int>) {
    ListOk(l, base, ptr, size) && ApartBut(l.ring, size, 0, 0)
  }

  /** The position after which an address belongs in the ring. */
  ghost function Place(ring: seq<int>, bp: int): (t: nat)
    requires |ring| > 0 && ring[0] < bp
    ensures t < |ring| && ring[t] < bp
    ensures t + 1 < |ring| ==> ring[t + 1] >= bp
  {
    if |ring| == 1 || ring[1] >= bp then 0 else 1 + Place(ring[1..], bp)
  }

  lemma BlockStart(blocks: map<int, int>, cell: map<int, int>, a: int)
    requires Tiled(blocks, cell) && a in blocks && blocks[a] > 0
    ensures a in cell && cell[a] == a
  {
  }

  /** No two blocks overlap. */
  lemma BlocksDisjoint(l: Layout, a: int, b: int)
    requires Tiled(l.blocks, l.cell) && a in l.blocks && b in l.blocks && a < b && l.blocks[b] > 0
    ensures a + l.blocks[a] <= b
  {
    BlockStart(l.blocks, l.cell, b);
  }

  // ---------------------------------------------------------------- linking a block in

  ghost function Inserted(l: Layout, bp: int, t: nat): Layout
    requires t < |l.ring|
  {
    l.(ring := l.ring[..t + 1] + [bp] + l.ring[t + 1..], live := l.live - {bp})
  }

  /** Where bp lies between its neighbours on the list. */
  lemma Neighbours(l: Layout, base: int, ptr: map<int, int>, size: map<int, int>, bp: int, t: nat)
    requires ListOk(l, base, ptr, size) && bp in l.live && t == Place(l.ring, bp)
    ensures l.ring[t] + size[l.ring[t]] <= bp
    ensures t + 1 < |l.ring| ==> bp + size[bp] <= l.ring[t + 1] == ptr[l.ring[t]]
    ensures t + 1 == |l.ring| ==> ptr[l.ring[t]] == base
  {
    if t > 0 { BlocksDisjoint(l, l.ring[t], bp); }
    if t + 1 < |l.ring| { BlocksDisjoint(l, bp, l.ring[t + 1]); }
  }

  lemma InsertKeepsLinks(ring: seq<int>, base: int, ptr: map<int, int>, bp: int, t: nat)
    requires LinksOk(ring, base, ptr) && t < |ring| && bp !in ring
    requires forall i, j :: 0 <= i < j < |ring| ==> ring[i] != ring[j]
    ensures LinksOk(ring[..t + 1] + [bp] + ring[t + 1..], base, ptr[bp := ptr[ring[t]]][ring[t] := bp])
  {
    var ring', ptr' := ring[..t + 1] + [bp] + ring[t + 1..], ptr[bp := ptr[ring[t]]][ring[t] := bp];
    assert forall i :: 0 <= i <= t ==> ring'[i] == ring[i];
    assert forall i :: t + 2 <= i < |ring'| ==> ring'[i] == ring[i - 1];
    forall i | 0 <= i < |ring'|
      ensures ring'[i] in ptr' && ptr'[ring'[i]] == if i + 1 < |ring'| then ring'[i + 1] else base
    {
      if i < t {
        assert ring[i] != ring[t] && ptr[ring[i]] == ring[i + 1];
      } else if i > t + 1 {
        assert ring[i - 1] != ring[t] && ring[i - 1] in ptr;
        assert i < |ring| ==> ptr[ring[i - 1]] == ring[i];
      }
    }
  }

  lemma InsertKeepsOrder(ring: seq<int>, base: int, size: map<int, int>, bp: int, t: nat)
    requires OrderOk(ring, base, size) && t < |ring| && bp in size && size[bp] > 0
    requires ring[t] < bp && ring[t] + size[ring[t]] <= bp
    requires t + 1 < |ring| ==> bp + size[bp] <= ring[t + 1]
    ensures OrderOk(ring[..t + 1] + [bp] + ring[t + 1..], base, size)
  {
    var ring' := ring[..t + 1] + [bp] + ring[t + 1..];
    forall i, j | 0 <= i < j < |ring'|
      ensures ring'[i] in size && ring'[j] in size && ring'[i] < ring'[j] && ring'[i] + size[ring'[i]] <= ring'[j]
    {
      InsertedPair(ring, base, size, bp, t, i, j);
    }
  }

  lemma InsertedPair(ring: seq<int>, base: int, size: map<int, int>, bp: int, t: nat, i: int, j: int)
    requires OrderOk(ring, base, size) && t < |ring| && bp in size && size[bp] > 0 && 0 <= i < j <= |ring|
    requires ring[t] < bp && ring[t] + size[ring[t]] <= bp
    requires t + 1 < |ring| ==> bp + size[bp] <= ring[t + 1]
    ensures var ring' := ring[..t + 1] + [bp] + ring[t + 1..];
            ring'[i] in size && ring'[j] in size && ring'[i] < ring'[j] && ring'[i] + size[ring'[i]] <= ring'[j]
  {
    hide OrderOk;
    if j == t + 1 && i < t {
      RingOrder(ring, base, size, i, t);
    } else if i == t + 1 && t + 2 < j {
      RingOrder(ring, base, size, t + 1, j - 1);
    } else if i != t + 1 && j != t + 1 {
      RingOrder(ring, base, size, if i <= t then i else i - 1, if j <= t then j else j - 1);
    } else {
      AboveBase(ring, base, size, i);
    }
  }

  /** The block goes from the program to the list; no unit changes its block. */
  lemma InsertKeepsList(l: Layout, base: int, ptr: map<int, int>, size: map<int, int>, bp: int, t: nat)
    requires ListOk(l, base, ptr, size) && bp in l.live && t == Place(l.ring, bp)
    ensures ListOk(Inserted(l, bp, t), base, ptr[bp := ptr[l.ring[t]]][l.ring[t] := bp], size)
  {
    hide LinksOk, OrderOk, Tiled, BlocksOk, FreeSpan, Place;
    Neighbours(l, base, ptr, size, bp, t);
    ListFacts(l, base, ptr, size);
    OrderBasics(l.ring, base, size);
    LiveFacts(l, base, size, bp, t);
    AboveBase(l.ring, base, size, t);
    InsertKeepsLinks(l.ring, base, ptr, bp, t);
    InsertKeepsOrder(l.ring, base, size, bp, t);
    InsertKeepsBlocks(l, base, size, bp, t);
  }

  lemma InsertKeepsBlocks(l: Layout, base: int, size: map<int, int>, bp: int, t: nat)
    requires BlocksOk(l, base, size) && bp in l.live && t < |l.ring|
    ensures BlocksOk(Inserted(l, bp, t), base, size)
  {
    assert forall a :: a in Inserted(l, bp, t).ring <==> a in l.ring || a == bp;
  }

  // ---------------------------------------------------------------- joining two blocks that touch

  ghost function Joined(l: Layout, j: nat): Layout
    requires j + 1 < |l.ring| && l.ring[j] in l.blocks && l.ring[j + 1] in l.blocks
  {
    var a, b := l.ring[j], l.ring[j + 1];
    l.(ring := l.ring[..j + 1] + l.ring[j + 2..],
       blocks := (l.blocks - {b})[a := l.blocks[a] + l.blocks[b]],
       cell := map x | x in l.cell :: if l.cell[x] == b then a else l.cell[x])
  }

  lemma JoinKeepsLinks(ring: seq<int>, base: int, ptr: map<int, int>, j: nat)
    requires LinksOk(ring, base, ptr) && 0 <= j < |ring| - 1
    requires forall i, j :: 0 <= i < j < |ring| ==> ring[i] != ring[j]
    ensures LinksOk(ring[..j + 1] + ring[j + 2..], base, ptr[ring[j] := ptr[ring[j + 1]]])
  {
    var ring', ptr' := ring[..j + 1] + ring[j + 2..], ptr[ring[j] := ptr[ring[j + 1]]];
    assert forall i :: 0 <= i <= j ==> ring'[i] == ring[i];
    assert forall i :: j + 1 <= i < |ring'| ==> ring'[i] == ring[i + 1];
    forall i | 0 <= i < |ring'|
      ensures ring'[i] in ptr' && ptr'[ring'[i]] == if i + 1 < |ring'| then ring'[i + 1] else base
    {
      if i < j {
        assert ring[i] != ring[j] && ptr[ring[i]] == ring[i + 1];
      } else if i > j {
        assert ring[i + 1] != ring[j] && ring[i + 1] in ptr;
        assert i + 2 < |ring| ==> ptr[ring[i + 1]] == ring[i + 2];
      } else {
        assert ring[j + 1] in ptr;
        assert j + 2 < |ring| ==> ptr[ring[j + 1]] == ring[j + 2];
      }
    }
  }

  lemma JoinKeepsOrder(ring: seq<int>, base: int, size: map<int, int>, j: nat)
    requires OrderOk(ring, base, size) && 0 < j < |ring| - 1 && ring[j] + size[ring[j]] == ring[j + 1]
    ensures OrderOk(ring[..j + 1] + ring[j + 2..], base, size[ring[j] := size[ring[j]] + size[ring[j + 1]]])
  {
    var ring' := ring[..j + 1] + ring[j + 2..];
    assert forall i :: 0 <= i <= j ==> ring'[i] == ring[i];
    assert forall i :: j + 1 <= i < |ring'| ==> ring'[i] == ring[i + 1];
  }

  lemma JoinKeepsTiling(blocks: map<int, int>, cell: map<int, int>, a: int, b: int)
    requires Tiled(blocks, cell) && a in blocks && b in blocks && a + blocks[a] == b && blocks[a] > 0 && blocks[b] > 0
    ensures Tiled((blocks - {b})[a := blocks[a] + blocks[b]], map x | x in cell :: if cell[x] == b then a else cell[x])
  {
  }

  lemma RemoveAt(s: seq<int>, j: nat)
    requires j < |s| && forall i, k :: 0 <= i < k < |s| ==> s[i] != s[k]
    ensures forall c :: c in s[..j] + s[j + 1..] <==> c in s && c != s[j]
  {
    var r := s[..j] + s[j + 1..];
    forall c | c in s && c != s[j]
      ensures c in r
    {
      var i :| 0 <= i < |s| && s[i] == c;
      assert r[if i < j then i else i - 1] == c;
    }
  }

  lemma JoinKeepsList(l: Layout, base: int, ptr: map<int, int>, size: map<int, int>, j: nat)
    requires ListOk(l, base, ptr, size) && 0 < j < |l.ring| - 1 && l.ring[j] + size[l.ring[j]] == l.ring[j + 1]
    ensures l.ring[j] in l.blocks && l.ring[j + 1] in l.blocks
    ensures ListOk(Joined(l, j), base, ptr[l.ring[j] := ptr[l.ring[j + 1]]],
                   size[l.ring[j] := size[l.ring[j]] + size[l.ring[j + 1]]])
  {
    hide LinksOk, OrderOk, Tiled, BlocksOk;
    OnTheList(l, base, size, j);
    OnTheList(l, base, size, j + 1);
    JoinKeepsLinks(l.ring, base, ptr, j);
    JoinKeepsOrder(l.ring, base, size, j);
    JoinKeepsTiling(l.blocks, l.cell, l.ring[j], l.ring[j + 1]);
    JoinKeepsBlocks(l, base, size, j);
  }

  /** What is known of a block on the list other than base. */
  lemma OnTheList(l: Layout, base: int, size: map<int, int>, j: nat)
    requires OrderOk(l.ring, base, size) && BlocksOk(l, base, size) && 0 < j < |l.ring|
    ensures forall i, k :: 0 <= i < k < |l.ring| ==> l.ring[i] != l.ring[k]
    ensures base < l.ring[j] && l.ring[j] in size && l.ring[j] in l.blocks && l.blocks[l.ring[j]] == size[l.ring[j]] > 0
  {
    assert l.ring[0] < l.ring[j];
  }

  lemma JoinKeepsBlocks(l: Layout, base: int, size: map<int, int>, j: nat)
    requires BlocksOk(l, base, size) && 0 < j < |l.ring| - 1
    requires forall i, k :: 0 <= i < k < |l.ring| ==> l.ring[i] != l.ring[k]
    requires l.ring[j] != base && l.ring[j + 1] != base
    requires l.ring[j] in l.blocks && l.ring[j + 1] in l.blocks && l.ring[j] + size[l.ring[j]] == l.ring[j + 1]
    ensures BlocksOk(Joined(l, j), base, size[l.ring[j] := size[l.ring[j]] + size[l.ring[j + 1]]])
  {
    RemoveAt(l.ring, j + 1);
  }

  // ---------------------------------------------------------------- free

  /** The header words after free has linked bp in behind p and joined it to what it touches. */
  ghost predicate Linked(p: int, bp: int, ptr: map<int, int>, size: map<int, int>,
                         ptr': map<int, int>, size': map<int, int>)
    requires p in ptr && p in size && bp in size && ptr[p] in ptr && ptr[p] in size
  {
    var nxt := ptr[p];
    var upper, lower := bp + size[bp] == nxt, p + size[p] == bp;
    var size1 := if upper then size[bp := size[bp] + size[nxt]] else size;
    var ptr1 := ptr[bp := if upper then ptr[nxt] else nxt];
    && size' == (if lower then size1[p := size1[p] + size1[bp]] else size1)
    && ptr' == ptr1[p := if lower then ptr1[bp] else bp]
  }

  /** Linking in first and joining afterwards writes the same header words. */
  lemma SameWords(p: int, bp: int, ptr: map<int, int>, upper: bool, lower: bool)
    requires p in ptr && ptr[p] in ptr && p != bp && (upper ==> ptr[p] != bp && ptr[p] != p)
    ensures var ptr1 := ptr[bp := ptr[p]][p := bp];
      var ptr2 := if upper then ptr1[bp := ptr1[ptr[p]]] else ptr1;
      var ptr3 := if lower then ptr2[p := ptr2[bp]] else ptr2;
      var code := ptr[bp := if upper then ptr[ptr[p]] else ptr[p]];
      ptr3 == code[p := if lower then code[bp] else bp]
  {
    var ptr1 := ptr[bp := ptr[p]][p := bp];
    var ptr2 := if upper then ptr1[bp := ptr1[ptr[p]]] else ptr1;
    var ptr3 := if lower then ptr2[p := ptr2[bp]] else ptr2;
    var code := ptr[bp := if upper then ptr[ptr[p]] else ptr[p]];
    var code' := code[p := if lower then code[bp] else bp];
    forall a: int | a in ptr3 || a in code'
      ensures a in ptr3 && a in code' && ptr3[a] == code'[a]
    {
    }
  }

  lemma InsertKeepsApart(ring: seq<int>, size: map<int, int>, bp: int, t: nat)
    requires t < |ring| && ApartBut(ring, size, 0, 0)
    ensures ApartBut(ring[..t + 1] + [bp] + ring[t + 1..], size, t, t + 2)
  {
    var ring' := ring[..t + 1] + [bp] + ring[t + 1..];
    forall i | 0 <= i < |ring'| - 1 && !(t <= i < t + 2)
      ensures ring'[i] in size && ring'[i] + size[ring'[i]] < ring'[i + 1]
    {
      var j := if i < t then i else i - 1;
      assert ring[j] in size ==> ring[j] + size[ring[j]] < ring[j + 1];
    }
  }

  lemma JoinKeepsApart(ring: seq<int>, base: int, size: map<int, int>, size': map<int, int>, j: nat, lo: int)
    requires OrderOk(ring, base, size) && 0 < j < |ring| - 1 && lo <= j && ApartBut(ring, size, lo, j + 1)
    requires ring[j] + size[ring[j]] == ring[j + 1]
    requires size' == size[ring[j] := size[ring[j]] + size[ring[j + 1]]]
    ensures ApartBut(ring[..j + 1] + ring[j + 2..], size', lo, j)
  {
    var ring' := ring[..j + 1] + ring[j + 2..];
    forall i | 0 <= i < |ring'| - 1 && !(lo <= i < j)
      ensures ring'[i] in size' && ring'[i] + size'[ring'[i]] < ring'[i + 1]
    {
      if i < j {
        assert ring[i] + size[ring[i]] < ring[i + 1];
      } else {
        assert ring[i + 1] + size[ring[i + 1]] < ring[i + 2];
      }
    }
  }

  /** The n units from x on are in one free block. */
  ghost predicate FreeSpan(l: Layout, x: int, n: int) {
    && x in l.cell && l.cell[x] in l.blocks && l.cell[x] in l.ring
    && l.cell[x] <= x && x + n <= l.cell[x] + l.blocks[l.cell[x]]
  }

  lemma ShorterSpan(l: Layout, x: int, n: int, m: int)
    requires FreeSpan(l, x, n) && m <= n
    ensures FreeSpan(l, x, m)
  {
  }

  /** What the list's blocks have in common. */
  lemma ListFacts(l: Layout, base: int, ptr: map<int, int>, size: map<int, int>)
    requires ListOk(l, base, ptr, size)
    ensures forall i :: 0 <= i < |l.ring| ==> l.ring[i] in size && l.ring[i] in ptr
    ensures |l.ring| > 1 ==> l.ring[0] + size[l.ring[0]] < l.ring[1]
  {
    forall i | 0 <= i < |l.ring|
      ensures l.ring[i] in size && l.ring[i] in ptr
    {
    }
  }

  /** One join of free: position j takes in the next block if they touch. */
  lemma JoinIfTouching(l: Layout, base: int, ptr: map<int, int>, size: map<int, int>, j: nat, lo: int, bp: int, n: int)
    returns (l': Layout, ptr': map<int, int>, size': map<int, int>)
    requires ListOk(l, base, ptr, size) && j < |l.ring| && lo <= j && ApartBut(l.ring, size, lo, j + 1)
    requires FreeSpan(l, bp, n)
    ensures ListOk(l', base, ptr', size') && ApartBut(l'.ring, size', lo, j)
    ensures l'.live == l.live && l'.cell.Keys == l.cell.Keys && l'.brk == l.brk && FreeSpan(l', bp, n)
    ensures j < |l'.ring| && l'.ring[..j + 1] == l.ring[..j + 1] && forall a :: a in l'.ring ==> a in l.ring
    ensures forall i :: 0 <= i < |l.ring| ==> l.ring[i] in size && l.ring[i] in ptr
    ensures var a := l.ring[j];
      if j + 1 < |l.ring| && a + size[a] == l.ring[j + 1]
      then size' == size[a := size[a] + size[l.ring[j + 1]]] && ptr' == ptr[a := ptr[l.ring[j + 1]]]
      else size' == size && ptr' == ptr
  {
    hide LinksOk, OrderOk, BlocksOk, Tiled, ApartBut, FreeSpan;
    var a := l.ring[j];
    ListFacts(l, base, ptr, size);
    if j + 1 < |l.ring| && a + size[a] == l.ring[j + 1] {
      JoinKeepsList(l, base, ptr, size, j);
      l' := Joined(l, j);
      size' := size[a := size[a] + size[l.ring[j + 1]]];
      ptr' := ptr[a := ptr[l.ring[j + 1]]];
      JoinKeepsApart(l.ring, base, size, size', j, lo);
      JoinKeepsSpan(l, base, size, j, bp, n);
      SubRing(l.ring, j);
    } else {
      l', ptr', size' := l, ptr, size;
      NotTouching(l.ring, base, size, j, lo);
    }
  }

  lemma SubRing(ring: seq<int>, j: nat)
    requires j < |ring| - 1
    ensures forall a :: a in ring[..j + 1] + ring[j + 2..] ==> a in ring
  {
  }

  lemma NotTouching(ring: seq<int>, base: int, size: map<int, int>, j: nat, lo: int)
    requires OrderOk(ring, base, size) && j < |ring| && lo <= j && ApartBut(ring, size, lo, j + 1)
    requires j + 1 < |ring| ==> ring[j] + size[ring[j]] != ring[j + 1]
    ensures ApartBut(ring, size, lo, j)
  {
  }

  lemma JoinKeepsSpan(l: Layout, base: int, size: map<int, int>, j: nat, bp: int, n: int)
    requires OrderOk(l.ring, base, size) && BlocksOk(l, base, size) && 0 < j < |l.ring| - 1
    requires l.ring[j] in l.blocks && l.ring[j + 1] in l.blocks && FreeSpan(l, bp, n)
    requires l.ring[j] + size[l.ring[j]] == l.ring[j + 1]
    ensures FreeSpan(Joined(l, j), bp, n)
  {
    OnTheList(l, base, size, j);
    OnTheList(l, base, size, j + 1);
    RemoveAt(l.ring, j + 1);
  }

  /** The block linked in behind position t. */
  lemma LinkIn(l: Layout, base: int, ptr: map<int, int>, size: map<int, int>, bp: int, t: nat)
    requires HeapOk(l, base, ptr, size) && bp in l.live && t == Place(l.ring, bp)
    ensures base < bp && bp in size && size[bp] > 0
    ensures var p := l.ring[t];
            && p != bp && p in ptr && p in size && ptr[p] in ptr && ptr[p] in size
            && (bp + size[bp] == ptr[p] ==> ptr[p] != bp && ptr[p] != p)
            && var l1 := Inserted(l, bp, t);
            && ListOk(l1, base, ptr[bp := ptr[p]][p := bp], size) && ApartBut(l1.ring, size, t, t + 2)
            && l1.live == l.live - {bp} && l1.cell == l.cell && l1.brk == l.brk && FreeSpan(l1, bp, size[bp])
            && |l1.ring| == |l.ring| + 1 && l1.ring[t] == p && l1.ring[t + 1] == bp
            && (t + 2 < |l1.ring| ==> l1.ring[t + 2] == ptr[p]) && (t + 2 == |l1.ring| ==> ptr[p] == base)
            && (forall a :: a in l1.ring ==> a in l.ring || a == bp)
  {
    hide LinksOk, OrderOk, BlocksOk, Tiled, ApartBut, FreeSpan, Place;
    Neighbours(l, base, ptr, size, bp, t);
    ListFacts(l, base, ptr, size);
    LiveFacts(l, base, size, bp, t);
    NextOnRing(l.ring, base, ptr, t);
    InsertKeepsList(l, base, ptr, size, bp, t);
    InsertKeepsApart(l.ring, size, bp, t);
    AboveBase(l.ring, base, size, t);
  }

  /** The block linked in behind position t, and the two joins. */
  lemma LinkAndJoin(l: Layout, base: int, ptr: map<int, int>, size: map<int, int>, bp: int, t: nat)
    returns (l': Layout, ptr': map<int, int>, size': map<int, int>)
    requires HeapOk(l, base, ptr, size) && bp in l.live && t == Place(l.ring, bp)
    ensures HeapOk(l', base, ptr', size') && base < bp && bp in size && size[bp] > 0
    ensures l'.live == l.live - {bp} && l'.cell.Keys == l.cell.Keys && l'.brk == l.brk && l.ring[t] in l'.ring
    ensures FreeSpan(l', bp, size[bp]) && forall a :: a in l'.ring ==> a in l.ring || a == bp
    ensures var p := l.ring[t];
            && p != bp && p in ptr && p in size && ptr[p] in ptr && ptr[p] in size
            && (bp + size[bp] == ptr[p] ==> ptr[p] != bp && ptr[p] != p)
            && var ptr1 := ptr[bp := ptr[p]][p := bp];
            var upper, lower := bp + size[bp] == ptr[p], p + size[p] == bp;
            var ptr2 := if upper then ptr1[bp := ptr1[ptr[p]]] else ptr1;
            var size2 := if upper then size[bp := size[bp] + size[ptr[p]]] else size;
            && ptr' == (if lower then ptr2[p := ptr2[bp]] else ptr2)
            && size' == (if lower then size2[p := size2[p] + size2[bp]] else size2)
  {
    hide LinksOk, OrderOk, BlocksOk, Tiled, ApartBut, FreeSpan, Place, Inserted;
    LinkIn(l, base, ptr, size, bp, t);
    var p, n := l.ring[t], size[bp];
    var l1, ptr1 := Inserted(l, bp, t), ptr[bp := ptr[p]][p := bp];
    var l2, ptr2, size2 := JoinIfTouching(l1, base, ptr1, size, t + 1, t, bp, n);
    assert l2.ring[t] == l2.ring[..t + 2][t] == p;
    assert l2.ring[t + 1] == l2.ring[..t + 2][t + 1] == bp;
    l', ptr', size' := JoinIfTouching(l2, base, ptr2, size2, t, t, bp, n);
    assert l'.ring[t] == l'.ring[..t + 1][t] == p;
    ApartEverywhere(l'.ring, size', t);
  }

  /** free: the block goes back on the list, joined to the neighbours it touches. */
  lemma Release(l: Layout, base: int, ptr: map<int, int>, size: map<int, int>, bp: int, t: nat,
                ptr': map<int, int>, size': map<int, int>) returns (l': Layout)
    requires HeapOk(l, base, ptr, size) && bp in l.live && t == Place(l.ring, bp)
    requires ptr[l.ring[t]] in ptr && ptr[l.ring[t]] in size && Linked(l.ring[t], bp, ptr, size, ptr', size')
    ensures HeapOk(l', base, ptr', size')
    ensures l'.live == l.live - {bp} && l'.cell.Keys == l.cell.Keys && l'.brk == l.brk && l.ring[t] in l'.ring
    ensures FreeSpan(l', bp, size[bp])
    ensures forall a :: a in l'.live ==> a in size && a in size' && size'[a] == size[a]
    ensures OthersKept(l, l', size, size', bp)
  {
    hide LinksOk, OrderOk, BlocksOk, Tiled, ApartBut, FreeSpan, Place, OthersKept;
    var ptr1, size1;
    l', ptr1, size1 := LinkAndJoin(l, base, ptr, size, bp, t);
    var p := l.ring[t];
    SameWords(p, bp, ptr, bp + size[bp] == ptr[p], p + size[p] == bp);
    LiveOffTheList(l, base, size, p);
    ReleaseKeepsOthers(l, l', base, ptr, size, bp, t, ptr', size');
  }

  /** Blocks on the list that do not contain bp were there before, as they are. */
  ghost predicate OthersKept(l: Layout, l': Layout, size: map<int, int>, size': map<int, int>, bp: int) {
    forall a :: a in l'.ring && !(bp in l'.cell && l'.cell[bp] == a) ==>
      a in l.ring && a in size && a in size' && size'[a] == size[a]
  }

  /** The size words that free changes. */
  lemma SizesLinked(p: int, bp: int, ptr: map<int, int>, size: map<int, int>, ptr': map<int, int>, size': map<int, int>)
    requires p in ptr && p in size && bp in size && p != bp && ptr[p] in ptr && ptr[p] in size
    requires Linked(p, bp, ptr, size, ptr', size') && size[ptr[p]] >= 0 && size[bp] > 0
    ensures forall a :: a in size && a != bp && (a != p || p + size[p] != bp) ==> a in size' && size'[a] == size[a]
    ensures p + size[p] == bp ==> p in size' && size'[p] > size[p]
  {
  }

  lemma ReleaseKeepsOthers(l: Layout, l': Layout, base: int, ptr: map<int, int>, size: map<int, int>, bp: int, t: nat,
                           ptr': map<int, int>, size': map<int, int>)
    requires ListOk(l, base, ptr, size) && ListOk(l', base, ptr', size') && bp in l.live && t < |l.ring| && base < bp
    requires ptr[l.ring[t]] in ptr && ptr[l.ring[t]] in size && Linked(l.ring[t], bp, ptr, size, ptr', size')
    requires forall a :: a in l'.ring ==> a in l.ring || a == bp
    ensures OthersKept(l, l', size, size', bp)
  {
    hide LinksOk, OrderOk, BlocksOk, Tiled, ApartBut, Linked;
    var p := l.ring[t];
    ListFacts(l, base, ptr, size);
    NextOnRing(l.ring, base, ptr, t);
    AboveBase(l.ring, base, size, t);
    AboveBase(l.ring, base, size, if t + 1 < |l.ring| then t + 1 else 0);
    LiveFacts(l, base, size, bp, t);
    SizesLinked(p, bp, ptr, size, ptr', size');
    forall a | a in l'.ring && !(bp in l'.cell && l'.cell[bp] == a)
      ensures a in l.ring && a in size && a in size' && size'[a] == size[a]
    {
      Inside(l', base, size', a, bp);
    }
  }

  /** A unit within a block on the list is in that block. */
  lemma Inside(l: Layout, base: int, size: map<int, int>, a: int, x: int)
    requires OrderOk(l.ring, base, size) && BlocksOk(l, base, size) && Tiled(l.blocks, l.cell)
    requires a in l.ring && base < x
    ensures a in size && (a <= x < a + size[a] ==> x in l.cell && l.cell[x] == a)
    ensures a == x ==> x in l.cell && l.cell[x] == x
  {
  }

  /** What is known of a block handed out, before and after it is linked in. */
  lemma LiveFacts(l: Layout, base: int, size: map<int, int>, bp: int, t: nat)
    requires BlocksOk(l, base, size) && Tiled(l.blocks, l.cell) && bp in l.live && t < |l.ring|
    ensures bp in size && size[bp] > 0 && base < bp && bp !in l.ring
    ensures FreeSpan(Inserted(l, bp, t), bp, size[bp])
  {
    BlockStart(l.blocks, l.cell, bp);
    assert Inserted(l, bp, t).ring[t + 1] == bp;
  }

  lemma LiveOffTheList(l: Layout, base: int, size: map<int, int>, p: int)
    requires BlocksOk(l, base, size) && p in l.ring
    ensures forall a :: a in l.live ==> a in size && a != p
  {
  }

  lemma ApartEverywhere(ring: seq<int>, size: map<int, int>, t: int)
    requires ApartBut(ring, size, t, t)
    ensures ApartBut(ring, size, 0, 0)
  {
  }

  /** The tests of free's search loop succeed at the right position and nowhere else. */
  lemma SearchTest(l: Layout, base: int, ptr: map<int, int>, size: map<int, int>, bp: int, i: nat)
    requires ListOk(l, base, ptr, size) && bp in l.live && i < |l.ring|
    ensures base < bp && base == l.ring[0]
    ensures var p := l.ring[i];
      && p in ptr && p in size && ptr[p] == l.ring[if i + 1 < |l.ring| then i + 1 else 0] && ptr[p] in ptr &&
         ptr[p] in size
      && ((bp > p && bp < ptr[p]) || (p >= ptr[p] && (bp > p || bp < ptr[p])) <==> i == Place(l.ring, bp))
  {
    hide LinksOk, BlocksOk, Tiled, Place;
    ListFacts(l, base, ptr, size);
    LiveFacts(l, base, size, bp, i);
    NextOnRing(l.ring, base, ptr, i);
    RingTest(l.ring, bp, i);
  }

  /** On a ring in order, the place of bp is where the next node is above it, or the order starts again. */
  lemma RingTest(ring: seq<int>, bp: int, i: nat)
    requires i < |ring| && ring[0] < bp && bp !in ring && forall j, k :: 0 <= j < k < |ring| ==> ring[j] < ring[k]
    ensures var p, q := ring[i], ring[if i + 1 < |ring| then i + 1 else 0];
            (bp > p && bp < q) || (p >= q && (bp > p || bp < q)) <==> i == Place(ring, bp)
  {
    var t := Place(ring, bp);
    assert t + 1 < |ring| ==> ring[t + 1] in ring;
    assert i < t ==> ring[i + 1] <= ring[t];
    assert i > t ==> ring[i] >= ring[t + 1];
  }

  lemma AboveBase(ring: seq<int>, base: int, size: map<int, int>, i: nat)
    requires OrderOk(ring, base, size) && i < |ring|
    ensures ring[i] >= base && ring[i] in size && size[ring[i]] >= 0
  {
  }

  lemma NextOnRing(ring: seq<int>, base: int, ptr: map<int, int>, i: nat)
    requires LinksOk(ring, base, ptr) && i < |ring|
    ensures |ring| > 0 && ring[0] == base && ring[i] in ptr
    ensures ptr[ring[i]] == ring[if i + 1 < |ring| then i + 1 else 0]
  {
  }

  // ---------------------------------------------------------------- malloc

  /** An exact fit leaves the list. */
  ghost function TakenWhole(l: Layout, i: nat): Layout
    requires 0 < i < |l.ring|
  {
    l.(ring := l.ring[..i] + l.ring[i + 1..], live := l.live + {l.ring[i]})
  }

  lemma RemoveKeepsOrder(ring: seq<int>, base: int, size: map<int, int>, i: nat)
    requires OrderOk(ring, base, size) && 0 < i < |ring|
    ensures OrderOk(ring[..i] + ring[i + 1..], base, size)
  {
    var ring' := ring[..i] + ring[i + 1..];
    assert forall k :: 0 <= k < i ==> ring'[k] == ring[k];
    assert forall k :: i <= k < |ring'| ==> ring'[k] == ring[k + 1];
  }

  lemma RemoveKeepsApart(ring: seq<int>, base: int, size: map<int, int>, i: nat)
    requires OrderOk(ring, base, size) && 0 < i < |ring| && ApartBut(ring, size, 0, 0)
    ensures ApartBut(ring[..i] + ring[i + 1..], size, 0, 0)
  {
    var ring' := ring[..i] + ring[i + 1..];
    forall k | 0 <= k < |ring'| - 1
      ensures ring'[k] in size && ring'[k] + size[ring'[k]] < ring'[k + 1]
    {
      if k < i {
        assert ring[k] + size[ring[k]] < ring[k + 1];
      } else {
        assert ring[k + 1] + size[ring[k + 1]] < ring[k + 2];
      }
    }
  }

  lemma RemoveKeepsBlocks(l: Layout, base: int, size: map<int, int>, i: nat)
    requires OrderOk(l.ring, base, size) && BlocksOk(l, base, size) && 0 < i < |l.ring|
    ensures BlocksOk(TakenWhole(l, i), base, size)
  {
    OnTheList(l, base, size, i);
    RemoveAt(l.ring, i);
  }

  lemma TakeWhole(l: Layout, base: int, ptr: map<int, int>, size: map<int, int>, i: nat)
    requires HeapOk(l, base, ptr, size) && 0 < i < |l.ring|
    ensures l.ring[i] in ptr
    ensures HeapOk(TakenWhole(l, i), base, ptr[l.ring[i - 1] := ptr[l.ring[i]]], size)
  {
    hide LinksOk, OrderOk, BlocksOk, Tiled, ApartBut;
    ListFacts(l, base, ptr, size);
    OnTheList(l, base, size, i);
    JoinKeepsLinks(l.ring, base, ptr, i - 1);
    RemoveKeepsOrder(l.ring, base, size, i);
    RemoveKeepsApart(l.ring, base, size, i);
    RemoveKeepsBlocks(l, base, size, i);
  }

  /** A larger block gives up its last n units. */
  ghost function TakenTail(l: Layout, i: nat, n: int): Layout
    requires i < |l.ring| && l.ring[i] in l.blocks
  {
    var p := l.ring[i];
    var rest := l.blocks[p] - n;
    l.(live := l.live + {p + rest},
       blocks := l.blocks[p := rest][p + rest := n],
       cell := MoveTail(l.cell, p, p + rest))
  }

  /** The units of block p from q on are in block q. */
  ghost function MoveTail(cell: map<int, int>, p: int, q: int): (m: map<int, int>)
    ensures forall x :: x in m <==> x in cell
    ensures forall x :: x in m ==> m[x] == if cell[x] == p && x >= q then q else cell[x]
  {
    map x | x in cell :: if cell[x] == p && x >= q then q else cell[x]
  }

  lemma SplitKeepsTiling(blocks: map<int, int>, cell: map<int, int>, p: int, n: int)
    requires Tiled(blocks, cell) && p in blocks && 0 < n < blocks[p]
    ensures var q := p + blocks[p] - n;
      Tiled(blocks[p := blocks[p] - n][q := n], MoveTail(cell, p, q))
  {
    hide Tiled, MoveTail;
    var q := p + blocks[p] - n;
    var blocks' := blocks[p := blocks[p] - n][q := n];
    var cell' := MoveTail(cell, p, q);
    forall a, x | a in blocks' && a <= x < a + blocks'[a]
      ensures x in cell' && cell'[x] == a
    {
      SplitUnit(blocks, cell, p, n, a, x);
    }
    forall x | x in cell'
      ensures cell'[x] in blocks' && cell'[x] <= x < cell'[x] + blocks'[cell'[x]]
    {
      SplitCell(blocks, cell, p, n, x);
    }
    TiledFrom(blocks', cell');
  }

  lemma SplitUnit(blocks: map<int, int>, cell: map<int, int>, p: int, n: int, a: int, x: int)
    requires Tiled(blocks, cell) && p in blocks && 0 < n < blocks[p]
    requires var q := p + blocks[p] - n;
             if a == q then q <= x < q + n else if a == p then p <= x < q else a in blocks && a <= x < a + blocks[a]
    ensures var q := p + blocks[p] - n;
            x in cell && a == if cell[x] == p && x >= q then q else cell[x]
  {
    hide Tiled;
    var q := p + blocks[p] - n;
    UnitAt(blocks, cell, if a == q then p else a, x);
  }

  lemma SplitCell(blocks: map<int, int>, cell: map<int, int>, p: int, n: int, x: int)
    requires Tiled(blocks, cell) && p in blocks && 0 < n < blocks[p] && x in cell
    ensures var q := p + blocks[p] - n;
            var a := if cell[x] == p && x >= q then q else cell[x];
            if a == q then q <= x < q + n else if a == p then p <= x < q else a in blocks && a <= x < a + blocks[a]
  {
    hide Tiled;
    var q := p + blocks[p] - n;
    UnitAt(blocks, cell, p, q);
    CellAt(blocks, cell, x);
    if q in blocks { UnitAt(blocks, cell, q, q); }
  }

  lemma UnitAt(blocks: map<int, int>, cell: map<int, int>, a: int, x: int)
    requires Tiled(blocks, cell) && a in blocks
    ensures a <= x < a + blocks[a] ==> x in cell && cell[x] == a
  {
  }

  lemma CellAt(blocks: map<int, int>, cell: map<int, int>, x: int)
    requires Tiled(blocks, cell) && x in cell
    ensures cell[x] in blocks && cell[x] <= x < cell[x] + blocks[cell[x]]
  {
  }

  lemma TiledFrom(blocks: map<int, int>, cell: map<int, int>)
    requires forall x :: x in cell ==> cell[x] in blocks && cell[x] <= x < cell[x] + blocks[cell[x]]
    requires forall a, x :: a in blocks && a <= x < a + blocks[a] ==> x in cell && cell[x] == a
    ensures Tiled(blocks, cell)
  {
  }

  lemma InsideABlock(ring: seq<int>, base: int, size: map<int, int>, i: nat, q: int)
    requires OrderOk(ring, base, size) && i < |ring| && ring[i] < q < ring[i] + size[ring[i]]
    ensures q !in ring
  {
    forall k | 0 <= k < |ring|
      ensures ring[k] != q
    {
      assert k < i ==> ring[k] < ring[i];
      assert k > i ==> ring[i] + size[ring[i]] <= ring[k];
    }
  }

  /** Sizes of other addresses and shrinking sizes do not disturb the order. */
  lemma SmallerKeepsOrder(ring: seq<int>, base: int, size: map<int, int>, size': map<int, int>)
    requires OrderOk(ring, base, size) && ApartBut(ring, size, 0, 0)
    requires forall k :: 0 <= k < |ring| ==> ring[k] in size' && size'[ring[k]] <= size[ring[k]]
    requires forall k :: 0 < k < |ring| ==> size'[ring[k]] > 0
    requires size'[base] == 0
    ensures OrderOk(ring, base, size') && ApartBut(ring, size', 0, 0)
  {
    forall i, j | 0 <= i < j < |ring|
      ensures ring[i] < ring[j] && ring[i] + size'[ring[i]] <= ring[j]
    {
      assert ring[i] + size[ring[i]] <= ring[j];
    }
    forall i | 0 <= i < |ring| - 1
      ensures ring[i] + size'[ring[i]] < ring[i + 1]
    {
      assert ring[i] + size[ring[i]] < ring[i + 1];
    }
  }

  lemma OrderBasics(ring: seq<int>, base: int, size: map<int, int>)
    requires OrderOk(ring, base, size)
    ensures |ring| > 0 && ring[0] == base && base in size && size[base] == 0
    ensures forall i :: 0 <= i < |ring| ==> ring[i] in size
    ensures forall i :: 0 < i < |ring| ==> size[ring[i]] > 0
    ensures forall i, j :: 0 <= i < j < |ring| ==> ring[i] != ring[j]
  {
  }

  lemma SplitKeepsOrder(ring: seq<int>, base: int, size: map<int, int>, i: nat, n: int)
    requires OrderOk(ring, base, size) && 0 < i < |ring| && 0 < n < size[ring[i]]
    requires ApartBut(ring, size, 0, 0)
    ensures var rest := size[ring[i]] - n;
      && OrderOk(ring, base, size[ring[i] := rest][ring[i] + rest := n])
      && ApartBut(ring, size[ring[i] := rest][ring[i] + rest := n], 0, 0)
      && ring[i] + rest !in ring
  {
    hide OrderOk, ApartBut;
    OrderBasics(ring, base, size);
    var p, rest := ring[i], size[ring[i]] - n;
    InsideABlock(ring, base, size, i, p + rest);
    var size' := size[p := rest][p + rest := n];
    forall k | 0 <= k < |ring|
      ensures ring[k] in size' && size'[ring[k]] == if k == i then rest else size[ring[k]]
    {
      assert ring[k] in ring;
    }
    SmallerKeepsOrder(ring, base, size, size');
  }

  lemma SplitKeepsBlocks(l: Layout, base: int, size: map<int, int>, i: nat, n: int)
    requires BlocksOk(l, base, size) && Tiled(l.blocks, l.cell) && i < |l.ring| && l.ring[i] in l.blocks
    requires l.ring[i] in size && 0 < n < size[l.ring[i]]
    requires l.ring[i] != base && l.ring[i] + size[l.ring[i]] - n !in l.ring
    ensures var rest := size[l.ring[i]] - n;
      BlocksOk(TakenTail(l, i, n), base, size[l.ring[i] := rest][l.ring[i] + rest := n])
    ensures l.ring[i] + size[l.ring[i]] - n !in l.blocks
  {
    var p := l.ring[i];
    var q := p + size[p] - n;
    assert q in l.cell && l.cell[q] == p;
    if q in l.blocks { BlocksDisjoint(l, p, q); }
  }

  lemma TakeTail(l: Layout, base: int, ptr: map<int, int>, size: map<int, int>, i: nat, n: int)
    requires HeapOk(l, base, ptr, size) && 0 < i < |l.ring| && l.ring[i] in size && 0 < n < size[l.ring[i]]
    ensures l.ring[i] in l.blocks && l.blocks[l.ring[i]] == size[l.ring[i]]
    ensures var rest := size[l.ring[i]] - n;
      && HeapOk(TakenTail(l, i, n), base, ptr, size[l.ring[i] := rest][l.ring[i] + rest := n])
      && l.ring[i] + rest !in l.live
  {
    hide LinksOk, OrderOk, BlocksOk, Tiled, ApartBut;
    OnTheList(l, base, size, i);
    SplitKeepsTiling(l.blocks, l.cell, l.ring[i], n);
    SplitKeepsOrder(l.ring, base, size, i, n);
    SplitKeepsBlocks(l, base, size, i, n);
    LiveAreBlocks(l, base, size);
  }

  lemma LiveAreBlocks(l: Layout, base: int, size: map<int, int>)
    requires BlocksOk(l, base, size)
    ensures forall a :: a in l.live ==> a in l.blocks && a in size && size[a] == l.blocks[a]
  {
  }

  /** n units from lo on, all in the block at a. */
  ghost function Span(a: int, lo: int, n: nat): (m: map<int, int>)
    ensures forall x :: x in m <==> lo <= x < lo + n
    ensures forall x :: x in m ==> m[x] == a
  {
    if n == 0 then map[] else Span(a, lo, n - 1)[lo + n - 1 := a]
  }

  /** sbrk adds nu fresh units at hp, handed out until they are freed. */
  ghost function Grown(l: Layout, hp: int, nu: nat): Layout {
    Layout(l.ring, l.live + {hp}, l.blocks[hp := nu], l.cell + Span(hp, hp, nu), hp + nu)
  }

  lemma Grow(l: Layout, base: int, ptr: map<int, int>, size: map<int, int>, hp: int, nu: nat)
    requires HeapOk(l, base, ptr, size) && hp >= l.brk && nu > 0
    ensures HeapOk(Grown(l, hp, nu), base, ptr, size[hp := nu])
    ensures hp !in l.live
  {
    hide LinksOk, OrderOk, BlocksOk, Tiled, ApartBut;
    BelowBreak(l, base, size);
    GrowKeepsTiling(l.blocks, l.cell, hp, nu, Span(hp, hp, nu));
    GrowKeepsBlocks(l, base, size, hp, nu);
    GrowKeepsOrder(l.ring, base, size, hp, nu);
  }

  lemma GrowKeepsOrder(ring: seq<int>, base: int, size: map<int, int>, hp: int, nu: nat)
    requires OrderOk(ring, base, size) && ApartBut(ring, size, 0, 0) && hp !in ring
    ensures OrderOk(ring, base, size[hp := nu]) && ApartBut(ring, size[hp := nu], 0, 0)
  {
    assert forall k :: 0 <= k < |ring| ==> ring[k] != hp;
    SmallerKeepsOrder(ring, base, size, size[hp := nu]);
  }

  lemma GrowKeepsBlocks(l: Layout, base: int, size: map<int, int>, hp: int, nu: nat)
    requires BlocksOk(l, base, size) && hp >= l.brk > base && nu > 0 && hp !in l.ring
    requires forall a :: a in l.blocks ==> a < l.brk
    ensures BlocksOk(Grown(l, hp, nu), base, size[hp := nu])
  {
  }

  lemma GrowKeepsTiling(blocks: map<int, int>, cell: map<int, int>, hp: int, nu: nat, m: map<int, int>)
    requires Tiled(blocks, cell) && nu > 0
    requires forall a :: a in blocks ==> a < hp && a + blocks[a] <= hp
    requires forall x :: x in m <==> hp <= x < hp + nu
    requires forall x :: x in m ==> m[x] == hp
    ensures Tiled(blocks[hp := nu], cell + m)
  {
    var blocks', cell' := blocks[hp := nu], cell + m;
    forall a, x | a in blocks' && a <= x < a + blocks'[a]
      ensures x in cell' && cell'[x] == a
    {
      if a == hp { assert x in m; } else { assert x in cell && x !in m; }
    }
  }

  lemma BelowBreak(l: Layout, base: int, size: map<int, int>)
    requires BlocksOk(l, base, size) && base < l.brk
    ensures forall a :: a in l.blocks || a in l.ring || a in l.live ==> a < l.brk
    ensures forall a :: a in l.blocks ==> a + l.blocks[a] <= l.brk
  {
  }

  /** A block that fits, when none did before a block was freed, contains that block. */
  lemma OnlyThisFits(l: Layout, l': Layout, size: map<int, int>, size': map<int, int>, bp: int, n: int)
    requires OthersKept(l, l', size, size', bp)
    requires forall a :: a in l.ring && a in size ==> size[a] < n
    ensures forall a :: a in l'.ring && a in size' && size'[a] >= n ==> bp in l'.cell && l'.cell[bp] == a
  {
  }

  /** A block that contains the fresh units below the break ends there. */
  lemma EndsAtBreak(l: Layout, base: int, size: map<int, int>, x: int)
    requires BlocksOk(l, base, size) && FreeSpan(l, x, l.brk - x)
    ensures l.cell[x] in size && l.cell[x] + size[l.cell[x]] == l.brk
  {
  }

  ghost function Interval(lo: int, hi: int): (r: set<int>)
    ensures forall x :: x in r <==> lo <= x < hi
    decreases hi - lo
  {
    if hi <= lo then {} else Interval(lo, hi - 1) + {hi - 1}
  }

  // ---------------------------------------------------------------- memory that was not obtained

  /** The layout without a block that was handed out, and another break. */
  ghost function Without(l: Layout, a: int, brk: int): Layout {
    Layout(l.ring, l.live - {a}, l.blocks - {a}, map x | x in l.cell && l.cell[x] != a :: l.cell[x], brk)
  }

  lemma Forget(l: Layout, base: int, ptr: map<int, int>, size: map<int, int>, a: int, brk: int)
    requires HeapOk(l, base, ptr, size) && a in l.live && base < brk
    requires forall b :: b in l.blocks && b != a ==> b + l.blocks[b] <= brk
    ensures HeapOk(Without(l, a, brk), base, ptr, size)
  {
    hide LinksOk, OrderOk, ApartBut;
    var l' := Without(l, a, brk);
    forall b, x | b in l'.blocks && b <= x < b + l'.blocks[b]
      ensures x in l'.cell && l'.cell[x] == b
    {
      UnitAt(l.blocks, l.cell, b, x);
    }
  }

  // ---------------------------------------------------------------- conservation

  /** The total size of the blocks with the given headers. */
  ghost function SizeOf(headers: seq<int>, blocks: map<int, int>): int
    requires forall i :: 0 <= i < |headers| ==> headers[i] in blocks
  {
    if headers == [] then 0
    else SizeOf(headers[..|headers| - 1], blocks) + blocks[headers[|headers| - 1]]
  }

  /** The units that lie in the blocks with the given headers. */
  ghost function Covered(headers: seq<int>, cell: map<int, int>): set<int> {
    set x | x in cell && cell[x] in headers
  }

  lemma {:induction false} SpanSize(a: int, lo: int, n: nat)
    ensures |Span(a, lo, n).Keys| == n
  {
    if n > 0 {
      SpanSize(a, lo, n - 1);
      assert Span(a, lo, n).Keys == Span(a, lo, n - 1).Keys + {lo + n - 1};
    }
  }

  lemma CoveredSnoc(front: seq<int>, h: int, blocks: map<int, int>, cell: map<int, int>)
    requires Tiled(blocks, cell) && h in blocks && blocks[h] > 0 && h !in front
    ensures |Covered(front + [h], cell)| == |Covered(front, cell)| + blocks[h]
  {
    hide Tiled, Covered;
    SpanSize(h, h, blocks[h]);
    var span := Span(h, h, blocks[h]);
    forall x: int | x in Covered(front + [h], cell) || x in Covered(front, cell) + span.Keys
      ensures x in Covered(front + [h], cell) && x in Covered(front, cell) + span.Keys
    {
      CoveredAt(front, h, blocks, cell, x);
    }
    forall x: int | x in span
      ensures x !in Covered(front, cell)
    {
      CoveredAt(front, h, blocks, cell, x);
    }
    assert Covered(front + [h], cell) == Covered(front, cell) + span.Keys;
    assert Covered(front, cell) !! span.Keys;
  }

  /** A unit lies in one more block, or in one of those before, not both. */
  lemma CoveredAt(front: seq<int>, h: int, blocks: map<int, int>, cell: map<int, int>, x: int)
    requires Tiled(blocks, cell) && h in blocks && h !in front
    ensures x in Covered(front + [h], cell) <==> x in Covered(front, cell) || h <= x < h + blocks[h]
    ensures x in Covered(front, cell) ==> !(h <= x < h + blocks[h])
  {
    hide Tiled;
    UnitAt(blocks, cell, h, x);
    if x in cell { CellAt(blocks, cell, x); }
  }

  lemma {:induction false} CoveredSize(headers: seq<int>, blocks: map<int, int>, cell: map<int, int>)
    requires Tiled(blocks, cell) && Distinct(headers)
    requires forall i :: 0 <= i < |headers| ==> headers[i] in blocks && blocks[headers[i]] > 0
    ensures |Covered(headers, cell)| == SizeOf(headers, blocks)
  {
    if headers == [] {
      assert Covered(headers, cell) == {};
    } else {
      var k := |headers| - 1;
      CoveredSize(headers[..k], blocks, cell);
      assert headers == headers[..k] + [headers[k]];
      CoveredSnoc(headers[..k], headers[k], blocks, cell);
    }
  }

  /** The headers of all blocks: those on the list behind base, then those handed out. */
  lemma AllHeaders(l: Layout, base: int, size: map<int, int>, handedOut: seq<int>)
    requires OrderOk(l.ring, base, size) && BlocksOk(l, base, size)
    requires Distinct(handedOut) && forall a :: a in handedOut <==> a in l.live
    ensures var headers := l.ring[1..] + handedOut;
      && Distinct(headers)
      && (forall i :: 0 <= i < |headers| ==> headers[i] in l.blocks && l.blocks[headers[i]] > 0)
      && (forall h :: h in l.blocks ==> h in headers)
  {
    hide OrderOk, BlocksOk;
    OrderBasics(l.ring, base, size);
    var n, headers := |l.ring| - 1, l.ring[1..] + handedOut;
    forall i | 0 <= i < |headers|
      ensures headers[i] in l.blocks && l.blocks[headers[i]] > 0 && (headers[i] in l.ring <==> i < n)
    {
      HeaderAt(l, base, size, handedOut, i);
    }
    forall i, j | 0 <= i < j < |headers| ensures headers[i] != headers[j] {
      if j < n { RingOrder(l.ring, base, size, i + 1, j + 1); }
    }
    forall h | h in l.blocks
      ensures h in headers
    {
      HeaderOf(l, base, size, handedOut, h);
    }
  }

  lemma RingOrder(ring: seq<int>, base: int, size: map<int, int>, i: int, j: int)
    requires OrderOk(ring, base, size) && 0 <= i < j < |ring|
    ensures ring[i] in size && ring[j] in size && ring[i] < ring[j] && ring[i] + size[ring[i]] <= ring[j]
  {
  }

  lemma HeaderAt(l: Layout, base: int, size: map<int, int>, handedOut: seq<int>, i: int)
    requires OrderOk(l.ring, base, size) && BlocksOk(l, base, size) && (forall a :: a in handedOut <==> a in l.live)
    requires 0 <= i < |l.ring[1..] + handedOut|
    ensures var h := (l.ring[1..] + handedOut)[i];
            h in l.blocks && l.blocks[h] > 0 && (h in l.ring <==> i < |l.ring| - 1)
  {
    hide OrderOk;
    OrderBasics(l.ring, base, size);
    var n := |l.ring| - 1;
    if i < n {
      RingOrder(l.ring, base, size, 0, i + 1);
      assert (l.ring[1..] + handedOut)[i] == l.ring[i + 1];
    } else {
      assert (l.ring[1..] + handedOut)[i] == handedOut[i - n];
    }
  }

  lemma HeaderOf(l: Layout, base: int, size: map<int, int>, handedOut: seq<int>, h: int)
    requires OrderOk(l.ring, base, size) && BlocksOk(l, base, size) && (forall a :: a in handedOut <==> a in l.live)
    requires h in l.blocks
    ensures h in l.ring[1..] + handedOut
  {
    hide OrderOk;
    OrderBasics(l.ring, base, size);
    if h in l.ring {
      var i :| 0 <= i < |l.ring| && l.ring[i] == h;
      assert (l.ring[1..] + handedOut)[i - 1] == h;
    } else {
      var i :| 0 <= i < |handedOut| && handedOut[i] == h;
      assert (l.ring[1..] + handedOut)[|l.ring| - 1 + i] == h;
    }
  }

  /** Free units and units handed out add up to the units obtained from sbrk. */
  lemma UnitsConserved(l: Layout, base: int, ptr: map<int, int>, size: map<int, int>, handedOut: seq<int>)
    requires HeapOk(l, base, ptr, size)
    requires Distinct(handedOut) && forall a :: a in handedOut <==> a in l.live
    ensures var headers := l.ring[1..] + handedOut;
      && (forall i :: 0 <= i < |headers| ==> headers[i] in l.blocks)
      && SizeOf(headers, l.blocks) == |l.cell|
  {
    hide LinksOk, OrderOk, BlocksOk, ApartBut;
    OrderBasics(l.ring, base, size);
    var headers := l.ring[1..] + handedOut;
    AllHeaders(l, base, size, handedOut);
    CoveredSize(headers, l.blocks, l.cell);
    forall x: int | x in l.cell.Keys
      ensures x in Covered(headers, l.cell)
    {
    }
    assert Covered(headers, l.cell) == l.cell.Keys;
  }
}
