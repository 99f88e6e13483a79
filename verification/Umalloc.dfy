/** malloc, free and morecore of user/umalloc.c over mutable header words. */
module Umalloc {
  import opened HeapLayout
  import Basics

  const HEADER: int := 16       // bytes in a Header
  const MINUNITS: int := 4096   // morecore asks for at least this many
  const PAGEUNITS: int := 256   // Headers in a page
  const TWO32: int := 0x1_0000_0000
  const TWO31: int := 0x8000_0000

  /** The units malloc needs: the bytes rounded up, and one unit for the header. */
  function Units(nbytes: nat): int {
    (nbytes + HEADER - 1) / HEADER + 1
  }

  /** The units morecore wants. */
  function Request(nunits: int): int {
    if nunits < MINUNITS then MINUNITS else nunits
  }

  /** What reaches sbrk of the bytes morecore wants: an int. */
  function SbrkArg(nunits: int): (n: int)
    ensures -TWO31 <= n < TWO31 && n % HEADER == 0
  {
    var n := Request(nunits) * HEADER % TWO32;
    if n < TWO31 then n else n - TWO32
  }

  /** sbrk returns -1: only growth can fail. */
  predicate Refused(nunits: int, room: bool) {
    0 < SbrkArg(nunits) && !room
  }

  /** Where sbrk moves the break from `top`. */
  function NewBreak(nunits: int, top: int): int {
    Basics.NewSize(top * HEADER, SbrkArg(nunits)) / HEADER
  }

  /** The header that morecore writes at the old break is in no page of the process. */
  predicate Traps(nunits: int, top: int, room: bool) {
    !Refused(nunits, room) && (NewBreak(nunits, top) + PAGEUNITS - 1) / PAGEUNITS * PAGEUNITS <= top
  }

  /** The memory obtained, once the break has been moved. */
  ghost function Obtained(got: set<int>, top: int, brk: int): set<int> {
    (set x | x in got && x < brk) + Interval(top, brk)
  }

  lemma GotMore(got: set<int>, top: int, brk: int)
    requires forall x :: x in got ==> x < top
    ensures top <= brk ==> Obtained(got, top, brk) == got + Interval(top, brk)
    ensures forall x :: x in Obtained(got, top, brk) ==> x < brk
    ensures forall x :: x in got && x < brk ==> x in Obtained(got, top, brk)
  {
  }

  /** sbrk gives what morecore wants if and only if that is below 2 GB; otherwise it gives one unit at most. */
  lemma SbrkGives(nunits: int, top: int, room: bool)
    requires 0 < nunits && Request(nunits) * HEADER <= TWO32 + HEADER && 0 < top
    ensures NewBreak(nunits, top) == top + Request(nunits) <==> nunits * HEADER < TWO31
    ensures nunits * HEADER >= TWO31 ==> NewBreak(nunits, top) <= top + 1 && Request(nunits) == nunits
    ensures Traps(nunits, top, room) ==> nunits * HEADER >= TWO31 && !Refused(nunits, room)
  {
  }

  lemma FewUnits(nbytes: nat)
    requires nbytes < TWO32
    ensures 0 < Units(nbytes) && Request(Units(nbytes)) * HEADER <= TWO32 + HEADER
  {
  }

  /** A block that was handed out although sbrk had not given all of it. */
  datatype Claim = Claim(at: int, units: int)

  class Allocator {
    const base: int
    var freep: int
    var ptr: map<int, int>
    var size: map<int, int>
    ghost var l: Layout
    ghost var got: set<int>
    ghost var over: seq<Claim>

    /** The list and the blocks are as their headers say. */
    ghost predicate Valid()
      reads `freep, `ptr, `size, `l
    {
      && NULL < base < l.brk
      && (if freep == NULL then l.ring == [] && l.live == {} && l.blocks == map[] && l.cell == map[]
          else HeapOk(l, base, ptr, size) && freep in l.ring)
    }

    /** These blocks lie in memory obtained from sbrk, and that is below the break. */
    ghost predicate Backed()
      reads `l, `got
    {
      (forall x :: x in l.cell ==> x in got) && (forall x :: x in got ==> x < l.brk)
    }

    /** There are no other blocks, and they fill the memory obtained. */
    ghost predicate Sound()
      reads this
    {
      Valid() && Backed() && over == [] && got == l.cell.Keys
    }

    constructor (base: int, brk: int)
      requires NULL < base < brk
      ensures Sound() && freep == NULL && l.live == {} && l.cell == map[] && l.brk == brk
    {
      this.base := base;
      freep := NULL;
      ptr, size := map[], map[];
      l := Layout([], {}, map[], map[], brk);
      got, over := {}, [];
    }

    /** The search loop of free: the list position after which bp belongs. */
    method FindPlace(bp: int) returns (p: int)
      requires Valid() && freep != NULL && bp in l.live
      ensures |l.ring| > 0 && l.ring[0] == base < bp && p == l.ring[Place(l.ring, bp)] && p >= base
      ensures p in ptr && ptr[p] in ptr && ptr[p] in size
    {
      hide LinksOk, OrderOk, BlocksOk, Tiled, ApartBut;
      ghost var ring, k := l.ring, |l.ring|;
      p := freep;
      ghost var i :| 0 <= i < k && ring[i] == p;
      SearchTest(l, base, ptr, size, bp, i);
      ghost var t := Place(ring, bp);
      while !(bp > p && bp < ptr[p])
        invariant 0 <= i < k && p == ring[i] && p in ptr && ptr[p] in ptr && ptr[p] in size
        invariant ptr[p] == ring[if i + 1 < k then i + 1 else 0]
        invariant (bp > p && bp < ptr[p]) || (p >= ptr[p] && (bp > p || bp < ptr[p])) <==> i == t
        decreases if i <= t then t - i else t + k - i
      {
        if p >= ptr[p] && (bp > p || bp < ptr[p]) {
          break;
        }
        p := ptr[p];
        i := if i + 1 < k then i + 1 else 0;
        SearchTest(l, base, ptr, size, bp, i);
      }
      AboveBase(l.ring, base, size, i);
    }

    /** free. The block's units go back to the free list and no unit is lost. */
    method Free(bp: int)
      requires Valid() && freep != NULL && bp in l.live
      modifies `freep, `ptr, `size, `l
      ensures Valid() && freep != NULL && (old(Backed()) ==> Backed()) && (old(Sound()) ==> Sound())
      ensures l.live == old(l.live) - {bp} && l.cell.Keys == old(l.cell.Keys) && l.brk == old(l.brk)
      ensures FreeSpan(l, bp, old(size[bp])) && OthersKept(old(l), l, old(size), size, bp)
      ensures forall a :: a in l.live ==> a in size && a in old(size) && size[a] == old(size)[a]
    {
      hide LinksOk, OrderOk, BlocksOk, Tiled, ApartBut, FreeSpan, OthersKept, Place;
      var p := FindPlace(bp);
      SearchTest(l, base, ptr, size, bp, Place(l.ring, bp));
      LiveFacts(l, base, size, bp, 0);
      ghost var ptr0, size0 := ptr, size;
      var nxt := ptr[p];
      if bp + size[bp] == nxt {
        size := size[bp := size[bp] + size[nxt]];
        ptr := ptr[bp := ptr[nxt]];
      } else {
        ptr := ptr[bp := nxt];
      }
      if p + size[p] == bp {
        size := size[p := size[p] + size[bp]];
        ptr := ptr[p := ptr[bp]];
      } else {
        ptr := ptr[p := bp];
      }
      freep := p;
      l := Release(l, base, ptr0, size0, bp, Place(l.ring, bp), ptr, size);
    }

    /** The end of morecore: a block of nu units above all others goes on the list. */
    method AddBlock(hp: int, nu: int, ghost n: int)
      requires Valid() && freep != NULL && nu > 0 && l.brk <= hp
      modifies `freep, `ptr, `size, `l
      ensures Valid() && freep != NULL && l.live == old(l.live) && l.brk == hp + nu && FreeSpan(l, hp, nu)
      ensures forall a :: a in l.live ==> a in size && a in old(size) && size[a] == old(size)[a]
      ensures forall x :: x in l.cell <==> x in old(l.cell) || hp <= x < hp + nu
      ensures !old(Fits(n)) ==>
                forall a :: a in l.ring && a in size && size[a] >= n ==> a + size[a] == l.brk
    {
      hide LinksOk, OrderOk, BlocksOk, Tiled, ApartBut, FreeSpan, OthersKept;
      LiveAreBlocks(l, base, size);
      BelowBreak(l, base, size);
      Grow(l, base, ptr, size, hp, nu);
      size := size[hp := nu];
      l := Grown(l, hp, nu);
      ghost var l1, size1 := l, size;
      Free(hp);
      if !old(Fits(n)) { OnlyThisFits(l1, l, size1, size, hp, n); }
      EndsAtBreak(l, base, size, hp);
    }

    /** morecore, when the break is at `top` and the kernel has room for the process to grow or not. The list gets a
        block of all units wanted, whatever sbrk gives; or the process dies of writing its header. */
    method MoreCore(nunits: int, top: int, room: bool) returns (r: int, killed: bool)
      requires Valid() && freep != NULL && nunits > 0 && l.brk <= top
      modifies `freep, `ptr, `size, `l, `got
      ensures Valid() && freep != NULL && l.live == old(l.live)
      ensures forall a :: a in l.live ==> a in size && a in old(size) && size[a] == old(size)[a]
      ensures killed <==> Traps(nunits, top, room)
      ensures r == NULL <==> Refused(nunits, room) || killed
      ensures r == NULL ==> l == old(l) && size == old(size)
      ensures got == if Refused(nunits, room) then old(got) else Obtained(old(got), top, NewBreak(nunits, top))
      ensures r != NULL ==>
                && r == freep && FreeSpan(l, top, nunits) && l.brk == top + Request(nunits)
                && forall x :: x in l.cell <==> x in old(l.cell) || top <= x < top + Request(nunits)
      ensures r != NULL && !old(Fits(nunits)) ==>
                forall a :: a in l.ring && a in size && size[a] >= nunits ==> a + size[a] == l.brk
    {
      hide LinksOk, OrderOk, BlocksOk, Tiled, ApartBut, FreeSpan, NewBreak, SbrkArg, Obtained;
      LiveAreBlocks(l, base, size);
      killed := false;
      var nu := nunits;
      if nu < MINUNITS {
        nu := MINUNITS;
      }
      if Refused(nunits, room) {
        return NULL, false;
      }
      got := Obtained(got, top, NewBreak(nunits, top));
      if Traps(nunits, top, room) {
        return NULL, true;
      }
      AddBlock(top, nu, nunits);
      ShorterSpan(l, top, nu, nunits);
      FreepOnRing(l, base, ptr, size, freep);
      r := freep;
    }

    /** The end of malloc: take n units from the i-th free block, whose predecessor is prevp. */
    method Take(prevp: int, p: int, n: int, ghost i: nat) returns (a: int)
      requires Valid() && freep != NULL && 0 < i < |l.ring| && l.ring[i - 1] == prevp && l.ring[i] == p
      requires p in size && 0 < n <= size[p]
      modifies `freep, `ptr, `size, `l
      ensures Valid() && freep == prevp && a == p + old(size)[p] - n
      ensures (old(Backed()) ==> Backed()) && (old(Sound()) ==> Sound())
      ensures a !in old(l.live) && l.live == old(l.live) + {a} && a in size && size[a] == n && a > NULL
      ensures forall b :: b in old(l.live) ==> b in size && b in old(size) && size[b] == old(size)[b]
      ensures l.cell.Keys == old(l.cell.Keys) && l.brk == old(l.brk)
    {
      hide LinksOk, OrderOk, BlocksOk, Tiled, ApartBut;
      ListFacts(l, base, ptr, size);
      OnTheList(l, base, size, i);
      LiveAreBlocks(l, base, size);
      AboveBase(l.ring, base, size, i - 1);
      LiveOffTheList(l, base, size, p);
      a := p;
      if size[p] == n {
        TakeWhole(l, base, ptr, size, i);
        ptr := ptr[prevp := ptr[p]];
        l := TakenWhole(l, i);
        assert l.ring[i - 1] == prevp;
      } else {
        TakeTail(l, base, ptr, size, i, n);
        ghost var l' := TakenTail(l, i, n);
        size := size[p := size[p] - n];
        a := p + size[p];
        size := size[a := n];
        l := l';
      }
      freep := prevp;
    }

    /** Some block on the list is at least n units long. */
    ghost predicate Fits(n: int)
      reads `l, `size
    {
      exists i :: 0 <= i < |l.ring| && l.ring[i] in size && size[l.ring[i]] >= n
    }

    /** The first call of malloc makes a list of the empty block base. */
    method Start()
      requires Valid()
      modifies `freep, `ptr, `size, `l
      ensures Valid() && freep != NULL && l.live == old(l.live) && l.cell == old(l.cell) && l.brk == old(l.brk)
      ensures forall a :: a in l.live ==> a in size && a in old(size) && size[a] == old(size)[a]
      ensures forall n :: n > 0 ==> (Fits(n) <==> old(Fits(n)))
      ensures old(freep) != NULL ==> l == old(l) && ptr == old(ptr) && size == old(size) && freep == old(freep)
      ensures (old(Backed()) ==> Backed()) && (old(Sound()) ==> Sound())
    {
      if freep == NULL {
        ptr := ptr[base := base];
        size := size[base := 0];
        freep := base;
        l := l.(ring := [base]);
      } else {
        LiveAreBlocks(l, base, size);
      }
    }

    /** The scan of malloc's loop: once around the list from freep, up to the first block that fits. */
    method Scan(n: int) returns (found: bool, prevp: int, p: int, ghost i: nat)
      requires Valid() && freep != NULL && n > 0
      ensures found <==> Fits(n)
      ensures found ==> 0 < i < |l.ring| && l.ring[i - 1] == prevp && l.ring[i] == p && p in size && n <= size[p]
      ensures !found ==> p == freep
    {
      hide LinksOk, OrderOk, BlocksOk, Tiled, ApartBut;
      prevp := freep;
      ghost var f :| 0 <= f < |l.ring| && l.ring[f] == freep;
      ghost var d, k := 0, |l.ring|;
      RingStep(l, base, ptr, size, f);
      p := ptr[prevp];
      while true
        invariant 0 <= d < k && p == l.ring[Cyclic(f, d, k)] &&
                  prevp == l.ring[if d == 0 then f else Cyclic(f, d - 1, k)]
        invariant forall e :: 0 <= e < d ==> l.ring[Cyclic(f, e, k)] in size && size[l.ring[Cyclic(f, e, k)]] < n
        decreases k - d
      {
        i := Cyclic(f, d, k);
        RingStep(l, base, ptr, size, i);
        if size[p] >= n {
          PrevOnRing(l.ring, base, size, f, d);
          return true, prevp, p, i;
        }
        if p == freep {
          FullCircle(l.ring, base, size, f, d, n);
          return false, prevp, p, i;
        }
        NotYetBack(l.ring, base, size, f, d);
        prevp, p := p, ptr[p];
        d := d + 1;
      }
    }

    /** The loop of malloc after morecore, from freep on. */
    method TakeTop(n: int, ghost top: int) returns (a: int)
      requires Valid() && freep != NULL && n > 0 && FreeSpan(l, top, n)
      requires forall a :: a in l.ring && a in size && size[a] >= n ==> a + size[a] == l.brk
      modifies `freep, `ptr, `size, `l
      ensures Valid() && freep != NULL && a == l.brk - n && a > NULL && a in size && size[a] == n
      ensures a !in old(l.live) && l.live == old(l.live) + {a}
      ensures l.cell.Keys == old(l.cell.Keys) && l.brk == old(l.brk)
      ensures forall b :: b in old(l.live) ==> b in size && b in old(size) && size[b] == old(size)[b]
    {
      hide LinksOk, OrderOk, BlocksOk, Tiled, ApartBut, FreeSpan;
      SpanFits(l, base, ptr, size, top, n);
      var found, prevp, p, i := Scan(n);
      RingStep(l, base, ptr, size, i - 1);
      a := Take(prevp, p, n, i);
    }

    /** The block at the top is larger than the memory that was got for it. */
    ghost method Disown(l0: Layout, a: int, nunits: int, brk: int)
      requires Valid() && freep != NULL && a in l.live && a in size && size[a] == nunits && a + nunits == l.brk
      requires base < l0.brk <= a && forall x :: x in l0.cell ==> x < l0.brk
      requires forall x :: x in l.cell <==> x in l0.cell || a <= x < l.brk
      modifies `l, `over
      ensures l.live == old(l.live) - {a} && over == old(over) + [Claim(a, nunits)]
      ensures l.cell.Keys == l0.cell.Keys && l.brk == brk && (l0.brk <= brk ==> Valid())
    {
      hide LinksOk, OrderOk, BlocksOk, Tiled, ApartBut;
      over := over + [Claim(a, nunits)];
      OthersBelow(l0, l, base, ptr, size, a);
      if l0.brk <= brk {
        Forget(l, base, ptr, size, a, brk);
      }
      l := Without(l, a, brk);
    }

    /** The new block at a is settled in the memory obtained, or reaches beyond it. */
    ghost method Settle(l0: Layout, got0: set<int>, a: int, nunits: int, top: int)
      requires Valid() && freep != NULL && a in l.live && a in size && size[a] == nunits && a + nunits == l.brk
      requires 0 < nunits && Request(nunits) * HEADER <= TWO32 + HEADER && l.brk == top + Request(nunits)
      requires base < l0.brk <= top && (forall x :: x in l0.cell ==> x in got0) &&
               (forall x :: x in got0 ==> x < l0.brk)
      requires forall x :: x in l.cell <==> x in l0.cell || top <= x < l.brk
      requires got == Obtained(got0, top, NewBreak(nunits, top))
      modifies `l, `over
      ensures l.brk == NewBreak(nunits, top)
      ensures nunits * HEADER < TWO31 ==> Valid() && Backed() && l.live == old(l.live) && l.cell == old(l.cell)
      ensures nunits * HEADER < TWO31 ==> over == old(over) && (got0 == l0.cell.Keys ==> got == l.cell.Keys)
      ensures nunits * HEADER >= TWO31 ==>
                && l.live == old(l.live) - {a} && over == old(over) + [Claim(a, nunits)]
                && l.cell.Keys == l0.cell.Keys && (l0.brk <= l.brk ==> Valid() && Backed())
                && top + nunits - 1 !in got
    {
      hide LinksOk, OrderOk, BlocksOk, Tiled, ApartBut, HeapOk, NewBreak, Obtained;
      SbrkGives(nunits, top, true);
      GotMore(got0, top, NewBreak(nunits, top));
      if nunits * HEADER >= TWO31 {
        Disown(l0, a, nunits, NewBreak(nunits, top));
      }
    }

    /** malloc, when nothing on the list fits: after morecore the loop goes around again from freep, and finds a block
        that ends at the break. */
    method AllocateNew(nunits: int, top: int, room: bool) returns (a: int, killed: bool)
      requires Valid() && Backed() && freep != NULL && l.brk <= top && !Fits(nunits)
      requires 0 < nunits && Request(nunits) * HEADER <= TWO32 + HEADER
      modifies `freep, `ptr, `size, `l, `got, `over
      ensures killed <==> Traps(nunits, top, room)
      ensures a == NULL <==> Refused(nunits, room) || killed
      ensures a == NULL ==> Valid() && freep != NULL && l == old(l) && size == old(size) && over == old(over)
      ensures a != NULL ==> a == top + Request(nunits) - nunits && a !in old(l.live) && a in size && size[a] == nunits
      ensures a != NULL && nunits * HEADER < TWO31 ==>
                && Valid() && Backed() && l.live == old(l.live) + {a} && over == old(over)
                && l.cell.Keys == old(l.cell).Keys + Interval(top, top + Request(nunits))
      ensures a != NULL && nunits * HEADER >= TWO31 ==>
                && l.live == old(l.live) && over == old(over) + [Claim(a, nunits)]
                && l.cell.Keys == old(l.cell).Keys && (old(l.brk) <= l.brk ==> Valid() && Backed())
                && top + nunits - 1 !in got
      ensures old(Sound()) ==> (!killed && Sound() <==> Refused(nunits, room) || nunits * HEADER < TWO31)
      ensures forall b :: b in old(l.live) ==> b in size && b in old(size) && size[b] == old(size)[b]
      ensures got == if Refused(nunits, room) then old(got) else Obtained(old(got), top, NewBreak(nunits, top))
      ensures l.brk == if a == NULL then old(l.brk) else NewBreak(nunits, top)
    {
      hide LinksOk, OrderOk, BlocksOk, Tiled, ApartBut, NewBreak, Traps, Refused, FreeSpan, Without, HeapOk, Obtained;
      ghost var l0, got0 := l, got;
      SbrkGives(nunits, top, room);
      var p;
      p, killed := MoreCore(nunits, top, room);
      if p == NULL {
        return NULL, killed;
      }
      a := TakeTop(nunits, top);
      Settle(l0, got0, a, nunits, top);
    }

    /** malloc, when the break is at `top` and the kernel has room for the process to grow or not. The result is NULL
        or one past the header of a fresh block with the fewest units that hold the bytes asked for; no other block
        changes hands or size. sbrk is used if and only if nothing fits. The blocks stay within the memory obtained if
        and only if sbrk is not used, or fails, or the block is below 2 GB. */
    method Malloc(nbytes: nat, top: int, room: bool) returns (r: int, called: bool, killed: bool)
      requires Valid() && Backed() && l.brk <= top && nbytes < TWO32
      modifies `freep, `ptr, `size, `l, `got, `over
      ensures called <==> !old(Fits(Units(nbytes)))
      ensures killed <==> called && Traps(Units(nbytes), top, room)
      ensures r == NULL <==> called && (Refused(Units(nbytes), room) || killed)
      ensures r == NULL ==> Valid() && l.live == old(l.live) && l.cell == old(l.cell) && over == old(over)
      ensures r != NULL ==> r - 1 !in old(l.live) && r - 1 in size && size[r - 1] == Units(nbytes)
      ensures r != NULL ==> nbytes <= (size[r - 1] - 1) * HEADER < nbytes + HEADER
      ensures r != NULL && (!called || Units(nbytes) * HEADER < TWO31) ==>
                && Valid() && Backed() && l.live == old(l.live) + {r - 1} && over == old(over)
                && l.cell.Keys ==
                   old(l.cell).Keys + if called then Interval(top, top + Request(Units(nbytes))) else {}
      ensures r != NULL && called && Units(nbytes) * HEADER >= TWO31 ==>
                && r - 1 == top && l.live == old(l.live) && over == old(over) + [Claim(top, Units(nbytes))]
                && top + Units(nbytes) - 1 !in got && l.cell.Keys == old(l.cell).Keys
                && (old(l.brk) <= l.brk ==> Valid() && Backed())
      ensures forall a :: a in old(l.live) ==> a in size && a in old(size) && size[a] == old(size)[a]
      ensures got == if called && !Refused(Units(nbytes), room)
                     then Obtained(old(got), top, NewBreak(Units(nbytes), top)) else old(got)
      ensures l.brk == if called && r != NULL then NewBreak(Units(nbytes), top) else old(l.brk)
      ensures old(Sound()) ==>
                (!killed && Sound() <==> !called || Refused(Units(nbytes), room) || Units(nbytes) * HEADER < TWO31)
    {
      hide LinksOk, OrderOk, BlocksOk, Tiled, ApartBut, NewBreak, Traps, Refused, HeapOk, Obtained;
      hide Allocator.Backed, Allocator.Sound, Allocator.Fits;
      var nunits := Units(nbytes);
      FewUnits(nbytes);
      Start();
      var found, prevp, p, i := Scan(nunits);
      called := !found;
      var a;
      if found {
        a := Take(prevp, p, nunits, i);
        return a + 1, called, false;
      }
      a, killed := AllocateNew(nunits, top, room);
      if a == NULL {
        return NULL, called, killed;
      }
      return a + 1, called, killed;
    }
  }

  /** Other blocks than the last one have the units that were there before. */
  lemma OthersBelow(l0: Layout, l: Layout, base: int, ptr: map<int, int>, size: map<int, int>, a: int)
    requires HeapOk(l, base, ptr, size) && a in l.live && l0.brk <= a && a in size && a + size[a] == l.brk
    requires forall x :: x in l0.cell ==> x < l0.brk
    requires forall x :: x in l.cell <==> x in l0.cell || a <= x < l.brk
    ensures forall b :: b in l.blocks && b != a ==> b + l.blocks[b] <= l0.brk
    ensures forall x :: x in l.cell && l.cell[x] != a <==> x in l0.cell
  {
    forall b | b in l.blocks && b != a ensures b + l.blocks[b] <= l0.brk {
      var x := b + l.blocks[b] - 1;
      UnitAt(l.blocks, l.cell, b, x);
      if a <= x { UnitAt(l.blocks, l.cell, a, x); }
    }
  }

  /** The position d + 1 steps after f on a ring of k. */
  ghost function Cyclic(f: int, d: int, k: int): int {
    if f + 1 + d < k then f + 1 + d else f + 1 + d - k
  }

  lemma RingStep(l: Layout, base: int, ptr: map<int, int>, size: map<int, int>, i: nat)
    requires HeapOk(l, base, ptr, size) && i < |l.ring|
    ensures l.ring[i] in ptr && l.ring[i] in size && ptr[l.ring[i]] == l.ring[if i + 1 < |l.ring| then i + 1 else 0]
    ensures l.ring[i] > NULL
  {
    hide LinksOk, OrderOk, BlocksOk, Tiled, ApartBut;
    ListFacts(l, base, ptr, size);
    NextOnRing(l.ring, base, ptr, i);
    AboveBase(l.ring, base, size, i);
  }

  /** A block that fits is not base, so the one scanned before it is its predecessor. */
  lemma PrevOnRing(ring: seq<int>, base: int, size: map<int, int>, f: nat, d: nat)
    requires OrderOk(ring, base, size) && f < |ring| && d < |ring|
    requires size[ring[Cyclic(f, d, |ring|)]] > 0
    ensures Cyclic(f, d, |ring|) > 0
    ensures (if d == 0 then f else Cyclic(f, d - 1, |ring|)) == Cyclic(f, d, |ring|) - 1
  {
  }

  lemma NotYetBack(ring: seq<int>, base: int, size: map<int, int>, f: nat, d: nat)
    requires OrderOk(ring, base, size) && f < |ring| && d < |ring| && ring[Cyclic(f, d, |ring|)] != ring[f]
    ensures d + 1 < |ring|
    ensures var i := Cyclic(f, d, |ring|); Cyclic(f, d + 1, |ring|) == if i + 1 < |ring| then i + 1 else 0
  {
  }

  /** Back at freep, every block has been scanned. */
  lemma FullCircle(ring: seq<int>, base: int, size: map<int, int>, f: nat, d: nat, n: int)
    requires OrderOk(ring, base, size) && f < |ring| && d < |ring| && ring[Cyclic(f, d, |ring|)] == ring[f]
    requires size[ring[f]] < n
    requires forall e :: 0 <= e < d ==> size[ring[Cyclic(f, e, |ring|)]] < n
    ensures forall i :: 0 <= i < |ring| ==> size[ring[i]] < n
  {
    var k := |ring|;
    OrderBasics(ring, base, size);
    assert Cyclic(f, d, k) == f;
    forall i | 0 <= i < k
      ensures size[ring[i]] < n
    {
      var e := if i > f then i - f - 1 else i + k - f - 1;
      assert Cyclic(f, e, k) == i;
    }
  }

  lemma SpanFits(l: Layout, base: int, ptr: map<int, int>, size: map<int, int>, x: int, n: int)
    requires HeapOk(l, base, ptr, size) && FreeSpan(l, x, n)
    ensures exists i :: 0 <= i < |l.ring| && l.ring[i] in size && size[l.ring[i]] >= n
  {
    var i :| 0 <= i < |l.ring| && l.ring[i] == l.cell[x];
  }

  /** Nothing fits where there is no memory. */
  lemma NothingFits(h: Allocator, n: int)
    requires h.Valid() && h.l.cell == map[] && n > 0
    ensures !h.Fits(n)
  {
    hide LinksOk, OrderOk, BlocksOk, Tiled, ApartBut;
    if h.freep != NULL {
      forall i | 0 <= i < |h.l.ring| && h.l.ring[i] in h.size ensures h.size[h.l.ring[i]] == 0 {
        OnlyBase(h.l, h.base, h.size, i);
      }
    }
  }

  lemma OnlyBase(l: Layout, base: int, size: map<int, int>, i: int)
    requires OrderOk(l.ring, base, size) && BlocksOk(l, base, size) && Tiled(l.blocks, l.cell)
    requires l.cell == map[] && 0 <= i < |l.ring|
    ensures l.ring[i] in size && size[l.ring[i]] == 0
  {
    hide OrderOk, BlocksOk, Tiled;
    OrderBasics(l.ring, base, size);
    if i > 0 {
      OnTheList(l, base, size, i);
      BlockStart(l.blocks, l.cell, l.ring[i]);
    }
  }

  lemma FreepOnRing(l: Layout, base: int, ptr: map<int, int>, size: map<int, int>, p: int)
    requires HeapOk(l, base, ptr, size) && p in l.ring
    ensures p != NULL
  {
    hide LinksOk, OrderOk, BlocksOk, Tiled, ApartBut;
    var i :| 0 <= i < |l.ring| && l.ring[i] == p;
    AboveBase(l.ring, base, size, i);
  }

  /** Of almost 4 GB, sbrk is asked for one unit. */
  lemma OneUnit(nbytes: nat, top: int)
    requires TWO32 - HEADER < nbytes < TWO32 && 0 < top
    ensures Units(nbytes) == TWO32 / HEADER + 1 && NewBreak(Units(nbytes), top) == top + 1
    ensures !Refused(Units(nbytes), true) && !Traps(Units(nbytes), top, true)
  {
  }

  /** A first request of almost 4 GB. */
  method BigBlock(base: int, brk: int, nbytes: nat) returns (h: Allocator, r: int)
    requires NULL < base < brk && TWO32 - HEADER < nbytes < TWO32
    ensures fresh(h) && h.Valid() && h.Backed() && h.l.cell == map[] && h.l.brk == brk + 1
    ensures r - 1 == brk && h.over == [Claim(brk, Units(nbytes))]
  {
    hide HeapOk, Traps, Refused, NewBreak, Units;
    h := new Allocator(base, brk);
    OneUnit(nbytes, brk);
    NothingFits(h, Units(nbytes));
    var called, killed;
    r, called, killed := h.Malloc(nbytes, brk, true);
    assert h.l.cell.Keys == {};
  }

  /** The input on which blocks overlap: a first request of almost 4 GB gets one unit from sbrk, and whatever is asked
      for next lies within the block it returned. */
  method BlocksOverlap(base: int, brk: int, big: nat, nbytes: nat) returns (h: Allocator, r1: int, r2: int)
    requires NULL < base < brk && TWO32 - HEADER < big < TWO32 && Units(nbytes) * HEADER < TWO31
    ensures h.over == [Claim(r1 - 1, Units(big))]
    ensures r2 - 1 in h.l.live && r2 - 1 in h.size && h.size[r2 - 1] == Units(nbytes)
    ensures r1 - 1 < r2 - 1 && r2 - 1 + Units(nbytes) <= r1 - 1 + Units(big)
  {
    hide HeapOk, Traps, NewBreak;
    h, r1 := BigBlock(base, brk, big);
    SbrkGives(Units(nbytes), brk + 1, true);
    NothingFits(h, Units(nbytes));
    var called, killed;
    r2, called, killed := h.Malloc(nbytes, brk + 1, true);
    LiveInMemory(h, r2 - 1);
  }

  lemma LiveInMemory(h: Allocator, a: int)
    requires h.Valid() && a in h.l.live
    ensures a in h.l.cell && a in h.size && (h.size[a] > 0 && a + h.size[a] - 1 in h.l.cell)
  {
    LiveAreBlocks(h.l, h.base, h.size);
    BlockStart(h.l.blocks, h.l.cell, a);
    UnitAt(h.l.blocks, h.l.cell, a, a + h.size[a] - 1);
  }
}
