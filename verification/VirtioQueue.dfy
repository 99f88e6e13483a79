/** The split virtqueue shared by kernel/virtio_disk.c and the device, as a value, and its invariant.

    Descriptor layout follows section 2.6.5 of VIRTIO 1.1, the available and used rings sections 2.6.6
    and 2.6.8, and block requests section 5.2.6. */
module VirtioQueue {
  import opened Basics

  const NUM: int := 8
  const WRAP: int := 0x1_0000       // ring indices are 16 bits wide
  const NEXT: int := 1              // VRING_DESC_F_NEXT
  const WRITE: int := 2             // VRING_DESC_F_WRITE
  const BSIZE: int := 1024

  datatype Addr = Nowhere | OpAddr(i: int) | DataAddr(b: int) | StatusAddr(i: int)
  datatype Desc = Desc(addr: Addr, len: int, flags: int, next: int)
  datatype Op = Op(out: bool, sector: int)               // struct virtio_blk_req
  datatype Info = Info(b: int, status: int)              // -1 stands for a null buffer pointer
  datatype Buf = Buf(blockno: int, data: seq<int>, disk: bool)

  datatype Queue = Queue(
    free: seq<bool>,
    desc: seq<Desc>,
    ops: seq<Op>,
    info: seq<Info>,
    avail: seq<int>,
    availIdx: int,
    takenIdx: int,          // the device's position in the available ring
    used: seq<int>,
    usedIdx: int,           // the device's index
    seenIdx: int,           // disk.used_idx, the driver's
    bufs: map<int, Buf>,
    blocks: map<int, seq<int>>)

  /** How far a request has come: on the available ring at a position, taken by the device, on the used
      ring at a position, or seen by the interrupt handler. */
  datatype Phase = Submitted(k: int) | Taken | Done(k: int) | Seen

  /** A request that owns three descriptors: the head is its index in `chain`. */
  datatype Chain = NoChain | Chain(mid: int, last: int, buf: int, out: bool, sent: seq<int>, phase: Phase)

  /** History: the owner of each descriptor, the requests, and the rings' indices without wrap-around. */
  datatype Ghosts = Ghosts(owner: seq<int>, chain: seq<Chain>, nsub: int, ntaken: int, ndone: int, nseen: int)

  ghost predicate Sizes(q: Queue, g: Ghosts) {
    && |q.free| == |q.desc| == |q.ops| == |q.info| == |q.avail| == |q.used| == NUM
    && |g.owner| == |g.chain| == NUM
  }

  /** Requests own disjoint triples of descriptors, and a descriptor is free when nobody owns it. */
  ghost predicate OwnersOk(free: seq<bool>, owner: seq<int>, chain: seq<Chain>)
    requires |free| == |owner| == |chain| == NUM
  {
    && (forall i :: 0 <= i < NUM ==> (free[i] <==> owner[i] == -1))
    && (forall h :: 0 <= h < NUM && chain[h].Chain? ==> Owns(owner, h, chain[h]))
    && (forall i :: 0 <= i < NUM && owner[i] != -1 ==>
          0 <= owner[i] < NUM && chain[owner[i]].Chain? && Has(owner[i], chain[owner[i]], i))
  }

  ghost predicate Has(h: int, c: Chain, i: int)
    requires c.Chain?
  {
    i == h || i == c.mid || i == c.last
  }

  ghost predicate Owns(owner: seq<int>, h: int, c: Chain)
    requires |owner| == NUM && 0 <= h < NUM && c.Chain?
  {
    && 0 <= c.mid < NUM && 0 <= c.last < NUM && h != c.mid && h != c.last && c.mid != c.last
    && owner[h] == h && owner[c.mid] == h && owner[c.last] == h
  }

  /** The descriptors of a request say what it is. */
  ghost predicate Formatted(q: Queue, h: int, c: Chain)
    requires |q.desc| == |q.ops| == |q.info| == NUM && 0 <= h < NUM && c.Chain? && 0 <= c.mid < NUM && 0 <= c.last < NUM
  {
    && q.desc[h] == Desc(OpAddr(h), 16, NEXT, c.mid)
    && q.desc[c.mid] == Desc(DataAddr(c.buf), BSIZE, if c.out then NEXT else NEXT + WRITE, c.last)
    && q.desc[c.last] == Desc(StatusAddr(h), 1, WRITE, 0)
    && q.info[h].b == c.buf
    && c.buf in q.bufs && q.bufs[c.buf].blockno in q.blocks
    && q.ops[h] == Op(c.out, q.bufs[c.buf].blockno * 2)
  }

  /** A request's buffer is marked until the driver has seen it done; then it equals its disk block. */
  ghost predicate BufferOk(q: Queue, c: Chain)
    requires c.Chain? && c.buf in q.bufs && q.bufs[c.buf].blockno in q.blocks
  {
    var b := q.bufs[c.buf];
    && (b.disk <==> c.phase != Seen)
    && (c.out ==> b.data == c.sent)
    && (c.phase.Done? || c.phase.Seen? ==> b.data == q.blocks[b.blockno])
  }

  ghost predicate RequestOk(q: Queue, h: int, c: Chain)
    requires |q.desc| == |q.ops| == |q.info| == NUM && 0 <= h < NUM && c.Chain?
  {
    && 0 <= c.mid < NUM && 0 <= c.last < NUM
    && Formatted(q, h, c) && BufferOk(q, c)
  }

  ghost predicate RequestsOk(q: Queue, chain: seq<Chain>)
    requires |q.desc| == |q.ops| == |q.info| == |chain| == NUM
  {
    && (forall h :: 0 <= h < NUM && chain[h].Chain? ==> RequestOk(q, h, chain[h]))
    && (forall h, k :: 0 <= h < k < NUM && chain[h].Chain? && chain[k].Chain? ==> Apart(q.bufs, chain[h], chain[k]))
  }

  /** Two requests are for different buffers and different blocks. */
  ghost predicate Apart(bufs: map<int, Buf>, c: Chain, d: Chain)
    requires c.Chain? && d.Chain?
  {
    c.buf in bufs && d.buf in bufs && c.buf != d.buf && bufs[c.buf].blockno != bufs[d.buf].blockno
  }

  /** Positions lo to hi of a ring hold the requests that are submitted (or done), each once. */
  ghost predicate RingOk(ring: seq<int>, chain: seq<Chain>, lo: int, hi: int, done: bool)
    requires |ring| == |chain| == NUM
  {
    && 0 <= lo <= hi
    && (forall k :: lo <= k < hi ==> OnRing(ring, chain, k, At(done, k)))
    && (forall h :: 0 <= h < NUM && chain[h].Chain? && IsAt(done, chain[h].phase) ==>
          lo <= chain[h].phase.k < hi && ring[chain[h].phase.k % NUM] == h)
  }

  ghost function At(done: bool, k: int): Phase {
    if done then Done(k) else Submitted(k)
  }

  ghost predicate IsAt(done: bool, p: Phase) {
    if done then p.Done? else p.Submitted?
  }

  ghost predicate OnRing(ring: seq<int>, chain: seq<Chain>, k: int, phase: Phase)
    requires |ring| == |chain| == NUM
  {
    && 0 <= ring[k % NUM] < NUM
    && chain[ring[k % NUM]].Chain? && chain[ring[k % NUM]].phase == phase
  }

  const NoDesc := Desc(Nowhere, 0, 0, 0)

  /** A free descriptor is zeroed. */
  ghost predicate Blank(free: seq<bool>, desc: seq<Desc>)
    requires |free| == |desc| == NUM
  {
    forall i :: 0 <= i < NUM && free[i] ==> desc[i] == NoDesc
  }

  /** The device has written the status byte of a request that is done. */
  ghost predicate StatusOk(info: seq<Info>, chain: seq<Chain>)
    requires |info| == |chain| == NUM
  {
    forall h :: 0 <= h < NUM && chain[h].Chain? && chain[h].phase.Done? ==> info[h].status == 0
  }

  ghost predicate IndicesOk(q: Queue, g: Ghosts) {
    && q.availIdx == g.nsub % WRAP && q.takenIdx == g.ntaken % WRAP
    && q.usedIdx == g.ndone % WRAP && q.seenIdx == g.nseen % WRAP
  }

  ghost predicate Inv(q: Queue, g: Ghosts) {
    && Sizes(q, g)
    && OwnersOk(q.free, g.owner, g.chain)
    && Blank(q.free, q.desc)
    && RequestsOk(q, g.chain)
    && RingOk(q.avail, g.chain, g.ntaken, g.nsub, false)
    && RingOk(q.used, g.chain, g.nseen, g.ndone, true)
    && StatusOk(q.info, g.chain)
    && IndicesOk(q, g)
  }

  // ---------------------------------------------------------------- the rings never overflow

  /** The requests at ring positions lo to hi are distinct indices below NUM, other than h. */
  lemma {:induction false} RingSet(ring: seq<int>, chain: seq<Chain>, lo: int, hi: int, done: bool, h: int)
    returns (heads: set<int>)
    requires |ring| == |chain| == NUM && lo <= hi && 0 <= h < NUM
    requires forall k :: lo <= k < hi ==> OnRing(ring, chain, k, At(done, k))
    requires chain[h].Chain? ==> !IsAt(done, chain[h].phase)
    ensures |heads| == hi - lo && h !in heads
    ensures forall i :: i in heads ==>
             0 <= i < NUM && chain[i].Chain? && IsAt(done, chain[i].phase) && lo <= chain[i].phase.k < hi
    decreases hi - lo
  {
    if lo == hi {
      heads := {};
    } else {
      var rest := RingSet(ring, chain, lo, hi - 1, done, h);
      var k := hi - 1;
      assert OnRing(ring, chain, k, At(done, k));
      heads := rest + {ring[k % NUM]};
    }
  }

  /** As long as one index is not on a ring, the ring has room. */
  lemma RingHasRoom(ring: seq<int>, chain: seq<Chain>, lo: int, hi: int, done: bool, h: int)
    requires |ring| == |chain| == NUM && 0 <= h < NUM
    requires RingOk(ring, chain, lo, hi, done)
    requires chain[h].Chain? ==> !IsAt(done, chain[h].phase)
    ensures hi - lo < NUM
  {
    var heads := RingSet(ring, chain, lo, hi, done, h);
    var all := {0, 1, 2, 3, 4, 5, 6, 7};
    assert |all| == NUM;
    forall i: int | i in heads ensures i in all - {h} {}
    SubsetSize(heads, all - {h});
  }

  /** A 16-bit counter and the place in the ring that it stands for. */
  lemma Counter(x: int)
    requires 0 <= x
    ensures x % WRAP % NUM == x % NUM
    ensures (x % WRAP + 1) % WRAP == (x + 1) % WRAP
  {
    WrapMod(x, NUM, 0x2000);
  }

  /** A request that was not on the ring goes to its end. */
  lemma RingPush(ring: seq<int>, chain: seq<Chain>, lo: int, hi: int, done: bool, h: int, c: Chain)
    requires |ring| == |chain| == NUM && 0 <= h < NUM
    requires RingOk(ring, chain, lo, hi, done)
    requires chain[h].Chain? ==> !IsAt(done, chain[h].phase)
    requires c.Chain? && c.phase == At(done, hi)
    ensures hi - lo < NUM
    ensures RingOk(ring[hi % NUM := h], chain[h := c], lo, hi + 1, done)
  {
    RingHasRoom(ring, chain, lo, hi, done, h);
    var ring', chain' := ring[hi % NUM := h], chain[h := c];
    forall k | lo <= k < hi + 1 ensures OnRing(ring', chain', k, At(done, k)) {
      if k < hi {
        PlacesDistinct(k, hi, NUM);
        assert OnRing(ring, chain, k, At(done, k));
      }
    }
    forall i | 0 <= i < NUM && chain'[i].Chain? && IsAt(done, chain'[i].phase)
      ensures lo <= chain'[i].phase.k < hi + 1 && ring'[chain'[i].phase.k % NUM] == i
    {
      if i != h {
        PlacesDistinct(chain[i].phase.k, hi, NUM);
      }
    }
  }

  /** The oldest request leaves the ring. */
  lemma RingPop(ring: seq<int>, chain: seq<Chain>, lo: int, hi: int, done: bool, c: Chain)
    requires |ring| == |chain| == NUM && lo < hi
    requires RingOk(ring, chain, lo, hi, done)
    requires c.Chain? ==> !IsAt(done, c.phase)
    ensures OnRing(ring, chain, lo, At(done, lo))
    ensures RingOk(ring, chain[ring[lo % NUM] := c], lo + 1, hi, done)
  {
    assert OnRing(ring, chain, lo, At(done, lo));
    forall k | lo + 1 <= k < hi ensures OnRing(ring, chain[ring[lo % NUM] := c], k, At(done, k)) {
      assert OnRing(ring, chain, k, At(done, k));
    }
  }

  /** A request that is not on the ring, before or after a change, does not disturb it. */
  lemma RingKeep(ring: seq<int>, chain: seq<Chain>, lo: int, hi: int, done: bool, h: int, c: Chain)
    requires |ring| == |chain| == NUM && 0 <= h < NUM
    requires RingOk(ring, chain, lo, hi, done)
    requires chain[h].Chain? ==> !IsAt(done, chain[h].phase)
    requires c.Chain? ==> !IsAt(done, c.phase)
    ensures RingOk(ring, chain[h := c], lo, hi, done)
  {
    forall k | lo <= k < hi ensures OnRing(ring, chain[h := c], k, At(done, k)) {
      assert OnRing(ring, chain, k, At(done, k));
    }
  }

  // ---------------------------------------------------------------- owners

  lemma OwnersAt(free: seq<bool>, owner: seq<int>, chain: seq<Chain>, i: int)
    requires |free| == |owner| == |chain| == NUM && OwnersOk(free, owner, chain) && 0 <= i < NUM
    ensures free[i] <==> owner[i] == -1
    ensures chain[i].Chain? ==> Owns(owner, i, chain[i])
    ensures owner[i] != -1 ==> 0 <= owner[i] < NUM && chain[owner[i]].Chain? && Has(owner[i], chain[owner[i]], i)
  {
  }

  lemma OwnersFrom(free: seq<bool>, owner: seq<int>, chain: seq<Chain>)
    requires |free| == |owner| == |chain| == NUM
    requires forall i :: 0 <= i < NUM ==> (free[i] <==> owner[i] == -1)
    requires forall h :: 0 <= h < NUM && chain[h].Chain? ==> Owns(owner, h, chain[h])
    requires forall i :: 0 <= i < NUM && owner[i] != -1 ==>
               0 <= owner[i] < NUM && chain[owner[i]].Chain? && Has(owner[i], chain[owner[i]], i)
    ensures OwnersOk(free, owner, chain)
  {
  }

  /** A new request claims three free descriptors. */
  lemma ClaimKeepsOwners(free: seq<bool>, owner: seq<int>, chain: seq<Chain>, h: int, c: Chain)
    requires |free| == |owner| == |chain| == NUM && OwnersOk(free, owner, chain)
    requires c.Chain? && FreeTriple(free, h, c.mid, c.last)
    ensures OwnersOk(free[h := false][c.mid := false][c.last := false],
                     owner[h := h][c.mid := h][c.last := h], chain[h := c])
  {
    hide OwnersOk;
    OwnersAt(free, owner, chain, h);
    OwnersAt(free, owner, chain, c.mid);
    OwnersAt(free, owner, chain, c.last);
    var owner', chain' := owner[h := h][c.mid := h][c.last := h], chain[h := c];
    forall i | 0 <= i < NUM && chain'[i].Chain? ensures Owns(owner', i, chain'[i]) {
      if i != h {
        OwnersAt(free, owner, chain, i);
      }
    }
    forall i | 0 <= i < NUM && owner'[i] != -1
      ensures 0 <= owner'[i] < NUM && chain'[owner'[i]].Chain? && Has(owner'[i], chain'[owner'[i]], i)
    {
      OwnersAt(free, owner, chain, i);
    }
    forall i | 0 <= i < NUM ensures free[h := false][c.mid := false][c.last := false][i] <==> owner'[i] == -1 {
      OwnersAt(free, owner, chain, i);
    }
    OwnersFrom(free[h := false][c.mid := false][c.last := false], owner', chain');
  }

  /** A request gives its descriptors back. */
  lemma DropKeepsOwners(free: seq<bool>, owner: seq<int>, chain: seq<Chain>, h: int)
    requires |free| == |owner| == |chain| == NUM && OwnersOk(free, owner, chain)
    requires 0 <= h < NUM && chain[h].Chain?
    ensures Owns(owner, h, chain[h])
    ensures var c := chain[h];
            OwnersOk(free[h := true][c.mid := true][c.last := true],
                     owner[h := -1][c.mid := -1][c.last := -1], chain[h := NoChain])
  {
    var c := chain[h];
    assert Owns(owner, h, c);
    var owner', chain' := owner[h := -1][c.mid := -1][c.last := -1], chain[h := NoChain];
    forall i | 0 <= i < NUM && chain'[i].Chain? ensures Owns(owner', i, chain'[i]) {
      assert Owns(owner, i, chain[i]);
    }
    forall i | 0 <= i < NUM && owner'[i] != -1
      ensures 0 <= owner'[i] < NUM && chain'[owner'[i]].Chain? && Has(owner'[i], chain'[owner'[i]], i)
    {
      assert owner[i] != h;
    }
  }

  ghost predicate FreeTriple(free: seq<bool>, i: int, j: int, k: int) {
    && |free| == NUM && 0 <= i < NUM && 0 <= j < NUM && 0 <= k < NUM && i != j && i != k && j != k
    && free[i] && free[j] && free[k]
  }
}
