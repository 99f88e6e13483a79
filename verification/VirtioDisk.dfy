/** kernel/virtio_disk.c: the driver's sections under vdisk_lock, and the device's own moves between them.

    Every method is one section that runs with the lock held, or one move of the device; between two calls
    any other may come. The sets `waiting` and `asleep` say who sleeps on free[0] and on which buffers. */
module VirtioDisk {
  import opened VirtioQueue
  import opened VirtioSteps

  /** Some requests that were done have been seen; all others are as they were. */
  ghost predicate SeenSome(chain: seq<Chain>, chain': seq<Chain>) {
    && |chain| == |chain'| == NUM
    && forall h :: 0 <= h < NUM ==> chain'[h] == chain[h] || NowSeen(chain[h], chain'[h])
  }

  ghost predicate NowSeen(c: Chain, c': Chain) {
    c.Chain? && c.phase.Done? && c' == c.(phase := Seen)
  }

  /** The buffer of a request that has been seen. */
  ghost predicate Marked(chain: seq<Chain>, chain': seq<Chain>, b: int)
    requires |chain| == |chain'| == NUM
  {
    exists h :: 0 <= h < NUM && NowSeen(chain[h], chain'[h]) && chain[h].buf == b
  }

  ghost predicate MarksOff(chain: seq<Chain>, chain': seq<Chain>, bufs: map<int, Buf>, bufs': map<int, Buf>)
    requires |chain| == |chain'| == NUM
  {
    forall b :: b in bufs && b in bufs' ==>
      bufs'[b] == if Marked(chain, chain', b) then bufs[b].(disk := false) else bufs[b]
  }

  /** What the handler has done: requests seen, marks off, sleepers woken. */
  ghost predicate Handled(chain: seq<Chain>, chain': seq<Chain>, bufs: map<int, Buf>, bufs': map<int, Buf>,
                          asleep: set<int>, asleep': set<int>) {
    && SeenSome(chain, chain') && bufs'.Keys == bufs.Keys && MarksOff(chain, chain', bufs, bufs')
    && forall b :: b in asleep' <==> b in asleep && !Marked(chain, chain', b)
  }

  lemma NothingHandled(chain: seq<Chain>, bufs: map<int, Buf>, asleep: set<int>)
    requires |chain| == NUM
    ensures Handled(chain, chain, bufs, bufs, asleep, asleep)
  {
  }

  lemma HandledMore(chain: seq<Chain>, chain': seq<Chain>, bufs: map<int, Buf>, bufs': map<int, Buf>,
                    asleep: set<int>, asleep': set<int>, h: int)
    requires Handled(chain, chain', bufs, bufs', asleep, asleep')
    requires 0 <= h < NUM && chain'[h].Chain? && chain'[h].phase.Done? && chain'[h].buf in bufs'
    ensures Handled(chain, chain'[h := chain'[h].(phase := Seen)], bufs,
                    bufs'[chain'[h].buf := bufs'[chain'[h].buf].(disk := false)], asleep, asleep' - {chain'[h].buf})
  {
    var c := chain'[h := chain'[h].(phase := Seen)];
    assert chain'[h] == chain[h] && NowSeen(chain[h], c[h]);
    forall b ensures Marked(chain, c, b) <==> Marked(chain, chain', b) || b == chain'[h].buf {
      if Marked(chain, chain', b) {
        var i :| 0 <= i < NUM && NowSeen(chain[i], chain'[i]) && chain[i].buf == b;
        assert NowSeen(chain[i], c[i]);
      }
    }
  }

  class DiskDriver {
    const free: array<bool>
    const desc: array<Desc>
    const ops: array<Op>
    const info: array<Info>
    const avail: array<int>
    const used: array<int>
    var availIdx: int
    var takenIdx: int
    var usedIdx: int
    var seenIdx: int
    var bufs: map<int, Buf>
    var blocks: map<int, seq<int>>
    var waiting: set<int>
    var asleep: set<int>
    ghost var g: Ghosts

    ghost function Q(): Queue
      reads this, free, desc, ops, info, avail, used
    {
      Queue(free[..], desc[..], ops[..], info[..], avail[..], availIdx, takenIdx, used[..], usedIdx, seenIdx, bufs,
        blocks)
    }

    ghost predicate Shape() {
      && free.Length == desc.Length == ops.Length == info.Length == avail.Length == used.Length == NUM
      && avail != used
    }

    /** Nobody sleeps for descriptors while three are free, nor for a buffer the device is done with. */
    ghost predicate SleepOk()
      requires Shape()
      reads this, free
    {
      && (waiting != {} ==> FewFree(free[..]))
      && (forall b :: b in asleep ==> b in bufs && bufs[b].disk)
    }

    ghost predicate Valid()
      reads this, free, desc, ops, info, avail, used
    {
      Shape() && Inv(Q(), g) && SleepOk()
    }

    /** The driver's state after virtio_disk_init, for any buffers and any disk. */
    constructor (bs: map<int, Buf>, disk: map<int, seq<int>>)
      requires forall b :: b in bs ==> !bs[b].disk
      ensures Valid() && bufs == bs && blocks == disk
      ensures fresh(free) && fresh(desc) && fresh(ops) && fresh(info) && fresh(avail) && fresh(used)
    {
      free := new bool[NUM](i => true);
      desc := new Desc[NUM](i => NoDesc);
      ops := new Op[NUM](i => Op(false, 0));
      info := new Info[NUM](i => Info(-1, 0));
      avail := new int[NUM](i => 0);
      used := new int[NUM](i => 0);
      availIdx, takenIdx, usedIdx, seenIdx := 0, 0, 0, 0;
      bufs, blocks, waiting, asleep := bs, disk, {}, {};
      g := Ghosts(seq(NUM, i => -1), seq(NUM, i => NoChain), 0, 0, 0, 0);
    }

    /** alloc_desc: takes the lowest free descriptor; -1 if there is none. */
    method AllocDesc() returns (i: int)
      requires Shape()
      modifies free
      ensures i == -1 || 0 <= i < NUM
      ensures i == -1 ==> free[..] == old(free[..]) && forall j :: 0 <= j < NUM ==> !free[j]
      ensures i != -1 ==> old(free[i]) && free[..] == old(free[..])[i := false] && forall j :: 0 <= j < i ==> !free[j]
    {
      i := 0;
      while i < NUM
        invariant 0 <= i <= NUM && free[..] == old(free[..])
        invariant forall j :: 0 <= j < i ==> !free[j]
      {
        if free[i] {
          free[i] := false;
          return;
        }
        i := i + 1;
      }
      i := -1;
    }

    /** free_desc. Its two panics are its precondition: no caller frees a descriptor twice. */
    method FreeDesc(i: int)
      requires Shape() && 0 <= i < NUM && !free[i]
      modifies free, desc, `waiting
      ensures free[..] == old(free[..])[i := true] && desc[..] == old(desc[..])[i := NoDesc]
      ensures waiting == {}
    {
      desc[i] := NoDesc;
      free[i] := true;
      waiting := {};
    }

    /** The inner loop of alloc3_desc: gives back the first n descriptors it took. */
    method GiveBack(idx: array<int>, n: int, ghost was: seq<bool>)
      requires Shape() && idx.Length == 3 && idx != avail && idx != used && 0 <= n < 3
      requires TakenFrom(was, idx[..n]) && free[..] == Without(was, idx[..n])
      requires Blank(was, desc[..])
      modifies free, desc, `waiting
      ensures free[..] == was && desc[..] == old(desc[..])
      ensures 0 < n ==> waiting == {}
      ensures n == 0 ==> waiting == old(waiting)
    {
      var j := 0;
      while j < n
        invariant 0 <= j <= n
        invariant free[..] == Without(was, idx[..n][j..])
        invariant desc[..] == old(desc[..])
        invariant waiting == if 0 < j then {} else old(waiting)
      {
        WithoutFirst(was, idx[..n][j..]);
        FreeDesc(idx[j]);
        j := j + 1;
      }
    }

    /** alloc3_desc: three free descriptors, or none at all when fewer are free. */
    method Alloc3(idx: array<int>) returns (ok: bool)
      requires Shape() && Blank(free[..], desc[..])
      requires idx.Length == 3 && idx != avail && idx != used
      modifies free, desc, idx, `waiting
      ensures ok <==> !FewFree(old(free[..]))
      ensures ok ==> FreeTriple(old(free[..]), idx[0], idx[1], idx[2])
      ensures ok ==> free[..] == old(free[..])[idx[0] := false][idx[1] := false][idx[2] := false]
      ensures waiting == old(waiting) || waiting == {}
      ensures !ok ==> free[..] == old(free[..])
      ensures desc[..] == old(desc[..])
    {
      hide FewFree, FreeTriple;
      ghost var was := free[..];
      var i := 0;
      while i < 3
        invariant 0 <= i <= 3
        invariant TakenFrom(was, idx[..i]) && free[..] == Without(was, idx[..i])
        invariant desc[..] == old(desc[..]) && waiting == old(waiting)
      {
        var d := AllocDesc();
        ghost var taken := idx[..i];
        idx[i] := d;
        assert idx[..i] == taken;
        if d < 0 {
          NoThree(was, taken);
          GiveBack(idx, i, was);
          return false;
        }
        WithoutMore(was, taken, d);
        i := i + 1;
        assert idx[..i] == taken + [d];
      }
      AllThree(was, idx[..]);
      ok := true;
    }

    /** Formats a request and tells the device about it. */
    method Publish(h: int, j: int, k: int, b: int, out: bool)
      requires Shape() && 0 <= h < NUM && 0 <= j < NUM && 0 <= k < NUM && b in bufs
      modifies ops, desc, info, avail, `bufs, `availIdx
      ensures ops[..] == old(ops[..])[h := Op(out, old(bufs)[b].blockno * 2)]
      ensures desc[..] == old(desc[..])[h := Desc(OpAddr(h), 16, NEXT, j)]
                                       [j := Desc(DataAddr(b), BSIZE, if out then NEXT else NEXT + WRITE, k)]
                                       [k := Desc(StatusAddr(h), 1, WRITE, 0)]
      ensures info[..] == old(info[..])[h := Info(b, 0xff)]
      ensures bufs == old(bufs)[b := old(bufs)[b].(disk := true)]
      ensures avail[..] == old(avail[..])[old(availIdx) % NUM := h] && availIdx == (old(availIdx) + 1) % WRAP
    {
      ops[h] := Op(out, bufs[b].blockno * 2);
      desc[h] := Desc(OpAddr(h), 16, NEXT, j);
      desc[j] := Desc(DataAddr(b), BSIZE, if out then NEXT else NEXT + WRITE, k);
      desc[k] := Desc(StatusAddr(h), 1, WRITE, 0);
      info[h] := Info(b, 0xff);
      bufs := bufs[b := bufs[b].(disk := true)];
      avail[availIdx % NUM] := h;
      availIdx := (availIdx + 1) % WRAP;
    }

    /** virtio_disk_rw up to its first sleep: with three descriptors the request is formatted, put on the
        available ring and waited for; without, nothing changes and the process sleeps on free[0]. */
    method Submit(p: int, b: int, out: bool) returns (ok: bool, h: int, ghost j: int, ghost k: int)
      requires Valid() && Idle(Q(), g, b)
      modifies this, free, desc, ops, info, avail
      ensures Valid()
      ensures ok <==> !FewFree(old(free[..]))
      ensures !ok ==> Q() == old(Q()) && g == old(g) && p in waiting && asleep == old(asleep)
      ensures ok ==> && FreeTriple(old(free[..]), h, j, k)
                     && Q() == VirtioSteps.Submit(old(Q()), h, j, k, b, out)
                     && g == SubmitGhosts(old(Q()), old(g), h, j, k, b, out)
      ensures ok ==> asleep == old(asleep) + {b}
    {
      hide Inv, FewFree, Idle;
      BlankHolds(Q(), g);
      IdleHas(Q(), g, b);
      var idx := new int[3];
      ok := Alloc3(idx);
      h, j, k := idx[0], idx[1], idx[2];
      if !ok {
        waiting := waiting + {p};
        return;
      }
      SubmitKeepsInv(old(Q()), old(g), h, j, k, b, out);
      Publish(h, idx[1], idx[2], b, out);
      g := SubmitGhosts(old(Q()), old(g), h, j, k, b, out);
      asleep := asleep + {b};
      assert Q() == VirtioSteps.Submit(old(Q()), h, j, k, b, out);
    }

    /** The device takes a request, if one is on the available ring that it has not taken. */
    method DeviceTake() returns (h: int)
      requires Valid()
      modifies `takenIdx, `g
      ensures Valid()
      ensures h == -1 <==> old(g).ntaken == old(g).nsub
      ensures h == -1 ==> Q() == old(Q()) && g == old(g)
      ensures h != -1 ==> 0 <= h < NUM && old(g).chain[h].Chain? && old(g).chain[h].phase.Submitted?
      ensures h != -1 ==> Q() == Take(old(Q())) && g == TakeGhosts(old(g), h)
    {
      NothingUnseen(Q(), g);
      if takenIdx == availIdx { return -1; }
      NextSubmitted(Q(), g);
      h := avail[takenIdx % NUM];
      TakeKeepsInv(Q(), g, h);
      takenIdx := (takenIdx + 1) % WRAP;
      g := TakeGhosts(g, h);
      assert Q() == Take(old(Q()));
    }

    /** The device serves any request it has taken, in any order. */
    method DeviceServe(h: int)
      requires Valid() && 0 <= h < NUM && g.chain[h].Chain? && g.chain[h].phase == Phase.Taken
      modifies this, info, used
      ensures Valid() && g == ServeGhosts(old(g), h)
      ensures Readable(old(Q()), h) && Q() == Serve(old(Q()), h)
    {
      hide Inv;
      BlankHolds(Q(), g);
      ServeKeepsInv(Q(), g, h);
      var op := ops[desc[h].addr.i];
      var d := desc[desc[h].next];
      var status := desc[d.next].addr.i;
      if op.out {
        blocks := blocks[op.sector / 2 := bufs[d.addr.b].data];
      } else {
        bufs := bufs[d.addr.b := bufs[d.addr.b].(data := blocks[op.sector / 2])];
      }
      info[status] := info[status].(status := 0);
      used[usedIdx % NUM] := h;
      usedIdx := (usedIdx + 1) % WRAP;
      g := ServeGhosts(g, h);
      assert Q() == Serve(old(Q()), h);
    }

    /** One turn of virtio_disk_intr's loop. Its panic is never reached: the status is 0. */
    method SeeOne() returns (ghost h: int)
      requires Valid() && seenIdx != usedIdx
      modifies this
      ensures Valid() && blocks == old(blocks) && waiting == old(waiting)
      ensures g.nseen == old(g).nseen + 1 && g.ndone == old(g).ndone && usedIdx == old(usedIdx)
      ensures 0 <= h < NUM == |old(g).chain| && old(g).chain[h].Chain? && old(g).chain[h].phase == Done(old(g).nseen)
      ensures g == SeeGhosts(old(g), h) && old(g).chain[h].buf in old(bufs)
      ensures bufs == old(bufs)[old(g).chain[h].buf := old(bufs)[old(g).chain[h].buf].(disk := false)]
      ensures asleep == old(asleep) - {old(g).chain[h].buf}
    {
      NextDone(Q(), g);
      var id := used[seenIdx % NUM];
      SeeKeepsInv(Q(), g, id);
      assert info[id].status == 0;
      var b := info[id].b;
      bufs := bufs[b := bufs[b].(disk := false)];
      asleep := asleep - {b};
      seenIdx := (seenIdx + 1) % WRAP;
      g, h := SeeGhosts(g, id), id;
      assert Q() == See(old(Q()), id);
    }

    /** virtio_disk_intr: every request that is done has been seen, exactly the marks of their buffers are off,
        and exactly those who sleep on one of these wake up. */
    method Interrupt()
      requires Valid()
      modifies this
      ensures Valid() && g.nseen == g.ndone && blocks == old(blocks) && waiting == old(waiting)
      ensures forall h :: 0 <= h < NUM && g.chain[h].Chain? ==> !g.chain[h].phase.Done?
      ensures Handled(old(g).chain, g.chain, old(bufs), bufs, old(asleep), asleep)
    {
      hide Handled, Inv;
      NothingUnseen(Q(), g);
      NothingHandled(g.chain, bufs, asleep);
      while seenIdx != usedIdx
        invariant Valid() && blocks == old(blocks) && waiting == old(waiting)
        invariant g.nseen <= g.ndone && seenIdx == g.nseen % WRAP && usedIdx == g.ndone % WRAP
        invariant Handled(old(g).chain, g.chain, old(bufs), bufs, old(asleep), asleep)
        decreases g.ndone - g.nseen
      {
        ghost var g1, bufs1, asleep1 := g, bufs, asleep;
        ghost var h := SeeOne();
        HandledMore(old(g).chain, g1.chain, old(bufs), bufs1, old(asleep), asleep1, h);
        NothingUnseen(Q(), g);
      }
      NothingUnseen(Q(), g);
    }

    /** free_chain: follows the NEXT flags from h and frees what it passes. */
    method FreeChain(h: int, ghost j: int, ghost k: int)
      requires Shape() && 0 <= h < NUM && 0 <= j < NUM && 0 <= k < NUM && h != j && h != k && j != k
      requires !free[h] && !free[j] && !free[k]
      requires desc[h].flags % 2 == 1 && desc[h].next == j && desc[j].flags % 2 == 1 && desc[j].next == k &&
               desc[k].flags % 2 == 0
      modifies free, desc, `waiting
      ensures free[..] == old(free[..])[h := true][j := true][k := true]
      ensures desc[..] == old(desc[..])[h := NoDesc][j := NoDesc][k := NoDesc]
      ensures waiting == {}
    {
      var i, more := h, true;
      ghost var n := 0;
      while more
        invariant 0 <= n <= 3 && (more <==> n < 3) && (n < 3 ==> i == [h, j, k][n])
        invariant n == 0 ==> free[..] == old(free[..]) && desc[..] == old(desc[..])
        invariant n == 1 ==> free[..] == old(free[..])[h := true] && desc[..] == old(desc[..])[h := NoDesc]
        invariant n == 2 ==> free[..] == old(free[..])[h := true][j := true]
        invariant n == 2 ==> desc[..] == old(desc[..])[h := NoDesc][j := NoDesc]
        invariant n == 3 ==> free[..] == old(free[..])[h := true][j := true][k := true]
        invariant n == 3 ==> desc[..] == old(desc[..])[h := NoDesc][j := NoDesc][k := NoDesc]
        invariant 0 < n ==> waiting == {}
        decreases 3 - n
      {
        var flag, nxt := desc[i].flags, desc[i].next;
        FreeDesc(i);
        more := flag % 2 == 1;
        if more {
          i := nxt;
        }
        n := n + 1;
      }
    }

    /** The end of virtio_disk_rw, run whenever the requester wakes: it sleeps again while the device has the
        buffer; otherwise its descriptors are free again and the buffer equals its disk block. A write put
        on the disk exactly what the buffer held when it was submitted. */
    method Finish(h: int) returns (done: bool)
      requires Valid() && 0 <= h < NUM && g.chain[h].Chain? && g.chain[h].buf in bufs
      modifies this, free, desc, info
      ensures Valid() && bufs == old(bufs) && blocks == old(blocks)
      ensures done <==> !bufs[old(g).chain[h].buf].disk
      ensures !done ==> Q() == old(Q()) && g == old(g) && old(g).chain[h].buf in asleep
      ensures done ==> var c := old(g).chain[h];
                && 0 <= c.mid < NUM && 0 <= c.last < NUM
                && Q() == VirtioSteps.Finish(old(Q()), h, c.mid, c.last) && g == FinishGhosts(old(g), h, c.mid, c.last)
                && bufs[c.buf].blockno in blocks && bufs[c.buf].data == blocks[bufs[c.buf].blockno]
                && (c.out ==> blocks[bufs[c.buf].blockno] == c.sent)
    {
      RequestHolds(Q(), g, h);
      ghost var c := g.chain[h];
      if bufs[info[h].b].disk {
        asleep := asleep + {info[h].b};
        return false;
      }
      FinishKeepsInv(Q(), g, h);
      TriplesDisjoint(free[..], g.owner, g.chain, h, h);
      info[h] := info[h].(b := -1);
      FreeChain(h, c.mid, c.last);
      g := FinishGhosts(g, h, c.mid, c.last);
      assert Q() == VirtioSteps.Finish(old(Q()), h, c.mid, c.last);
      done := true;
    }
  }

  lemma IdleHas(q: Queue, g: Ghosts, b: int)
    requires Sizes(q, g) && Idle(q, g, b)
    ensures b in q.bufs
  {
  }

  lemma BlankHolds(q: Queue, g: Ghosts)
    requires Inv(q, g)
    ensures Sizes(q, g) && Blank(q.free, q.desc) && 0 <= q.availIdx < WRAP
  {
  }

  /** A ring never holds more than NUM requests, so equal indices mean that it is empty. */
  lemma RingBound(ring: seq<int>, chain: seq<Chain>, lo: int, hi: int, done: bool)
    requires |ring| == |chain| == NUM && RingOk(ring, chain, lo, hi, done)
    ensures hi - lo <= NUM
  {
    if lo < hi {
      RingPop(ring, chain, lo, hi, done, NoChain);
      RingHasRoom(ring, chain[ring[lo % NUM] := NoChain], lo + 1, hi, done, ring[lo % NUM]);
    }
  }

  lemma NothingUnseen(q: Queue, g: Ghosts)
    requires Inv(q, g)
    ensures |g.chain| == NUM && (q.takenIdx == q.availIdx <==> g.ntaken == g.nsub)
    ensures 0 <= g.nseen <= g.ndone && q.seenIdx == g.nseen % WRAP && q.usedIdx == g.ndone % WRAP
    ensures q.seenIdx == q.usedIdx ==> g.nseen == g.ndone
    ensures g.nseen == g.ndone ==> forall h :: 0 <= h < NUM && g.chain[h].Chain? ==> !g.chain[h].phase.Done?
  {
    RingBound(q.used, g.chain, g.nseen, g.ndone, true);
    RingBound(q.avail, g.chain, g.ntaken, g.nsub, false);
  }

  /** At most two descriptors are free. */
  ghost predicate FewFree(free: seq<bool>) {
    forall i, j, k :: 0 <= i < |free| && 0 <= j < |free| && 0 <= k < |free| && free[i] && free[j] && free[k] ==>
      i == j || i == k || j == k
  }

  /** The descriptors still free once those in `taken` are not. */
  ghost function Without(free: seq<bool>, taken: seq<int>): (r: seq<bool>)
    ensures |r| == |free|
    ensures forall i :: 0 <= i < |free| ==> (r[i] <==> free[i] && i !in taken)
  {
    seq(|free|, i requires 0 <= i < |free| => free[i] && i !in taken)
  }

  ghost predicate TakenFrom(free: seq<bool>, taken: seq<int>) {
    && (forall k :: 0 <= k < |taken| ==> 0 <= taken[k] < |free| && free[taken[k]])
    && (forall k, n :: 0 <= k < n < |taken| ==> taken[k] != taken[n])
  }

  lemma WithoutMore(free: seq<bool>, taken: seq<int>, d: int)
    requires TakenFrom(free, taken) && 0 <= d < |free| && Without(free, taken)[d]
    ensures TakenFrom(free, taken + [d])
    ensures Without(free, taken + [d]) == Without(free, taken)[d := false]
  {
  }

  lemma WithoutFirst(free: seq<bool>, taken: seq<int>)
    requires TakenFrom(free, taken) && 0 < |taken|
    ensures !Without(free, taken)[taken[0]]
    ensures Without(free, taken[1..]) == Without(free, taken)[taken[0] := true]
  {
  }

  lemma NoThree(free: seq<bool>, taken: seq<int>)
    requires |taken| < 3 && forall i :: 0 <= i < |free| ==> !Without(free, taken)[i]
    ensures FewFree(free)
  {
    forall i | 0 <= i < |free| && free[i] ensures 0 < |taken| && (i == taken[0] || i == taken[|taken| - 1]) {
      assert !Without(free, taken)[i];
    }
  }

  lemma AllThree(free: seq<bool>, taken: seq<int>)
    requires |free| == NUM && |taken| == 3 && TakenFrom(free, taken)
    ensures FreeTriple(free, taken[0], taken[1], taken[2]) && !FewFree(free)
    ensures Without(free, taken) == free[taken[0] := false][taken[1] := false][taken[2] := false]
  {
  }
}
