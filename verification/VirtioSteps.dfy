/** What the driver and the device do to the queue, one step at a time, and that every step keeps the
    invariant whatever order the steps come in. */
module VirtioSteps {
  import opened VirtioQueue

  /** Nobody else has a request for the buffer or for its block: bread and bwrite hold the buffer's
      sleep-lock, and the cache has one buffer per block. */
  ghost predicate Idle(q: Queue, g: Ghosts, b: int)
    requires Sizes(q, g)
  {
    && b in q.bufs && q.bufs[b].blockno in q.blocks
    && forall h :: 0 <= h < NUM && g.chain[h].Chain? ==>
         g.chain[h].buf in q.bufs && g.chain[h].buf != b && q.bufs[g.chain[h].buf].blockno != q.bufs[b].blockno
  }

  /** virtio_disk_rw up to the notification, once it has descriptors i, j and k. */
  ghost function Submit(q: Queue, i: int, j: int, k: int, b: int, out: bool): Queue
    requires |q.desc| == |q.ops| == |q.info| == |q.avail| == NUM && FreeTriple(q.free, i, j, k) && b in q.bufs
  {
    q.(free := q.free[i := false][j := false][k := false],
       ops := q.ops[i := Op(out, q.bufs[b].blockno * 2)],
       desc := q.desc[i := Desc(OpAddr(i), 16, NEXT, j)]
                     [j := Desc(DataAddr(b), BSIZE, if out then NEXT else NEXT + WRITE, k)]
                     [k := Desc(StatusAddr(i), 1, WRITE, 0)],
       info := q.info[i := Info(b, 0xff)],
       bufs := q.bufs[b := q.bufs[b].(disk := true)],
       avail := q.avail[q.availIdx % NUM := i],
       availIdx := (q.availIdx + 1) % WRAP)
  }

  ghost function SubmitGhosts(q: Queue, g: Ghosts, i: int, j: int, k: int, b: int, out: bool): Ghosts
    requires Sizes(q, g) && FreeTriple(q.free, i, j, k) && b in q.bufs
  {
    g.(owner := g.owner[i := i][j := i][k := i],
       chain := g.chain[i := Chain(j, k, b, out, q.bufs[b].data, Submitted(g.nsub))],
       nsub := g.nsub + 1)
  }

  /** What a request depends on besides itself. */
  ghost predicate SameFor(q: Queue, q': Queue, h: int, c: Chain)
    requires |q.desc| == |q.ops| == |q.info| == |q'.desc| == |q'.ops| == |q'.info| == NUM
    requires 0 <= h < NUM && c.Chain? && 0 <= c.mid < NUM && 0 <= c.last < NUM
  {
    && q'.desc[h] == q.desc[h] && q'.desc[c.mid] == q.desc[c.mid] && q'.desc[c.last] == q.desc[c.last]
    && q'.ops[h] == q.ops[h] && q'.info[h].b == q.info[h].b
    && c.buf in q.bufs && c.buf in q'.bufs && q'.bufs[c.buf] == q.bufs[c.buf]
    && q.bufs[c.buf].blockno in q.blocks && q.bufs[c.buf].blockno in q'.blocks
    && q'.blocks[q.bufs[c.buf].blockno] == q.blocks[q.bufs[c.buf].blockno]
  }

  /** A step that concerns one request leaves the others as they are. */
  lemma OthersKeep(q: Queue, q': Queue, chain: seq<Chain>, h: int, c: Chain)
    requires |q.desc| == |q.ops| == |q.info| == |q'.desc| == |q'.ops| == |q'.info| == |chain| == NUM
    requires 0 <= h < NUM && RequestsOk(q, chain)
    requires forall k :: 0 <= k < NUM && k != h && chain[k].Chain? ==> SameFor(q, q', k, chain[k])
    requires c.Chain? ==> RequestOk(q', h, c)
    requires c.Chain? ==> forall k :: 0 <= k < NUM && k != h && chain[k].Chain? ==> Apart(q'.bufs, c, chain[k])
    ensures RequestsOk(q', chain[h := c])
  {
    var chain' := chain[h := c];
    forall k | 0 <= k < NUM && chain'[k].Chain? ensures RequestOk(q', k, chain'[k]) {
      if k != h {
        assert SameFor(q, q', k, chain[k]);
        assert RequestOk(q, k, chain[k]);
      }
    }
    forall j, k | 0 <= j < k < NUM && chain'[j].Chain? && chain'[k].Chain?
      ensures Apart(q'.bufs, chain'[j], chain'[k])
    {
      if j == h {
        assert Apart(q'.bufs, c, chain[k]);
      } else if k == h {
        assert Apart(q'.bufs, c, chain[j]);
      } else {
        assert Apart(q.bufs, chain[j], chain[k]);
        assert SameFor(q, q', j, chain[j]) && SameFor(q, q', k, chain[k]);
      }
    }
  }

  /** Descriptors of different requests are different. */
  lemma TriplesDisjoint(free: seq<bool>, owner: seq<int>, chain: seq<Chain>, h: int, k: int)
    requires |free| == |owner| == |chain| == NUM && OwnersOk(free, owner, chain)
    requires 0 <= h < NUM && 0 <= k < NUM && chain[h].Chain? && chain[k].Chain?
    ensures Owns(owner, h, chain[h]) && !free[h] && !free[chain[h].mid] && !free[chain[h].last]
    ensures h != k ==> {h, chain[h].mid, chain[h].last} !! {k, chain[k].mid, chain[k].last}
  {
    assert Owns(owner, h, chain[h]) && Owns(owner, k, chain[k]);
  }

  lemma SubmitKeepsRequests(q: Queue, g: Ghosts, i: int, j: int, k: int, b: int, out: bool)
    requires Inv(q, g) && FreeTriple(q.free, i, j, k) && Idle(q, g, b)
    ensures RequestsOk(Submit(q, i, j, k, b, out), SubmitGhosts(q, g, i, j, k, b, out).chain)
  {
    var q' := Submit(q, i, j, k, b, out);
    var c := Chain(j, k, b, out, q.bufs[b].data, Submitted(g.nsub));
    forall n | 0 <= n < NUM && n != i && g.chain[n].Chain?
      ensures 0 <= g.chain[n].mid < NUM && 0 <= g.chain[n].last < NUM
      ensures SameFor(q, q', n, g.chain[n]) && Apart(q'.bufs, c, g.chain[n])
    {
      TriplesDisjoint(q.free, g.owner, g.chain, n, n);
      assert RequestOk(q, n, g.chain[n]);
    }
    OthersKeep(q, q', g.chain, i, c);
  }

  lemma SubmitKeepsInv(q: Queue, g: Ghosts, i: int, j: int, k: int, b: int, out: bool)
    requires Inv(q, g) && FreeTriple(q.free, i, j, k) && Idle(q, g, b)
    ensures Inv(Submit(q, i, j, k, b, out), SubmitGhosts(q, g, i, j, k, b, out))
    ensures g.nsub - g.ntaken < NUM
  {
    hide OwnersOk, RequestsOk, RingOk;
    var c := Chain(j, k, b, out, q.bufs[b].data, Submitted(g.nsub));
    SubmitKeepsRequests(q, g, i, j, k, b, out);
    ClaimKeepsOwners(q.free, g.owner, g.chain, i, c);
    FreeHasNoChain(q.free, g.owner, g.chain, i);
    RingPush(q.avail, g.chain, g.ntaken, g.nsub, false, i, c);
    RingKeep(q.used, g.chain, g.nseen, g.ndone, true, i, c);
    RingBounds(q, g);
    Counter(g.nsub);
  }

  lemma FreeHasNoChain(free: seq<bool>, owner: seq<int>, chain: seq<Chain>, i: int)
    requires |free| == |owner| == |chain| == NUM && OwnersOk(free, owner, chain)
    requires 0 <= i < NUM && free[i]
    ensures chain[i] == NoChain
  {
    assert chain[i].Chain? ==> Owns(owner, i, chain[i]);
  }

  lemma RingBounds(q: Queue, g: Ghosts)
    requires Inv(q, g)
    ensures 0 <= g.ntaken <= g.nsub && 0 <= g.nseen <= g.ndone
  {
  }

  // ---------------------------------------------------------------- the device takes a request

  ghost function Take(q: Queue): Queue {
    q.(takenIdx := (q.takenIdx + 1) % WRAP)
  }

  ghost function TakeGhosts(g: Ghosts, h: int): Ghosts
    requires |g.chain| == NUM && 0 <= h < NUM && g.chain[h].Chain?
  {
    g.(chain := g.chain[h := g.chain[h].(phase := Taken)], ntaken := g.ntaken + 1)
  }

  /** The entry at the device's position was put there for a request still waiting to be taken. */
  lemma NextSubmitted(q: Queue, g: Ghosts)
    requires Inv(q, g) && q.takenIdx != q.availIdx
    ensures 0 <= g.ntaken < g.nsub && 0 <= q.takenIdx
    ensures OnRing(q.avail, g.chain, g.ntaken, Submitted(g.ntaken))
    ensures q.takenIdx % NUM == g.ntaken % NUM
  {
    Counter(g.ntaken);
    assert OnRing(q.avail, g.chain, g.ntaken, At(false, g.ntaken));
  }

  lemma TakeKeepsInv(q: Queue, g: Ghosts, h: int)
    requires Inv(q, g) && q.takenIdx != q.availIdx && 0 <= q.takenIdx && h == q.avail[q.takenIdx % NUM]
    ensures 0 <= h < NUM && g.chain[h].Chain? && g.chain[h].phase.Submitted?
    ensures Inv(Take(q), TakeGhosts(g, h))
  {
    hide OwnersOk, RequestsOk, RingOk;
    NextSubmitted(q, g);
    var c := g.chain[h].(phase := Taken);
    PhaseKeepsOwners(q.free, g.owner, g.chain, h, Taken);
    RingPop(q.avail, g.chain, g.ntaken, g.nsub, false, c);
    RingKeep(q.used, g.chain, g.nseen, g.ndone, true, h, c);
    TakeKeepsRequests(q, g, h);
    Counter(g.ntaken);
  }

  lemma PhaseKeepsOwners(free: seq<bool>, owner: seq<int>, chain: seq<Chain>, h: int, p: Phase)
    requires |free| == |owner| == |chain| == NUM && OwnersOk(free, owner, chain)
    requires 0 <= h < NUM && chain[h].Chain?
    ensures OwnersOk(free, owner, chain[h := chain[h].(phase := p)])
  {
    forall i | 0 <= i < NUM && chain[i].Chain? ensures Owns(owner, i, chain[i := chain[i].(phase := p)][i]) {
      assert Owns(owner, i, chain[i]);
    }
  }

  lemma TakeKeepsRequests(q: Queue, g: Ghosts, h: int)
    requires Sizes(q, g) && RequestsOk(q, g.chain)
    requires 0 <= h < NUM && g.chain[h].Chain? && g.chain[h].phase.Submitted?
    ensures RequestsOk(Take(q), g.chain[h := g.chain[h].(phase := Taken)])
  {
    assert RequestOk(q, h, g.chain[h]);
    SameForAll(q, Take(q), g.chain, h);
    OthersKeep(q, Take(q), g.chain, h, g.chain[h].(phase := Taken));
  }

  /** A step that writes no descriptor, header, buffer or block. */
  lemma SameForAll(q: Queue, q': Queue, chain: seq<Chain>, h: int)
    requires |q.desc| == |q.ops| == |q.info| == |q'.desc| == |q'.ops| == |q'.info| == |chain| == NUM
    requires 0 <= h < NUM && RequestsOk(q, chain) && chain[h].Chain? && RequestOk(q, h, chain[h])
    requires q'.desc == q.desc && q'.ops == q.ops && q'.info[h].b == q.info[h].b
    requires forall k :: 0 <= k < NUM && k != h ==> q'.info[k] == q.info[k]
    requires forall b :: b in q.bufs && b != chain[h].buf ==> b in q'.bufs && q'.bufs[b] == q.bufs[b]
    requires chain[h].buf in q'.bufs && q'.bufs[chain[h].buf].blockno == q.bufs[chain[h].buf].blockno
    requires forall n :: n in q.blocks && n != q.bufs[chain[h].buf].blockno ==>
               n in q'.blocks && q'.blocks[n] == q.blocks[n]
    ensures forall k :: 0 <= k < NUM && k != h && chain[k].Chain? ==>
              && 0 <= chain[k].mid < NUM && 0 <= chain[k].last < NUM
              && SameFor(q, q', k, chain[k]) && Apart(q'.bufs, chain[h], chain[k])
  {
    forall k | 0 <= k < NUM && k != h && chain[k].Chain?
      ensures 0 <= chain[k].mid < NUM && 0 <= chain[k].last < NUM
      ensures SameFor(q, q', k, chain[k]) && Apart(q'.bufs, chain[h], chain[k])
    {
      assert RequestOk(q, k, chain[k]);
      assert if h < k then Apart(q.bufs, chain[h], chain[k]) else Apart(q.bufs, chain[k], chain[h]);
    }
  }

  // ---------------------------------------------------------------- the device serves a request

  /** The chain that starts at h reads as a block request (section 5.2.6 of VIRTIO 1.1). */
  ghost predicate Readable(q: Queue, h: int) {
    && |q.desc| == |q.ops| == |q.info| == |q.used| == NUM && 0 <= h < NUM
    && q.desc[h].addr.OpAddr? && 0 <= q.desc[h].addr.i < NUM && 0 <= q.desc[h].next < NUM
    && var d := q.desc[q.desc[h].next];
    && d.addr.DataAddr? && d.addr.b in q.bufs && 0 <= d.next < NUM
    && q.desc[d.next].addr.StatusAddr? && 0 <= q.desc[d.next].addr.i < NUM
    && q.ops[q.desc[h].addr.i].sector / 2 in q.blocks
  }

  /** The device moves the block, writes the status and puts the head on the used ring. */
  ghost function Serve(q: Queue, h: int): Queue
    requires Readable(q, h)
  {
    var op := q.ops[q.desc[h].addr.i];
    var d := q.desc[q.desc[h].next];
    var status := q.desc[d.next].addr.i;
    var n, b := op.sector / 2, d.addr.b;
    q.(blocks := if op.out then q.blocks[n := q.bufs[b].data] else q.blocks,
       bufs := if op.out then q.bufs else q.bufs[b := q.bufs[b].(data := q.blocks[n])],
       info := q.info[status := q.info[status].(status := 0)],
       used := q.used[q.usedIdx % NUM := h],
       usedIdx := (q.usedIdx + 1) % WRAP)
  }

  ghost function ServeGhosts(g: Ghosts, h: int): Ghosts
    requires |g.chain| == NUM && 0 <= h < NUM && g.chain[h].Chain?
  {
    g.(chain := g.chain[h := g.chain[h].(phase := Done(g.ndone))], ndone := g.ndone + 1)
  }

  lemma RequestIsReadable(q: Queue, g: Ghosts, h: int)
    requires Sizes(q, g) && 0 <= h < NUM && g.chain[h].Chain? && RequestOk(q, h, g.chain[h])
    ensures Readable(q, h)
    ensures var c, n := g.chain[h], q.bufs[g.chain[h].buf].blockno;
            && Serve(q, h).blocks == (if c.out then q.blocks[n := q.bufs[c.buf].data] else q.blocks)
            && Serve(q, h).bufs == (if c.out then q.bufs else q.bufs[c.buf := q.bufs[c.buf].(data := q.blocks[n])])
            && Serve(q, h).info == q.info[h := q.info[h].(status := 0)]
  {
  }

  lemma ServeKeepsRequests(q: Queue, g: Ghosts, h: int)
    requires Sizes(q, g) && RequestsOk(q, g.chain)
    requires 0 <= h < NUM && g.chain[h].Chain? && g.chain[h].phase == Taken
    ensures Readable(q, h) && RequestsOk(Serve(q, h), ServeGhosts(g, h).chain)
  {
    assert RequestOk(q, h, g.chain[h]);
    RequestIsReadable(q, g, h);
    SameForAll(q, Serve(q, h), g.chain, h);
    OthersKeep(q, Serve(q, h), g.chain, h, g.chain[h].(phase := Done(g.ndone)));
  }

  lemma ServeKeepsInv(q: Queue, g: Ghosts, h: int)
    requires Inv(q, g) && 0 <= h < NUM && g.chain[h].Chain? && g.chain[h].phase == Taken
    ensures Readable(q, h) && Inv(Serve(q, h), ServeGhosts(g, h))
    ensures g.ndone - g.nseen < NUM
  {
    hide OwnersOk, RequestsOk, RingOk;
    var c := g.chain[h].(phase := Done(g.ndone));
    ServeKeepsRequests(q, g, h);
    PhaseKeepsOwners(q.free, g.owner, g.chain, h, c.phase);
    RingPush(q.used, g.chain, g.nseen, g.ndone, true, h, c);
    RingKeep(q.avail, g.chain, g.ntaken, g.nsub, false, h, c);
    RingBounds(q, g);
    Counter(g.ndone);
    RequestHolds(q, g, h);
    RequestIsReadable(q, g, h);
  }

  lemma RequestHolds(q: Queue, g: Ghosts, h: int)
    requires Sizes(q, g) && RequestsOk(q, g.chain) && 0 <= h < NUM && g.chain[h].Chain?
    ensures RequestOk(q, h, g.chain[h])
  {
  }

  // ---------------------------------------------------------------- the interrupt handler sees a request

  /** One turn of virtio_disk_intr's loop. */
  ghost function See(q: Queue, id: int): Queue
    requires |q.info| == NUM && 0 <= id < NUM && q.info[id].b in q.bufs
  {
    q.(bufs := q.bufs[q.info[id].b := q.bufs[q.info[id].b].(disk := false)],
       seenIdx := (q.seenIdx + 1) % WRAP)
  }

  ghost function SeeGhosts(g: Ghosts, h: int): Ghosts
    requires |g.chain| == NUM && 0 <= h < NUM && g.chain[h].Chain?
  {
    g.(chain := g.chain[h := g.chain[h].(phase := Seen)], nseen := g.nseen + 1)
  }

  /** What the handler finds at its position: a request that is done, with status 0 and its own buffer. */
  lemma NextDone(q: Queue, g: Ghosts)
    requires Inv(q, g) && q.seenIdx != q.usedIdx
    ensures 0 <= g.nseen < g.ndone && 0 <= q.seenIdx
    ensures OnRing(q.used, g.chain, g.nseen, Done(g.nseen))
    ensures q.seenIdx % NUM == g.nseen % NUM
    ensures var id := q.used[q.seenIdx % NUM];
            q.info[id].status == 0 && q.info[id].b == g.chain[id].buf && q.info[id].b in q.bufs
  {
    Counter(g.nseen);
    assert OnRing(q.used, g.chain, g.nseen, At(true, g.nseen));
    RequestHolds(q, g, q.used[g.nseen % NUM]);
  }

  lemma SeeKeepsInv(q: Queue, g: Ghosts, h: int)
    requires Inv(q, g) && q.seenIdx != q.usedIdx && 0 <= q.seenIdx && h == q.used[q.seenIdx % NUM]
    ensures 0 <= h < NUM && g.chain[h].Chain? && g.chain[h].phase.Done? && q.info[h].b in q.bufs
    ensures Inv(See(q, h), SeeGhosts(g, h))
  {
    hide OwnersOk, RequestsOk, RingOk;
    NextDone(q, g);
    var c := g.chain[h].(phase := Seen);
    PhaseKeepsOwners(q.free, g.owner, g.chain, h, Seen);
    RingPop(q.used, g.chain, g.nseen, g.ndone, true, c);
    RingKeep(q.avail, g.chain, g.ntaken, g.nsub, false, h, c);
    SeeKeepsRequests(q, g, h);
    Counter(g.nseen);
  }

  lemma SeeKeepsRequests(q: Queue, g: Ghosts, h: int)
    requires Sizes(q, g) && RequestsOk(q, g.chain)
    requires 0 <= h < NUM && g.chain[h].Chain? && g.chain[h].phase.Done? && q.info[h].b in q.bufs
    ensures RequestsOk(See(q, h), g.chain[h := g.chain[h].(phase := Seen)])
  {
    assert RequestOk(q, h, g.chain[h]);
    SameForAll(q, See(q, h), g.chain, h);
    OthersKeep(q, See(q, h), g.chain, h, g.chain[h].(phase := Seen));
  }

  // ---------------------------------------------------------------- the requester frees its chain

  /** The end of virtio_disk_rw. */
  ghost function Finish(q: Queue, h: int, j: int, k: int): Queue
    requires |q.free| == |q.desc| == |q.info| == NUM && 0 <= h < NUM && 0 <= j < NUM && 0 <= k < NUM
  {
    q.(info := q.info[h := q.info[h].(b := -1)],
       desc := q.desc[h := NoDesc][j := NoDesc][k := NoDesc],
       free := q.free[h := true][j := true][k := true])
  }

  ghost function FinishGhosts(g: Ghosts, h: int, j: int, k: int): Ghosts
    requires |g.owner| == |g.chain| == NUM && 0 <= h < NUM && 0 <= j < NUM && 0 <= k < NUM
  {
    g.(chain := g.chain[h := NoChain], owner := g.owner[h := -1][j := -1][k := -1])
  }

  lemma FinishKeepsInv(q: Queue, g: Ghosts, h: int)
    requires Inv(q, g) && 0 <= h < NUM && g.chain[h].Chain? && g.chain[h].phase == Seen
    ensures Owns(g.owner, h, g.chain[h])
    ensures Inv(Finish(q, h, g.chain[h].mid, g.chain[h].last), FinishGhosts(g, h, g.chain[h].mid, g.chain[h].last))
  {
    hide OwnersOk, RequestsOk, RingOk;
    DropKeepsOwners(q.free, g.owner, g.chain, h);
    RingKeep(q.used, g.chain, g.nseen, g.ndone, true, h, NoChain);
    RingKeep(q.avail, g.chain, g.ntaken, g.nsub, false, h, NoChain);
    FinishKeepsRequests(q, g, h);
  }

  lemma FinishKeepsRequests(q: Queue, g: Ghosts, h: int)
    requires Inv(q, g) && 0 <= h < NUM && g.chain[h].Chain? && g.chain[h].phase == Seen && Owns(g.owner, h, g.chain[h])
    ensures RequestsOk(Finish(q, h, g.chain[h].mid, g.chain[h].last), g.chain[h := NoChain])
  {
    var q' := Finish(q, h, g.chain[h].mid, g.chain[h].last);
    forall n | 0 <= n < NUM && n != h && g.chain[n].Chain?
      ensures 0 <= g.chain[n].mid < NUM && 0 <= g.chain[n].last < NUM && SameFor(q, q', n, g.chain[n])
    {
      TriplesDisjoint(q.free, g.owner, g.chain, n, h);
      assert RequestOk(q, n, g.chain[n]);
    }
    OthersKeep(q, q', g.chain, h, NoChain);
  }

  // ---------------------------------------------------------------- what follows

  /** Once every request has returned, all descriptors are free; while one is in flight, its three are not. */
  lemma AllFreeWhenIdle(q: Queue, g: Ghosts)
    requires Inv(q, g)
    ensures (forall i :: 0 <= i < NUM ==> q.free[i]) <==> (forall h :: 0 <= h < NUM ==> g.chain[h] == NoChain)
  {
    forall h | 0 <= h < NUM && g.chain[h].Chain? ensures !q.free[h] {
      assert Owns(g.owner, h, g.chain[h]);
    }
  }
}
