/** kernel/bio.c: the buffer cache. Every method is one section under bcache.lock, or one step of a process
    that holds the buffer's sleep-lock; any others may come between two calls. */
module Bio {
  import opened Basics
  import opened BufList
  import LogMachine

  const LOGBLOCKS := LogMachine.LOGBLOCKS
  const ROOTDEV := 1

  datatype Block = Block(dev: int, blockno: int)
  datatype Buf = Buf(dev: int, blockno: int, refcnt: int, valid: bool, locked: bool, data: seq<int>)

  /** How a buffer is used: by how many processes between bget and brelse, and whether the current transaction has
      it pinned. */
  datatype Use = Use(users: int, pinned: bool)

  /** Two buffers never hold the same block (of a device other than 0, which is what unused buffers name). */
  ghost predicate CacheOk(bufs: seq<Buf>, uses: seq<Use>) {
    && |bufs| == |uses| == NBUF
    && (forall i :: 0 <= i < NBUF ==> BufOk(bufs[i], uses[i]))
    && (forall i, j :: 0 <= i < j < NBUF && bufs[i].dev != 0 ==>
       bufs[i].dev != bufs[j].dev || bufs[i].blockno != bufs[j].blockno)
  }

  /** Every reference is a user's or the transaction's. */
  ghost predicate BufOk(b: Buf, u: Use) {
    && 0 <= u.users && b.refcnt == u.users + (if u.pinned then 1 else 0)
    && (b.locked ==> 0 < u.users) && (u.pinned ==> b.valid && b.dev != 0)
  }

  ghost predicate Agrees(b: Buf, disk: map<Block, seq<int>>) {
    Block(b.dev, b.blockno) in disk && b.data == disk[Block(b.dev, b.blockno)]
  }

  lemma SameData(x: Buf, y: Buf, disk: map<Block, seq<int>>)
    requires x.dev == y.dev && x.blockno == y.blockno && x.data == y.data
    ensures Agrees(x, disk) <==> Agrees(y, disk)
  {
  }

  /** Every valid buffer that nobody has locked and that is not of the transaction agrees with the disk. */
  ghost predicate Coherent(bufs: seq<Buf>, uses: seq<Use>, disk: map<Block, seq<int>>) {
    |bufs| == |uses| && forall i :: 0 <= i < |bufs| ==> InOrder(bufs[i], uses[i], disk)
  }

  ghost predicate InOrder(b: Buf, u: Use, disk: map<Block, seq<int>>) {
    b.valid && b.dev != 0 && !b.locked && !u.pinned ==> Agrees(b, disk)
  }

  /** When one buffer changes, and the disk at most at its block, only that buffer matters. */
  lemma CoherentStep(bufs: seq<Buf>, uses: seq<Use>, disk: map<Block, seq<int>>, disk': map<Block, seq<int>>, b: int,
                     x: Buf, u: Use)
    requires CacheOk(bufs, uses) && 0 <= b < NBUF
    requires disk' == disk || (x.dev == bufs[b].dev != 0 && x.blockno == bufs[b].blockno)
    requires forall k :: k in disk && k != Block(x.dev, x.blockno) ==> k in disk' && disk'[k] == disk[k]
    ensures Coherent(bufs, uses, disk) ==> (Coherent(bufs[b := x], uses[b := u], disk') <==> InOrder(x, u, disk'))
  {
    var bufs', uses' := bufs[b := x], uses[b := u];
    assert bufs'[b] == x && uses'[b] == u;
    if Coherent(bufs, uses, disk) && InOrder(x, u, disk') {
      forall i | 0 <= i < |bufs'| ensures InOrder(bufs'[i], uses'[i], disk') {
        assert InOrder(bufs[i], uses[i], disk);
      }
    }
  }

  /** A change of one buffer that does not matter. */
  lemma CoherentSame(bufs: seq<Buf>, uses: seq<Use>, disk: map<Block, seq<int>>, b: int, x: Buf, u: Use)
    requires |bufs| == |uses| && 0 <= b < |bufs| && (InOrder(x, u, disk) <==> InOrder(bufs[b], uses[b], disk))
    ensures Coherent(bufs[b := x], uses[b := u], disk) <==> Coherent(bufs, uses, disk)
  {
    var bufs', uses' := bufs[b := x], uses[b := u];
    forall i | 0 <= i < |bufs| ensures InOrder(bufs'[i], uses'[i], disk) <==> InOrder(bufs[i], uses[i], disk) {
    }
  }

  /** Pins and the entries of the header that are still to be installed go one to one. */
  ghost predicate PinsOk(pins: seq<int>, uses: seq<Use>, bufs: seq<Buf>, header: seq<int>) {
    && |uses| == |bufs| == NBUF && |pins| == |header| && Distinct(pins)
    && (forall k :: 0 <= k < |pins| ==> PinAt(pins[k], uses, bufs, header[k]))
    && (forall b :: 0 <= b < NBUF && uses[b].pinned ==> b in pins)
  }

  ghost predicate PinAt(b: int, uses: seq<Use>, bufs: seq<Buf>, blockno: int)
    requires |uses| == |bufs| == NBUF
  {
    0 <= b < NBUF && uses[b].pinned && bufs[b].dev == ROOTDEV && bufs[b].blockno == blockno
  }

  /** The list is in the order of the last release, the latest first. */
  ghost predicate Sorted(ring: seq<int>, stamp: seq<int>, clock: int) {
    && |stamp| == NBUF
    && (forall i :: 1 <= i < |ring| ==> 0 <= ring[i] < NBUF)
    && (forall i, j :: 1 <= i < j < |ring| ==> stamp[ring[i]] > stamp[ring[j]])
    && (forall b :: 0 <= b < NBUF ==> stamp[b] <= clock)
  }

  /** A step that changes one buffer. */
  lemma OneBuffer(bufs: seq<Buf>, uses: seq<Use>, b: int, x: Buf, u: Use)
    requires CacheOk(bufs, uses) && 0 <= b < NBUF && BufOk(x, u)
    requires x.dev != 0 ==> forall i :: 0 <= i < NBUF && i != b ==> bufs[i].dev != x.dev || bufs[i].blockno != x.blockno
    ensures CacheOk(bufs[b := x], uses[b := u])
  {
    var bufs', uses' := bufs[b := x], uses[b := u];
    forall i | 0 <= i < NBUF ensures BufOk(bufs'[i], uses'[i]) {
      assert i != b ==> BufOk(bufs[i], uses[i]);
    }
  }

  lemma NothingCached(bufs: seq<Buf>, uses: seq<Use>, disk: map<Block, seq<int>>)
    requires |bufs| == |uses| == NBUF
    requires forall i :: 0 <= i < NBUF ==> bufs[i] == Buf(0, 0, 0, false, false, []) && uses[i] == Use(0, false)
    ensures CacheOk(bufs, uses) && PinsOk([], uses, bufs, []) && Coherent(bufs, uses, disk)
  {
  }

  /** A step that leaves the pins alone. */
  lemma SamePins(pins: seq<int>, uses: seq<Use>, bufs: seq<Buf>, header: seq<int>, b: int, x: Buf, u: Use)
    requires PinsOk(pins, uses, bufs, header) && 0 <= b < NBUF && u.pinned == uses[b].pinned
    requires u.pinned ==> x.dev == bufs[b].dev && x.blockno == bufs[b].blockno
    ensures PinsOk(pins, uses[b := u], bufs[b := x], header)
  {
    forall k | 0 <= k < |pins| ensures PinAt(pins[k], uses[b := u], bufs[b := x], header[k]) {
      assert PinAt(pins[k], uses, bufs, header[k]);
    }
  }

  lemma PinMore(pins: seq<int>, uses: seq<Use>, bufs: seq<Buf>, header: seq<int>, b: int, x: Buf, u: Use)
    requires PinsOk(pins, uses, bufs, header) && 0 <= b < NBUF && !uses[b].pinned
    requires u.pinned && x.dev == ROOTDEV
    ensures PinsOk(pins + [b], uses[b := u], bufs[b := x], header + [x.blockno])
  {
    forall k | 0 <= k < |pins| ensures PinAt(pins[k], uses[b := u], bufs[b := x], header[k]) {
      assert PinAt(pins[k], uses, bufs, header[k]);
    }
  }

  lemma UnpinFirst(pins: seq<int>, uses: seq<Use>, bufs: seq<Buf>, header: seq<int>, x: Buf, u: Use)
    requires PinsOk(pins, uses, bufs, header) && pins != [] && 0 <= pins[0] < NBUF && !u.pinned
    ensures PinsOk(pins[1..], uses[pins[0] := u], bufs[pins[0] := x], header[1..])
  {
    var b := pins[0];
    forall k | 1 <= k < |pins| ensures PinAt(pins[k], uses[b := u], bufs[b := x], header[k]) {
      assert PinAt(pins[k], uses, bufs, header[k]);
    }
    forall c | 0 <= c < NBUF && uses[b := u][c].pinned ensures c in pins[1..] {
      var k :| 0 <= k < |pins| && pins[k] == c;
      assert pins[1..][k - 1] == c;
    }
  }

  ghost function InUseUnpinned(bufs: seq<Buf>, uses: seq<Use>): (held: set<int>)
    requires |bufs| == NBUF == |uses|
    ensures forall b: int :: b in held <==> 0 <= b < NBUF && bufs[b].refcnt != 0 && !uses[b].pinned
  {
    set b: int | 0 <= b < NBUF && bufs[b].refcnt != 0 && !uses[b].pinned
  }

  /** One buffer, free before, has come into use. */
  lemma OneMore(bufs: seq<Buf>, uses: seq<Use>, bufs': seq<Buf>, uses': seq<Use>, b: int)
    requires |bufs| == |uses| == |bufs'| == |uses'| == NBUF && 0 <= b < NBUF
    requires bufs[b].refcnt == 0 && bufs'[b].refcnt != 0
    requires forall i :: 0 <= i < NBUF && i != b ==> bufs'[i] == bufs[i] && uses'[i] == uses[i]
    ensures InUseUnpinned(bufs', uses') == InUseUnpinned(bufs, uses) + if uses'[b].pinned then {} else {b}
    ensures b !in InUseUnpinned(bufs, uses)
  {
    var held, held' := InUseUnpinned(bufs, uses), InUseUnpinned(bufs', uses');
    hide InUseUnpinned;
    forall i: int ensures i in held' <==> i in held + if uses'[b].pinned then {} else {b} {
      if 0 <= i < NBUF && i != b {
        assert bufs'[i] == bufs[i] && uses'[i] == uses[i];
      }
    }
  }

  /** All buffers are in use if and only if the pinned ones and the others in use are NBUF. */
  lemma InUse(bufs: seq<Buf>, uses: seq<Use>, pins: seq<int>, header: seq<int>, held: set<int>)
    requires CacheOk(bufs, uses) && PinsOk(pins, uses, bufs, header)
    requires forall b: int :: b in held <==> 0 <= b < NBUF && bufs[b].refcnt != 0 && !uses[b].pinned
    ensures |pins| + |held| <= NBUF
    ensures |pins| + |held| == NBUF <==> forall b :: 0 <= b < NBUF ==> bufs[b].refcnt != 0
  {
    hide Below;
    var pinned := set b | b in pins;
    DistinctSize(pins);
    var all := Below(NBUF);
    forall b: int | b in pinned ensures b in all && uses[b].pinned && bufs[b].refcnt != 0 {
      var k :| 0 <= k < |pins| && pins[k] == b;
      assert PinAt(pins[k], uses, bufs, header[k]) && BufOk(bufs[b], uses[b]);
    }
    assert pinned !! held;
    assert |pinned + held| == |pins| + |held|;
    SubsetSize(pinned + held, all);
    if forall b :: 0 <= b < NBUF ==> bufs[b].refcnt != 0 {
      forall b: int | b in all ensures b in pinned + held {
      }
      SubsetSize(all, pinned + held);
    }
    if |pins| + |held| == NBUF {
      forall b | 0 <= b < NBUF ensures bufs[b].refcnt != 0 {
        assert b in pinned + held;
      }
    }
  }

  lemma SortedFront(ring: seq<int>, stamp: seq<int>, clock: int, b: int, p: int)
    requires Sorted(ring, stamp, clock) && 0 <= b < NBUF && 1 <= p < |ring| && ring[p] == b && ring[0] == HEAD
    requires forall i :: 0 <= i < |ring| && i != p ==> ring[i] != b
    ensures Sorted(AtFront(Without(ring, p), b), stamp[b := clock + 1], clock + 1)
  {
    var r := AtFront(Without(ring, p), b);
    forall i | 2 <= i < |r| ensures r[i] == (if i - 1 < p then ring[i - 1] else ring[i]) {
    }
  }

  lemma SortedNodes(ring: seq<int>, stamp: seq<int>, clock: int)
    requires Sorted(ring, stamp, clock)
    ensures |stamp| == NBUF && forall i :: 1 <= i < |ring| ==> 0 <= ring[i] < NBUF
  {
  }

  /** The last buffer on the list that nobody uses was released before all others that nobody uses. */
  lemma OldestFree(bufs: seq<Buf>, ring: seq<int>, pos: seq<int>, stamp: seq<int>, clock: int, n: int)
    requires |bufs| == NBUF && |pos| == NBUF + 1 && ring != [] && ring[0] == HEAD && Full(ring, pos) &&
             Sorted(ring, stamp, clock)
    requires 0 <= n < |ring| && forall i :: n < i < |ring| ==> bufs[ring[i]].refcnt != 0
    ensures 1 <= n ==> forall b :: 0 <= b < NBUF && bufs[b].refcnt == 0 ==> stamp[ring[n]] <= stamp[b]
    ensures n == 0 ==> forall b :: 0 <= b < NBUF ==> bufs[b].refcnt != 0
  {
    forall b | 0 <= b < NBUF && bufs[b].refcnt == 0 ensures 1 <= pos[b] <= n && ring[pos[b]] == b {
    }
  }

  class BufferCache {
    const bufs: array<Buf>
    const next: array<int>
    const prev: array<int>
    var disk: map<Block, seq<int>>
    ghost var disks: seq<map<Block, seq<int>>>   // the disk after each bwrite so far
    ghost var ring: seq<int>
    ghost var pos: seq<int>
    ghost var stamp: seq<int>
    ghost var clock: int
    ghost var uses: seq<Use>
    var header: seq<int>              // log.lh: the blocks of the current transaction
    ghost var installed: nat          // how many of them install_trans has unpinned
    ghost var pins: seq<int>          // the buffers of the others

    ghost predicate ListOk()
      reads this`ring, this`pos, this`stamp, this`clock, next, prev
    {
      && next.Length == prev.Length == NBUF + 1 && next != prev
      && Linked(next[..], prev[..], ring, pos) && Full(ring, pos) && Sorted(ring, stamp, clock)
    }

    ghost predicate Valid()
      reads this, bufs, next, prev
    {
      && ListOk() && bufs.Length == NBUF && CacheOk(bufs[..], uses)
      && |uses| == NBUF && installed <= |header| && PinsOk(pins, uses, bufs[..], header[installed..])
    }

    /** What the cache is for: no buffer differs from its disk block behind the back of lock and log. */
    ghost predicate NoStrays()
      reads this, bufs
    {
      Coherent(bufs[..], uses, disk)
    }

    /** binit: each buffer in turn goes to the front of the list. */
    constructor (d: map<Block, seq<int>>)
      ensures Valid() && NoStrays() && disk == d && fresh(bufs) && fresh(next) && fresh(prev)
      ensures forall i :: 0 <= i < NBUF ==> bufs[i] == Buf(0, 0, 0, false, false, []) && uses[i] == Use(0, false)
      ensures header == [] && installed == 0 && disks == []
    {
      bufs := new Buf[NBUF](i => Buf(0, 0, 0, false, false, []));
      next := new int[NBUF + 1](i => HEAD);
      prev := new int[NBUF + 1](i => HEAD);
      disk, ring, pos, clock := d, [HEAD], seq(NBUF + 1, i => 0), 0;
      stamp, uses := seq(NBUF, i => 0), seq(NBUF, i => Use(0, false));
      header, installed, pins, disks := [], 0, [], [];
      new;
      NothingCached(bufs[..], uses, disk);
      hide CacheOk, PinsOk, Coherent;
      LinkAll();
    }

    /** binit's loop. */
    method LinkAll()
      requires next.Length == prev.Length == NBUF + 1 && next != prev
      requires Linked(next[..], prev[..], ring, pos) && ring == [HEAD]
      modifies next, prev, `ring, `pos, `stamp, `clock
      ensures ListOk()
    {
      hide Linked;
      Lengths(next[..], prev[..], ring, pos);
      NodeAt(next[..], prev[..], ring, pos, 0);
      var b := 0;
      while b < NBUF
        invariant 0 <= b <= NBUF && |pos| == NBUF + 1 && Linked(next[..], prev[..], ring, pos)
        invariant |ring| == b + 1 && ring[0] == HEAD && forall i :: 1 <= i <= b ==> ring[i] == b - i
        invariant pos[HEAD] == 0 && forall x :: 0 <= x < b ==> pos[x] == b - x
      {
        InsertFront(next[..], prev[..], ring, pos, b);
        next[b] := next[HEAD];
        prev[b] := HEAD;
        prev[next[HEAD]] := b;
        next[HEAD] := b;
        ring, pos := AtFront(ring, b), ShiftUp(pos, b);
        b := b + 1;
      }
      stamp, clock := seq(NBUF, i => i), NBUF;
    }

    /** The first loop of bget: the buffer that has the block, or the head. */
    method Find(dev: int, blockno: int) returns (b: int)
      requires Valid()
      ensures 0 <= b <= NBUF
      ensures b < NBUF ==> bufs[b].dev == dev && bufs[b].blockno == blockno
      ensures b == HEAD ==> forall i :: 0 <= i < NBUF ==> bufs[i].dev != dev || bufs[i].blockno != blockno
    {
      hide CacheOk, PinsOk, Linked, Sorted, Full;
      ghost var n := 1;
      Lengths(next[..], prev[..], ring, pos);
      SortedNodes(ring, stamp, clock);
      NodeAt(next[..], prev[..], ring, pos, 0);
      b := next[HEAD];
      while b != HEAD
        invariant 1 <= n <= |ring| && b == (if n < |ring| then ring[n] else HEAD)
        invariant forall i :: 1 <= i < n ==> !(bufs[ring[i]].dev == dev && bufs[ring[i]].blockno == blockno)
        decreases |ring| - n
      {
        NodeAt(next[..], prev[..], ring, pos, n);
        if bufs[b].dev == dev && bufs[b].blockno == blockno {
          return;
        }
        b := next[b];
        n := n + 1;
      }
      forall i | 0 <= i < NBUF ensures bufs[i].dev != dev || bufs[i].blockno != blockno {
        PositionOf(next[..], prev[..], ring, pos, i);
      }
    }

    /** The second loop of bget: the buffer nobody uses that was released longest ago, or the head. */
    method Victim() returns (b: int)
      requires Valid()
      ensures 0 <= b <= NBUF
      ensures b < NBUF ==> bufs[b].refcnt == 0 &&
                           forall i :: 0 <= i < NBUF && bufs[i].refcnt == 0 ==> stamp[b] <= stamp[i]
      ensures b == HEAD <==> forall i :: 0 <= i < NBUF ==> bufs[i].refcnt != 0
    {
      hide CacheOk, PinsOk, Linked, Sorted, Full;
      ghost var n := |ring| - 1;
      Lengths(next[..], prev[..], ring, pos);
      SortedNodes(ring, stamp, clock);
      NodeAt(next[..], prev[..], ring, pos, 0);
      b := prev[HEAD];
      while b != HEAD
        invariant 0 <= n < |ring| && b == ring[n]
        invariant forall i :: n < i < |ring| ==> bufs[ring[i]].refcnt != 0
        decreases n
      {
        NodeAt(next[..], prev[..], ring, pos, n);
        if bufs[b].refcnt == 0 {
          OldestFree(bufs[..], ring, pos, stamp, clock, n);
          return;
        }
        b := prev[b];
        n := n - 1;
      }
      NodeAt(next[..], prev[..], ring, pos, n);
      OldestFree(bufs[..], ring, pos, stamp, clock, n);
    }

    /** A block is in some buffer. */
    ghost predicate Cached(dev: int, blockno: int)
      reads bufs
    {
      exists i :: 0 <= i < bufs.Length && bufs[i].dev == dev && bufs[i].blockno == blockno
    }

    /** The buffers in use that the transaction has not pinned. */
    ghost function HeldByOthers(): set<int>
      reads this, bufs
      requires bufs.Length == NBUF == |uses|
    {
      InUseUnpinned(bufs[..], uses)
    }

    lemma AllInUse()
      requires Valid()
      ensures |header| - installed + |HeldByOthers()| == NBUF <==> forall i :: 0 <= i < NBUF ==> bufs[i].refcnt != 0
    {
      InUse(bufs[..], uses, pins, header[installed..], HeldByOthers());
    }

    /** bget under bcache.lock: -1 stands for its panic, which comes exactly if the block is not cached and the
        blocks of the transaction not yet installed and the other buffers in use make up all NBUF. A buffer in use
        is never recycled. */
    method Get(dev: int, blockno: int) returns (b: int)
      requires Valid() && dev != 0
      modifies bufs, `uses
      ensures Valid() && -1 <= b < NBUF && (old(NoStrays()) ==> NoStrays())
      ensures b == -1 <==> !old(Cached(dev, blockno)) && |header| - installed + |old(HeldByOthers())| == NBUF
      ensures b == -1 ==> bufs[..] == old(bufs[..]) && uses == old(uses)
      ensures b != -1 ==> bufs[b].dev == dev && bufs[b].blockno == blockno && bufs[b].refcnt == old(bufs[b]).refcnt + 1
      ensures b != -1 ==>
               && |uses| == NBUF && 0 < uses[b].users == old(uses)[b].users + 1
               && uses[b].pinned == old(uses)[b].pinned
      ensures b != -1 ==> bufs[..] == old(bufs[..])[b := bufs[b]] && uses == old(uses)[b := uses[b]]
      ensures b != -1 && old(bufs[b]).dev == dev && old(bufs[b]).blockno == blockno ==>
                bufs[b] == old(bufs[b]).(refcnt := bufs[b].refcnt)
      ensures b != -1 && !(old(bufs[b]).dev == dev && old(bufs[b]).blockno == blockno) ==>
                && old(bufs[b]).refcnt == 0 && !old(bufs[b]).locked && !old(Cached(dev, blockno))
                && !bufs[b].valid && !bufs[b].locked
                && uses[b] == Use(1, false)
                && forall i :: 0 <= i < NBUF && old(bufs[i]).refcnt == 0 ==> stamp[b] <= stamp[i]
    {
      hide CacheOk, PinsOk, ListOk, InUseUnpinned, Coherent;
      AllInUse();
      b := Find(dev, blockno);
      if b < NBUF {
        Refer(b);
        return;
      }
      b := Victim();
      if b == HEAD { return -1; }
      Recycle(b, dev, blockno);
    }

    /** One more process refers to the buffer. */
    method Refer(b: int)
      requires Valid() && 0 <= b < NBUF
      modifies bufs, `uses
      ensures Valid() && uses == old(uses)[b := old(uses)[b].(users := old(uses)[b].users + 1)] && 0 < uses[b].users
      ensures bufs[..] == old(bufs[..])[b := old(bufs[b]).(refcnt := old(bufs[b]).refcnt + 1)]
      ensures old(NoStrays()) ==> NoStrays()
    {
      assert BufOk(bufs[b], uses[b]);
      Change(b, bufs[b].(refcnt := bufs[b].refcnt + 1), uses[b].(users := uses[b].users + 1));
    }

    /** A buffer nobody uses takes a block that no buffer has. */
    method Recycle(b: int, dev: int, blockno: int)
      requires Valid() && 0 <= b < NBUF && bufs[b].refcnt == 0 && dev != 0 && !Cached(dev, blockno)
      modifies bufs, `uses
      ensures Valid() && !old(bufs[b]).locked && old(uses)[b].users == 0 && !old(uses)[b].pinned
      ensures uses == old(uses)[b := Use(1, false)] && (old(NoStrays()) ==> NoStrays())
      ensures bufs[..] == old(bufs[..])[b := Buf(dev, blockno, 1, false, false, old(bufs[b]).data)]
    {
      hide PinsOk;
      assert BufOk(bufs[b], uses[b]);
      var x := Buf(dev, blockno, 1, false, bufs[b].locked, bufs[b].data);
      OneBuffer(bufs[..], uses, b, x, Use(1, false));
      SamePins(pins, uses, bufs[..], header[installed..], b, x, Use(1, false));
      CoherentStep(bufs[..], uses, disk, disk, b, x, Use(1, false));
      bufs[b] := x;
      uses := uses[b := Use(1, false)];
      assert bufs[..] == old(bufs[..])[b := x];
    }

    /** Writes one buffer whose block stays the same. */
    method Change(b: int, x: Buf, ghost u: Use)
      requires Valid() && 0 <= b < NBUF && x.dev == bufs[b].dev && x.blockno == bufs[b].blockno
      requires BufOk(x, u) && u.pinned == uses[b].pinned
      modifies bufs, `uses
      ensures Valid() && bufs[..] == old(bufs[..])[b := x] && uses == old(uses)[b := u]
      ensures old(NoStrays()) ==> (NoStrays() <==> InOrder(x, u, disk))
    {
      hide PinsOk, Coherent;
      CoherentStep(bufs[..], uses, disk, disk, b, x, u);
      OneBuffer(bufs[..], uses, b, x, u);
      SamePins(pins, uses, bufs[..], header[installed..], b, x, u);
      bufs[b] := x;
      uses := uses[b := u];
      assert bufs[..] == old(bufs[..])[b := x];
    }

    /** acquiresleep, by a process that has a reference: false means that it sleeps and tries again. */
    method Lock(b: int) returns (ok: bool)
      requires Valid() && 0 <= b < NBUF && 0 < uses[b].users
      modifies bufs, `uses
      ensures Valid() && uses == old(uses) && (ok <==> !old(bufs[b]).locked) && (old(NoStrays()) ==> NoStrays())
      ensures bufs[..] == if ok then old(bufs[..])[b := old(bufs[b]).(locked := true)] else old(bufs[..])
    {
      if bufs[b].locked { return false; }
      assert BufOk(bufs[b], uses[b]);
      Change(b, bufs[b].(locked := true), uses[b]);
      return true;
    }

    /** The rest of bread: an invalid buffer is read from the disk. */
    method ReadIn(b: int)
      requires Valid() && 0 <= b < NBUF && bufs[b].locked && bufs[b].dev != 0
      requires Block(bufs[b].dev, bufs[b].blockno) in disk
      modifies bufs, `uses
      ensures Valid() && uses == old(uses) && bufs[b].valid && (old(NoStrays()) ==> NoStrays())
      ensures bufs[..] == old(bufs[..])[b := bufs[b]]
      ensures bufs[b] == old(bufs[b]).(valid := true, data := bufs[b].data)
      ensures if old(bufs[b]).valid then bufs[b] == old(bufs[b]) else Agrees(bufs[b], disk)
    {
      assert BufOk(bufs[b], uses[b]);
      if !bufs[b].valid {
        Change(b, bufs[b].(valid := true, data := disk[Block(bufs[b].dev, bufs[b].blockno)]), uses[b]);
      }
      assert bufs[..] == old(bufs[..])[b := bufs[b]];
    }

    /** The holder of the lock changes the data. */
    method Modify(b: int, d: seq<int>)
      requires Valid() && 0 <= b < NBUF && bufs[b].locked && bufs[b].valid
      modifies bufs, `uses
      ensures Valid() && bufs[..] == old(bufs[..])[b := old(bufs[b]).(data := d)]
      ensures uses == old(uses) && (old(NoStrays()) ==> NoStrays())
    {
      assert BufOk(bufs[b], uses[b]);
      Change(b, bufs[b].(data := d), uses[b]);
    }

    /** log_write, before the commit, of a buffer whose lock the caller holds: the block joins the transaction
        and its buffer is pinned, once. */
    method LogWrite(b: int) returns (panicked: bool)
      requires Valid() && 0 <= b < NBUF && bufs[b].locked && bufs[b].valid && bufs[b].dev == ROOTDEV && installed == 0
      modifies bufs, `uses, `pins, `header
      ensures Valid() && (panicked <==> |old(header)| >= LOGBLOCKS) && (old(NoStrays()) ==> NoStrays())
      ensures uses[b].pinned <==> !panicked || old(uses)[b].pinned
      ensures old(uses)[b].pinned <==> bufs[b].blockno in old(header)
      ensures panicked || old(uses)[b].pinned ==>
                bufs[..] == old(bufs[..]) && uses == old(uses) && header == old(header) && pins == old(pins)
      ensures !panicked && !old(uses)[b].pinned ==>
                && header == old(header) + [bufs[b].blockno] && pins == old(pins) + [b]
                && uses == old(uses)[b := old(uses)[b].(pinned := true)]
                && bufs[..] == old(bufs[..])[b := old(bufs[b]).(refcnt := old(bufs[b]).refcnt + 1)]
    {
      hide CacheOk, PinsOk, ListOk, Coherent;
      Entry(b);
      assert header[0..] == header;
      if |header| >= LOGBLOCKS { return true; }
      var i := 0;
      while i < |header| && header[i] != bufs[b].blockno
        invariant 0 <= i <= |header| && bufs[b].blockno !in header[..i]
      {
        i := i + 1;
      }
      if i == |header| {
        assert header[..i] == header;
        Enter(b);
      }
      return false;
    }

    /** A new entry of the header, and bpin. */
    method Enter(b: int)
      requires Valid() && 0 <= b < NBUF && bufs[b].valid && bufs[b].dev == ROOTDEV && installed == 0 && !uses[b].pinned
      modifies bufs, `uses, `pins, `header
      ensures Valid() && (old(NoStrays()) ==> NoStrays())
      ensures header == old(header) + [bufs[b].blockno] && pins == old(pins) + [b]
      ensures uses == old(uses)[b := old(uses)[b].(pinned := true)]
      ensures bufs[..] == old(bufs[..])[b := old(bufs[b]).(refcnt := old(bufs[b]).refcnt + 1)]
    {
      hide PinsOk, Coherent;
      assert header[0..] == header;
      assert BufOk(bufs[b], uses[b]);
      var x := bufs[b].(refcnt := bufs[b].refcnt + 1);
      ghost var u := uses[b].(pinned := true);
      OneBuffer(bufs[..], uses, b, x, u);
      PinMore(pins, uses, bufs[..], header, b, x, u);
      CoherentStep(bufs[..], uses, disk, disk, b, x, u);
      bufs[b] := x;
      uses := uses[b := u];
      header, pins := header + [x.blockno], pins + [b];
      assert bufs[..] == old(bufs[..])[b := x] && header[0..] == header;
    }

    /** A buffer of the log's device is pinned exactly if the header still to be installed names its block. */
    lemma Entry(b: int)
      requires Valid() && 0 <= b < NBUF && bufs[b].dev == ROOTDEV
      ensures uses[b].pinned <==> bufs[b].blockno in header[installed..]
    {
      ghost var todo := header[installed..];
      if uses[b].pinned {
        var k :| 0 <= k < |pins| && pins[k] == b;
        assert PinAt(pins[k], uses, bufs[..], todo[k]);
        assert bufs[b].blockno in todo;
      }
      if bufs[b].blockno in todo {
        var k :| 0 <= k < |todo| && todo[k] == bufs[b].blockno;
        assert PinAt(pins[k], uses, bufs[..], todo[k]);
        assert pins[k] == b;
      }
    }

    /** bwrite: afterwards the buffer agrees with the disk, and no other block has changed. */
    method Write(b: int)
      requires Valid() && 0 <= b < NBUF && bufs[b].locked && bufs[b].valid && bufs[b].dev != 0
      modifies `disk, `disks
      ensures disks == old(disks) + [disk]
      ensures Valid() && disk == old(disk)[Block(bufs[b].dev, bufs[b].blockno) := bufs[b].data]
      ensures Agrees(bufs[b], disk) && (old(NoStrays()) ==> NoStrays())
    {
      hide PinsOk, Coherent, ListOk;
      var disk' := disk[Block(bufs[b].dev, bufs[b].blockno) := bufs[b].data];
      CoherentStep(bufs[..], uses, disk, disk', b, bufs[b], uses[b]);
      assert bufs[..][b := bufs[b]] == bufs[..] && uses[b := uses[b]] == uses;
      disk, disks := disk', disks + [disk'];
    }

    /** The unpin of install_trans, block after block. It leaves a stray exactly if the buffer is neither locked nor
        equal to its disk block. */
    method Unpin(b: int)
      requires Valid() && |pins| > 0 && b == pins[0] && 0 <= b < NBUF
      modifies bufs, `uses, `pins, `installed
      ensures Valid() && installed == old(installed) + 1 && pins == old(pins)[1..]
      ensures uses == old(uses)[b := old(uses)[b].(pinned := false)]
      ensures bufs[..] == old(bufs[..])[b := old(bufs[b]).(refcnt := old(bufs[b]).refcnt - 1)]
      ensures old(NoStrays()) ==> (NoStrays() <==> bufs[b].locked || Agrees(bufs[b], disk))
    {
      Pinned(0);
      hide PinsOk, Coherent;
      assert BufOk(bufs[b], uses[b]);
      var x := bufs[b].(refcnt := bufs[b].refcnt - 1);
      ghost var u := uses[b].(pinned := false);
      OneBuffer(bufs[..], uses, b, x, u);
      UnpinFirst(pins, uses, bufs[..], header[installed..], x, u);
      CoherentStep(bufs[..], uses, disk, disk, b, x, u);
      bufs[b] := x;
      uses := uses[b := u];
      assert header[installed..][1..] == header[installed + 1..];
      pins, installed := pins[1..], installed + 1;
      assert bufs[..] == old(bufs[..])[b := x];
    }

    lemma Pinned(k: int)
      requires Valid() && 0 <= k < |pins|
      ensures 0 <= pins[k] < NBUF && uses[pins[k]].pinned && |pins| == |header| - installed
      ensures bufs[pins[k]].dev == ROOTDEV && bufs[pins[k]].blockno == header[installed + k]
      ensures bufs[pins[k]].valid && bufs[pins[k]].refcnt > 0
    {
      assert PinAt(pins[k], uses, bufs[..], header[installed..][k]);
      assert BufOk(bufs[..][pins[k]], uses[pins[k]]);
    }

    /** commit's erasure of the header in memory, when every block has been installed. */
    method Clear()
      requires Valid() && installed == |header|
      modifies `header, `installed
      ensures Valid() && header == [] && installed == 0
    {
      assert header[installed..] == [];
      header, installed := [], 0;
    }

    /** releasesleep. It leaves a stray exactly if the buffer is not of the transaction and differs from its disk
        block. */
    method Unlock(b: int)
      requires Valid() && 0 <= b < NBUF && bufs[b].locked
      modifies bufs, `uses
      ensures Valid() && bufs[..] == old(bufs[..])[b := old(bufs[b]).(locked := false)] && uses == old(uses)
      ensures old(NoStrays()) ==>
                (NoStrays() <==> uses[b].pinned || !bufs[b].valid || bufs[b].dev == 0 || Agrees(bufs[b], disk))
    {
      assert BufOk(bufs[b], uses[b]);
      Change(b, bufs[b].(locked := false), uses[b]);
    }

    /** The end of brelse: a buffer nobody uses any more becomes the most recently released. */
    method Put(b: int)
      requires Valid() && 0 <= b < NBUF && 0 < uses[b].users && (uses[b].users == 1 ==> !bufs[b].locked)
      modifies bufs, next, prev, `ring, `pos, `stamp, `clock, `uses
      ensures Valid() && bufs[..] == old(bufs[..])[b := old(bufs[b]).(refcnt := old(bufs[b]).refcnt - 1)]
      ensures uses == old(uses)[b := old(uses)[b].(users := old(uses)[b].users - 1)]
      ensures NoStrays() <==> old(NoStrays())
      ensures bufs[b].refcnt != 0 ==> stamp == old(stamp)
      ensures bufs[b].refcnt == 0 ==> clock > old(clock) && stamp == old(stamp)[b := clock]
    {
      hide CacheOk, PinsOk, Coherent, ListOk;
      Unrefer(b);
      if bufs[b].refcnt == 0 {
        MoveToFront(b);
      }
    }

    /** One process fewer refers to the buffer. */
    method Unrefer(b: int)
      requires Valid() && 0 <= b < NBUF && 0 < uses[b].users && (uses[b].users == 1 ==> !bufs[b].locked)
      modifies bufs, `uses
      ensures Valid() && uses == old(uses)[b := old(uses)[b].(users := old(uses)[b].users - 1)]
      ensures bufs[..] == old(bufs[..])[b := old(bufs[b]).(refcnt := old(bufs[b]).refcnt - 1)]
      ensures NoStrays() <==> old(NoStrays())
    {
      hide Coherent, PinsOk, ListOk, Agrees;
      assert BufOk(bufs[b], uses[b]);
      var x := bufs[b].(refcnt := bufs[b].refcnt - 1);
      ghost var u := uses[b].(users := uses[b].users - 1);
      SameData(bufs[b], x, disk);
      CoherentSame(bufs[..], uses, disk, b, x, u);
      Change(b, x, u);
    }

    method MoveToFront(b: int)
      requires ListOk() && 0 <= b < NBUF
      modifies next, prev, `ring, `pos, `stamp, `clock
      ensures ListOk() && clock > old(clock) && stamp == old(stamp)[b := clock]
    {
      hide Linked, Sorted, Full;
      Lengths(next[..], prev[..], ring, pos);
      SortedNodes(ring, stamp, clock);
      PositionOf(next[..], prev[..], ring, pos, b);
      MoveFront(next[..], prev[..], ring, pos, b);
      prev[next[b]] := prev[b];
      next[prev[b]] := next[b];
      next[b] := next[HEAD];
      prev[b] := HEAD;
      prev[next[HEAD]] := b;
      next[HEAD] := b;
      SortedFront(ring, stamp, clock, b, pos[b]);
      stamp, clock := stamp[b := clock + 1], clock + 1;
      ring, pos := AtFront(Without(ring, pos[b]), b), ShiftUp(ShiftDown(pos, pos[b]), b);
    }
  }
}
