/** When the breads of a commit return. Others keep their locks and references meanwhile; the commit takes and returns
    its own, and a buffer in use is never recycled. */
module BioReads {
  import opened BufList
  import opened Bio
  import opened BioUse

  ghost predicate CachedAt(bufs: seq<Buf>, blockno: int) {
    exists i :: 0 <= i < |bufs| && bufs[i].dev == ROOTDEV && bufs[i].blockno == blockno
  }

  ghost predicate HasFree(bufs: seq<Buf>) {
    exists i :: 0 <= i < |bufs| && bufs[i].refcnt == 0
  }

  /** bread of the block returns at once. */
  ghost predicate Passes(bufs: seq<Buf>, blockno: int) {
    !LockedAt(bufs, blockno) && (CachedAt(bufs, blockno) || HasFree(bufs))
  }

  /** So do all breads of a commit: of the header block, of a log block for each block, and of the blocks themselves. */
  ghost predicate CommitPasses(bufs: seq<Buf>, start: int, header: seq<int>) {
    && (forall x :: start <= x <= start + |header| ==> Passes(bufs, x))
    && (forall k :: 0 <= k < |header| ==> !LockedAt(bufs, header[k]))
  }

  ghost predicate SameBlock(x: Buf, y: Buf) {
    x.dev == y.dev && x.blockno == y.blockno
  }

  /** A buffer before and after a turn, between turns. */
  ghost predicate TurnedAt(x: Buf, u: Use, x': Buf, u': Use) {
    && u'.users == u.users && (u'.pinned ==> u.pinned) && x'.locked == x.locked
    && (0 < u.users || u'.pinned ==> SameBlock(x, x'))
  }

  ghost predicate SameBlocks(bufs: seq<Buf>, bufs': seq<Buf>) {
    |bufs| == |bufs'| && forall c :: 0 <= c < |bufs| ==> SameBlock(bufs[c], bufs'[c])
  }

  ghost predicate TurnedAll(bufs: seq<Buf>, uses: seq<Use>, bufs': seq<Buf>, uses': seq<Use>) {
    && |bufs| == |uses| == |bufs'| == |uses'| == NBUF
    && forall c :: 0 <= c < NBUF ==> TurnedAt(bufs[c], uses[c], bufs'[c], uses'[c])
  }

  /** A turn that has read log block x. */
  ghost predicate Turned(bufs: seq<Buf>, uses: seq<Use>, bufs': seq<Buf>, uses': seq<Use>, x: int) {
    TurnedAll(bufs, uses, bufs', uses') && (CachedAt(bufs, x) ==> SameBlocks(bufs, bufs'))
  }

  /** Any number of turns that read log blocks from start to start + n. */
  ghost predicate Calm(bufs: seq<Buf>, uses: seq<Use>, bufs': seq<Buf>, uses': seq<Use>, start: int, n: int) {
    && TurnedAll(bufs, uses, bufs', uses')
    && ((forall x :: start <= x <= start + n ==> CachedAt(bufs, x)) ==> SameBlocks(bufs, bufs'))
  }

  lemma CalmSelf(bufs: seq<Buf>, uses: seq<Use>, start: int, n: int)
    requires |bufs| == |uses| == NBUF
    ensures Calm(bufs, uses, bufs, uses, start, n)
  {
  }

  lemma CalmStep(bufs0: seq<Buf>, uses0: seq<Use>, bufs: seq<Buf>, uses: seq<Use>, bufs': seq<Buf>, uses': seq<Use>,
                 start: int, n: int, x: int)
    requires Calm(bufs0, uses0, bufs, uses, start, n) && Turned(bufs, uses, bufs', uses', x) && start <= x <= start + n
    ensures Calm(bufs0, uses0, bufs', uses', start, n)
  {
    forall c | 0 <= c < NBUF ensures TurnedAt(bufs0[c], uses0[c], bufs'[c], uses'[c]) {
      assert TurnedAt(bufs0[c], uses0[c], bufs[c], uses[c]) && TurnedAt(bufs[c], uses[c], bufs'[c], uses'[c]);
    }
    if forall y :: start <= y <= start + n ==> CachedAt(bufs0, y) {
      assert CachedAt(bufs0, x);
      CachedStays(bufs0, bufs, x);
    }
  }

  lemma CachedStays(bufs: seq<Buf>, bufs': seq<Buf>, x: int)
    requires SameBlocks(bufs, bufs')
    ensures CachedAt(bufs, x) <==> CachedAt(bufs', x)
  {
    if CachedAt(bufs, x) {
      var i :| 0 <= i < |bufs| && bufs[i].dev == ROOTDEV && bufs[i].blockno == x;
      assert SameBlock(bufs[i], bufs'[i]);
    }
    if CachedAt(bufs', x) {
      var i :| 0 <= i < |bufs'| && bufs'[i].dev == ROOTDEV && bufs'[i].blockno == x;
      assert SameBlock(bufs[i], bufs'[i]);
    }
  }

  /** Locks stay where they are. */
  lemma LocksStay(bufs: seq<Buf>, uses: seq<Use>, bufs': seq<Buf>, uses': seq<Use>, x: int)
    requires TurnedAll(bufs, uses, bufs', uses') && CacheOk(bufs, uses)
    ensures LockedAt(bufs, x) <==> LockedAt(bufs', x)
  {
    forall c | 0 <= c < NBUF
      ensures TurnedAt(bufs[c], uses[c], bufs'[c], uses'[c]) && BufOk(bufs[c], uses[c])
      ensures bufs[c].locked <==> bufs'[c].locked
      ensures bufs[c].locked ==> SameBlock(bufs[c], bufs'[c])
    {
    }
  }

  /** A buffer that was not in use is not in use. */
  lemma FreeStays(bufs: seq<Buf>, uses: seq<Use>, bufs': seq<Buf>, uses': seq<Use>)
    requires TurnedAll(bufs, uses, bufs', uses') && CacheOk(bufs, uses) && CacheOk(bufs', uses')
    ensures HasFree(bufs) ==> HasFree(bufs')
    ensures uses' == uses && HasFree(bufs') ==> HasFree(bufs)
    ensures uses' == uses && !HasFree(bufs) ==> SameBlocks(bufs, bufs')
  {
    forall c | 0 <= c < NBUF
      ensures bufs[c].refcnt == 0 ==> bufs'[c].refcnt == 0
      ensures uses' == uses ==> bufs'[c].refcnt == bufs[c].refcnt
      ensures uses' == uses && bufs[c].refcnt != 0 ==> SameBlock(bufs[c], bufs'[c])
    {
      assert TurnedAt(bufs[c], uses[c], bufs'[c], uses'[c]) && BufOk(bufs[c], uses[c]) && BufOk(bufs'[c], uses'[c]);
    }
  }

  /** What passes at the start of a commit passes later. */
  lemma PassesLater(bufs0: seq<Buf>, uses0: seq<Use>, bufs: seq<Buf>, uses: seq<Use>, start: int, header: seq<int>)
    requires Calm(bufs0, uses0, bufs, uses, start, |header|) && CacheOk(bufs0, uses0) && CacheOk(bufs, uses)
    requires CommitPasses(bufs0, start, header)
    ensures CommitPasses(bufs, start, header)
  {
    FreeStays(bufs0, uses0, bufs, uses);
    forall x | start <= x <= start + |header| ensures Passes(bufs, x) {
      assert Passes(bufs0, x);
      LocksStay(bufs0, uses0, bufs, uses, x);
      if !HasFree(bufs0) {
        forall y | start <= y <= start + |header| ensures CachedAt(bufs0, y) { assert Passes(bufs0, y); }
        CachedStays(bufs0, bufs, x);
      }
    }
    forall k | 0 <= k < |header| ensures !LockedAt(bufs, header[k]) {
      LocksStay(bufs0, uses0, bufs, uses, header[k]);
    }
  }

  /** As long as no pin has gone, the same blocks pass. */
  lemma PassesSame(bufs0: seq<Buf>, uses0: seq<Use>, bufs: seq<Buf>, uses: seq<Use>, x: int)
    requires TurnedAll(bufs0, uses0, bufs, uses) && CacheOk(bufs0, uses0) && CacheOk(bufs, uses) && uses == uses0
    ensures Passes(bufs, x) <==> Passes(bufs0, x)
  {
    FreeStays(bufs0, uses0, bufs, uses);
    LocksStay(bufs0, uses0, bufs, uses, x);
    if !HasFree(bufs0) { CachedStays(bufs0, bufs, x); }
  }

  /** Buffer b has been taken by a bread that read block x, and nothing else has changed. */
  ghost predicate Taken(bufs: seq<Buf>, uses: seq<Use>, bufs': seq<Buf>, uses': seq<Use>, b: int, x: int) {
    && OnlyAt(bufs, bufs', uses, uses', b) && !bufs[b].locked && bufs'[b].locked && bufs'[b].blockno == x
    && uses'[b] == uses[b].(users := uses[b].users + 1)
    && (CachedAt(bufs, x) ==> SameBlock(bufs[b], bufs'[b]))
    && (0 < uses[b].users || uses[b].pinned ==> SameBlock(bufs[b], bufs'[b]))
  }

  /** Buffer b has been written and released since; it may have lost its pin. */
  ghost predicate Returned(bufs: seq<Buf>, uses: seq<Use>, bufs': seq<Buf>, uses': seq<Use>, b: int) {
    && OnlyAt(bufs, bufs', uses, uses', b) && !bufs'[b].locked && SameBlock(bufs[b], bufs'[b])
    && uses'[b].users == uses[b].users - 1 && (uses'[b].pinned ==> uses[b].pinned)
  }

  /** A turn with one buffer. */
  lemma OneTurn(bs0: seq<Buf>, us0: seq<Use>, bs1: seq<Buf>, us1: seq<Use>, bs2: seq<Buf>, us2: seq<Use>, b: int,
                x: int)
    requires Taken(bs0, us0, bs1, us1, b, x) && Returned(bs1, us1, bs2, us2, b)
    ensures Turned(bs0, us0, bs2, us2, x)
    ensures us2[b].pinned == us0[b].pinned ==> us2 == us0
  {
    forall c | 0 <= c < NBUF ensures TurnedAt(bs0[c], us0[c], bs2[c], us2[c]) {
    }
    assert us2 == us0[b := us2[b]];
  }

  /** A turn with two buffers, of which the second had its block before. */
  lemma TwoTurns(bs0: seq<Buf>, us0: seq<Use>, bs1: seq<Buf>, us1: seq<Use>, bs2: seq<Buf>, us2: seq<Use>,
                 bs3: seq<Buf>, us3: seq<Use>, a: int, b: int, x: int, y: int)
    requires Taken(bs0, us0, bs1, us1, a, x) && Taken(bs1, us1, bs2, us2, b, y) && SameBlock(bs1[b], bs2[b]) && a != b
    requires |bs3| == |us3| == NBUF && forall c :: 0 <= c < NBUF && c != a && c != b ==>
               bs3[c] == bs2[c] && us3[c] == us2[c]
    requires !bs3[a].locked && SameBlock(bs2[a], bs3[a]) && us3[a] == us2[a].(users := us2[a].users - 1)
    requires !bs3[b].locked && SameBlock(bs2[b], bs3[b]) && us3[b].users == us2[b].users - 1
    requires us3[b].pinned ==> us2[b].pinned
    ensures Turned(bs0, us0, bs3, us3, x)
    ensures us3[b].pinned == us2[b].pinned ==> us3 == us0
  {
    forall c | 0 <= c < NBUF ensures TurnedAt(bs0[c], us0[c], bs3[c], us3[c]) {
    }
    if us3[b].pinned == us2[b].pinned {
      forall c | 0 <= c < NBUF ensures us3[c] == us0[c] {}
    }
  }

  /** A buffer taken for another block locks no more than that. */
  lemma LocksElsewhere(bufs: seq<Buf>, uses: seq<Use>, bufs': seq<Buf>, uses': seq<Use>, b: int, x: int, y: int)
    requires Taken(bufs, uses, bufs', uses', b, x) && x != y
    ensures LockedAt(bufs, y) <==> LockedAt(bufs', y)
  {
    forall c | 0 <= c < NBUF && c != b ensures bufs'[c] == bufs[c] {}
  }

  /** A bread that has returned has taken its buffer. */
  lemma IsTaken(bufs: seq<Buf>, uses: seq<Use>, bufs': seq<Buf>, uses': seq<Use>, b: int, x: int)
    requires CacheOk(bufs, uses) && OnlyAt(bufs, bufs', uses, uses', b) && !bufs[b].locked && Ready(bufs'[b], x)
    requires CachedAt(bufs, x) ==>
               bufs[b].dev == ROOTDEV && bufs[b].blockno == x && uses'[b] == uses[b].(users := uses[b].users + 1)
    requires !CachedAt(bufs, x) ==> bufs[b].refcnt == 0 && uses'[b] == Use(1, false)
    ensures Taken(bufs, uses, bufs', uses', b, x)
  {
    assert BufOk(bufs[b], uses[b]);
  }

  lemma InTheCache(cache: BufferCache, blockno: int)
    requires cache.Valid()
    ensures cache.Cached(ROOTDEV, blockno) <==> CachedAt(cache.bufs[..], blockno)
    ensures |cache.header| - cache.installed + |cache.HeldByOthers()| == NBUF <==> !HasFree(cache.bufs[..])
  {
    hide CacheOk, PinsOk, InUseUnpinned, BufferCache.ListOk;
    cache.AllInUse();
    assert forall i :: 0 <= i < NBUF ==> cache.bufs[i] == cache.bufs[..][i];
  }
}
