/** What the callers of the buffer cache do with it: bread and brelse, a turn of writei's loop (kernel/fs.c), and a
    commit (kernel/log.c). Other processes may hold any buffers meanwhile. */
module BioUse {
  import opened Basics
  import opened BufList
  import opened Bio

  /** How a bread may end: with the buffer, asleep on its lock, or in bget's panic. */
  datatype Reading = Got | Waits | NoBuffers

  /** Only buffer b has changed. */
  ghost predicate OnlyAt(bufs: seq<Buf>, bufs': seq<Buf>, uses: seq<Use>, uses': seq<Use>, b: int) {
    && |bufs| == |bufs'| == |uses| == |uses'| == NBUF && 0 <= b < NBUF
    && bufs' == bufs[b := bufs'[b]] && uses' == uses[b := uses'[b]]
  }

  /** A locked buffer with this block, valid. */
  ghost predicate Ready(x: Buf, blockno: int) {
    x.dev == ROOTDEV && x.blockno == blockno && x.locked && x.valid
  }

  /** Somebody has locked the buffer of this block. */
  ghost predicate LockedAt(bufs: seq<Buf>, blockno: int) {
    exists c :: 0 <= c < |bufs| && bufs[c].dev == ROOTDEV && bufs[c].blockno == blockno && bufs[c].locked
  }

  lemma LockedBuffer(bufs: seq<Buf>, uses: seq<Use>, b: int)
    requires CacheOk(bufs, uses) && 0 <= b < NBUF && bufs[b].dev == ROOTDEV
    ensures LockedAt(bufs, bufs[b].blockno) <==> bufs[b].locked
  {
  }

  lemma NotLocked(bufs: seq<Buf>, blockno: int)
    requires forall i :: 0 <= i < |bufs| ==> bufs[i].dev != ROOTDEV || bufs[i].blockno != blockno
    ensures !LockedAt(bufs, blockno)
  {
  }

  /** bread. */
  method Bread(cache: BufferCache, blockno: int) returns (r: Reading, b: int)
    requires cache.Valid() && Block(ROOTDEV, blockno) in cache.disk
    modifies cache.bufs, cache`uses
    ensures cache.Valid() && (old(cache.NoStrays()) ==> cache.NoStrays())
    ensures r == NoBuffers <==> !old(cache.Cached(ROOTDEV, blockno)) &&
                                |cache.header| - cache.installed + |old(cache.HeldByOthers())| == NBUF
    ensures r == NoBuffers ==> cache.bufs[..] == old(cache.bufs[..]) && cache.uses == old(cache.uses)
    ensures r != NoBuffers ==> OnlyAt(old(cache.bufs[..]), cache.bufs[..], old(cache.uses), cache.uses, b)
    ensures r != NoBuffers ==> cache.bufs[b].dev == ROOTDEV && cache.bufs[b].blockno == blockno
    ensures r == Waits <==> LockedAt(old(cache.bufs[..]), blockno)
    ensures r == Waits ==> old(cache.bufs[b]).locked && old(cache.Cached(ROOTDEV, blockno))
    ensures r == Waits ==> cache.bufs[b] == old(cache.bufs[b]).(refcnt := old(cache.bufs[b]).refcnt + 1)
    ensures r == Got ==> Ready(cache.bufs[b], blockno) && !old(cache.bufs[b]).locked
    ensures r == Got && old(cache.Cached(ROOTDEV, blockno)) ==>
              && old(cache.bufs[b]).dev == ROOTDEV && old(cache.bufs[b]).blockno == blockno
              && cache.uses[b] == old(cache.uses)[b].(users := old(cache.uses)[b].users + 1)
              && cache.bufs[b].refcnt == old(cache.bufs[b]).refcnt + 1
              && (old(cache.bufs[b]).valid ==> cache.bufs[b].data == old(cache.bufs[b]).data)
    ensures r == Got && !old(cache.Cached(ROOTDEV, blockno)) ==>
              old(cache.bufs[b]).refcnt == 0 && cache.uses[b] == Use(1, false) && cache.bufs[b].refcnt == 1
    ensures r == Got && old(cache.NoStrays()) ==> cache.uses[b].pinned || Agrees(cache.bufs[b], cache.disk)
  {
    hide CacheOk, PinsOk, Coherent, InUseUnpinned, LockedAt;
    ghost var bs, us := cache.bufs[..], cache.uses;
    b := cache.Get(ROOTDEV, blockno);
    if b == -1 {
      NotLocked(bs, blockno);
      return NoBuffers, b;
    }
    if bs[b].dev == ROOTDEV && bs[b].blockno == blockno {
      LockedBuffer(bs, us, b);
    } else {
      NotLocked(bs, blockno);
    }
    r := LockAndRead(cache, b, blockno);
  }

  /** The rest of bread, by a process that has a reference. */
  method LockAndRead(cache: BufferCache, b: int, blockno: int) returns (r: Reading)
    requires cache.Valid() && 0 <= b < NBUF && 0 < cache.uses[b].users && Block(ROOTDEV, blockno) in cache.disk
    requires cache.bufs[b].dev == ROOTDEV && cache.bufs[b].blockno == blockno
    modifies cache.bufs, cache`uses
    ensures cache.Valid() && (old(cache.NoStrays()) ==> cache.NoStrays()) && cache.uses == old(cache.uses)
    ensures if old(cache.bufs[b]).locked then r == Waits && cache.bufs[..] == old(cache.bufs[..]) else r == Got
    ensures r == Got ==> cache.bufs[..] == old(cache.bufs[..])[b := cache.bufs[b]] && Ready(cache.bufs[b], blockno)
    ensures r == Got ==> cache.bufs[b].refcnt == old(cache.bufs[b]).refcnt
    ensures r == Got && old(cache.bufs[b]).valid ==> cache.bufs[b].data == old(cache.bufs[b]).data
    ensures r == Got && old(cache.NoStrays()) ==> cache.uses[b].pinned || Agrees(cache.bufs[b], cache.disk)
  {
    hide CacheOk, PinsOk, Coherent;
    Held(cache, b);
    var ok := cache.Lock(b);
    if !ok { return Waits; }
    cache.ReadIn(b);
    r := Got;
  }

  lemma Held(cache: BufferCache, b: int)
    requires cache.Valid() && 0 <= b < NBUF
    ensures cache.NoStrays() && !cache.bufs[b].locked && cache.bufs[b].valid && cache.bufs[b].dev != 0 ==>
              cache.uses[b].pinned || Agrees(cache.bufs[b], cache.disk)
    ensures cache.uses[b].pinned ==> cache.bufs[b].refcnt != 0
    ensures cache.bufs[b].locked ==> 0 < cache.uses[b].users
  {
    assert BufOk(cache.bufs[..][b], cache.uses[b]);
    assert cache.NoStrays() ==> InOrder(cache.bufs[..][b], cache.uses[b], cache.disk);
  }

  /** brelse. It leaves a stray exactly if the buffer is not of the transaction and differs from its disk block. */
  method Brelse(cache: BufferCache, b: int)
    requires cache.Valid() && 0 <= b < NBUF && cache.bufs[b].locked && cache.bufs[b].valid && cache.bufs[b].dev != 0
    modifies cache.bufs, cache.next, cache.prev, cache`ring, cache`pos, cache`stamp, cache`clock, cache`uses
    ensures cache.Valid() && OnlyAt(old(cache.bufs[..]), cache.bufs[..], old(cache.uses), cache.uses, b)
    ensures cache.bufs[b] == old(cache.bufs[b]).(locked := false, refcnt := old(cache.bufs[b]).refcnt - 1)
    ensures cache.uses[b] == old(cache.uses)[b].(users := old(cache.uses)[b].users - 1)
    ensures old(cache.NoStrays()) ==>
              (cache.NoStrays() <==> cache.uses[b].pinned || Agrees(cache.bufs[b], cache.disk))
  {
    hide CacheOk, PinsOk, Coherent, Agrees, BufferCache.ListOk;
    Held(cache, b);
    ghost var bs := cache.bufs[..];
    cache.Unlock(b);
    ghost var bs1 := cache.bufs[..];
    assert bs1[b] == bs[b].(locked := false);
    cache.Put(b);
    assert cache.bufs[..] == bs[b := cache.bufs[..][b]];
    SameData(bs1[b], cache.bufs[b], cache.disk);
  }

  // ---------------------------------------------------------------- a turn of writei's loop

  /** How a turn may end: the block is logged, the copy from user memory fails, or log_write panics. */
  datatype Turn = Written | CopyFailed | TooBig

  function Patched(data: seq<int>, off: int, part: seq<int>): (r: seq<int>)
    requires 0 <= off && off + |part| <= |data|
  {
    data[..off] + part + data[off + |part|..]
  }

  lemma PatchedSame(data: seq<int>, off: int, part: seq<int>)
    requires 0 <= off && off + |part| <= |data|
    ensures Patched(data, off, part) == data <==> data[off..off + |part|] == part
  {
    var r := Patched(data, off, part);
    assert r[off..off + |part|] == part;
    assert data == data[..off] + data[off..off + |part|] + data[off + |part|..];
  }

  /** writei, from having read the block until releasing it: the first `avail` bytes of the source can be copied. If
      the copy fails, the buffer is released with the bytes that came through and is not logged. The cache stays
      coherent if and only if the block was in the transaction already, or these bytes were there before. */
  method WriteTurn(cache: BufferCache, b: int, off: int, src: seq<int>, avail: int) returns (t: Turn)
    requires cache.Valid() && cache.NoStrays() && cache.installed == 0 && 0 <= b < NBUF && 0 <= avail
    requires Ready(cache.bufs[b], cache.bufs[b].blockno) && 0 <= off && off + |src| <= |cache.bufs[b].data|
    requires cache.uses[b].pinned || Agrees(cache.bufs[b], cache.disk)
    modifies cache.bufs, cache.next, cache.prev, cache`ring, cache`pos, cache`stamp, cache`clock, cache`uses
    modifies cache`pins, cache`header
    ensures cache.Valid() && OnlyAt(old(cache.bufs[..]), cache.bufs[..], old(cache.uses), cache.uses, b)
    ensures |src| <= avail ==> cache.NoStrays() && cache.bufs[b].data == Patched(old(cache.bufs[b]).data, off, src)
    ensures |src| <= avail ==> t == if |old(cache.header)| < LOGBLOCKS then Written else TooBig
    ensures t == Written ==> cache.bufs[b].blockno in cache.header && !cache.bufs[b].locked && cache.bufs[b].refcnt != 0
    ensures avail < |src| ==>
              && t == CopyFailed && cache.header == old(cache.header) && !cache.bufs[b].locked && cache.bufs[b].valid
              && cache.bufs[b].data == Patched(old(cache.bufs[b]).data, off, src[..avail])
              && cache.bufs[b].dev == ROOTDEV && cache.bufs[b].blockno == old(cache.bufs[b]).blockno
              && cache.uses[b] == old(cache.uses)[b].(users := old(cache.uses)[b].users - 1)
              && (cache.NoStrays() <==>
                  old(cache.uses)[b].pinned || old(cache.bufs[b]).data[off..off + avail] == src[..avail])
  {
    hide CacheOk, PinsOk, Coherent, Patched, Agrees;
    if avail < |src| {
      CopyPart(cache, b, off, src[..avail]);
      return CopyFailed;
    }
    var ok := CopyAndLog(cache, b, Patched(cache.bufs[b].data, off, src));
    t := if ok then Written else TooBig;
  }

  /** The failing turn. */
  method CopyPart(cache: BufferCache, b: int, off: int, part: seq<int>)
    requires cache.Valid() && cache.NoStrays() && 0 <= b < NBUF
    requires Ready(cache.bufs[b], cache.bufs[b].blockno) && 0 <= off && off + |part| <= |cache.bufs[b].data|
    requires cache.uses[b].pinned || Agrees(cache.bufs[b], cache.disk)
    modifies cache.bufs, cache.next, cache.prev, cache`ring, cache`pos, cache`stamp, cache`clock, cache`uses
    ensures cache.Valid() && OnlyAt(old(cache.bufs[..]), cache.bufs[..], old(cache.uses), cache.uses, b)
    ensures cache.bufs[b] == old(cache.bufs[b]).(locked := false, refcnt := old(cache.bufs[b]).refcnt - 1,
                                                 data := Patched(old(cache.bufs[b]).data, off, part))
    ensures cache.uses[b] == old(cache.uses)[b].(users := old(cache.uses)[b].users - 1)
    ensures cache.NoStrays() <==> old(cache.uses)[b].pinned || old(cache.bufs[b]).data[off..off + |part|] == part
  {
    hide CacheOk, PinsOk, Coherent, Patched;
    ghost var bs := cache.bufs[..];
    PatchedSame(cache.bufs[b].data, off, part);
    cache.Modify(b, Patched(cache.bufs[b].data, off, part));
    Brelse(cache, b);
    assert cache.bufs[..] == bs[b := cache.bufs[..][b]];
  }

  /** The other turn, up to log_write's panic if there is one. */
  method CopyAndLog(cache: BufferCache, b: int, d: seq<int>) returns (ok: bool)
    requires cache.Valid() && cache.NoStrays() && cache.installed == 0 && 0 <= b < NBUF
    requires Ready(cache.bufs[b], cache.bufs[b].blockno)
    modifies cache.bufs, cache.next, cache.prev, cache`ring, cache`pos, cache`stamp, cache`clock, cache`uses
    modifies cache`pins, cache`header
    ensures cache.Valid() && OnlyAt(old(cache.bufs[..]), cache.bufs[..], old(cache.uses), cache.uses, b)
    ensures cache.NoStrays() && cache.bufs[b].data == d && (ok <==> |old(cache.header)| < LOGBLOCKS)
    ensures ok ==> cache.bufs[b].blockno in cache.header && !cache.bufs[b].locked && cache.bufs[b].refcnt != 0
    ensures ok ==> cache.uses[b] == Use(old(cache.uses)[b].users - 1, true)
    ensures ok && !old(cache.uses)[b].pinned ==> cache.header == old(cache.header) + [old(cache.bufs[b]).blockno]
    ensures cache.bufs[b].dev == ROOTDEV && cache.bufs[b].blockno == old(cache.bufs[b]).blockno
  {
    hide CacheOk, PinsOk, Coherent, Agrees;
    ghost var bs := cache.bufs[..];
    cache.Modify(b, d);
    ghost var bs1 := cache.bufs[..];
    assert bs1[b].data == d;
    var panicked := cache.LogWrite(b);
    if panicked { return false; }
    Named(cache, b);
    Brelse(cache, b);
    assert cache.bufs[..] == bs[b := cache.bufs[..][b]];
    Held(cache, b);
    ok := true;
  }

  /** A pinned buffer's block is in the header. */
  lemma Named(cache: BufferCache, b: int)
    requires cache.Valid() && 0 <= b < NBUF && cache.uses[b].pinned && cache.installed == 0 &&
             cache.bufs[b].dev == ROOTDEV
    ensures cache.bufs[b].blockno in cache.header
  {
    cache.Entry(b);
    assert cache.header[0..] == cache.header;
  }

  /** The input that leaves a stray: from a cache just initialised, a write to a block whose copy fails after bytes
      that differ from those on the disk. */
  method StrayBuffer(disk: map<Block, seq<int>>, blockno: int, off: int, src: seq<int>, avail: int)
    returns (cache: BufferCache, b: int)
    requires Block(ROOTDEV, blockno) in disk && 0 <= off && off + |src| <= |disk[Block(ROOTDEV, blockno)]|
    requires 0 <= avail < |src| && disk[Block(ROOTDEV, blockno)][off..off + avail] != src[..avail]
    ensures cache.Valid() && !cache.NoStrays() && 0 <= b < NBUF && cache.header == [] && cache.disk == disk
    ensures var x := cache.bufs[b];
            x.valid && !x.locked && x.dev == ROOTDEV && x.blockno == blockno && !Agrees(x, disk)
  {
    hide CacheOk, PinsOk, Coherent, InUseUnpinned;
    cache := new BufferCache(disk);
    NoneHeld(cache.bufs[..], cache.uses);
    var r;
    r, b := Bread(cache, blockno);
    ghost var d := cache.bufs[b].data;
    PatchedSame(d, off, src[..avail]);
    var t := WriteTurn(cache, b, off, src, avail);
  }

  lemma NoneHeld(bufs: seq<Buf>, uses: seq<Use>)
    requires |bufs| == NBUF == |uses| && forall i :: 0 <= i < NBUF ==> bufs[i].refcnt == 0
    ensures InUseUnpinned(bufs, uses) == {}
  {
  }

  // ---------------------------------------------------------------- a commit that finds no buffer

  /** Every buffer but unused ones has one of these blocks. */
  ghost predicate OnlyThese(bufs: seq<Buf>, blocks: seq<int>) {
    forall i :: 0 <= i < |bufs| ==> bufs[i].dev == 0 || (bufs[i].dev == ROOTDEV && bufs[i].blockno in blocks)
  }

  /** Everything the cache has is logged, or in use by others. */
  ghost predicate Filled(cache: BufferCache, blocks: seq<int>, held: int)
    reads cache, cache.bufs, cache.next, cache.prev
  {
    && cache.Valid() && cache.NoStrays() && cache.installed == 0
    && OnlyThese(cache.bufs[..], blocks) && |cache.HeldByOthers()| == held
  }

  lemma NotThese(bufs: seq<Buf>, blocks: seq<int>, blockno: int)
    requires OnlyThese(bufs, blocks) && blockno !in blocks
    ensures forall i :: 0 <= i < |bufs| ==> bufs[i].dev != ROOTDEV || bufs[i].blockno != blockno
  {
  }

  lemma OneMoreBlock(bufs: seq<Buf>, bufs': seq<Buf>, b: int, blocks: seq<int>)
    requires OnlyThese(bufs, blocks) && |bufs'| == |bufs| && 0 <= b < |bufs| && bufs' == bufs[b := bufs'[b]]
    requires bufs'[b].dev == ROOTDEV
    ensures OnlyThese(bufs', blocks + [bufs'[b].blockno])
  {
  }

  /** Another process reads a block and has not released it. */
  method HoldOne(cache: BufferCache, blockno: int, ghost blocks: seq<int>, ghost held: int) returns (b: int)
    requires Filled(cache, blocks, held) && blockno !in blocks && Block(ROOTDEV, blockno) in cache.disk
    requires |cache.header| + held < NBUF
    modifies cache.bufs, cache`uses
    ensures Filled(cache, blocks + [blockno], held + 1) && 0 <= b < NBUF && Ready(cache.bufs[b], blockno)
    ensures cache.uses[b] == Use(1, false) && Agrees(cache.bufs[b], cache.disk)
    ensures OnlyAt(old(cache.bufs[..]), cache.bufs[..], old(cache.uses), cache.uses, b) &&
            old(cache.bufs[b]).refcnt == 0
  {
    hide CacheOk, PinsOk, Coherent, OnlyThese, InUseUnpinned;
    NotThese(cache.bufs[..], blocks, blockno);
    ghost var bs, us := cache.bufs[..], cache.uses;
    var r;
    r, b := Bread(cache, blockno);
    OneMore(bs, us, cache.bufs[..], cache.uses, b);
    OneMoreBlock(bs, cache.bufs[..], b, blocks);
  }

  /** An operation's bread, change, log_write and brelse of one block. */
  method Join(cache: BufferCache, blockno: int, d: seq<int>, ghost blocks: seq<int>)
    requires Filled(cache, blocks, 0) && blockno !in blocks && Block(ROOTDEV, blockno) in cache.disk
    requires |cache.header| < NBUF && |cache.header| < LOGBLOCKS
    modifies cache.bufs, cache.next, cache.prev, cache`ring, cache`pos, cache`stamp, cache`clock, cache`uses
    modifies cache`pins, cache`header
    ensures Filled(cache, blocks + [blockno], 0) && cache.header == old(cache.header) + [blockno]
  {
    hide CacheOk, PinsOk, Coherent, OnlyThese, InUseUnpinned, Agrees, BufferCache.ListOk;
    ghost var bs, us := cache.bufs[..], cache.uses;
    var b := HoldOne(cache, blockno, blocks, 0);
    var ok := CopyAndLog(cache, b, d);
    ghost var bs', us' := cache.bufs[..], cache.uses;
    assert bs' == bs[b := bs'[b]] && us' == us[b := us'[b]];
    OneMore(bs, us, bs', us', b);
    OneMoreBlock(bs, bs', b, blocks);
  }

  /** Operations log all these blocks. */
  method JoinAll(cache: BufferCache, blocks: seq<int>)
    requires Filled(cache, [], 0) && cache.header == [] && |blocks| <= LOGBLOCKS && |blocks| <= NBUF && Distinct(blocks)
    requires forall k :: 0 <= k < |blocks| ==> Block(ROOTDEV, blocks[k]) in cache.disk
    modifies cache.bufs, cache.next, cache.prev, cache`ring, cache`pos, cache`stamp, cache`clock, cache`uses
    modifies cache`pins, cache`header
    ensures Filled(cache, blocks, 0) && cache.header == blocks
  {
    hide Filled;
    var i := 0;
    while i < |blocks|
      invariant 0 <= i <= |blocks| && Filled(cache, blocks[..i], 0) && cache.header == blocks[..i]
    {
      Join(cache, blocks[i], [], blocks[..i]);
      assert blocks[..i] + [blocks[i]] == blocks[..i + 1];
      i := i + 1;
    }
    assert blocks[..i] == blocks;
  }

  /** Other processes read these blocks and have not released them. */
  method HoldAll(cache: BufferCache, blocks: seq<int>)
    requires Filled(cache, cache.header, 0) && |cache.header| + |blocks| <= NBUF && Distinct(cache.header + blocks)
    requires forall k :: 0 <= k < |blocks| ==> Block(ROOTDEV, blocks[k]) in cache.disk
    modifies cache.bufs, cache`uses
    ensures Filled(cache, cache.header + blocks, |blocks|)
  {
    hide Filled;
    ghost var all := cache.header + blocks;
    assert all[..|cache.header|] == cache.header;
    var i := 0;
    while i < |blocks|
      invariant 0 <= i <= |blocks| && Filled(cache, all[..|cache.header| + i], i)
    {
      ghost var n := |cache.header| + i;
      assert blocks[i] == all[n] && all[n] !in all[..n];
      var b := HoldOne(cache, blocks[i], all[..n], i);
      assert all[..n] + [all[n]] == all[..n + 1];
      i := i + 1;
    }
    assert all[..|cache.header| + i] == all;
  }

  /** The input on which a commit panics. An operation or several have logged `blocks`; processes that take no
      part in transactions, such as readers, are using `others`; together these are NBUF blocks. Then write_log's
      bread of a log block that is not among them finds no buffer. */
  method CommitFindsNoBuffer(disk: map<Block, seq<int>>, blocks: seq<int>, others: seq<int>, slot: int)
    returns (cache: BufferCache, r: Reading)
    requires |blocks| <= LOGBLOCKS && |blocks| + |others| == NBUF && Distinct(blocks + others)
    requires slot !in blocks + others && Block(ROOTDEV, slot) in disk
    requires forall k :: k in blocks + others ==> Block(ROOTDEV, k) in disk
    ensures cache.Valid() && cache.header == blocks && cache.installed == 0 && r == NoBuffers
  {
    hide CacheOk, PinsOk, Coherent, InUseUnpinned;
    cache := new BufferCache(disk);
    NoneHeld(cache.bufs[..], cache.uses);
    var all := blocks + others;
    assert forall i :: 0 <= i < |blocks| ==> all[i] == blocks[i];
    assert forall i :: 0 <= i < |others| ==> all[|blocks| + i] == others[i];
    JoinAll(cache, blocks);
    HoldAll(cache, others);
    NotThese(cache.bufs[..], all, slot);
    var b;
    r, b := Bread(cache, slot);
  }
}
