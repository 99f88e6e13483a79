/** commit of kernel/log.c carried out through the buffer cache: write_log, write_head and install_trans with their
    breads, bwrites, brelses and unpins. Other processes may be using buffers; a bread may then sleep or panic. */
module BioCommit {
  import opened Basics
  import opened BufList
  import opened Bio
  import opened BioUse
  import opened BioReads
  import opened LogHeader
  import opened LogDisk

  /** The pinned buffers hold these data. */
  ghost predicate HasData(bufs: seq<Buf>, pins: seq<int>, data: seq<seq<int>>) {
    |pins| == |data| && forall k :: 0 <= k < |pins| ==> 0 <= pins[k] < |bufs| && bufs[pins[k]].data == data[k]
  }

  lemma DataKept(bufs: seq<Buf>, bufs': seq<Buf>, b: int, pins: seq<int>, data: seq<seq<int>>)
    requires HasData(bufs, pins, data) && |bufs'| == |bufs| && 0 <= b < |bufs| && bufs' == bufs[b := bufs'[b]]
    requires b !in pins || bufs'[b].data == bufs[b].data
    ensures HasData(bufs', pins, data)
  {
  }

  lemma DataAt(bufs: seq<Buf>, pins: seq<int>, data: seq<seq<int>>, k: int)
    requires HasData(bufs, pins, data) && 0 <= k < |data|
    ensures |pins| == |data| && 0 <= pins[k] < |bufs| && bufs[pins[k]].data == data[k]
  {
  }

  /** The buffer that has the k-th block of the header still to be installed is the k-th pinned one. */
  lemma IsPinned(cache: BufferCache, b: int, k: int)
    requires cache.Valid() && 0 <= b < NBUF && 0 <= k < |cache.header| - cache.installed
    requires cache.bufs[b].dev == ROOTDEV && cache.bufs[b].blockno == cache.header[cache.installed + k]
    ensures |cache.pins| == |cache.header| - cache.installed && b == cache.pins[k] && cache.uses[b].pinned
    ensures cache.bufs[b].valid
  {
    Counted(cache);
    cache.Pinned(k);
    assert cache.bufs[..][b].dev == cache.bufs[..][cache.pins[k]].dev;
  }

  lemma Counted(cache: BufferCache)
    requires cache.Valid()
    ensures |cache.pins| == |cache.header| - cache.installed
  {
  }

  lemma NotPinned(cache: BufferCache, b: int)
    requires cache.Valid() && 0 <= b < NBUF && cache.bufs[b].dev == ROOTDEV && cache.bufs[b].blockno !in cache.header
    ensures !cache.uses[b].pinned && b !in cache.pins
  {
    cache.Entry(b);
  }

  /** The cache of a commit that has yet to install the last |data| blocks of the header. */
  ghost predicate During(cache: BufferCache, start: int, data: seq<seq<int>>)
    reads cache, cache.bufs, cache.next, cache.prev
  {
    && cache.Valid() && cache.NoStrays() && Laid(cache.disk, start, cache.header)
    && HasData(cache.bufs[..], cache.pins, data) && |data| == |cache.header| - cache.installed
  }

  lemma Sizes(cache: BufferCache, start: int, data: seq<seq<int>>)
    requires During(cache, start, data)
    ensures |data| == |cache.header| - cache.installed == |cache.pins| && |cache.header| <= LOGBLOCKS
    ensures cache.bufs.Length == |cache.uses| == NBUF
  {
    Counted(cache);
  }

  lemma LogBlock(disk: map<Block, seq<int>>, start: int, header: seq<int>, blockno: int)
    requires Laid(disk, start, header) && start <= blockno <= start + LOGBLOCKS
    ensures Block(ROOTDEV, blockno) in disk && blockno !in header
  {
  }

  lemma HomeBlock(disk: map<Block, seq<int>>, start: int, header: seq<int>, k: int)
    requires Laid(disk, start, header) && 0 <= k < |header|
    ensures Block(ROOTDEV, header[k]) in disk
  {
  }

  lemma StillLaid(disk: map<Block, seq<int>>, start: int, header: seq<int>, x: Block, d: seq<int>)
    requires Laid(disk, start, header) && (x == Block(ROOTDEV, start) ==> |d| == BSIZE)
    ensures Laid(disk[x := d], start, header)
  {
  }

  /** bread of a block of the log. */
  method ReadLog(cache: BufferCache, start: int, blockno: int, ghost data: seq<seq<int>>) returns (r: Reading, b: int)
    requires During(cache, start, data) && start <= blockno <= start + LOGBLOCKS
    modifies cache.bufs, cache`uses
    ensures During(cache, start, data)
    ensures r == Got ==> 0 <= b < NBUF && Ready(cache.bufs[b], blockno) && Agrees(cache.bufs[b], cache.disk)
    ensures r == Got ==> !cache.uses[b].pinned && b !in cache.pins
    ensures r == Got <==> Passes(old(cache.bufs[..]), blockno)
    ensures r == Got ==> Taken(old(cache.bufs[..]), old(cache.uses), cache.bufs[..], cache.uses, b, blockno)
  {
    hide CacheOk, PinsOk, Coherent, HasData, Laid, LockedAt, CachedAt, HasFree, Taken, InUseUnpinned;
    ghost var bs, us := cache.bufs[..], cache.uses;
    InTheCache(cache, blockno);
    LogBlock(cache.disk, start, cache.header, blockno);
    r, b := Bread(cache, blockno);
    if r == NoBuffers { return; }
    if r == Got { IsTaken(bs, us, cache.bufs[..], cache.uses, b, blockno); }
    NotPinned(cache, b);
    DataKept(bs, cache.bufs[..], b, cache.pins, data);
  }

  /** bread of a block that is still to be installed: it is there. */
  method ReadHome(cache: BufferCache, start: int, blockno: int, ghost k: int, ghost data: seq<seq<int>>, ghost lb: int)
    returns (r: Reading, b: int)
    requires During(cache, start, data) && 0 <= k < |data| && blockno == cache.header[cache.installed + k]
    requires 0 <= lb < NBUF && cache.bufs[lb].locked && lb !in cache.pins
    modifies cache.bufs, cache`uses
    ensures During(cache, start, data) && cache.bufs[lb] == old(cache.bufs[lb]) && cache.uses[lb] == old(cache.uses)[lb]
    ensures r != NoBuffers
    ensures r == Got ==> |cache.pins| == |data| && 0 <= b < NBUF && b == cache.pins[k]
    ensures r == Got ==> b != lb && cache.uses[b].pinned
    ensures r == Got ==> Ready(cache.bufs[b], blockno) && cache.bufs[b].data == data[k]
    ensures r == Got <==> !LockedAt(old(cache.bufs[..]), blockno)
    ensures r == Got ==> Taken(old(cache.bufs[..]), old(cache.uses), cache.bufs[..], cache.uses, b, blockno)
    ensures r == Got ==> SameBlock(old(cache.bufs[b]), cache.bufs[b])
  {
    hide CacheOk, PinsOk, Coherent, HasData, Laid, Agrees, BufferCache.ListOk, LockedAt, CachedAt, Taken, InUseUnpinned;
    ghost var bs, us := cache.bufs[..], cache.uses;
    InTheCache(cache, blockno);
    Counted(cache);
    cache.Pinned(k);
    HomeBlock(cache.disk, start, cache.header, cache.installed + k);
    r, b := Bread(cache, blockno);
    if r == Got { IsTaken(bs, us, cache.bufs[..], cache.uses, b, blockno); }
    IsPinned(cache, b, k);
    DataKept(bs, cache.bufs[..], b, cache.pins, data);
    DataAt(cache.bufs[..], cache.pins, data, k);
  }

  /** brelse of a buffer that is pinned or agrees with the disk. */
  method Release(cache: BufferCache, start: int, b: int, ghost data: seq<seq<int>>, ghost lb: int)
    requires During(cache, start, data) && 0 <= b < NBUF && Ready(cache.bufs[b], cache.bufs[b].blockno)
    requires cache.uses[b].pinned || Agrees(cache.bufs[b], cache.disk)
    requires 0 <= lb < NBUF && lb != b
    modifies cache.bufs, cache.next, cache.prev, cache`ring, cache`pos, cache`stamp, cache`clock, cache`uses
    ensures During(cache, start, data) && cache.bufs[lb] == old(cache.bufs[lb]) && cache.uses[lb] == old(cache.uses)[lb]
    ensures OnlyAt(old(cache.bufs[..]), cache.bufs[..], old(cache.uses), cache.uses, b) && !cache.bufs[b].locked
    ensures SameBlock(old(cache.bufs[b]), cache.bufs[b])
    ensures cache.uses[b] == old(cache.uses)[b].(users := old(cache.uses)[b].users - 1)
  {
    hide CacheOk, PinsOk, Coherent, HasData, Laid, Agrees, BufferCache.ListOk;
    ghost var bs := cache.bufs[..];
    Brelse(cache, b);
    SameData(bs[b], cache.bufs[b], cache.disk);
    DataKept(bs, cache.bufs[..], b, cache.pins, data);
  }

  /** memmove to a buffer that is not of the transaction, or of what it has already. */
  method Move(cache: BufferCache, start: int, b: int, d: seq<int>, ghost data: seq<seq<int>>)
    requires During(cache, start, data) && 0 <= b < NBUF && Ready(cache.bufs[b], cache.bufs[b].blockno)
    requires b !in cache.pins || cache.bufs[b].data == d
    modifies cache.bufs, cache`uses
    ensures During(cache, start, data) && cache.uses == old(cache.uses)
    ensures cache.bufs[..] == old(cache.bufs[..])[b := old(cache.bufs[b]).(data := d)]
  {
    hide CacheOk, PinsOk, Coherent, HasData, Laid, Agrees, BufferCache.ListOk;
    ghost var bs := cache.bufs[..];
    cache.Modify(b, d);
    DataKept(bs, cache.bufs[..], b, cache.pins, data);
  }

  /** bwrite. */
  method WriteOut(cache: BufferCache, start: int, b: int, ghost data: seq<seq<int>>)
    requires During(cache, start, data) && 0 <= b < NBUF && Ready(cache.bufs[b], cache.bufs[b].blockno)
    requires cache.bufs[b].blockno == start ==> |cache.bufs[b].data| == BSIZE
    modifies cache`disk, cache`disks
    ensures During(cache, start, data) && Agrees(cache.bufs[b], cache.disk)
    ensures cache.disks == old(cache.disks) + [cache.disk]
    ensures cache.disk == old(cache.disk)[Block(ROOTDEV, cache.bufs[b].blockno) := cache.bufs[b].data]
  {
    hide CacheOk, PinsOk, Coherent, HasData, Laid, Agrees, BufferCache.ListOk;
    StillLaid(cache.disk, start, cache.header, Block(ROOTDEV, cache.bufs[b].blockno), cache.bufs[b].data);
    cache.Write(b);
  }

  /** memmove and bwrite of a buffer that is not of the transaction. */
  method Overwrite(cache: BufferCache, start: int, b: int, d: seq<int>, ghost data: seq<seq<int>>, ghost hb: int)
    requires During(cache, start, data) && 0 <= b < NBUF && Ready(cache.bufs[b], cache.bufs[b].blockno)
    requires b !in cache.pins && 0 <= hb < NBUF && hb != b && (cache.bufs[b].blockno == start ==> |d| == BSIZE)
    modifies cache.bufs, cache`uses, cache`disk, cache`disks
    ensures During(cache, start, data) && cache.disk == old(cache.disk)[Block(ROOTDEV, cache.bufs[b].blockno) := d]
    ensures Ready(cache.bufs[b], old(cache.bufs[b]).blockno) && Agrees(cache.bufs[b], cache.disk)
    ensures cache.bufs[hb] == old(cache.bufs[hb]) && cache.uses == old(cache.uses)
    ensures cache.disks == old(cache.disks) + [cache.disk]
    ensures cache.bufs[..] == old(cache.bufs[..])[b := old(cache.bufs[b]).(data := d)]
  {
    hide During, Agrees;
    Sizes(cache, start, data);
    Move(cache, start, b, d, data);
    assert cache.bufs[..][b].data == d;
    WriteOut(cache, start, b, data);
  }

  /** A turn of write_log: one block of the header goes to its place in the log. */
  method CopyToLog(cache: BufferCache, start: int, k: int, ghost data: seq<seq<int>>) returns (r: Reading)
    requires During(cache, start, data) && cache.installed == 0 && 0 <= k < |data|
    modifies cache.bufs, cache.next, cache.prev, cache`ring, cache`pos, cache`stamp, cache`clock, cache`uses
    modifies cache`disk, cache`disks
    ensures During(cache, start, data)
    ensures r == Got ==> cache.disk == old(cache.disk)[Block(ROOTDEV, start + 1 + k) := data[k]]
    ensures r != Got ==> cache.disk == old(cache.disk)
    ensures cache.disks == old(cache.disks) + if r == Got then [cache.disk] else []
    ensures |cache.header| == |data|
    ensures r == Got <==>
              Passes(old(cache.bufs[..]), start + 1 + k) && !LockedAt(old(cache.bufs[..]), cache.header[k])
    ensures r == Got ==> Turned(old(cache.bufs[..]), old(cache.uses), cache.bufs[..], cache.uses, start + 1 + k)
    ensures r == Got ==> cache.uses == old(cache.uses)
  {
    hide During, HasData, Agrees, Passes, LockedAt, Taken, Turned;
    ghost var bs0, us0 := cache.bufs[..], cache.uses;
    Sizes(cache, start, data);
    NotOfTheLog(cache, start, data, k);
    var lb, hb;
    r, lb := ReadLog(cache, start, start + 1 + k, data);
    if r != Got { return; }
    ghost var bs1, us1 := cache.bufs[..], cache.uses;
    LocksElsewhere(bs0, us0, bs1, us1, lb, start + 1 + k, cache.header[k]);
    r, hb := ReadHome(cache, start, cache.header[k], k, data, lb);
    if r != Got { return; }
    ghost var bs2, us2 := cache.bufs[..], cache.uses;
    Overwrite(cache, start, lb, cache.bufs[hb].data, data, hb);
    Release(cache, start, hb, data, lb);
    ghost var bs3, us3 := cache.bufs[..], cache.uses;
    Release(cache, start, lb, data, hb);
    ghost var bs4, us4 := cache.bufs[..], cache.uses;
    assert bs3[hb] == bs4[hb] && us3[hb] == us4[hb];
    TwoTurns(bs0, us0, bs1, us1, bs2, us2, bs4, us4, lb, hb, start + 1 + k, cache.header[k]);
  }

  lemma NotOfTheLog(cache: BufferCache, start: int, data: seq<seq<int>>, k: int)
    requires During(cache, start, data) && 0 <= k < |cache.header|
    ensures !(start <= cache.header[k] <= start + LOGBLOCKS)
  {
  }

  /** write_log: every block of the header is in the log, and nothing else on the disk has changed. */
  method WriteLog(cache: BufferCache, start: int, ghost data: seq<seq<int>>) returns (r: Reading)
    requires During(cache, start, data) && cache.installed == 0
    modifies cache.bufs, cache.next, cache.prev, cache`ring, cache`pos, cache`stamp, cache`clock, cache`uses
    modifies cache`disk, cache`disks
    ensures During(cache, start, data) && |cache.header| == |data|
    ensures r == Got ==> cache.disk == LogCopied(old(cache.disk), start, data, |data|)
    ensures old(cache.disks) <= cache.disks
    ensures AllCopied(cache.disks, |old(cache.disks)|, old(cache.disk), start, data)
    ensures r == Got <==> forall k :: 0 <= k < |data| ==> TurnPasses(old(cache.bufs[..]), start, cache.header, k)
    ensures r == Got ==> Calm(old(cache.bufs[..]), old(cache.uses), cache.bufs[..], cache.uses, start, |data|)
    ensures r == Got ==> cache.uses == old(cache.uses)
  {
    hide During, Passes, LockedAt, Turned, Calm, CacheOk, IsCopied;
    ghost var bs0, us0 := cache.bufs[..], cache.uses;
    Sizes(cache, start, data);
    IsCacheOk(cache, start, data);
    CalmSelf(bs0, us0, start, |data|);
    var tail := 0;
    while tail < |cache.header|
      invariant 0 <= tail <= |cache.header| == |data| && During(cache, start, data)
      invariant cache.disk == LogCopied(old(cache.disk), start, data, tail) && old(cache.disks) <= cache.disks
      invariant AllCopied(cache.disks, |old(cache.disks)|, old(cache.disk), start, data)
      invariant Calm(bs0, us0, cache.bufs[..], cache.uses, start, |data|) && cache.uses == us0
      invariant forall k :: 0 <= k < tail ==> TurnPasses(bs0, start, cache.header, k)
    {
      ghost var bs, us, disks := cache.bufs[..], cache.uses, cache.disks;
      IsCacheOk(cache, start, data);
      TurnPassesSame(bs0, us0, bs, us, start, cache.header, tail);
      r := CopyToLog(cache, start, tail, data);
      if r != Got { return; }
      CopiedMore(disks, |old(cache.disks)|, old(cache.disk), start, data, tail + 1);
      CalmStep(bs0, us0, bs, us, cache.bufs[..], cache.uses, start, |data|, start + 1 + tail);
      tail := tail + 1;
    }
    r := Got;
  }

  /** The breads of a turn, of write_log or of install_trans, return. */
  ghost predicate TurnPasses(bufs: seq<Buf>, start: int, header: seq<int>, k: int) {
    0 <= k < |header| && Passes(bufs, start + 1 + k) && !LockedAt(bufs, header[k])
  }

  lemma IsCacheOk(cache: BufferCache, start: int, data: seq<seq<int>>)
    requires During(cache, start, data)
    ensures CacheOk(cache.bufs[..], cache.uses)
  {
  }

  lemma TurnPassesSame(bufs0: seq<Buf>, uses0: seq<Use>, bufs: seq<Buf>, uses: seq<Use>, start: int, header: seq<int>,
                       k: int)
    requires Calm(bufs0, uses0, bufs, uses, start, |header|) && CacheOk(bufs0, uses0) && CacheOk(bufs, uses)
    requires uses == uses0
    requires 0 <= k < |header|
    ensures TurnPasses(bufs, start, header, k) <==> TurnPasses(bufs0, start, header, k)
  {
    PassesSame(bufs0, uses0, bufs, uses, start + 1 + k);
    LocksStay(bufs0, uses0, bufs, uses, header[k]);
  }

  /** write_head: the header's block, and nothing else on the disk, changes, and then says what the header has. */
  method WriteHead(cache: BufferCache, start: int, ghost data: seq<seq<int>>) returns (r: Reading, ghost d: seq<int>)
    requires During(cache, start, data)
    modifies cache.bufs, cache.next, cache.prev, cache`ring, cache`pos, cache`stamp, cache`clock, cache`uses
    modifies cache`disk, cache`disks
    ensures During(cache, start, data)
    ensures cache.disk == if r == Got then old(cache.disk)[Block(ROOTDEV, start) := d] else old(cache.disk)
    ensures cache.disks == old(cache.disks) + if r == Got then [cache.disk] else []
    ensures r == Got ==> HoldsHead(d, cache.header)
    ensures r == Got <==> Passes(old(cache.bufs[..]), start)
    ensures r == Got ==> Turned(old(cache.bufs[..]), old(cache.uses), cache.bufs[..], cache.uses, start)
    ensures r == Got ==> cache.uses == old(cache.uses)
  {
    hide During, HasData, Passes, Taken, Turned, CachedAt;
    ghost var bs0, us0 := cache.bufs[..], cache.uses;
    d := [];
    Sizes(cache, start, data);
    HeadBlock(cache, start, data);
    var b;
    r, b := ReadLog(cache, start, start, data);
    if r != Got { return; }
    HeadBlock(cache, start, data);
    var e := FillHead(cache.bufs[b].data, cache.header);
    d := e;
    ghost var bs1, us1 := cache.bufs[..], cache.uses;
    ghost var other := if b == 0 then 1 else 0;
    Overwrite(cache, start, b, e, data, other);
    Release(cache, start, b, data, other);
    ghost var bs2, us2 := cache.bufs[..], cache.uses;
    assert bs2 == bs1[b := bs2[b]] && us2 == us1[b := us2[b]];
    OneTurn(bs0, us0, bs1, us1, bs2, us2, b, start);
    SameUse(bs0, us0, bs1, us1, b, start);
  }

  lemma HeadBlock(cache: BufferCache, start: int, data: seq<seq<int>>)
    requires During(cache, start, data)
    ensures Block(ROOTDEV, start) in cache.disk && |cache.disk[Block(ROOTDEV, start)]| == BSIZE
    ensures |cache.header| <= LOGBLOCKS && forall k :: 0 <= k < |cache.header| ==> 0 <= cache.header[k] < MAXWORD
  {
    assert start <= start <= start + LOGBLOCKS;
  }

  lemma SameUse(bufs: seq<Buf>, uses: seq<Use>, bufs': seq<Buf>, uses': seq<Use>, b: int, x: int)
    requires Taken(bufs, uses, bufs', uses', b, x)
    ensures uses'[b].pinned == uses[b].pinned
  {
  }

  /** memmove, bwrite and bunpin of a turn of install_trans. */
  method CopyHome(cache: BufferCache, start: int, b: int, d: seq<int>, ghost data: seq<seq<int>>, ghost lb: int)
    requires During(cache, start, data) && data != [] && d == data[0] && |cache.pins| == |data| && b == cache.pins[0]
    requires 0 <= b < NBUF && Ready(cache.bufs[b], cache.bufs[b].blockno) && 0 <= lb < NBUF && lb != b
    requires Ready(cache.bufs[lb], cache.bufs[lb].blockno) && Agrees(cache.bufs[lb], cache.disk)
    requires cache.bufs[b].blockno != start
    modifies cache.bufs, cache`uses, cache`disk, cache`disks, cache`pins, cache`installed
    ensures During(cache, start, data[1..]) && cache.installed == old(cache.installed) + 1
    ensures cache.disk == old(cache.disk)[Block(ROOTDEV, cache.bufs[b].blockno) := d]
    ensures Ready(cache.bufs[b], old(cache.bufs[b]).blockno) && Agrees(cache.bufs[b], cache.disk)
    ensures cache.bufs[lb] == old(cache.bufs[lb]) && Agrees(cache.bufs[lb], cache.disk)
    ensures cache.disks == old(cache.disks) + [cache.disk]
    ensures OnlyAt(old(cache.bufs[..]), cache.bufs[..], old(cache.uses), cache.uses, b)
    ensures cache.uses[b] == old(cache.uses)[b].(pinned := false)
  {
    hide During, Agrees, HasData;
    Sizes(cache, start, data);
    IsValid(cache, start, data);
    OtherBlock(cache, b, lb);
    FirstData(cache, start, data);
    ghost var bs, disk0 := cache.bufs[..], cache.disk;
    Move(cache, start, b, d, data);
    assert cache.bufs[..][b].data == d && cache.bufs[..][lb] == bs[lb];
    WriteOut(cache, start, b, data);
    AgreesElsewhere(bs[lb], disk0, Block(ROOTDEV, bs[b].blockno), d);
    TakePin(cache, start, b, data, lb);
  }

  lemma FirstData(cache: BufferCache, start: int, data: seq<seq<int>>)
    requires During(cache, start, data) && data != []
    ensures |cache.pins| == |data| && 0 <= cache.pins[0] < cache.bufs.Length
    ensures cache.bufs[cache.pins[0]].data == data[0]
  {
    DataAt(cache.bufs[..], cache.pins, data, 0);
  }

  lemma AgreesElsewhere(x: Buf, disk: map<Block, seq<int>>, k: Block, d: seq<int>)
    requires Agrees(x, disk) && k != Block(x.dev, x.blockno)
    ensures Agrees(x, disk[k := d])
  {
  }

  /** bunpin of the next block of the header. */
  method TakePin(cache: BufferCache, start: int, b: int, ghost data: seq<seq<int>>, ghost lb: int)
    requires During(cache, start, data) && data != [] && |cache.pins| == |data| && b == cache.pins[0]
    requires 0 <= b < NBUF && Ready(cache.bufs[b], cache.bufs[b].blockno) && Agrees(cache.bufs[b], cache.disk)
    requires 0 <= lb < NBUF && lb != b
    modifies cache.bufs, cache`uses, cache`pins, cache`installed
    ensures During(cache, start, data[1..]) && cache.installed == old(cache.installed) + 1
    ensures Ready(cache.bufs[b], old(cache.bufs[b]).blockno) && Agrees(cache.bufs[b], cache.disk)
    ensures cache.bufs[lb] == old(cache.bufs[lb])
    ensures OnlyAt(old(cache.bufs[..]), cache.bufs[..], old(cache.uses), cache.uses, b)
    ensures cache.uses[b] == old(cache.uses)[b].(pinned := false)
  {
    hide CacheOk, PinsOk, Coherent, HasData, Laid, Agrees, BufferCache.ListOk;
    ghost var bs := cache.bufs[..];
    cache.Unpin(b);
    ghost var bs' := cache.bufs[..];
    assert bs'[lb] == bs[lb] && bs'[b] == bs[b].(refcnt := bs[b].refcnt - 1);
    SameData(bs[b], bs'[b], cache.disk);
    DataTail(bs, bs', b, old(cache.pins), data);
  }

  /** Two buffers that are in use have different blocks. */
  lemma OtherBlock(cache: BufferCache, b: int, c: int)
    requires cache.Valid() && 0 <= b < NBUF && 0 <= c < NBUF && b != c
    requires cache.bufs[b].dev == cache.bufs[c].dev == ROOTDEV
    ensures cache.bufs[b].blockno != cache.bufs[c].blockno
  {
    assert cache.bufs[..][b].dev == cache.bufs[..][c].dev;
  }

  lemma DataTail(bufs: seq<Buf>, bufs': seq<Buf>, b: int, pins: seq<int>, data: seq<seq<int>>)
    requires HasData(bufs, pins, data) && data != [] && |bufs'| == |bufs| && 0 <= b < |bufs|
    requires bufs' == bufs[b := bufs'[b]] && bufs'[b].data == bufs[b].data
    ensures HasData(bufs', pins[1..], data[1..])
  {
    DataKept(bufs, bufs', b, pins, data);
  }

  /** A turn of install_trans: the next block of the header goes from the log to its place, and is unpinned. */
  method InstallOne(cache: BufferCache, start: int, tail: int, ghost data: seq<seq<int>>) returns (r: Reading)
    requires During(cache, start, data) && data != [] && cache.installed == tail
    requires Block(ROOTDEV, start + 1 + tail) in cache.disk && cache.disk[Block(ROOTDEV, start + 1 + tail)] == data[0]
    modifies cache.bufs, cache.next, cache.prev, cache`ring, cache`pos, cache`stamp, cache`clock, cache`uses
    modifies cache`disk, cache`disks
    modifies cache`pins, cache`installed
    ensures r == Got ==> During(cache, start, data[1..]) && cache.installed == tail + 1
    ensures r == Got ==> tail < |cache.header|
    ensures r == Got ==> cache.disk == old(cache.disk)[Block(ROOTDEV, cache.header[tail]) := data[0]]
    ensures r != Got ==> During(cache, start, data) && cache.installed == tail && cache.disk == old(cache.disk)
    ensures cache.disks == old(cache.disks) + if r == Got then [cache.disk] else []
    ensures r == Got <==> TurnPasses(old(cache.bufs[..]), start, cache.header, tail)
    ensures r == Got ==> Turned(old(cache.bufs[..]), old(cache.uses), cache.bufs[..], cache.uses, start + 1 + tail)
  {
    hide During, HasData, Passes, LockedAt, Taken, Turned;
    ghost var bs0, us0 := cache.bufs[..], cache.uses;
    Sizes(cache, start, data);
    NotOfTheLog(cache, start, data, tail);
    var lb, hb;
    r, lb := ReadLog(cache, start, start + 1 + tail, data);
    if r != Got { return; }
    ghost var bs1, us1 := cache.bufs[..], cache.uses;
    LocksElsewhere(bs0, us0, bs1, us1, lb, start + 1 + tail, cache.header[tail]);
    r, hb := ReadHome(cache, start, cache.header[tail], 0, data, lb);
    if r != Got { return; }
    ghost var bs2, us2 := cache.bufs[..], cache.uses;
    CopyHome(cache, start, hb, cache.bufs[lb].data, data, lb);
    Release(cache, start, lb, data[1..], hb);
    ghost var bs3, us3 := cache.bufs[..], cache.uses;
    Release(cache, start, hb, data[1..], lb);
    ghost var bs4, us4 := cache.bufs[..], cache.uses;
    assert bs3[lb] == bs4[lb] && us3[lb] == us4[lb];
    TwoTurns(bs0, us0, bs1, us1, bs2, us2, bs4, us4, lb, hb, start + 1 + tail, cache.header[tail]);
  }

  /** install_trans: every block of the header is at its place and unpinned. If all breads of the commit pass in a state
      before, then so they do here. */
  method InstallTrans(cache: BufferCache, start: int, ghost data: seq<seq<int>>, ghost disk0: map<Block, seq<int>>,
                      ghost bufs0: seq<Buf>, ghost uses0: seq<Use>)
    returns (r: Reading)
    requires During(cache, start, data) && cache.installed == 0
    requires CacheOk(bufs0, uses0) && Calm(bufs0, uses0, cache.bufs[..], cache.uses, start, |data|)
    requires cache.disk == disk0 && Laid(disk0, start, cache.header)
    requires forall k :: 0 <= k < |data| ==> disk0[Block(ROOTDEV, start + 1 + k)] == data[k]
    modifies cache.bufs, cache.next, cache.prev, cache`ring, cache`pos, cache`stamp, cache`clock, cache`uses
    modifies cache`disk, cache`disks
    modifies cache`pins, cache`installed
    ensures cache.Valid() && cache.NoStrays()
    ensures r == Got ==> cache.installed == |cache.header| == |data|
    ensures r == Got ==> cache.disk == Installed(disk0, cache.header, data, |data|)
    ensures old(cache.disks) <= cache.disks && |cache.header| == |data|
    ensures AllInstalled(cache.disks, |old(cache.disks)|, disk0, cache.header, data)
    ensures r == Got ==> During(cache, start, [])
    ensures CommitPasses(bufs0, start, cache.header) ==> r == Got
    ensures r == Got ==> Calm(bufs0, uses0, cache.bufs[..], cache.uses, start, |data|)
  {
    hide During, Laid, HasData, Coherent, CacheOk, PinsOk, Calm, Turned, CommitPasses, TurnPasses, IsInstalled;
    Sizes(cache, start, data);
    assert data[0..] == data;
    var tail := 0;
    while tail < |cache.header|
      invariant 0 <= tail <= |cache.header| == |data| && During(cache, start, data[tail..]) && cache.installed == tail
      invariant cache.disk == Installed(disk0, cache.header, data, tail) && old(cache.disks) <= cache.disks
      invariant AllInstalled(cache.disks, |old(cache.disks)|, disk0, cache.header, data)
      invariant Calm(bufs0, uses0, cache.bufs[..], cache.uses, start, |data|)
    {
      ghost var bs, us, disks := cache.bufs[..], cache.uses, cache.disks;
      SlotStays(disk0, start, cache.header, data, tail);
      TurnPassesLater(cache, start, data[tail..], bufs0, uses0, tail);
      r := InstallOne(cache, start, tail, data[tail..]);
      if r != Got { IsValid(cache, start, data[tail..]); return; }
      InstalledMore(disks, |old(cache.disks)|, disk0, cache.header, data, tail + 1);
      CalmStep(bufs0, uses0, bs, us, cache.bufs[..], cache.uses, start, |data|, start + 1 + tail);
      assert data[tail..][1..] == data[tail + 1..];
      tail := tail + 1;
    }
    assert data[tail..] == [];
    IsValid(cache, start, []);
    r := Got;
  }

  lemma TurnPassesLater(cache: BufferCache, start: int, data: seq<seq<int>>, bufs0: seq<Buf>, uses0: seq<Use>, k: int)
    requires During(cache, start, data) && CacheOk(bufs0, uses0) && 0 <= k < |cache.header|
    requires Calm(bufs0, uses0, cache.bufs[..], cache.uses, start, |cache.header|)
    ensures CommitPasses(bufs0, start, cache.header) ==> TurnPasses(cache.bufs[..], start, cache.header, k)
  {
    hide During, Calm, CacheOk, Passes, LockedAt;
    IsCacheOk(cache, start, data);
    if CommitPasses(bufs0, start, cache.header) {
      PassesLater(bufs0, uses0, cache.bufs[..], cache.uses, start, cache.header);
    }
  }

  lemma IsValid(cache: BufferCache, start: int, data: seq<seq<int>>)
    requires During(cache, start, data)
    ensures cache.Valid() && cache.NoStrays()
  {
  }

  ghost function DataOf(bufs: seq<Buf>, pins: seq<int>): (data: seq<seq<int>>)
    requires forall k :: 0 <= k < |pins| ==> 0 <= pins[k] < |bufs|
    ensures HasData(bufs, pins, data)
  {
    seq(|pins|, k requires 0 <= k < |pins| => bufs[pins[k]].data)
  }

  lemma PinsInRange(cache: BufferCache)
    requires cache.Valid()
    ensures |cache.pins| == |cache.header| - cache.installed
    ensures forall k :: 0 <= k < |cache.pins| ==> 0 <= cache.pins[k] < NBUF
  {
    forall k | 0 <= k < |cache.pins| ensures 0 <= cache.pins[k] < NBUF { cache.Pinned(k); }
  }

  /** commit. It goes through if and only if nobody has locked a block of the transaction or of the log that it needs,
      and each such block of the log is cached or some buffer is unused; otherwise a bread on the way waits, or finds
      all buffers in use. Afterwards the blocks of the transaction are on the disk as they were in the cache, nothing is
      pinned, and the cache is coherent: unlocked buffers now agree with the disk without exception. */
  method Commit(cache: BufferCache, start: int)
    returns (r: Reading, ghost data: seq<seq<int>>)
    requires cache.Valid() && cache.NoStrays() && cache.installed == 0 && Laid(cache.disk, start, cache.header)
    modifies cache, cache.bufs, cache.next, cache.prev
    ensures cache.Valid() && cache.NoStrays() && HasData(old(cache.bufs[..]), old(cache.pins), data)
    ensures r == Got ==> cache.header == [] && cache.installed == 0
    ensures r == Got ==> forall b :: 0 <= b < NBUF ==> !cache.uses[b].pinned
    ensures r == Got ==> Committed(old(cache.disk), cache.disk, start, old(cache.header), data)
    ensures r == Got && old(cache.header) != [] ==>
              Block(ROOTDEV, start) in cache.disk && HoldsHead(cache.disk[Block(ROOTDEV, start)], [])
    ensures r == Got <==> old(cache.header) == [] || CommitPasses(old(cache.bufs[..]), start, old(cache.header))
    ensures old(cache.disks) <= cache.disks && |old(cache.header)| == |data|
    ensures Clean(old(cache.disk), start) ==>
              AllWhole(cache.disks, |old(cache.disks)|, start, old(cache.disk), old(cache.header), data)
  {
    hide CacheOk, PinsOk, Coherent, Laid, DataOf, CommitPasses;
    PinsInRange(cache);
    data := DataOf(cache.bufs[..], cache.pins);
    NonePinned(cache);
    if cache.header == [] { return Got, data; }
    r := CommitLogged(cache, start, data);
  }

  lemma NonePinned(cache: BufferCache)
    requires cache.Valid()
    ensures cache.pins == [] ==> forall b :: 0 <= b < NBUF ==> !cache.uses[b].pinned
  {
  }

  /** write_log and the first write_head: the commit point. */
  method LogAndHead(cache: BufferCache, start: int, ghost data: seq<seq<int>>) returns (r: Reading, ghost d: seq<int>)
    requires During(cache, start, data) && cache.installed == 0
    modifies cache.bufs, cache.next, cache.prev, cache`ring, cache`pos, cache`stamp, cache`clock, cache`uses
    modifies cache`disk, cache`disks
    ensures During(cache, start, data) && |cache.header| == |data| && old(cache.disks) <= cache.disks
    ensures CommitPasses(old(cache.bufs[..]), start, cache.header) <==> r == Got
    ensures r == Got ==> Calm(old(cache.bufs[..]), old(cache.uses), cache.bufs[..], cache.uses, start, |data|)
    ensures r == Got ==> HoldsHead(d, cache.header)
    ensures r == Got ==>
              cache.disk == LogCopied(old(cache.disk), start, data, |data|)[Block(ROOTDEV, start) := d]
    ensures Clean(old(cache.disk), start) ==>
              AllWhole(cache.disks, |old(cache.disks)|, start, old(cache.disk), cache.header, data)
  {
    hide During, Laid, LogCopied, Calm, Turned, CommitPasses, TurnPasses, Passes, CacheOk, Whole, HoldsHead, AllCopied;
    hide AllWhole, Clean;
    ghost var bs0, us0, header, disk0, from := cache.bufs[..], cache.uses, cache.header, cache.disk, |cache.disks|;
    d := [];
    Sizes(cache, start, data);
    IsLaid(cache, start, data);
    IsCacheOk(cache, start, data);
    r := WriteLog(cache, start, data);
    if Clean(disk0, start) { AllCopying(cache.disks, from, start, disk0, header, data); }
    TurnsOfCommit(bs0, start, header);
    if r != Got { return; }
    ghost var bs1, us1, disks1 := cache.bufs[..], cache.uses, cache.disks;
    IsCacheOk(cache, start, data);
    HeadPasses(bs0, us0, bs1, us1, start, header);
    r, d := WriteHead(cache, start, data);
    if r != Got { assert cache.disks == disks1; return; }
    CalmStep(bs0, us0, bs1, us1, cache.bufs[..], cache.uses, start, |data|, start);
    HeadWritten(disk0, disks1, cache.disks, from, cache.disk, start, header, data, d);
  }

  /** The rest of commit, when there is something to do. */
  method CommitLogged(cache: BufferCache, start: int, ghost data: seq<seq<int>>) returns (r: Reading)
    requires During(cache, start, data) && cache.installed == 0
    modifies cache, cache.bufs, cache.next, cache.prev
    ensures cache.Valid() && cache.NoStrays()
    ensures r == Got ==> cache.header == [] && cache.installed == 0
    ensures r == Got ==> forall b :: 0 <= b < |cache.uses| ==> !cache.uses[b].pinned
    ensures r == Got ==> Committed(old(cache.disk), cache.disk, start, old(cache.header), data)
    ensures r == Got ==> Block(ROOTDEV, start) in cache.disk && HoldsHead(cache.disk[Block(ROOTDEV, start)], [])
    ensures r == Got <==> CommitPasses(old(cache.bufs[..]), start, old(cache.header))
    ensures old(cache.disks) <= cache.disks && |old(cache.header)| == |data|
    ensures Clean(old(cache.disk), start) ==>
              AllWhole(cache.disks, |old(cache.disks)|, start, old(cache.disk), old(cache.header), data)
  {
    hide During, Laid, Committed, LogCopied, Installed, Calm, CommitPasses, CacheOk, Whole, HoldsHead, AllInstalled;
    hide AllWhole, Clean;
    ghost var bs0, us0, header, disk0, from := cache.bufs[..], cache.uses, cache.header, cache.disk, |cache.disks|;
    ghost var d;
    IsLaid(cache, start, data);
    IsCacheOk(cache, start, data);
    r, d := LogAndHead(cache, start, data);
    IsValid(cache, start, data);
    if r != Got { return; }
    ghost var disk1, disks1 := cache.disk, cache.disks;
    OnTheDisk(disk0, disk1, start, header, data, d);
    r := InstallTrans(cache, start, data, disk1, bs0, us0);
    if Clean(disk0, start) {
      AllInstalling(cache.disks, |disks1|, start, disk0, disk1, header, data);
      AllJoin(disks1, cache.disks, from, start, disk0, header, data);
    }
    if r != Got { return; }
    r := Finish(cache, start, disk0, disk1, from, header, data, bs0, us0, d);
  }

  lemma OnTheDisk(disk0: map<Block, seq<int>>, disk1: map<Block, seq<int>>, start: int, header: seq<int>,
                  data: seq<seq<int>>, d: seq<int>)
    requires Laid(disk0, start, header) && |header| == |data| && HoldsHead(d, header)
    requires disk1 == LogCopied(disk0, start, data, |data|)[Block(ROOTDEV, start) := d]
    ensures Laid(disk1, start, header) && HoldsHead(disk1[Block(ROOTDEV, start)], header)
    ensures forall k :: 0 <= k < |data| ==> disk1[Block(ROOTDEV, start + 1 + k)] == data[k]
    ensures forall x :: x in disk0 && !InLog(x, start) ==> x in disk1 && disk1[x] == disk0[x]
  {
    hide LogCopied, Laid, HoldsHead;
    HeadSize(d, header);
    LoggedDisk(disk0, start, header, data, d);
  }

  /** The disk once the header is on it. */
  lemma HeadWritten(disk0: map<Block, seq<int>>, disks1: seq<map<Block, seq<int>>>, disks: seq<map<Block, seq<int>>>,
                    from: int, disk1: map<Block, seq<int>>, start: int, header: seq<int>, data: seq<seq<int>>,
                    d: seq<int>)
    requires Laid(disk0, start, header) && |header| == |data| && HoldsHead(d, header)
    requires disk1 == LogCopied(disk0, start, data, |data|)[Block(ROOTDEV, start) := d] && disks == disks1 + [disk1]
    requires 0 <= from <= |disks1| && (Clean(disk0, start) ==> AllWhole(disks1, from, start, disk0, header, data))
    ensures Clean(disk0, start) ==> AllWhole(disks, from, start, disk0, header, data)
  {
    hide LogCopied, Laid, HoldsHead, Whole;
    OnTheDisk(disk0, disk1, start, header, data, d);
    assert Installed(disk1, header, data, 0) == disk1;
    InstallingIsWhole(disk0, disk1, start, header, data, 0);
    if Clean(disk0, start) { AllJoin(disks1, disks, from, start, disk0, header, data); }
  }

  /** The end of commit: lh.n = 0 and the last write_head. */
  method Finish(cache: BufferCache, start: int, ghost disk0: map<Block, seq<int>>, ghost disk1: map<Block, seq<int>>,
                ghost from: int, ghost header: seq<int>, ghost data: seq<seq<int>>, ghost bs0: seq<Buf>,
                ghost us0: seq<Use>, ghost d: seq<int>)
    returns (r: Reading)
    requires During(cache, start, []) && cache.installed == |cache.header| == |data| && cache.header == header
    requires Laid(disk0, start, header) && HoldsHead(d, header) && 0 <= from <= |cache.disks|
    requires disk1 == LogCopied(disk0, start, data, |data|)[Block(ROOTDEV, start) := d]
    requires cache.disk == Installed(disk1, header, data, |data|)
    requires CacheOk(bs0, us0) && Calm(bs0, us0, cache.bufs[..], cache.uses, start, |data|)
    requires CommitPasses(bs0, start, header)
    requires Clean(disk0, start) ==> AllWhole(cache.disks, from, start, disk0, header, data)
    modifies cache, cache.bufs, cache.next, cache.prev
    ensures cache.Valid() && cache.NoStrays() && r == Got
    ensures cache.header == [] && cache.installed == 0 && forall b :: 0 <= b < |cache.uses| ==> !cache.uses[b].pinned
    ensures Committed(disk0, cache.disk, start, header, data)
    ensures Block(ROOTDEV, start) in cache.disk && HoldsHead(cache.disk[Block(ROOTDEV, start)], [])
    ensures old(cache.disks) <= cache.disks
    ensures Clean(disk0, start) ==> AllWhole(cache.disks, from, start, disk0, header, data)
  {
    hide During, Laid, Committed, LogCopied, Installed, Calm, Turned, CommitPasses, TurnPasses, Passes, CacheOk;
    hide WordAt, Whole, Clean, HoldsHead;
    ghost var e, disks2 := [], cache.disks;
    Forget(cache, start);
    IsCacheOk(cache, start, []);
    PassesLater(bs0, us0, cache.bufs[..], cache.uses, start, header);
    LastPasses(cache.bufs[..], start, header);
    r, e := WriteHead(cache, start, []);
    HeadSize(d, header);
    LoggedDisk(disk0, start, header, data, d);
    CommitDisk(disk0, start, header, data, d, e);
    InstalledIsWhole(disk0, disk1, start, header, data, e);
    if Clean(disk0, start) { AllJoin(disks2, cache.disks, from, start, disk0, header, data); }
    IsValid(cache, start, []);
    Sizes(cache, start, []);
    NonePinned(cache);
  }

  lemma HeadSize(d: seq<int>, header: seq<int>)
    requires HoldsHead(d, header)
    ensures |d| == BSIZE
  {
  }

  /** All breads pass exactly if those of the turns and that of the header block do. */
  lemma TurnsOfCommit(bufs: seq<Buf>, start: int, header: seq<int>)
    ensures CommitPasses(bufs, start, header) <==>
              (forall k :: 0 <= k < |header| ==> TurnPasses(bufs, start, header, k)) && Passes(bufs, start)
  {
    hide Passes, LockedAt;
    if (forall k :: 0 <= k < |header| ==> TurnPasses(bufs, start, header, k)) && Passes(bufs, start) {
      forall x | start <= x <= start + |header| ensures Passes(bufs, x) {
        if start < x { assert TurnPasses(bufs, start, header, x - start - 1); }
      }
      forall k | 0 <= k < |header| ensures !LockedAt(bufs, header[k]) {
        assert TurnPasses(bufs, start, header, k);
      }
    }
  }

  lemma HeadPasses(bufs0: seq<Buf>, uses0: seq<Use>, bufs: seq<Buf>, uses: seq<Use>, start: int, header: seq<int>)
    requires Calm(bufs0, uses0, bufs, uses, start, |header|) && CacheOk(bufs0, uses0) && CacheOk(bufs, uses)
    requires uses == uses0
    ensures Passes(bufs, start) <==> Passes(bufs0, start)
  {
    PassesSame(bufs0, uses0, bufs, uses, start);
  }

  lemma LastPasses(bufs: seq<Buf>, start: int, header: seq<int>)
    requires CommitPasses(bufs, start, header)
    ensures Passes(bufs, start)
  {
  }

  lemma IsLaid(cache: BufferCache, start: int, data: seq<seq<int>>)
    requires During(cache, start, data)
    ensures Laid(cache.disk, start, cache.header)
  {
  }

  /** lh.n = 0 in commit, when every block has been installed. */
  method Forget(cache: BufferCache, start: int)
    requires During(cache, start, []) && cache.installed == |cache.header|
    modifies cache`header, cache`installed
    ensures During(cache, start, []) && cache.header == [] && cache.installed == 0
  {
    hide CacheOk, PinsOk, Coherent;
    cache.Clear();
  }
}
