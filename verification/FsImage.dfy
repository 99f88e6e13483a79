/** The file system image of kernel/fs.c: the free bitmap, the data blocks and the inodes' block trees.

    Bitmap blocks, inode blocks and data blocks have different block numbers, so they are kept in
    different fields. `addrs` and `isize` are the current fields of every allocated inode. */
module FsImage {
  import opened FsBytes

  const NDIRECT: int := 12
  const MAXFILE: int := NDIRECT + NINDIRECT

  datatype Super = Super(size: int, datastart: int, bmapstart: int, inodestart: int)

  datatype Image = Image(bitmap: seq<seq<int>>, data: map<int, seq<int>>, addrs: map<int, seq<int>>,
                         isize: map<int, int>)

  /** A place that can name a data block: a direct address, the indirect pointer, an indirect entry. */
  datatype Slot = Direct(inum: int, k: int) | Indirect(inum: int) | Entry(inum: int, j: int)

  predicate GeometryOk(sb: Super) {
    0 < sb.inodestart < sb.bmapstart < sb.datastart <= sb.size < 0x1_0000_0000
  }

  /** The bit of block b in the free bitmap. */
  ghost predicate Marked(bitmap: seq<seq<int>>, b: int) {
    && 0 <= b / BPB < |bitmap| && |bitmap[b / BPB]| == BSIZE
    && BitOf(bitmap[b / BPB], b % BPB)
  }

  ghost predicate BitmapOk(sb: Super, bitmap: seq<seq<int>>) {
    && sb.size <= |bitmap| * BPB && sb.bmapstart + |bitmap| <= sb.datastart
    && (forall k :: 0 <= k < |bitmap| ==> FsBytes.IsBlock(bitmap[k]))
    && (forall b :: 0 <= b < sb.datastart ==> Marked(bitmap, b))
  }

  ghost predicate DataOk(sb: Super, data: map<int, seq<int>>) {
    && (forall b :: b in data <==> sb.datastart <= b < sb.size)
    && (forall b :: b in data ==> FsBytes.IsBlock(data[b]))
  }

  ghost predicate InodesOk(sb: Super, im: Image) {
    && (forall i :: i in im.addrs ==> |im.addrs[i]| == NDIRECT + 1)
    && (forall i :: i in im.addrs <==> i in im.isize)
    && (forall i :: i in im.isize ==> 0 <= im.isize[i] <= MAXFILE * BSIZE)
  }

  ghost predicate ImageOk(sb: Super, im: Image) {
    GeometryOk(sb) && BitmapOk(sb, im.bitmap) && DataOk(sb, im.data) && InodesOk(sb, im)
  }

  /** The block a slot names; 0 when it names none. */
  ghost function Val(im: Image, s: Slot): int {
    if s.inum !in im.addrs || |im.addrs[s.inum]| != NDIRECT + 1 then 0
    else match s
      case Direct(i, k) => if 0 <= k < NDIRECT then im.addrs[i][k] else 0
      case Indirect(i) => im.addrs[i][NDIRECT]
      case Entry(i, j) => EntryVal(im.data, im.addrs[i][NDIRECT], j)
  }

  ghost function EntryVal(data: map<int, seq<int>>, table: int, j: int): int {
    if 0 <= j < NINDIRECT && table in data && |data[table]| == BSIZE then Word(data[table], j) else 0
  }

  /** Every data block marked in the bitmap is named by exactly one slot of exactly one inode, and
      every block a slot names is marked. */
  ghost predicate Owned(sb: Super, im: Image, owner: map<int, Slot>) {
    && (forall b :: b in owner <==> b in im.data && Marked(im.bitmap, b))
    && (forall b :: b in owner ==> Val(im, owner[b]) == b)
    && (forall s :: Val(im, s) != 0 ==> Val(im, s) in owner && owner[Val(im, s)] == s)
  }

  /** The slot for block bn of a file. */
  function SlotOf(i: int, bn: int): Slot {
    if bn < NDIRECT then Direct(i, bn) else Entry(i, bn - NDIRECT)
  }

  /** Later images keep every file block where it is, with its contents. */
  ghost predicate Extends(im: Image, im': Image) {
    && (forall i :: i in im.addrs <==> i in im'.addrs) && im'.isize == im.isize
    && (forall s :: Val(im, s) != 0 ==> Val(im', s) == Val(im, s))
    && (forall s :: Val(im, s) != 0 && !s.Indirect? && Val(im, s) in im.data ==>
          Val(im, s) in im'.data && im'.data[Val(im, s)] == im.data[Val(im, s)])
  }

  // ---------------------------------------------------------------- marking and unmarking blocks

  function SetMark(bitmap: seq<seq<int>>, b: int): seq<seq<int>>
    requires 0 <= b / BPB < |bitmap| && |bitmap[b / BPB]| == BSIZE
  {
    bitmap[b / BPB := SetBit(bitmap[b / BPB], b % BPB)]
  }

  function ClearMark(bitmap: seq<seq<int>>, b: int): seq<seq<int>>
    requires 0 <= b / BPB < |bitmap| && |bitmap[b / BPB]| == BSIZE
  {
    bitmap[b / BPB := ClearBit(bitmap[b / BPB], b % BPB)]
  }

  lemma SetMarkMarks(sb: Super, bitmap: seq<seq<int>>, b: int)
    requires GeometryOk(sb) && BitmapOk(sb, bitmap) && 0 <= b < sb.size
    ensures 0 <= b / BPB < |bitmap| && |bitmap[b / BPB]| == BSIZE
    ensures BitmapOk(sb, SetMark(bitmap, b))
    ensures forall c :: Marked(SetMark(bitmap, b), c) <==> c == b || Marked(bitmap, c)
  {
    SetBitBits(bitmap[b / BPB], b % BPB);
    var bitmap' := SetMark(bitmap, b);
    forall c
      ensures Marked(bitmap', c) <==> c == b || Marked(bitmap, c)
    {
      assert c == b <==> c / BPB == b / BPB && c % BPB == b % BPB;
    }
    assert forall c :: 0 <= c < sb.datastart ==> Marked(bitmap, c);
  }

  lemma ClearMarkMarks(sb: Super, bitmap: seq<seq<int>>, b: int)
    requires GeometryOk(sb) && BitmapOk(sb, bitmap) && sb.datastart <= b < sb.size
    ensures 0 <= b / BPB < |bitmap| && |bitmap[b / BPB]| == BSIZE
    ensures BitmapOk(sb, ClearMark(bitmap, b))
    ensures forall c :: Marked(ClearMark(bitmap, b), c) <==> c != b && Marked(bitmap, c)
  {
    ClearBitBits(bitmap[b / BPB], b % BPB);
    var bitmap' := ClearMark(bitmap, b);
    forall c
      ensures Marked(bitmap', c) <==> c != b && Marked(bitmap, c)
    {
      assert c == b <==> c / BPB == b / BPB && c % BPB == b % BPB;
    }
    assert forall c :: 0 <= c < sb.datastart ==> Marked(bitmap, c);
  }

  // ---------------------------------------------------------------- naming a new block

  /** What balloc does: mark block b and clear it. */
  ghost function Allocated(im: Image, b: int): Image
    requires 0 <= b / BPB < |im.bitmap| && |im.bitmap[b / BPB]| == BSIZE
  {
    im.(bitmap := SetMark(im.bitmap, b), data := im.data[b := ZeroBlock()])
  }

  /** A slot that exists and names no block. */
  ghost predicate Vacant(im: Image, s: Slot) {
    && s.inum in im.addrs && |im.addrs[s.inum]| == NDIRECT + 1 && Val(im, s) == 0
    && (s.Direct? ==> 0 <= s.k < NDIRECT)
    && (s.Entry? ==>
          0 <= s.j < NINDIRECT && im.addrs[s.inum][NDIRECT] in im.data && |im.data[im.addrs[s.inum][NDIRECT]]| == BSIZE)
  }

  ghost function PutSlot(im: Image, s: Slot, b: int): Image
    requires Vacant(im, s)
  {
    match s
    case Direct(i, k) => im.(addrs := im.addrs[i := im.addrs[i][k := b]])
    case Indirect(i) => im.(addrs := im.addrs[i := im.addrs[i][NDIRECT := b]])
    case Entry(i, j) =>
      var table := im.addrs[i][NDIRECT];
      im.(data := im.data[table := PutWord(im.data[table], j, b)])
  }

  /** Clearing a block that no slot names changes no slot. */
  lemma AllocatedVals(sb: Super, im: Image, owner: map<int, Slot>, b: int)
    requires ImageOk(sb, im) && Owned(sb, im, owner) && b in im.data && !Marked(im.bitmap, b)
    ensures 0 <= b / BPB < |im.bitmap| && |im.bitmap[b / BPB]| == BSIZE
    ensures ImageOk(sb, Allocated(im, b))
    ensures forall s :: Val(Allocated(im, b), s) == Val(im, s)
  {
    SetMarkMarks(sb, im.bitmap, b);
    var im' := Allocated(im, b);
    assert b !in owner;
    forall s
      ensures Val(im', s) == Val(im, s)
    {
      if s.Entry? && s.inum in im.addrs {
        assert Val(im, Indirect(s.inum)) != b;
      }
    }
  }

  lemma PutSlotVals(sb: Super, im: Image, owner: map<int, Slot>, s: Slot, b: int)
    requires ImageOk(sb, im) && Vacant(im, s) && b in im.data && im.data[b] == ZeroBlock()
    requires forall t :: Val(im, t) != 0 ==> Val(im, t) in owner && owner[Val(im, t)] == t
    ensures ImageOk(sb, PutSlot(im, s, b))
    ensures forall t :: Val(PutSlot(im, s, b), t) == if t == s then b else Val(im, t)
  {
    var im' := PutSlot(im, s, b);
    ZeroBlockWords();
    if s.Entry? {
      var table := im.addrs[s.inum][NDIRECT];
      PutWordWords(im.data[table], s.j, b);
    }
    forall t
      ensures Val(im', t) == if t == s then b else Val(im, t)
    {
      if t.Entry? && t.inum in im.addrs {
        var mine, theirs := Val(im, Indirect(s.inum)), Val(im, Indirect(t.inum));
        assert s.Entry? && mine == theirs ==> s.inum == t.inum;
      }
    }
  }

  /** Naming a freshly allocated block in a vacant slot keeps exact ownership and every file. */
  lemma InstallKeepsOwned(sb: Super, im: Image, owner: map<int, Slot>, s: Slot, b: int)
    requires ImageOk(sb, im) && Owned(sb, im, owner) && Vacant(im, s) && b in im.data && !Marked(im.bitmap, b)
    ensures 0 <= b / BPB < |im.bitmap| && |im.bitmap[b / BPB]| == BSIZE && Vacant(Allocated(im, b), s)
    ensures var im' := PutSlot(Allocated(im, b), s, b);
      && ImageOk(sb, im') && Owned(sb, im', owner[b := s]) && Extends(im, im')
      && Val(im', s) == b && b in im'.data && im'.data[b] == ZeroBlock()
      && (forall t :: Val(im', t) == if t == s then b else Val(im, t))
  {
    AllocatedVals(sb, im, owner, b);
    var im1 := Allocated(im, b);
    assert Val(im, Indirect(s.inum)) != b;
    PutSlotVals(sb, im1, owner, s, b);
    SetMarkMarks(sb, im.bitmap, b);
  }

  // ---------------------------------------------------------------- forgetting blocks

  /** Val, but the first n entries of inode i's indirect block count as empty. */
  ghost function ValBut(im: Image, i: int, n: int, t: Slot): int {
    if t.Entry? && t.inum == i && t.j < n then 0 else Val(im, t)
  }

  /** Owned, but the first n entries of inode i's indirect block count as empty. */
  ghost predicate OwnedBut(sb: Super, im: Image, owner: map<int, Slot>, i: int, n: int) {
    && (forall b :: b in owner <==> b in im.data && Marked(im.bitmap, b))
    && (forall b :: b in owner ==> ValBut(im, i, n, owner[b]) == b)
    && (forall t :: ValBut(im, i, n, t) != 0 ==> ValBut(im, i, n, t) in owner && owner[ValBut(im, i, n, t)] == t)
  }

  lemma OwnedIsOwnedBut(sb: Super, im: Image, owner: map<int, Slot>, i: int)
    requires Owned(sb, im, owner)
    ensures OwnedBut(sb, im, owner, i, 0)
  {
    assert forall t :: ValBut(im, i, 0, t) == Val(im, t);
  }

  /** A block whose bit is clear and which the slot s no longer names has left the ownership map. */
  lemma DropKeepsOwned(sb: Super, im: Image, owner: map<int, Slot>, i: int, n: int, s: Slot, b: int,
                       im': Image, i': int, n': int)
    requires OwnedBut(sb, im, owner, i, n) && ValBut(im, i, n, s) == b != 0
    requires forall c :: Marked(im'.bitmap, c) <==> c != b && Marked(im.bitmap, c)
    requires forall c :: c in im'.data <==> c in im.data
    requires forall t :: ValBut(im', i', n', t) == if t == s then 0 else ValBut(im, i, n, t)
    ensures b in owner && owner[b] == s && b in im.data && Marked(im.bitmap, b)
    ensures OwnedBut(sb, im', owner - {b}, i', n')
  {
    forall c: int | c in im.data && c != b
      ensures c in owner <==> Marked(im'.bitmap, c)
    {
    }
  }

  lemma NamedIsMarked(sb: Super, im: Image, owner: map<int, Slot>, i: int, n: int, s: Slot)
    requires OwnedBut(sb, im, owner, i, n) && ValBut(im, i, n, s) != 0
    ensures var b := ValBut(im, i, n, s); b in im.data && Marked(im.bitmap, b) && b in owner && owner[b] == s
  {
  }

  lemma SkipEntry(sb: Super, im: Image, owner: map<int, Slot>, i: int, j: int)
    requires OwnedBut(sb, im, owner, i, j) && ValBut(im, i, j, Entry(i, j)) == 0
    ensures OwnedBut(sb, im, owner, i, j + 1)
  {
    var n := j + 1;
    forall t: Slot
      ensures ValBut(im, i, n, t) == ValBut(im, i, j, t)
    {
    }
  }
}
