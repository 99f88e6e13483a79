/** Files as flat byte sequences over the block trees of FsImage. */
module FsContent {
  import opened FsBytes
  import opened FsImage

  /** Byte k of the file with inode i. */
  ghost function ByteAt(im: Image, i: int, k: int): int {
    var b := Val(im, SlotOf(i, k / BSIZE));
    if b in im.data && |im.data[b]| == BSIZE then im.data[b][k % BSIZE] else 0
  }

  /** The contents of the file with inode i. */
  ghost function Content(im: Image, i: int): seq<int>
    requires i in im.isize && im.isize[i] >= 0
  {
    seq(im.isize[i], (k: int) => ByteAt(im, i, k))
  }

  /** Every block below a file's size is mapped. */
  ghost predicate Complete(im: Image) {
    forall i, bn {:trigger SlotOf(i, bn)} ::
      i in im.isize && 0 <= bn && bn * BSIZE < im.isize[i] ==> Val(im, SlotOf(i, bn)) != 0
  }

  /** Overwrite part of a byte sequence, extending it at the end if need be. */
  function Splice(s: seq<int>, off: int, t: seq<int>): seq<int>
    requires 0 <= off <= |s|
  {
    s[..off] + t + if off + |t| < |s| then s[off + |t|..] else []
  }

  /** Mapping more blocks changes no byte below a file's size. */
  lemma ExtendsKeepsByte(sb: Super, im: Image, owner: map<int, Slot>, im': Image, i: int, k: int)
    requires Owned(sb, im, owner) && Extends(im, im') && Complete(im)
    requires i in im.isize && 0 <= k < im.isize[i]
    ensures ByteAt(im', i, k) == ByteAt(im, i, k)
  {
    var s := SlotOf(i, k / BSIZE);
    assert Val(im, s) != 0;
  }

  lemma ExtendsKeepsComplete(im: Image, im': Image)
    requires Extends(im, im') && Complete(im)
    ensures Complete(im')
  {
  }

  /** Rewriting a file's data block changes no slot and no byte of any other block. */
  lemma PatchKeeps(sb: Super, im: Image, owner: map<int, Slot>, s: Slot, b: int, blk: seq<int>)
    requires ImageOk(sb, im) && Owned(sb, im, owner) && Val(im, s) == b != 0 && !s.Indirect? && FsBytes.IsBlock(blk)
    ensures b in im.data
    ensures var im' := im.(data := im.data[b := blk]);
      && ImageOk(sb, im') && Owned(sb, im', owner)
      && (forall t :: Val(im', t) == Val(im, t))
      && (forall t :: Val(im, t) == b ==> t == s)
  {
    var im' := im.(data := im.data[b := blk]);
    assert b in im.data;
    forall t
      ensures Val(im', t) == Val(im, t)
    {
      if t.Entry? && t.inum in im.addrs {
        var table := Val(im, Indirect(t.inum));
        assert table != b;
      }
    }
  }

  lemma PatchKeepsByte(im: Image, im': Image, i: int, bn: int, b: int, blk: seq<int>, j: int, k: int)
    requires im' == im.(data := im.data[b := blk]) && Val(im, SlotOf(i, bn)) == b && b in im.data
    requires forall t :: Val(im', t) == Val(im, t)
    requires forall t :: Val(im, t) == b ==> t == SlotOf(i, bn)
    requires 0 <= bn && 0 <= k && (j != i || k / BSIZE != bn)
    ensures ByteAt(im', j, k) == ByteAt(im, j, k)
  {
    var s := SlotOf(j, k / BSIZE);
    assert s != SlotOf(i, bn);
  }

  // ---------------------------------------------------------------- writing

  /** im differs from im0 only in that the first tot bytes of src are in file i from off on. Sizes
      are still those of im0; all blocks that hold written bytes are mapped. */
  ghost predicate Written(im0: Image, im: Image, i: int, off: int, src: seq<int>, tot: int)
    requires 0 <= tot <= |src|
  {
    && im.isize == im0.isize && Complete(im)
    && (forall bn {:trigger SlotOf(i, bn)} :: 0 <= bn && bn * BSIZE < off + tot ==> Val(im, SlotOf(i, bn)) != 0)
    && (forall j, k :: j in im0.isize && 0 <= k < im0.isize[j] && !(j == i && off <= k < off + tot) ==>
          ByteAt(im, j, k) == ByteAt(im0, j, k))
    && (forall k :: off <= k < off + tot ==> ByteAt(im, i, k) == src[k - off])
  }

  lemma NothingWritten(im: Image, i: int, off: int, src: seq<int>)
    requires Complete(im) && i in im.isize && 0 <= off <= im.isize[i]
    ensures Written(im, im, i, off, src, 0)
  {
  }

  /** Mapping the next block keeps what has been written. */
  lemma MapKeepsWritten(sb: Super, im0: Image, im: Image, owner: map<int, Slot>, im': Image, i: int, off: int,
                        src: seq<int>, tot: int)
    requires 0 <= tot <= |src| && 0 <= off && Written(im0, im, i, off, src, tot)
    requires Owned(sb, im, owner) && Extends(im, im')
    ensures Written(im0, im', i, off, src, tot)
  {
    ExtendsKeepsComplete(im, im');
    forall j, k | j in im0.isize && 0 <= k < im0.isize[j] && !(j == i && off <= k < off + tot)
      ensures ByteAt(im', j, k) == ByteAt(im0, j, k)
    {
      ExtendsKeepsByte(sb, im, owner, im', j, k);
    }
    forall k | off <= k < off + tot
      ensures ByteAt(im', i, k) == src[k - off]
    {
      var bn := k / BSIZE;
      assert Val(im, SlotOf(i, bn)) != 0;
      assert ByteAt(im, i, k) == src[k - off];
    }
  }

  /** Copying the next m bytes into their block writes exactly those. */
  lemma PatchWrites(sb: Super, im0: Image, im: Image, owner: map<int, Slot>, im': Image, i: int, off: int,
                    src: seq<int>, tot: int, m: int, addr: int, blk: seq<int>)
    requires 0 <= tot && 0 < m && tot + m <= |src| && 0 <= off && Written(im0, im, i, off, src, tot)
    requires ImageOk(sb, im) && Owned(sb, im, owner) && FsBytes.IsBlock(blk)
    requires var o := off + tot;
      && addr == Val(im, SlotOf(i, o / BSIZE)) != 0 && addr in im.data && |im.data[addr]| == BSIZE &&
         o % BSIZE + m <= BSIZE
      && blk == im.data[addr][..o % BSIZE] + src[tot..tot + m] + im.data[addr][o % BSIZE + m..]
    requires im' == im.(data := im.data[addr := blk])
    ensures Written(im0, im', i, off, src, tot + m)
  {
    var o, bn := off + tot, (off + tot) / BSIZE;
    var s := SlotOf(i, bn);
    PatchKeeps(sb, im, owner, s, addr, blk);
    forall j, k | 0 <= k && !(j == i && o <= k < o + m)
      ensures ByteAt(im', j, k) == ByteAt(im, j, k)
    {
      if j == i && k / BSIZE == bn {
        assert k % BSIZE == k - bn * BSIZE;
      } else {
        PatchKeepsByte(im, im', i, bn, addr, blk, j, k);
      }
    }
    forall k | off <= k < off + (tot + m)
      ensures ByteAt(im', i, k) == src[k - off]
    {
      if k >= o {
        assert k / BSIZE == bn && k % BSIZE == o % BSIZE + (k - o);
        assert blk[k % BSIZE] == src[tot..tot + m][k - o];
      } else {
        assert ByteAt(im, i, k) == src[k - off];
      }
    }
    forall j, bm | j in im'.isize && 0 <= bm && bm * BSIZE < im'.isize[j]
      ensures Val(im', SlotOf(j, bm)) != 0
    {
      assert Val(im, SlotOf(j, bm)) != 0;
    }
    forall bm | 0 <= bm && bm * BSIZE < off + (tot + m)
      ensures Val(im', SlotOf(i, bm)) != 0
    {
      assert bm <= bn;
      assert bm < bn ==> bm * BSIZE < off + tot;
      assert Val(im, SlotOf(i, bm)) != 0;
    }
  }

  /** The finished write: the file is spliced, every other file is as it was. */
  lemma WrittenIsSplice(sb: Super, im0: Image, im: Image, im': Image, i: int, off: int, src: seq<int>, tot: int)
    requires 0 <= tot <= |src| && i in im0.isize && 0 <= off <= im0.isize[i] && off + tot <= MAXFILE * BSIZE
    requires InodesOk(sb, im0) && InodesOk(sb, im) && Written(im0, im, i, off, src, tot)
    requires im' == im.(isize := if off + tot > im.isize[i] then im.isize[i := off + tot] else im.isize)
    ensures InodesOk(sb, im') && Complete(im')
    ensures forall s :: Val(im', s) == Val(im, s)
    ensures Content(im', i) == Splice(Content(im0, i), off, src[..tot])
    ensures forall j :: j in im0.isize && j != i ==>
              j in im'.isize && im'.isize[j] == im0.isize[j] && Content(im', j) == Content(im0, j)
  {
    forall s
      ensures Val(im', s) == Val(im, s)
    {
    }
    forall j, k
      ensures ByteAt(im', j, k) == ByteAt(im, j, k)
    {
    }
    forall j, bm | j in im'.isize && 0 <= bm && bm * BSIZE < im'.isize[j]
      ensures Val(im', SlotOf(j, bm)) != 0
    {
      assert Val(im, SlotOf(j, bm)) != 0;
    }
    var c, c0 := Content(im', i), Splice(Content(im0, i), off, src[..tot]);
    assert |c| == |c0|;
    forall k | 0 <= k < |c|
      ensures c[k] == c0[k]
    {
      assert c[k] == ByteAt(im, i, k);
    }
    forall j | j in im0.isize && j != i
      ensures Content(im', j) == Content(im0, j)
    {
      var d, d0 := Content(im', j), Content(im0, j);
      forall k | 0 <= k < |d|
        ensures d[k] == d0[k]
      {
        assert d[k] == ByteAt(im, j, k);
      }
    }
  }
}
