/** Block allocation and inode contents of kernel/fs.c over mutable fields. */
module Fs {
  import opened Basics
  import opened FsBytes
  import opened FsImage
  import opened FsContent
  import opened LogReservation
  import opened LogMachine

  /** The bitmap block that holds the bit of block b. */
  function BBlock(sb: Super, b: int): int {
    b / BPB + sb.bmapstart
  }

  const IPB: int := BSIZE / 64   // inodes per block

  /** An inode as its block has it. */
  datatype Dinode = Dinode(addrs: seq<int>, size: int)

  /** The 64 bytes of inode i lie in block b. */
  ghost predicate HoldsInode(sb: Super, b: int, i: int) {
    (b - sb.inodestart) * BSIZE <= i * 64 && (i + 1) * 64 <= (b - sb.inodestart + 1) * BSIZE
  }

  /** Every inode that differs on the disk lies in a block that was logged. */
  ghost predicate InodesJournaled(sb: Super, ds: map<int, Dinode>, ds': map<int, Dinode>, logs: seq<int>) {
    forall i :: i in ds && (i !in ds' || ds'[i] != ds[i]) ==> exists k :: 0 <= k < |logs| && HoldsInode(sb, logs[k], i)
  }

  /** Every block that differs between two images is among those logged; inodes are in InodesJournaled. */
  ghost predicate Journaled(sb: Super, im: Image, im': Image, logs: seq<int>) {
    && (forall b :: b in im.data <==> b in im'.data) && |im.bitmap| == |im'.bitmap|
    && (forall b :: b in im.data && im.data[b] != im'.data[b] ==> b in logs)
    && (forall k :: 0 <= k < |im.bitmap| && im.bitmap[k] != im'.bitmap[k] ==> sb.bmapstart + k in logs)
  }

  /** What is logged when block b is allocated and named by slot s. */
  ghost function Logs(sb: Super, im: Image, s: Slot, b: int): seq<int>
    requires Vacant(im, s)
  {
    [BBlock(sb, b), b] + if s.Entry? then [im.addrs[s.inum][NDIRECT]] else []
  }

  lemma InstallJournaled(sb: Super, im: Image, s: Slot, b: int)
    requires 0 <= b / BPB < |im.bitmap| && |im.bitmap[b / BPB]| == BSIZE && b in im.data
    requires Vacant(im, s) && Vacant(Allocated(im, b), s)
    ensures Journaled(sb, im, PutSlot(Allocated(im, b), s, b), Logs(sb, im, s, b))
  {
  }

  lemma SameExtends(im: Image)
    ensures Extends(im, im)
  {
  }

  class FileSystem {
    const sb: Super
    var bitmap: seq<seq<int>>
    var data: map<int, seq<int>>
    var addrs: map<int, seq<int>>
    var isize: map<int, int>
    var dinodes: map<int, Dinode>     // the inodes as their blocks have them; addrs and isize are those in memory
    ghost var owner: map<int, Slot>   // which slot names each marked data block
    ghost var logged: seq<int>        // the block numbers passed to log_write, in order

    ghost function Img(): Image
      reads this
    {
      Image(bitmap, data, addrs, isize)
    }

    ghost predicate Valid()
      reads this
    {
      ImageOk(sb, Img()) && Owned(sb, Img(), owner)
    }

    /** The disk has every inode as it is in memory. */
    ghost predicate Synced()
      reads this
    {
      forall i :: i in addrs ==> i in isize && i in dinodes && dinodes[i] == Dinode(addrs[i], isize[i])
    }

    /** The file system on a disk whose blocks all have one owner. */
    constructor (super': Super, im: Image, ghost own: map<int, Slot>)
      requires ImageOk(super', im) && Owned(super', im, own)
      ensures Valid() && sb == super' && Img() == im && owner == own && logged == [] && Synced()
    {
      sb := super';
      bitmap, data, addrs, isize := im.bitmap, im.data, im.addrs, im.isize;
      dinodes := map i | i in im.addrs && i in im.isize :: Dinode(im.addrs[i], im.isize[i]);
      owner, logged := own, [];
    }

    /** iupdate: the inode's block has what memory has, and is logged. */
    method Iupdate(i: int)
      requires i in addrs && i in isize
      modifies this`dinodes, this`logged
      ensures dinodes == old(dinodes)[i := Dinode(addrs[i], isize[i])]
      ensures old(logged) <= logged && |logged| == |old(logged)| + 1 && HoldsInode(sb, logged[|old(logged)|], i)
    {
      var b := i / IPB + sb.inodestart;
      dinodes := dinodes[i := Dinode(addrs[i], isize[i])];
      logged := logged + [b];
    }

    /** What balloc does once it has found a clear bit: bzero clears the block. */
    method Claim(b: int, bi: int)
      requires ImageOk(sb, Img()) && 0 <= b && b % BPB == 0 && 0 <= bi < BPB && b + bi < sb.size
      requires !Marked(bitmap, b + bi)
      modifies this`bitmap, this`data, this`logged
      ensures b + bi != 0 && b + bi in old(data) && b / BPB == (b + bi) / BPB < |old(bitmap)| &&
              |old(bitmap)[b / BPB]| == BSIZE
      ensures Img() == Allocated(old(Img()), b + bi)
      ensures logged == old(logged) + [BBlock(sb, b + bi), b + bi]
    {
      assert (b + bi) / BPB == b / BPB && (b + bi) % BPB == bi;
      assert b + bi >= sb.datastart;
      bitmap := bitmap[b / BPB := SetBit(bitmap[b / BPB], bi)];
      logged := logged + [BBlock(sb, b)];
      data := data[b + bi := ZeroBlock()];
      logged := logged + [b + bi];
    }

    /** balloc: the first clear bit is set and its block is cleared; 0 if every bit is set. */
    method Balloc() returns (r: int)
      requires ImageOk(sb, Img())
      modifies this`bitmap, this`data, this`logged
      ensures r == 0 ==>
                && bitmap == old(bitmap) && data == old(data) && logged == old(logged)
                && forall b :: 0 <= b < sb.size ==> Marked(bitmap, b)
      ensures r != 0 ==>
                && r in old(data) && !Marked(old(bitmap), r) && (forall b :: 0 <= b < r ==> Marked(old(bitmap), b))
                && 0 <= r / BPB < |old(bitmap)| && |old(bitmap)[r / BPB]| == BSIZE
                && Img() == Allocated(old(Img()), r)
                && logged == old(logged) + [BBlock(sb, r), r]
    {
      var b := 0;
      while b < sb.size
        invariant b % BPB == 0 && 0 <= b
        invariant forall c :: 0 <= c < b && c < sb.size ==> Marked(bitmap, c)
        invariant bitmap == old(bitmap) && data == old(data) && logged == old(logged)
      {
        var bi := 0;
        while bi < BPB && b + bi < sb.size
          invariant 0 <= bi <= BPB && (bi < BPB ==> b + bi <= sb.size)
          invariant forall c :: 0 <= c < b + bi && c < sb.size ==> Marked(bitmap, c)
          invariant bitmap == old(bitmap) && data == old(data) && logged == old(logged)
        {
          assert (b + bi) / BPB == b / BPB && (b + bi) % BPB == bi;
          if !BitOf(bitmap[b / BPB], bi) {
            Claim(b, bi);
            return b + bi;
          }
          bi := bi + 1;
        }
        b := b + BPB;
      }
      return 0;
    }

    /** bfree: clears the block's bit; panics if it is clear already. */
    method Bfree(b: int) returns (panicked: bool)
      requires ImageOk(sb, Img()) && b in data
      modifies this`bitmap, this`logged
      ensures panicked <==> !Marked(old(bitmap), b)
      ensures panicked ==> bitmap == old(bitmap) && logged == old(logged)
      ensures !panicked ==>
                && 0 <= b / BPB < |old(bitmap)| && |old(bitmap)[b / BPB]| == BSIZE
                && bitmap == ClearMark(old(bitmap), b) && logged == old(logged) + [BBlock(sb, b)]
    {
      var bi := b % BPB;
      if !BitOf(bitmap[b / BPB], bi) {
        return true;
      }
      bitmap := bitmap[b / BPB := ClearBit(bitmap[b / BPB], bi)];
      logged := logged + [BBlock(sb, b)];
      return false;
    }

    /** No data block is free. */
    ghost predicate Full()
      reads this`bitmap
    {
      forall b :: 0 <= b < sb.size ==> Marked(bitmap, b)
    }

    /** balloc followed by storing the block's number in a vacant slot. */
    method AllocateInto(s: Slot) returns (r: int)
      requires Valid() && Vacant(Img(), s)
      modifies this`bitmap, this`data, this`addrs, this`owner, this`logged
      ensures Valid() && Extends(old(Img()), Img())
      ensures r == 0 ==> Img() == old(Img()) && owner == old(owner) && logged == old(logged) && Full()
      ensures r != 0 ==>
                && r in data && data[r] == ZeroBlock()
                && (forall t :: Val(Img(), t) == if t == s then r else Val(old(Img()), t))
                && logged == old(logged) + Logs(sb, old(Img()), s, r)
                && Journaled(sb, old(Img()), Img(), Logs(sb, old(Img()), s, r))
      ensures addrs.Keys == old(addrs).Keys && isize == old(isize)
      ensures forall k :: k in addrs && (k != s.inum || s.Entry?) ==> addrs[k] == old(addrs)[k]
    {
      hide Owned, BitmapOk, DataOk, Extends, Journaled, Marked, Val;
      ghost var im, owner0 := Img(), owner;
      r := Balloc();
      if r != 0 {
        InstallKeepsOwned(sb, im, owner0, s, r);
        InstallJournaled(sb, im, s, r);
        match s {
          case Direct(i, k) => addrs := addrs[i := addrs[i][k := r]];
          case Indirect(i) => addrs := addrs[i := addrs[i][NDIRECT := r]];
          case Entry(i, j) =>
            var table := addrs[i][NDIRECT];
            data := data[table := PutWord(data[table], j, r)];
            logged := logged + [table];
        }
        owner := owner[r := s];
      } else {
        SameExtends(im);
      }
    }

    /** Load a slot, allocating a block for it if it is vacant. */
    method LoadOrAllocate(s: Slot, v: int) returns (r: int)
      requires Valid() && v == Val(Img(), s) && (v == 0 ==> Vacant(Img(), s))
      modifies this`bitmap, this`data, this`addrs, this`owner, this`logged
      ensures Valid() && Extends(old(Img()), Img())
      ensures v != 0 ==> r == v && Img() == old(Img()) && owner == old(owner) && logged == old(logged)
      ensures r == 0 ==> Img() == old(Img()) && owner == old(owner) && logged == old(logged) && Full()
      ensures r != 0 ==> r == Val(Img(), s) && r in data
      ensures r != 0 && v == 0 ==> data[r] == ZeroBlock()
      ensures forall t :: t != s ==> Val(Img(), t) == Val(old(Img()), t)
      ensures addrs.Keys == old(addrs).Keys && isize == old(isize)
      ensures forall k :: k in addrs && (k != s.inum || s.Entry?) ==> addrs[k] == old(addrs)[k]
      ensures old(logged) <= logged && Journaled(sb, old(Img()), Img(), logged[|old(logged)|..])
      ensures forall b :: b in logged[|old(logged)|..] ==>
                r != 0 && (b == BBlock(sb, r) || b == r || (s.Entry? && b == Val(Img(), Indirect(s.inum))))
    {
      hide Owned, ImageOk, Extends, Journaled, Marked, Vacant;
      ghost var im := Img();
      SameExtends(im);
      SameJournaled(sb, im);
      if v != 0 {
        r := v;
        NamedIsData(sb, im, owner, s);
      } else {
        VacantTable(im, s);
        r := AllocateInto(s);
        assert r != 0 ==> logged[|old(logged)|..] == Logs(sb, im, s, r);
      }
      assert logged == old(logged) ==> logged[|old(logged)|..] == [];
    }

    /** bmap: the block that holds block bn of the file, allocated if need be; 0 if the disk is full. */
    method Bmap(i: int, bn: int) returns (r: int)
      requires Valid() && i in addrs && 0 <= bn < MAXFILE
      modifies this`bitmap, this`data, this`addrs, this`owner, this`logged
      ensures Valid() && Extends(old(Img()), Img())
      ensures Val(old(Img()), SlotOf(i, bn)) != 0 ==>
                r == Val(old(Img()), SlotOf(i, bn)) && Img() == old(Img()) && owner == old(owner) &&
                  logged == old(logged)
      ensures r == 0 ==> Full()
      ensures r != 0 ==> r == Val(Img(), SlotOf(i, bn)) && r in data
      ensures r != 0 && Val(old(Img()), SlotOf(i, bn)) == 0 ==> data[r] == ZeroBlock()
      ensures addrs.Keys == old(addrs).Keys && isize == old(isize)
      ensures forall k :: k in addrs && k != i ==> addrs[k] == old(addrs)[k]
      ensures old(logged) <= logged && Journaled(sb, old(Img()), Img(), logged[|old(logged)|..])
      ensures forall b :: b in logged[|old(logged)|..] ==>
                || (r != 0 && (b == BBlock(sb, r) || b == r))
                || (Val(Img(), Indirect(i)) != 0 &&
                   (b == Val(Img(), Indirect(i)) || b == BBlock(sb, Val(Img(), Indirect(i)))))
    {
      hide Owned, Extends, Journaled, Marked, Vacant, BitmapOk, DataOk, Val;
      ghost var im0 := Img();
      InodeSlots(sb, im0, i);
      if bn < NDIRECT {
        r := LoadOrAllocate(Direct(i, bn), addrs[i][bn]);
        return r;
      }
      r := LoadOrAllocate(Indirect(i), addrs[i][NDIRECT]);
      if r == 0 {
        EntriesOfNone(sb, im0, i, bn - NDIRECT);
        return 0;
      }
      ghost var im1, logged1 := Img(), logged;
      InodeSlots(sb, im1, i);
      EntrySlot(sb, im1, owner, i, bn - NDIRECT);
      r := LoadOrAllocate(Entry(i, bn - NDIRECT), Word(data[addrs[i][NDIRECT]], bn - NDIRECT));
      ExtendsTransitive(im0, im1, Img());
      var n := |old(logged)|;
      assert logged[n..] == logged1[n..] + logged[|logged1|..];
      JournaledTransitive(sb, im0, im1, Img(), logged1[n..], logged[|logged1|..]);
    }

    /** One pass of itrunc's first loop. The bit of a named block is set, so bfree does not panic. */
    method FreeDirect(i: int, k: int)
      requires Valid() && i in addrs && 0 <= k < NDIRECT
      modifies this`bitmap, this`addrs, this`owner, this`logged
      ensures Valid() && data == old(data) && isize == old(isize) && addrs.Keys == old(addrs).Keys
      ensures |old(addrs)[i]| == NDIRECT + 1 && addrs[i] == old(addrs)[i][k := 0]
      ensures forall j :: j in addrs && j != i ==> addrs[j] == old(addrs)[j]
      ensures Lost(old(owner), owner, i)
      ensures old(logged) <= logged && Journaled(sb, old(Img()), Img(), logged[|old(logged)|..])
    {
      hide OwnedBut, Owned, BitmapOk, DataOk, Val, Marked, Journaled;
      SameJournaled(sb, Img());
      ghost var im, owner0 := Img(), owner;
      InodeSlots(sb, im, i);
      var b := addrs[i][k];
      if b != 0 {
        OwnedIsOwnedBut(sb, im, owner, i);
        DirectVal(im, i, k, 0);
        NamedIsMarked(sb, im, owner, i, 0, Direct(i, k));
        var panicked := Bfree(b);
        assert !panicked;
        addrs := addrs[i := addrs[i][k := 0]];
        owner := owner - {b};
        ForgetDirect(sb, im, owner0, i, k, Img());
        ClearJournaled(sb, im, Img(), b);
        assert logged[|old(logged)|..] == [BBlock(sb, b)];
      } else {
        assert logged[|old(logged)|..] == [];
        assert addrs[i][k := 0] == addrs[i];
      }
    }

    /** One pass of itrunc's loop over the indirect block. The entry itself is left as it is. */
    method FreeEntry(i: int, j: int)
      requires ImageOk(sb, Img()) && OwnedBut(sb, Img(), owner, i, j) && i in addrs && 0 <= j < NINDIRECT
      requires |addrs[i]| == NDIRECT + 1 && addrs[i][NDIRECT] in data
      modifies this`bitmap, this`logged, this`owner
      ensures ImageOk(sb, Img()) && OwnedBut(sb, Img(), owner, i, j + 1)
      ensures Lost(old(owner), owner, i)
      ensures old(logged) <= logged && Journaled(sb, old(Img()), Img(), logged[|old(logged)|..])
    {
      hide OwnedBut, BitmapOk, Val, Marked, Journaled;
      SameJournaled(sb, Img());
      ghost var im, owner0 := Img(), owner;
      DataBlock(sb, im, addrs[i][NDIRECT]);
      var b := Word(data[addrs[i][NDIRECT]], j);
      EntryIs(im, i, j);
      if b != 0 {
        NamedIsMarked(sb, im, owner, i, j, Entry(i, j));
        var panicked := Bfree(b);
        assert !panicked;
        owner := owner - {b};
        ForgetEntry(sb, im, owner0, i, j, Img());
        ClearJournaled(sb, im, Img(), b);
        assert logged[|old(logged)|..] == [BBlock(sb, b)];
      } else {
        assert logged[|old(logged)|..] == [];
        SkipEntry(sb, im, owner, i, j);
      }
    }

    /** itrunc's second half: free the blocks the indirect block names, then the indirect block. */
    method FreeIndirect(i: int)
      requires Valid() && i in addrs && |addrs[i]| == NDIRECT + 1
      modifies this`bitmap, this`addrs, this`owner, this`logged
      ensures Valid() && data == old(data) && isize == old(isize) &&
              addrs == old(addrs)[i := old(addrs)[i][NDIRECT := 0]]
      ensures Lost(old(owner), owner, i)
      ensures old(logged) <= logged && Journaled(sb, old(Img()), Img(), logged[|old(logged)|..])
    {
      hide OwnedBut, Owned, BitmapOk, Val, Marked, Journaled;
      SameJournaled(sb, Img());
      assert logged[|old(logged)|..] == [];
      var table := addrs[i][NDIRECT];
      InodeSlots(sb, Img(), i);
      if table != 0 {
        OwnedIsOwnedBut(sb, Img(), owner, i);
        NamedIsData(sb, Img(), owner, Indirect(i));
        var j := 0;
        while j < NINDIRECT
          invariant 0 <= j <= NINDIRECT
          invariant ImageOk(sb, Img()) && OwnedBut(sb, Img(), owner, i, j)
          invariant data == old(data) && isize == old(isize) && addrs == old(addrs)
          invariant Lost(old(owner), owner, i)
          invariant old(logged) <= logged && Journaled(sb, old(Img()), Img(), logged[|old(logged)|..])
        {
          ghost var before, im1, logs := owner, Img(), logged;
          FreeEntry(i, j);
          LostTransitive(old(owner), before, owner, i);
          JournaledOn(sb, old(Img()), im1, Img(), old(logged), logs, logged);
          j := j + 1;
        }
        ghost var im, owner0, logs := Img(), owner, logged;
        IndirectVal(im, i);
        NamedIsMarked(sb, im, owner, i, NINDIRECT, Indirect(i));
        var panicked := Bfree(table);
        assert !panicked;
        addrs := addrs[i := addrs[i][NDIRECT := 0]];
        owner := owner - {table};
        ForgetIndirect(sb, im, owner0, i, Img());
        LostTransitive(old(owner), owner0, owner, i);
        ClearJournaled(sb, im, Img(), table);
        assert logged[|logs|..] == [BBlock(sb, table)];
        JournaledOn(sb, old(Img()), im, Img(), old(logged), logs, logged);
      } else {
        assert addrs[i][NDIRECT := 0] == addrs[i];
        assert addrs == addrs[i := addrs[i]];
      }
    }

    /** itrunc's first loop. */
    method FreeDirects(i: int)
      requires Valid() && i in addrs
      modifies this`bitmap, this`addrs, this`owner, this`logged
      ensures Valid() && addrs.Keys == old(addrs).Keys && |addrs[i]| == NDIRECT + 1
      ensures forall j :: 0 <= j < NDIRECT ==> addrs[i][j] == 0
      ensures forall j :: j in addrs && j != i ==> addrs[j] == old(addrs)[j]
      ensures Lost(old(owner), owner, i)
      ensures old(logged) <= logged && Journaled(sb, old(Img()), Img(), logged[|old(logged)|..])
    {
      hide Owned, BitmapOk, Val, Marked, Journaled;
      ghost var im0 := Img();
      SameJournaled(sb, im0);
      assert logged[|old(logged)|..] == [];
      InodeSlots(sb, im0, i);
      var k := 0;
      while k < NDIRECT
        invariant 0 <= k <= NDIRECT && Valid() && addrs.Keys == old(addrs).Keys && |addrs[i]| == NDIRECT + 1
        invariant forall j :: 0 <= j < k ==> addrs[i][j] == 0
        invariant forall j :: j in addrs && j != i ==> addrs[j] == old(addrs)[j]
        invariant Lost(old(owner), owner, i)
        invariant old(logged) <= logged && Journaled(sb, im0, Img(), logged[|old(logged)|..])
      {
        ghost var before, im1, logs := owner, Img(), logged;
        FreeDirect(i, k);
        LostTransitive(old(owner), before, owner, i);
        JournaledOn(sb, im0, im1, Img(), old(logged), logs, logged);
        k := k + 1;
      }
    }

    /** Both halves of itrunc. */
    method FreeBlocks(i: int)
      requires Valid() && i in addrs
      modifies this`bitmap, this`addrs, this`owner, this`logged
      ensures Valid() && addrs.Keys == old(addrs).Keys && addrs[i] == seq(NDIRECT + 1, _ => 0)
      ensures forall j :: j in addrs && j != i ==> addrs[j] == old(addrs)[j]
      ensures Lost(old(owner), owner, i)
      ensures old(logged) <= logged && Journaled(sb, old(Img()), Img(), logged[|old(logged)|..])
    {
      hide Owned, ImageOk, Val, Marked, Journaled, Lost;
      ghost var im0 := Img();
      FreeDirects(i);
      ghost var owner1, im1, logs := owner, Img(), logged;
      FreeIndirect(i);
      LostTransitive(old(owner), owner1, owner, i);
      JournaledOn(sb, im0, im1, Img(), old(logged), logs, logged);
    }

    /** itrunc: exactly the blocks that inode i's slots name are freed, bfree never panics, and the disk has the empty
        inode, all through the log. */
    method Itrunc(i: int)
      requires Valid() && i in addrs
      modifies this
      ensures Valid() && data == old(data)
      ensures addrs == old(addrs)[i := seq(NDIRECT + 1, _ => 0)] && isize == old(isize)[i := 0]
      ensures forall b :: b in data ==> (Marked(bitmap, b) <==> Marked(old(bitmap), b) && old(owner)[b].inum != i)
      ensures forall s :: Val(Img(), s) == if s.inum == i then 0 else Val(old(Img()), s)
      ensures old(logged) <= logged && Journaled(sb, old(Img()), Img(), logged[|old(logged)|..])
      ensures InodesJournaled(sb, old(dinodes), dinodes, logged[|old(logged)|..])
      ensures dinodes == old(dinodes)[i := Dinode(addrs[i], isize[i])] && (old(Synced()) ==> Synced())
    {
      hide Owned, BitmapOk, DataOk, Val, Marked, Journaled, HoldsInode, InodesJournaled, Lost;
      ghost var im0 := Img();
      FreeBlocks(i);
      ghost var im2, logs := Img(), logged[|old(logged)|..];
      isize := isize[i := 0];
      SizeNotOwned(sb, im0, old(owner), im2, owner, Img(), i);
      Iupdate(i);
      ghost var last := logged[|logged| - 1];
      assert logged[|old(logged)|..] == logs + [last];
      JournaledMore(sb, im0, im2, Img(), logs, last);
      OneInode(sb, old(dinodes), i, dinodes[i], logs, last);
    }

    /** readi: the bytes from off, up to the end of the file. `room` is how many bytes the destination
        can take before copying out fails. Nothing is allocated, because every block below the size
        is mapped. */
    method Readi(i: int, off: int, n: int, room: int) returns (tot: int, dst: seq<int>)
      requires Valid() && Complete(Img()) && i in isize && 0 <= off < 0x1_0000_0000 && 0 <= n < 0x1_0000_0000
      modifies this`bitmap, this`data, this`addrs, this`owner, this`logged
      ensures Img() == old(Img()) && owner == old(owner) && logged == old(logged)
      ensures off > isize[i] || off + n >= 0x1_0000_0000 ==> tot == 0 && dst == []
      ensures off <= isize[i] && off + n < 0x1_0000_0000 ==>
                var want := if off + n > isize[i] then isize[i] - off else n;
                if want == 0 || want <= room then tot == want && dst == Content(Img(), i)[off..off + want]
                  else tot == -1
    {
      hide Owned, BitmapOk, DataOk, Val, Marked, Complete, Content, ByteAt, Extends, Journaled;
      ghost var c := Content(Img(), i);
      ContentLength(Img(), i);
      if off > isize[i] || (off + n) % 0x1_0000_0000 < off {
        return 0, [];
      }
      var want := if off + n > isize[i] then isize[i] - off else n;
      var o := off;
      tot, dst := 0, [];
      while tot < want
        invariant 0 <= tot <= want && o == off + tot
        invariant Valid() && Img() == old(Img()) && owner == old(owner) && logged == old(logged)
        invariant dst == c[off..o] && (tot == 0 || tot <= room)
      {
        MappedBelow(sb, Img(), owner, i, o);
        var addr := Bmap(i, o / BSIZE);
        if addr == 0 {
          break;
        }
        var m := if want - tot < BSIZE - o % BSIZE then want - tot else BSIZE - o % BSIZE;
        if tot + m > room {
          return -1, dst;
        }
        SliceOfBlock(sb, Img(), i, o, m, addr);
        assert c[off..o + m] == c[off..o] + c[o..o + m];
        dst := dst + data[addr][o % BSIZE..o % BSIZE + m];
        tot, o := tot + m, o + m;
      }
    }

    /** One pass of writei's loop after bmap: copy the next m bytes into the block and log it. */
    method WriteBlock(ghost im0: Image, i: int, off: int, src: seq<int>, tot: int, m: int, addr: int)
      requires Valid() && 0 <= off && 0 <= tot && 0 < m && tot + m <= |src| && Bytes(src) &&
               (off + tot) % BSIZE + m <= BSIZE
      requires addr == Val(Img(), SlotOf(i, (off + tot) / BSIZE)) != 0 && addr in data
      requires Written(im0, Img(), i, off, src, tot)
      modifies this`data, this`logged
      ensures Valid() && Written(im0, Img(), i, off, src, tot + m)
      ensures forall s :: Val(Img(), s) == Val(old(Img()), s)
      ensures logged == old(logged) + [addr] && Journaled(sb, old(Img()), Img(), [addr])
    {
      hide Owned, BitmapOk, Val, Marked, Written, Journaled;
      ghost var im := Img();
      DataBlock(sb, im, addr);
      var at := (off + tot) % BSIZE;
      var blk := data[addr][..at] + src[tot..tot + m] + data[addr][at + m..];
      PatchKeeps(sb, im, owner, SlotOf(i, (off + tot) / BSIZE), addr, blk);
      data := data[addr := blk];
      logged := logged + [addr];
      PatchWrites(sb, im0, im, owner, Img(), i, off, src, tot, m, addr, blk);
      PatchJournaled(sb, im, Img(), addr);
    }

    /** One pass of writei's loop; 0 means that the loop stops. `avail` is how many bytes of the source
        can be copied in. The ghost sets account for what is logged: data blocks, and bitmap blocks. */
    method WriteStep(ghost im0: Image, i: int, off: int, src: seq<int>, tot: int, avail: int, ghost from: nat,
                     ghost d: set<int>, ghost bm: set<int>)
      returns (m: int, ghost d': set<int>, ghost bm': set<int>)
      requires Valid() && i in addrs && 0 <= off && 0 <= tot < |src| && Bytes(src) && off + |src| <= MAXFILE * BSIZE
      requires Written(im0, Img(), i, off, src, tot) && from <= |logged|
      requires Accounted(sb, logged[from..], d, bm, Val(Img(), Indirect(i)))
      modifies this`bitmap, this`data, this`addrs, this`owner, this`logged
      ensures Valid() && isize == old(isize) && addrs.Keys == old(addrs).Keys && old(logged) <= logged
      ensures m == 0 || (m == Chunk(off, src, tot) && tot + m <= avail)
      ensures m == 0 ==> Full() || avail < tot + Chunk(off, src, tot)
      ensures 0 <= m && tot + m <= |src| && Written(im0, Img(), i, off, src, tot + m)
      ensures Accounted(sb, logged[from..], d', bm', Val(Img(), Indirect(i)))
      ensures |d'| <= |d| + 1
      ensures |bm'| <= |bm| + if Val(old(Img()), SlotOf(i, (off + tot) / BSIZE)) == 0 then 1 else 0
      ensures forall j :: j in addrs && j != i ==> addrs[j] == old(addrs)[j]
      ensures Journaled(sb, old(Img()), Img(), logged[|old(logged)|..])
    {
      hide Owned, BitmapOk, DataOk, Val, Marked, Written, Journaled, Extends, InodesOk;
      ghost var im, owner0, old_ := Img(), owner, logged;
      var bn := (off + tot) / BSIZE;
      var addr := Bmap(i, bn);
      ghost var im1, logged1 := Img(), logged;
      MapKeepsWritten(sb, im0, im, owner0, im1, i, off, src, tot);
      d', bm' := d + {addr}, if Val(im, SlotOf(i, bn)) == 0 then bm + {BBlock(sb, addr)} else bm;
      assert logged1[from..] == old_[from..] + logged1[|old_|..];
      assert logged1 == old_ ==> logged1[|old_|..] == [];
      StillAccounted(sb, im, im1, i, old_[from..], logged1[|old_|..], d, bm, d', bm', addr);
      m := Chunk(off, src, tot);
      if addr == 0 || tot + m > avail {
        return 0, d', bm';
      }
      WriteBlock(im0, i, off, src, tot, m, addr);
      assert logged[from..] == logged1[from..] + [addr];
      assert logged[|old_|..] == logged1[|old_|..] + [addr];
      JournaledTransitive(sb, im, im1, Img(), logged1[|old_|..], [addr]);
    }

    /** writei's loop. */
    method WriteLoop(i: int, off: int, src: seq<int>, avail: int)
      returns (tot: int, ghost d: set<int>, ghost bm: set<int>)
      requires Valid() && Complete(Img()) && i in isize && 0 <= off <= isize[i] && Bytes(src) &&
               off + |src| <= MAXFILE * BSIZE
      modifies this`bitmap, this`data, this`addrs, this`owner, this`logged
      ensures Valid() && isize == old(isize) && addrs.Keys == old(addrs).Keys && old(logged) <= logged
      ensures 0 <= tot <= |src| && Written(old(Img()), Img(), i, off, src, tot)
      ensures tot < |src| ==> Full() || avail < tot + Chunk(off, src, tot)
      ensures tot == 0 || tot <= avail
      ensures Accounted(sb, logged[|old(logged)|..], d, bm, Val(Img(), Indirect(i)))
      ensures forall j :: j in addrs && j != i ==> addrs[j] == old(addrs)[j]
      ensures src == [] ==> d == {} && bm == {}
      ensures src != [] ==> |d| <= Touched(off, |src|) && |bm| <= Touched(off, |src|) - Unaligned(off)
      ensures Journaled(sb, old(Img()), Img(), logged[|old(logged)|..])
    {
      hide Owned, BitmapOk, DataOk, Val, Marked, Written, Journaled, Accounted, Full;
      ghost var im0, from, steps := Img(), |logged|, 0;
      tot, d, bm := 0, {}, {};
      assert logged[from..] == [];
      StartWriting(sb, im0, i, off, src);
      while tot < |src|
        invariant 0 <= tot <= |src| && Valid() && isize == old(isize) && addrs.Keys == old(addrs).Keys &&
                  old(logged) <= logged
        invariant Written(im0, Img(), i, off, src, tot) && (tot == 0 || tot <= avail)
        invariant Accounted(sb, logged[from..], d, bm, Val(Img(), Indirect(i)))
        invariant Journaled(sb, im0, Img(), logged[from..])
        invariant forall j :: j in addrs && j != i ==> addrs[j] == old(addrs)[j]
        invariant 0 <= steps && |d| <= steps && |bm| <= steps && (steps > 0 ==> |bm| <= steps - Unaligned(off))
        invariant tot < |src| ==> (tot == 0 || (off + tot) % BSIZE == 0) && steps == (off + tot) / BSIZE - off / BSIZE
        invariant src != [] ==> steps <= Touched(off, |src|)
        invariant src == [] ==> steps == 0
      {
        ghost var im, before := Img(), logged;
        if tot == 0 { FirstBlockMapped(sb, im0, im, i, off, src); }
        var m;
        m, d, bm := WriteStep(im0, i, off, src, tot, avail, from, d, bm);
        assert logged[from..] == before[from..] + logged[|before|..];
        JournaledTransitive(sb, im0, im, Img(), before[from..], logged[|before|..]);
        steps := steps + 1;
        StepCount(off, |src|, tot);
        if m == 0 {
          break;
        }
        tot := tot + m;
      }
    }

    /** writei: the first tot bytes of the source replace the file's bytes from off on, extending the
        file if need be; every other file keeps its contents. */
    method Writei(i: int, off: int, src: seq<int>, avail: int) returns (tot: int)
      requires Valid() && Complete(Img()) && i in isize && 0 <= off < 0x1_0000_0000 && |src| < 0x1_0000_0000 &&
               Bytes(src)
      modifies this
      ensures Valid() && Complete(Img()) && isize.Keys == old(isize).Keys
      ensures tot == -1 <==> off > old(isize)[i] || off + |src| > MAXFILE * BSIZE
      ensures tot == -1 ==> Img() == old(Img()) && owner == old(owner) && logged == old(logged)
      ensures tot == -1 ==> dinodes == old(dinodes)
      ensures tot != -1 ==>
                && 0 <= tot <= |src| && (tot == 0 || tot <= avail)
                && (tot < |src| ==> Full() || avail < tot + Chunk(off, src, tot))
                && Content(Img(), i) == Splice(Content(old(Img()), i), off, src[..tot])
      ensures forall j :: j in old(isize) && j != i ==> Content(Img(), j) == Content(old(Img()), j)
      ensures tot != -1 ==>
                && old(logged) <= logged && Journaled(sb, old(Img()), Img(), logged[|old(logged)|..])
                && |logged| > |old(logged)| && HoldsInode(sb, logged[|logged| - 1], i)
                && InodesJournaled(sb, old(dinodes), dinodes, logged[|old(logged)|..])
                && dinodes == old(dinodes)[i := Dinode(addrs[i], isize[i])]
      ensures old(Synced()) ==> Synced()
      ensures tot != -1 && |src| <= MAXCHUNK ==> WithinBudget(logged[|old(logged)|..])
    {
      hide Owned, BitmapOk, DataOk, Val, Marked, Written, Journaled, Accounted, Full, Complete, Content, ByteAt,
        WithinBudget, HoldsInode, InodesJournaled;
      if off > isize[i] || (off + |src|) % 0x1_0000_0000 < off {
        return -1;
      }
      if off + |src| > MAXFILE * BSIZE {
        return -1;
      }
      ghost var im0, from := Img(), |logged|;
      ghost var d, bm;
      tot, d, bm := WriteLoop(i, off, src, avail);
      ghost var im, table, logs := Img(), Val(Img(), Indirect(i)), logged[from..];
      if off + tot > isize[i] {
        isize := isize[i := off + tot];
      }
      Iupdate(i);
      WrittenIsSplice(sb, im0, im, Img(), i, off, src, tot);
      NewSizes(sb, im, Img(), owner);
      ghost var last := logged[|logged| - 1];
      assert logged[from..] == logs + [last];
      JournaledMore(sb, im0, im, Img(), logs, last);
      OneInode(sb, old(dinodes), i, dinodes[i], logs, last);
      if |src| <= MAXCHUNK { ChunkWithinBudget(sb, logs, last, d, bm, table, off, |src|); }
    }
  }

  /** Only blocks of inode i have left the ownership map. */
  ghost predicate Lost(owner: map<int, Slot>, owner': map<int, Slot>, i: int) {
    && (forall b :: b in owner' ==> b in owner && owner'[b] == owner[b])
    && (forall b :: b in owner && b !in owner' ==> owner[b].inum == i)
  }

  lemma LostTransitive(o: map<int, Slot>, o1: map<int, Slot>, o2: map<int, Slot>, i: int)
    requires Lost(o, o1, i) && Lost(o1, o2, i)
    ensures Lost(o, o2, i)
  {
    forall b | b in o && b !in o2
      ensures o[b].inum == i
    {
      assert b in o1 ==> o1[b].inum == i;
    }
  }

  ghost predicate Bytes(s: seq<int>) {
    forall k :: 0 <= k < |s| ==> 0 <= s[k] < 256
  }

  lemma PatchJournaled(sb: Super, im: Image, im': Image, addr: int)
    requires addr in im.data && im'.bitmap == im.bitmap && addr in im'.data &&
             im'.data == im.data[addr := im'.data[addr]]
    ensures Journaled(sb, im, im', [addr])
  {
  }

  /** How much of the source goes into the next block. */
  function Chunk(off: int, src: seq<int>, tot: int): (m: int)
    requires 0 <= off && 0 <= tot < |src|
  {
    var rest, space := |src| - tot, BSIZE - (off + tot) % BSIZE;
    if rest < space then rest else space
  }

  /** Everything logged is a data block of d, a bitmap block of bm, the inode's indirect block, or the
      bitmap block of the indirect block. */
  ghost predicate Accounted(sb: Super, logs: seq<int>, d: set<int>, bm: set<int>, table: int) {
    forall b :: b in logs ==> b in d || b in bm || (table != 0 && (b == table || b == BBlock(sb, table)))
  }

  lemma StillAccounted(sb: Super, im: Image, im': Image, i: int, logs: seq<int>, more: seq<int>,
                       d: set<int>, bm: set<int>, d': set<int>, bm': set<int>, addr: int)
    requires Extends(im, im') && Accounted(sb, logs, d, bm, Val(im, Indirect(i)))
    requires d <= d' && bm <= bm' && addr in d'
    requires forall b :: b in more ==>
               || (addr != 0 && ((b == BBlock(sb, addr) && b in bm') || b == addr))
               || (Val(im', Indirect(i)) != 0 && (b == Val(im', Indirect(i)) || b == BBlock(sb, Val(im', Indirect(i)))))
    ensures Accounted(sb, logs + more, d', bm', Val(im', Indirect(i)))
  {
  }

  /** The most bytes filewrite passes to writei in one operation. */
  const MAXCHUNK: int := ((MAXOPBLOCKS - 1 - 1 - 2) / 2) * BSIZE

  /** The number of blocks that n bytes from off on lie in. */
  function Touched(off: int, n: int): int {
    (off + n - 1) / BSIZE - off / BSIZE + 1
  }

  function Unaligned(off: int): int {
    if off % BSIZE == 0 then 0 else 1
  }

  lemma StartWriting(sb: Super, im: Image, i: int, off: int, src: seq<int>)
    requires Complete(im) && i in im.isize && 0 <= off <= im.isize[i]
    ensures Written(im, im, i, off, src, 0) && Journaled(sb, im, im, [])
    ensures Accounted(sb, [], {}, {}, Val(im, Indirect(i)))
  {
    NothingWritten(im, i, off, src);
  }

  /** A write that starts inside a block starts in a block that is mapped. */
  lemma FirstBlockMapped(sb: Super, im0: Image, im: Image, i: int, off: int, src: seq<int>)
    requires i in im0.isize && 0 <= off <= im0.isize[i] && Written(im0, im, i, off, src, 0)
    ensures off % BSIZE != 0 ==> Val(im, SlotOf(i, off / BSIZE)) != 0
  {
    var bn := off / BSIZE;
    if off % BSIZE != 0 { assert Val(im, SlotOf(i, bn)) != 0; }
  }

  lemma StepCount(off: int, n: int, tot: int)
    requires 0 <= off && 0 <= tot < n && (tot == 0 || (off + tot) % BSIZE == 0)
    ensures (off + tot) / BSIZE - off / BSIZE + 1 <= Touched(off, n)
    ensures var space := BSIZE - (off + tot) % BSIZE;
      space < n - tot ==> (off + tot + space) % BSIZE == 0 && (off + tot + space) / BSIZE == (off + tot) / BSIZE + 1
  {
  }

  lemma NewSizes(sb: Super, im: Image, im': Image, owner: map<int, Slot>)
    requires ImageOk(sb, im) && Owned(sb, im, owner) && im' == im.(isize := im'.isize) && InodesOk(sb, im')
    ensures ImageOk(sb, im') && Owned(sb, im', owner)
  {
    forall s
      ensures Val(im', s) == Val(im, s)
    {
    }
  }

  /** The only inode that differs is logged last. */
  lemma OneInode(sb: Super, ds: map<int, Dinode>, i: int, d: Dinode, logs: seq<int>, b: int)
    requires HoldsInode(sb, b, i)
    ensures InodesJournaled(sb, ds, ds[i := d], logs + [b])
  {
    hide HoldsInode;
    assert (logs + [b])[|logs|] == b;
  }

  lemma JournaledMore(sb: Super, im0: Image, im: Image, im': Image, logs: seq<int>, b: int)
    requires Journaled(sb, im0, im, logs) && im' == im.(isize := im'.isize)
    ensures Journaled(sb, im0, im', logs + [b])
  {
  }

  /** A chunk of filewrite logs at most MAXOPBLOCKS distinct blocks, and the inode last: at most four
      data blocks, of which at most three are new, one bitmap block for each new block, the indirect
      block and its bitmap block. */
  lemma ChunkWithinBudget(sb: Super, logs: seq<int>, inode: int, d: set<int>, bm: set<int>, table: int, off: int,
                          n: int)
    requires Accounted(sb, logs, d, bm, table) && 0 <= off && 0 <= n <= MAXCHUNK
    requires if n == 0 then d == {} && bm == {} else |d| <= Touched(off, n) && |bm| <= Touched(off, n) - Unaligned(off)
    ensures WithinBudget(logs + [inode])
    ensures |Blocks(logs + [inode])| <= MAXOPBLOCKS
  {
    var t := {table, BBlock(sb, table)};
    assert |t| <= 2;
    assert |d + bm + t| <= 9 by {
      assert |d + bm| <= |d| + |bm|;
      assert |d + bm + t| <= |d + bm| + |t|;
    }
    forall k | 0 <= k <= |logs|
      ensures |Blocks((logs + [inode])[..k])| < MAXOPBLOCKS
    {
      var p := (logs + [inode])[..k];
      assert p == logs[..k];
      forall b: int | b in Blocks(p)
        ensures b in d + bm + t
      {
        assert b in logs;
      }
      SubsetSize(Blocks(p), d + bm + t);
    }
    assert (logs + [inode])[..|logs|] == logs;
    BlocksSnoc(logs, inode);
  }

  lemma ContentLength(im: Image, i: int)
    requires i in im.isize && im.isize[i] >= 0
    ensures |Content(im, i)| == im.isize[i]
  {
  }

  lemma MappedBelow(sb: Super, im: Image, owner: map<int, Slot>, i: int, k: int)
    requires ImageOk(sb, im) && Owned(sb, im, owner) && Complete(im) && i in im.isize && 0 <= k < im.isize[i]
    ensures i in im.addrs && 0 <= k / BSIZE < MAXFILE
    ensures Val(im, SlotOf(i, k / BSIZE)) != 0
  {
    var bn := k / BSIZE;
    assert Val(im, SlotOf(i, bn)) != 0;
  }

  /** Part of one block is the matching part of the file. */
  lemma SliceOfBlock(sb: Super, im: Image, i: int, o: int, m: int, addr: int)
    requires ImageOk(sb, im) && i in im.isize && 0 <= o && 0 < m && o + m <= im.isize[i] && o % BSIZE + m <= BSIZE
    requires addr == Val(im, SlotOf(i, o / BSIZE)) && addr in im.data
    ensures |im.data[addr]| == BSIZE && |Content(im, i)| == im.isize[i]
    ensures im.data[addr][o % BSIZE..o % BSIZE + m] == Content(im, i)[o..o + m]
  {
    DataBlock(sb, im, addr);
    var c := Content(im, i);
    var left, right := im.data[addr][o % BSIZE..o % BSIZE + m], c[o..o + m];
    forall k | 0 <= k < m
      ensures left[k] == right[k]
    {
      assert (o + k) / BSIZE == o / BSIZE && (o + k) % BSIZE == o % BSIZE + k;
      assert c[o + k] == ByteAt(im, i, o + k);
    }
  }

  lemma DataBlock(sb: Super, im: Image, b: int)
    requires ImageOk(sb, im) && b in im.data
    ensures FsBytes.IsBlock(im.data[b])
  {
  }

  lemma EntryIs(im: Image, i: int, j: int)
    requires i in im.addrs && |im.addrs[i]| == NDIRECT + 1 && im.addrs[i][NDIRECT] in im.data && 0 <= j < NINDIRECT
    requires |im.data[im.addrs[i][NDIRECT]]| == BSIZE
    ensures ValBut(im, i, j, Entry(i, j)) == Word(im.data[im.addrs[i][NDIRECT]], j)
  {
  }

  lemma IndirectVal(im: Image, i: int)
    requires i in im.addrs && |im.addrs[i]| == NDIRECT + 1
    ensures ValBut(im, i, NINDIRECT, Indirect(i)) == im.addrs[i][NDIRECT]
  {
  }

  lemma ForgetEntry(sb: Super, im: Image, owner: map<int, Slot>, i: int, j: int, im': Image)
    requires ImageOk(sb, im) && OwnedBut(sb, im, owner, i, j) && ValBut(im, i, j, Entry(i, j)) != 0
    requires var b := ValBut(im, i, j, Entry(i, j));
      && 0 <= b / BPB < |im.bitmap| && |im.bitmap[b / BPB]| == BSIZE && im' == im.(bitmap := ClearMark(im.bitmap, b))
    ensures ImageOk(sb, im') && OwnedBut(sb, im', owner - {ValBut(im, i, j, Entry(i, j))}, i, j + 1)
  {
    var b := ValBut(im, i, j, Entry(i, j));
    NamedIsMarked(sb, im, owner, i, j, Entry(i, j));
    ClearMarkMarks(sb, im.bitmap, b);
    assert forall t :: Val(im', t) == Val(im, t);
    assert forall t :: ValBut(im', i, j + 1, t) == if t == Entry(i, j) then 0 else ValBut(im, i, j, t);
    DropKeepsOwned(sb, im, owner, i, j, Entry(i, j), b, im', i, j + 1);
  }

  lemma ForgetIndirect(sb: Super, im: Image, owner: map<int, Slot>, i: int, im': Image)
    requires ImageOk(sb, im) && OwnedBut(sb, im, owner, i, NINDIRECT) && i in im.addrs && im.addrs[i][NDIRECT] != 0
    requires var b := im.addrs[i][NDIRECT];
      && 0 <= b / BPB < |im.bitmap| && |im.bitmap[b / BPB]| == BSIZE
      && im' == im.(bitmap := ClearMark(im.bitmap, b), addrs := im.addrs[i := im.addrs[i][NDIRECT := 0]])
    ensures ImageOk(sb, im') && Owned(sb, im', owner - {im.addrs[i][NDIRECT]})
  {
    var b := im.addrs[i][NDIRECT];
    IndirectVal(im, i);
    NamedIsMarked(sb, im, owner, i, NINDIRECT, Indirect(i));
    ClearMarkMarks(sb, im.bitmap, b);
    assert forall t :: ValBut(im', i, 0, t) == if t == Indirect(i) then 0 else ValBut(im, i, NINDIRECT, t);
    DropKeepsOwned(sb, im, owner, i, NINDIRECT, Indirect(i), b, im', i, 0);
    NothingLeftOut(sb, im', owner - {b}, i);
  }

  lemma SizeNotOwned(sb: Super, im0: Image, owner0: map<int, Slot>, im1: Image, owner: map<int, Slot>, im': Image,
                     i: int)
    requires ImageOk(sb, im0) && Owned(sb, im0, owner0) && ImageOk(sb, im1) && Owned(sb, im1, owner) &&
             Lost(owner0, owner, i)
    requires i in im0.addrs && im1.data == im0.data && im1.isize == im0.isize
    requires im1.addrs.Keys == im0.addrs.Keys && forall j :: j in im1.addrs && j != i ==> im1.addrs[j] == im0.addrs[j]
    requires im1.addrs[i] == seq(NDIRECT + 1, _ => 0)
    requires im' == im1.(isize := im1.isize[i := 0])
    ensures ImageOk(sb, im') && Owned(sb, im', owner)
    ensures im'.addrs == im0.addrs[i := seq(NDIRECT + 1, _ => 0)]
    ensures forall s :: Val(im', s) == if s.inum == i then 0 else Val(im0, s)
    ensures forall b :: b in im0.data && Marked(im0.bitmap, b) ==> b in owner0
    ensures forall b :: b in im0.data ==> (Marked(im'.bitmap, b) <==> Marked(im0.bitmap, b) && owner0[b].inum != i)
  {
    assert forall s :: Val(im', s) == Val(im1, s);
    forall s
      ensures Val(im1, s) == if s.inum == i then 0 else Val(im0, s)
    {
    }
    forall j: int | j in im'.addrs
      ensures im'.addrs[j] == im0.addrs[i := seq(NDIRECT + 1, _ => 0)][j]
    {
    }
    assert im'.addrs == im0.addrs[i := seq(NDIRECT + 1, _ => 0)];
  }

  lemma DirectVal(im: Image, i: int, k: int, n: int)
    requires i in im.addrs && |im.addrs[i]| == NDIRECT + 1 && 0 <= k < NDIRECT
    ensures ValBut(im, i, n, Direct(i, k)) == im.addrs[i][k]
  {
  }

  lemma ForgetDirect(sb: Super, im: Image, owner: map<int, Slot>, i: int, k: int, im': Image)
    requires ImageOk(sb, im) && Owned(sb, im, owner) && i in im.addrs && 0 <= k < NDIRECT && im.addrs[i][k] != 0
    requires var b := im.addrs[i][k];
      && 0 <= b / BPB < |im.bitmap| && |im.bitmap[b / BPB]| == BSIZE
      && im' == im.(bitmap := ClearMark(im.bitmap, b), addrs := im.addrs[i := im.addrs[i][k := 0]])
    ensures ImageOk(sb, im') && Owned(sb, im', owner - {im.addrs[i][k]})
  {
    var b := im.addrs[i][k];
    OwnedIsOwnedBut(sb, im, owner, i);
    DirectVal(im, i, k, 0);
    NamedIsMarked(sb, im, owner, i, 0, Direct(i, k));
    ClearMarkMarks(sb, im.bitmap, b);
    assert forall t :: Val(im', t) == if t == Direct(i, k) then 0 else Val(im, t);
    assert forall t :: ValBut(im', i, 0, t) == if t == Direct(i, k) then 0 else ValBut(im, i, 0, t);
    DropKeepsOwned(sb, im, owner, i, 0, Direct(i, k), b, im', i, 0);
    NothingLeftOut(sb, im', owner - {b}, i);
  }

  lemma NothingLeftOut(sb: Super, im: Image, owner: map<int, Slot>, i: int)
    requires OwnedBut(sb, im, owner, i, 0)
    ensures Owned(sb, im, owner)
  {
    assert forall t :: ValBut(im, i, 0, t) == Val(im, t);
  }

  lemma ExtendsTransitive(im: Image, im1: Image, im2: Image)
    requires Extends(im, im1) && Extends(im1, im2)
    ensures Extends(im, im2)
  {
  }

  lemma JournaledTransitive(sb: Super, im: Image, im1: Image, im2: Image, l1: seq<int>, l2: seq<int>)
    requires Journaled(sb, im, im1, l1) && Journaled(sb, im1, im2, l2)
    ensures Journaled(sb, im, im2, l1 + l2)
  {
  }

  /** An inode's own fields are its direct slots and its indirect slot. */
  lemma InodeSlots(sb: Super, im: Image, i: int)
    requires ImageOk(sb, im) && i in im.addrs
    ensures |im.addrs[i]| == NDIRECT + 1
    ensures forall k :: 0 <= k < NDIRECT ==> Val(im, Direct(i, k)) == im.addrs[i][k]
    ensures forall k :: 0 <= k < NDIRECT && im.addrs[i][k] == 0 ==> Vacant(im, Direct(i, k))
    ensures Val(im, Indirect(i)) == im.addrs[i][NDIRECT]
    ensures im.addrs[i][NDIRECT] == 0 ==> Vacant(im, Indirect(i))
  {
  }

  lemma EntrySlot(sb: Super, im: Image, owner: map<int, Slot>, i: int, j: int)
    requires ImageOk(sb, im) && Owned(sb, im, owner) && i in im.addrs && |im.addrs[i]| == NDIRECT + 1
    requires im.addrs[i][NDIRECT] != 0 && 0 <= j < NINDIRECT
    ensures im.addrs[i][NDIRECT] in im.data && |im.data[im.addrs[i][NDIRECT]]| == BSIZE
    ensures Val(im, Entry(i, j)) == Word(im.data[im.addrs[i][NDIRECT]], j)
    ensures Val(im, Entry(i, j)) == 0 ==> Vacant(im, Entry(i, j))
  {
    assert Val(im, Indirect(i)) == im.addrs[i][NDIRECT];
  }

  lemma EntriesOfNone(sb: Super, im: Image, i: int, j: int)
    requires ImageOk(sb, im) && i in im.addrs && |im.addrs[i]| == NDIRECT + 1 && im.addrs[i][NDIRECT] == 0
    ensures Val(im, Entry(i, j)) == 0
  {
  }

  lemma VacantTable(im: Image, s: Slot)
    requires Vacant(im, s)
    ensures s.Entry? ==>
             s.inum in im.addrs && |im.addrs[s.inum]| == NDIRECT + 1 &&
             Val(im, Indirect(s.inum)) == im.addrs[s.inum][NDIRECT]
  {
  }

  lemma ClearJournaled(sb: Super, im: Image, im': Image, b: int)
    requires 0 <= b / BPB < |im.bitmap| && |im.bitmap[b / BPB]| == BSIZE
    requires im'.data == im.data && im'.bitmap == ClearMark(im.bitmap, b)
    ensures Journaled(sb, im, im', [BBlock(sb, b)])
  {
  }

  /** Two stretches of a log. */
  lemma JournaledOn(sb: Super, im: Image, im1: Image, im2: Image, l0: seq<int>, l1: seq<int>, l2: seq<int>)
    requires l0 <= l1 <= l2 && Journaled(sb, im, im1, l1[|l0|..]) && Journaled(sb, im1, im2, l2[|l1|..])
    ensures l0 <= l2 && Journaled(sb, im, im2, l2[|l0|..])
  {
    JournaledTransitive(sb, im, im1, im2, l1[|l0|..], l2[|l1|..]);
    assert l2[|l0|..] == l1[|l0|..] + l2[|l1|..];
  }

  lemma SameJournaled(sb: Super, im: Image)
    ensures Journaled(sb, im, im, [])
  {
  }

  lemma NamedIsData(sb: Super, im: Image, owner: map<int, Slot>, s: Slot)
    requires Owned(sb, im, owner) && Val(im, s) != 0
    ensures Val(im, s) in im.data
  {
  }
}
