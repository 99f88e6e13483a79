/** iput and ireclaim of kernel/fs.c with the blocks they free: inodes and names as in Links, blocks as in Fs. */
module Volume {
  import opened FsImage
  import opened FsContent
  import opened LinkCount
  import opened LinkSteps
  import opened Links
  import Fs

  class MountedDisk {
    const tree: FileTree
    const fs: Fs.FileSystem

    /** Only inodes in use have blocks. */
    ghost predicate Valid()
      reads this, tree, fs
    {
      && tree.Valid() && fs.Valid()
      && (forall i :: i in fs.addrs <==> 1 <= i < |tree.inodes|)
      && (forall s: Slot :: Val(fs.Img(), s) != 0 ==> InUse(tree.inodes, s.inum))
    }

    constructor (t: FileTree, f: Fs.FileSystem)
      requires t.Valid() && f.Valid() && forall i :: i in f.addrs <==> 1 <= i < |t.inodes|
      requires forall s: Slot :: Val(f.Img(), s) != 0 ==> InUse(t.inodes, s.inum)
      ensures Valid() && tree == t && fs == f
    {
      tree, fs := t, f;
    }

    /** Every marked block is named by an inode in use. */
    lemma BlocksInUse(b: int)
      requires Valid() && b in fs.data && Marked(fs.bitmap, b)
      ensures b in fs.owner && InUse(tree.inodes, fs.owner[b].inum) && Val(fs.Img(), fs.owner[b]) == b
    {
      hide Marked, Val;
      NotZero(fs.sb, fs.Img(), b);
    }

    /** iput: the last reference to an inode without links frees the inode and exactly its blocks. */
    method Iput(i: int)
      requires Valid() && 1 <= i < |tree.inodes| && 0 < tree.refs[i]
      modifies tree`refs, tree`inodes, fs
      ensures Valid() && tree.refs == old(tree.refs)[i := old(tree.refs)[i] - 1]
      ensures if old(tree.refs)[i] == 1 && old(tree.inodes)[i].nlink == 0
              then tree.inodes == old(tree.inodes)[i := NoInode] && Truncated(old(fs.Img()), fs.Img(), old(fs.owner), i)
              else tree.inodes == old(tree.inodes) && fs.Img() == old(fs.Img()) && fs.owner == old(fs.owner)
      ensures old(tree.NoOrphans()) ==> tree.NoOrphans()
      ensures old(fs.Synced()) ==> fs.Synced()
    {
      hide Marked, Val, Ok, Owned, BitmapOk, DataOk, InodesOk, Fs.FileSystem.Synced, Fs.Journaled, Fs.InodesJournaled;
      Sizes(fs.sb, fs.Img(), fs.owner);
      if tree.refs[i] == 1 && tree.inodes[i].nlink == 0 {
        fs.Itrunc(i);
      }
      tree.Iput(i);
      Sizes(fs.sb, fs.Img(), fs.owner);
    }

    /** ireclaim: afterwards every inode in use has a link, linked inodes are untouched, and the marked blocks are
        exactly those that linked inodes had. */
    method Ireclaim()
      requires Valid() && forall i :: 0 <= i < |tree.refs| ==> tree.refs[i] == 0
      modifies tree`inodes, tree`refs, fs
      ensures Valid() && tree.refs == old(tree.refs) && |tree.inodes| == |old(tree.inodes)| && fs.data == old(fs.data)
      ensures forall i :: 1 <= i < |tree.inodes| ==>
                tree.inodes[i] == if old(tree.inodes)[i].nlink == 0 then NoInode else old(tree.inodes)[i]
      ensures forall b :: b in fs.data ==>
                (Marked(fs.bitmap, b) <==> Marked(old(fs.bitmap), b) && LinkedOwner(old(tree.inodes), old(fs.owner), b))
      ensures tree.NoOrphans() && (old(fs.Synced()) ==> fs.Synced())
    {
      hide Ok, Val, Marked, Owned, BitmapOk, DataOk, InodesOk, Truncated, Reclaimed, Fs.FileSystem.Synced;
      ghost var ns0, im0, owner0 := tree.inodes, fs.Img(), fs.owner;
      AllInUse();
      LinksOk(tree.inodes, tree.pending, tree.home);
      NothingReclaimed(ns0, im0, owner0);
      var i := 1;
      while i < |tree.inodes|
        invariant 1 <= i && Valid() && tree.refs == old(tree.refs) && |tree.inodes| == |ns0| &&
                  tree.pending == old(tree.pending)
        invariant forall j :: 1 <= j < |ns0| ==>
                    tree.inodes[j] == if j < i && ns0[j].nlink == 0 then NoInode else ns0[j]
        invariant Reclaimed(ns0, im0, owner0, fs.Img(), fs.owner, i) && (old(fs.Synced()) ==> fs.Synced())
      {
        ghost var im1, owner1 := fs.Img(), fs.owner;
        if tree.inodes[i].kind != Unused && tree.inodes[i].nlink == 0 {
          tree.Hold(i);
          Iput(i);
          assert tree.refs == old(tree.refs);
          Owners(fs.sb, im1, owner1, fs.Img(), fs.owner, i);
          ReclaimOne(ns0, im0, owner0, im1, owner1, fs.Img(), fs.owner, i);
        } else {
          ReclaimNone(ns0, im0, owner0, im1, owner1, i);
        }
        i := i + 1;
      }
      ReclaimedAll(ns0, im0, owner0, fs.Img(), fs.owner, i);
      LinksOk(tree.inodes, tree.pending, tree.home);
    }

    lemma AllInUse()
      requires Valid()
      ensures forall b :: b in fs.owner <==> b in fs.data && Marked(fs.bitmap, b)
      ensures forall b :: b in fs.owner ==> InUse(tree.inodes, fs.owner[b].inum)
    {
      hide Marked, Val;
      forall b | b in fs.owner ensures InUse(tree.inodes, fs.owner[b].inum) {
        BlocksInUse(b);
      }
    }
  }

  /** Block b belongs to an inode with a link. */
  ghost predicate LinkedOwner(ns: seq<Inode>, owner: map<int, Slot>, b: int) {
    b in owner && InUse(ns, owner[b].inum) && 0 < ns[owner[b].inum].nlink
  }

  lemma Sizes(sb: Super, im: Image, owner: map<int, Slot>)
    requires ImageOk(sb, im) && Owned(sb, im, owner)
    ensures forall b :: b in owner <==> b in im.data && Marked(im.bitmap, b)
  {
  }

  ghost predicate InUse(ns: seq<Inode>, i: int) {
    1 <= i < |ns| && ns[i].kind != Unused
  }

  /** Inode i is empty and its blocks are free; no other bit, block or inode has changed. */
  ghost predicate Truncated(im: Image, im': Image, owner: map<int, Slot>, i: int) {
    && im'.data == im.data && i in im'.isize && im'.isize[i] == 0
    && (forall b :: b in im.data && Marked(im.bitmap, b) ==> b in owner)
    && (forall b :: b in im.data ==> (Marked(im'.bitmap, b) <==> Marked(im.bitmap, b) && owner[b].inum != i))
    && (forall s :: Val(im', s) == if s.inum == i then 0 else Val(im, s))
    && (forall j :: j in im.isize && j != i ==> j in im'.isize && im'.isize[j] == im.isize[j])
  }

  lemma NotZero(sb: Super, im: Image, b: int)
    requires ImageOk(sb, im) && b in im.data
    ensures b != 0
  {
  }

  /** The unlinked inodes below n have lost their blocks; no other block has changed hands. */
  ghost predicate Reclaimed(ns: seq<Inode>, im0: Image, owner0: map<int, Slot>, im: Image, owner: map<int, Slot>,
                            n: int) {
    && im.data == im0.data
    && (forall b :: b in owner0 ==> b in im0.data && InUse(ns, owner0[b].inum))
    && (forall b :: b in im0.data ==>
          (Marked(im.bitmap, b) <==> Marked(im0.bitmap, b) && b in owner0 && !Lapsed(ns, owner0[b].inum, n)))
    && (forall b :: b in owner ==> b in owner0 && owner[b] == owner0[b])
    && (forall b :: b in owner <==> b in im.data && Marked(im.bitmap, b))
  }

  ghost predicate Lapsed(ns: seq<Inode>, i: int, n: int) {
    i < n && InUse(ns, i) && ns[i].nlink == 0
  }

  lemma NothingReclaimed(ns: seq<Inode>, im: Image, owner: map<int, Slot>)
    requires forall b :: b in owner <==> b in im.data && Marked(im.bitmap, b)
    requires forall b :: b in owner ==> InUse(ns, owner[b].inum)
    ensures Reclaimed(ns, im, owner, im, owner, 1)
  {
    hide Marked;
  }

  lemma ReclaimOne(ns: seq<Inode>, im0: Image, owner0: map<int, Slot>, im: Image, owner: map<int, Slot>,
                   im': Image, owner': map<int, Slot>, i: int)
    requires Reclaimed(ns, im0, owner0, im, owner, i) && Truncated(im, im', owner, i) && InUse(ns, i) &&
             ns[i].nlink == 0
    requires forall b :: b in owner' ==> b in owner && owner'[b] == owner[b]
    requires forall b :: b in owner' <==> b in im'.data && Marked(im'.bitmap, b)
    ensures Reclaimed(ns, im0, owner0, im', owner', i + 1)
  {
    hide Marked, Val;
    var n := i + 1;
    forall b | b in im0.data
      ensures Marked(im'.bitmap, b) <==> Marked(im0.bitmap, b) && b in owner0 && !Lapsed(ns, owner0[b].inum, n)
    {
    }
  }

  lemma ReclaimNone(ns: seq<Inode>, im0: Image, owner0: map<int, Slot>, im: Image, owner: map<int, Slot>, i: int)
    requires Reclaimed(ns, im0, owner0, im, owner, i) && !(InUse(ns, i) && ns[i].nlink == 0)
    ensures Reclaimed(ns, im0, owner0, im, owner, i + 1)
  {
    hide Marked, Val;
    var n := i + 1;
    forall j: int ensures Lapsed(ns, j, n) <==> Lapsed(ns, j, i) {
    }
  }

  lemma ReclaimedAll(ns: seq<Inode>, im0: Image, owner0: map<int, Slot>, im: Image, owner: map<int, Slot>, n: int)
    requires Reclaimed(ns, im0, owner0, im, owner, n) && |ns| <= n && forall i :: 1 <= i < |ns| ==> 0 <= ns[i].nlink
    requires forall b :: b in owner0 <==> b in im0.data && Marked(im0.bitmap, b)
    ensures im.data == im0.data
    ensures forall b :: b in im0.data ==>
              (Marked(im.bitmap, b) <==> Marked(im0.bitmap, b) && LinkedOwner(ns, owner0, b))
  {
    hide Marked, Val;
  }

  /** After a truncation, the blocks that are left have their owners still. */
  lemma Owners(sb: Super, im: Image, owner: map<int, Slot>, im': Image, owner': map<int, Slot>, i: int)
    requires ImageOk(sb, im) && Owned(sb, im, owner) && ImageOk(sb, im') && Owned(sb, im', owner')
    requires Truncated(im, im', owner, i)
    ensures forall b :: b in owner' ==> b in owner && owner'[b] == owner[b]
    ensures forall b :: b in owner' <==> b in im'.data && Marked(im'.bitmap, b)
  {
    hide Marked, Val;
    forall b | b in owner' ensures b in owner && owner'[b] == owner[b] {
      NotZero(sb, im, b);
      assert Val(im', owner'[b]) == b && Val(im, owner'[b]) == b;
    }
  }
}
