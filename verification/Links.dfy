/** The calls of kernel/sysfile.c that make and remove names, and the inode references of kernel/fs.c.

    Every method is what one call does while it holds the inodes' locks; other calls may come between the start
    and the end of sys_link. A flag says whether the disk has room to extend a directory. */
module Links {
  import opened LinkCount
  import opened LinkSteps

  class FileTree {
    var inodes: seq<Inode>
    var refs: seq<int>
    ghost var pending: seq<int>
    ghost var home: seq<int>

    ghost predicate Valid()
      reads this
    {
      && Ok(inodes, pending, home) && |refs| == |inodes|
      && (forall i :: 0 <= i < |refs| ==> 0 <= refs[i] && (inodes[i].kind == Unused ==> refs[i] == 0))
    }

    /** An inode without links is in use by somebody. */
    ghost predicate NoOrphans()
      reads this
    {
      |refs| == |inodes| && forall i :: 1 <= i < |inodes| && inodes[i].kind != Unused && inodes[i].nlink == 0 ==>
        0 < refs[i]
    }

    /** A disk with n inodes and an empty root directory. */
    constructor (n: int)
      requires ROOT < n
      ensures Valid() && NoOrphans() && |inodes| == n
      ensures forall i :: 0 <= i < n ==> refs[i] == pending[i] == 0
      ensures forall i :: 0 <= i < n ==>
                inodes[i] == if i == ROOT then Inode(Dir, 1, [Ent(ROOT, "."), Ent(ROOT, "..")]) else NoInode
    {
      var root := Inode(Dir, 1, [Ent(ROOT, "."), Ent(ROOT, "..")]);
      inodes := seq(n, i => if i == ROOT then root else NoInode);
      refs := seq(n, i => 0);
      pending, home := seq(n, i => 0), seq(n, i => 0);
      new;
      RootOnly(inodes, pending, home);
    }

    /** dirlookup: where the name is; -1 if nowhere. */
    method DirLookup(d: int, name: string) returns (k: int)
      requires 0 <= d < |inodes|
      ensures -1 <= k < |inodes[d].ents|
      ensures k == -1 <==> Absent(inodes[d].ents, name)
      ensures 0 <= k ==> FirstNamed(inodes[d].ents, name, k)
    {
      var es := inodes[d].ents;
      k := 0;
      while k < |es|
        invariant 0 <= k <= |es| && forall j :: 0 <= j < k && es[j].inum != 0 ==> es[j].name != name
      {
        if es[k].inum != 0 && es[k].name == name { return; }
        k := k + 1;
      }
      k := -1;
    }

    /** The search of dirlink: the first empty slot, or the end. */
    method FindSlot(d: int) returns (k: int)
      requires 0 <= d < |inodes|
      ensures 0 <= k <= |inodes[d].ents| && (forall j :: 0 <= j < k ==> inodes[d].ents[j].inum != 0)
      ensures k < |inodes[d].ents| ==> inodes[d].ents[k].inum == 0
    {
      var es := inodes[d].ents;
      k := 0;
      while k < |es|
        invariant 0 <= k <= |es| && forall j :: 0 <= j < k ==> es[j].inum != 0
      {
        if es[k].inum == 0 { return; }
        k := k + 1;
      }
    }

    /** dirlink: a new entry in the first empty slot, if the name is not there and the directory can hold it. */
    method DirLink(d: int, name: string, i: int, room: bool) returns (ok: bool, k: int)
      requires 0 <= d < |inodes|
      modifies `inodes
      ensures 0 <= k <= |old(inodes)[d].ents|
      ensures ok ==>
               Absent(old(inodes)[d].ents, name) &&
               inodes == Named(old(inodes), d, k, Ent(i, name), old(inodes)[d].nlink)
      ensures ok ==> (k < |old(inodes)[d].ents| ==> old(inodes)[d].ents[k].inum == 0) &&
                     forall j :: 0 <= j < k ==> old(inodes)[d].ents[j].inum != 0
      ensures !ok ==> inodes == old(inodes)
      ensures ok <==> Absent(old(inodes)[d].ents, name) && (room || HasSlot(old(inodes)[d].ents))
    {
      k := DirLookup(d, name);
      if k != -1 { return false, 0; }
      k := FindSlot(d);
      if k == |inodes[d].ents| && !room { return false, k; }
      inodes := inodes[d := inodes[d].(ents := Put(inodes[d].ents, k, Ent(i, name)))];
      ok := true;
    }

    /** isdirempty */
    method IsDirEmpty(d: int) returns (r: bool)
      requires 0 <= d < |inodes|
      ensures r <==> Empty(inodes[d].ents)
    {
      var k := 2;
      while k < |inodes[d].ents|
        invariant 2 <= k && forall j :: 2 <= j < k && j < |inodes[d].ents| ==> inodes[d].ents[j].inum == 0
      {
        if inodes[d].ents[k].inum != 0 { return false; }
        k := k + 1;
      }
      return true;
    }

    /** The search of ialloc: the first unused inode, or 0. */
    method FindInode() returns (i: int)
      ensures i == 0 || (1 <= i < |inodes| && inodes[i].kind == Unused)
      ensures i == 0 ==> forall j :: 1 <= j < |inodes| ==> inodes[j].kind != Unused
    {
      i := 1;
      while i < |inodes|
        invariant 1 <= i && forall j :: 1 <= j < i && j < |inodes| ==> inodes[j].kind != Unused
      {
        if inodes[i].kind == Unused { return; }
        i := i + 1;
      }
      i := 0;
    }

    /** idup and iget: one more reference. */
    method Hold(i: int)
      requires Valid() && 0 <= i < |inodes| && inodes[i].kind != Unused
      modifies `refs
      ensures Valid() && refs == old(refs)[i := old(refs)[i] + 1]
    {
      refs := refs[i := refs[i] + 1];
    }

    /** iput: the last user of an inode without links frees it. */
    method Iput(i: int)
      requires Valid() && 1 <= i < |inodes| && 0 < refs[i]
      modifies `refs, `inodes
      ensures Valid() && refs == old(refs)[i := old(refs)[i] - 1]
      ensures inodes ==
              if old(refs)[i] == 1 && old(inodes)[i].nlink == 0 then old(inodes)[i := NoInode] else old(inodes)
      ensures old(NoOrphans()) ==> NoOrphans()
    {
      if refs[i] == 1 && inodes[i].nlink == 0 {
        FreeKeeps(inodes, pending, home, i);
      }
      Drop(i);
    }

    /** iput, whatever the links. */
    method Drop(i: int)
      requires |refs| == |inodes| && 1 <= i < |inodes| && 0 < refs[i]
      modifies `refs, `inodes
      ensures refs == old(refs)[i := old(refs)[i] - 1]
      ensures inodes ==
              if old(refs)[i] == 1 && old(inodes)[i].nlink == 0 then old(inodes)[i := NoInode] else old(inodes)
    {
      if refs[i] == 1 && inodes[i].nlink == 0 {
        inodes := inodes[i := NoInode];
      }
      refs := refs[i := refs[i] - 1];
    }

    /** sys_link up to the unlock of ip: the count goes up before the name is made. It stays right if and only if it
        was below the greatest short. */
    method LinkStart(i: int) returns (ok: bool)
      requires Valid() && 1 <= i < |inodes| && 0 < refs[i] && inodes[i].kind != Unused
      modifies this
      ensures home == old(home) && (Valid() <==> !ok || old(inodes)[i].nlink < MAXLINK)
      ensures ok ==> (Conserved(inodes, pending) <==> old(inodes)[i].nlink < MAXLINK)
      ensures ok <==> old(inodes)[i].kind != Dir
      ensures ok ==> inodes == old(inodes)[i := old(inodes)[i].(nlink := Short(old(inodes)[i].nlink + 1))]
      ensures ok ==> refs == old(refs)
      ensures ok ==> |pending| == |inodes| && 0 < pending[i] && pending == old(pending)[i := old(pending)[i] + 1]
      ensures !ok ==> pending == old(pending) && refs == old(refs)[i := old(refs)[i] - 1]
      ensures !ok ==> inodes == Dropped(old(inodes), i, old(refs)[i])
      ensures old(NoOrphans()) ==> NoOrphans()
    {
      hide TreeOk, Conserved, PendingOk;
      if inodes[i].kind == Dir {
        Iput(i);
        return false;
      }
      CountsNatural(inodes, pending, i);
      RaiseKeeps(inodes, pending, home, i, 1);
      if MAXLINK <= inodes[i].nlink { WrongCount(inodes, pending, i, Short(inodes[i].nlink + 1)); }
      inodes := inodes[i := inodes[i].(nlink := Short(inodes[i].nlink + 1))];
      pending := pending[i := pending[i] + 1];
      ok := true;
    }

    /** The name of sys_link: made or not. Link counts stay right exactly if it is not made, or made in a
        directory that is itself linked. */
    method LinkName(d: int, name: string, i: int, room: bool) returns (ok: bool)
      requires Valid() && 1 <= i < |inodes| && 0 < pending[i] && 1 <= d < |inodes| && inodes[d].kind == Dir
      modifies this
      ensures ok ==> Absent(old(inodes)[d].ents, name) && pending == old(pending)[i := old(pending)[i] - 1]
      ensures ok ==> exists k ::
               2 <= k <= |old(inodes)[d].ents| && inodes == Named(old(inodes), d, k, Ent(i, name), old(inodes)[d].nlink)
      ensures !ok ==> inodes == old(inodes) && pending == old(pending)
      ensures ok <==> Absent(old(inodes)[d].ents, name) && (room || HasSlot(old(inodes)[d].ents))
      ensures refs == old(refs) && home == old(home)
      ensures Conserved(inodes, pending) <==> !ok || Live(old(inodes)[d])
      ensures !ok || Live(old(inodes)[d]) ==> Valid()
    {
      hide TreeOk;
      var k;
      DirAt(inodes, home, d);
      LinkableFile(inodes, pending, home, i);
      ok, k := DirLink(d, name, i, room);
      if !ok { return; }
      if Live(old(inodes)[d]) {
        LinkKeeps(old(inodes), pending, home, d, k, name, i);
      } else {
        DeadName(old(inodes), pending, d, k, Ent(i, name), i);
      }
      pending := pending[i := pending[i] - 1];
    }

    /** The failure path of sys_link. */
    method LinkUndo(i: int)
      requires Valid() && 1 <= i < |inodes| && 0 < pending[i] && 0 < refs[i]
      modifies this
      ensures Valid() && pending == old(pending)[i := old(pending)[i] - 1] && home == old(home)
      ensures refs == old(refs)[i := old(refs)[i] - 1]
      ensures inodes == Dropped(old(inodes)[i := old(inodes)[i].(nlink := old(inodes)[i].nlink - 1)], i, old(refs)[i])
      ensures old(NoOrphans()) ==> NoOrphans()
    {
      hide TreeOk, Conserved;
      LinkableFile(inodes, pending, home, i);
      RaiseKeeps(inodes, pending, home, i, -1);
      inodes := inodes[i := inodes[i].(nlink := inodes[i].nlink - 1)];
      pending := pending[i := pending[i] - 1];
      Iput(i);
    }

    /** The entry at slot k of directory d, a name of inode i, goes away. */
    method RemoveName(d: int, k: int, i: int)
      requires Valid() && CanUnlink(inodes, home, d, k, i) && (inodes[i].kind == Dir ==> Empty(inodes[i].ents))
      modifies `inodes
      ensures Valid() && inodes == Unlinked(old(inodes), d, k, i)
      ensures |inodes| == |old(inodes)| && 0 < inodes[d].nlink && inodes[i].kind == old(inodes)[i].kind &&
              inodes[d].kind == Dir
      ensures forall j :: 0 <= j < |inodes| && j != d && j != i ==> inodes[j] == old(inodes)[j]
    {
      hide TreeOk, Conserved, PendingOk;
      NamedLinked(inodes, pending, home, d, k, i);
      if inodes[i].kind == Dir {
        DirUnlinkKeeps(inodes, pending, home, d, k, i);
        TwoLinks(inodes, pending, home, d, k, i);
        inodes := inodes[d := inodes[d].(ents := inodes[d].ents[k := NoEnt])];
        inodes := inodes[d := inodes[d].(nlink := inodes[d].nlink - 1)];
      } else {
        FileUnlinkKeeps(inodes, pending, home, d, k, i);
        inodes := inodes[d := inodes[d].(ents := inodes[d].ents[k := NoEnt])];
      }
      inodes := inodes[i := inodes[i].(nlink := inodes[i].nlink - 1)];
      assert inodes == Unlinked(old(inodes), d, k, i);
    }

    /** sys_unlink, with directory d locked. The name of a file, or of a directory that holds none, goes away;
        the inode goes with its last name and its last user. */
    method Unlink(d: int, name: string) returns (ok: bool, ghost k: int, ghost i: int)
      requires Valid() && 1 <= d < |inodes| && inodes[d].kind == Dir && 0 < refs[d]
      modifies this
      ensures Valid() && pending == old(pending) && home == old(home) && refs == old(refs)[d := old(refs)[d] - 1]
      ensures old(NoOrphans()) ==> NoOrphans()
      ensures ok ==> CanUnlink(old(inodes), home, d, k, i) && old(inodes)[d].ents[k].name == name
      ensures ok ==> !HoldsNames(old(inodes), i)
      ensures ok ==> IsUnlinked(old(inodes), inodes, old(refs), d, k, i)
      ensures !ok ==> inodes == old(inodes) || (old(inodes)[d].nlink == 0 && inodes == old(inodes)[d := NoInode])
      ensures !ok ==>
                name == "." || name == ".." || Absent(old(inodes)[d].ents, name) || NamesUsed(old(inodes), d, name)
    {
      hide Ok, Unlinked, Empty;
      k, i := 0, 0;
      if name == "." || name == ".." {
        Iput(d);
        return false, k, i;
      }
      var at := DirLookup(d, name);
      if at == -1 {
        Iput(d);
        return false, k, i;
      }
      k := at;
      var ip := inodes[d].ents[at].inum;
      i := ip;
      FoundLive(inodes, pending, home, d, at);
      ok := UnlinkFound(d, at, ip);
    }

    /** The test of sys_unlink for its panic. While the counts are right, no inode with a name fails it. */
    method LinksLost(ghost d: int, ghost k: int, i: int) returns (panics: bool)
      requires 0 <= i < |inodes|
      ensures panics <==> inodes[i].nlink < 1
      ensures Valid() && CanUnlink(inodes, home, d, k, i) ==> !panics
    {
      hide Ok;
      if Valid() && CanUnlink(inodes, home, d, k, i) { NotSelf(inodes, pending, home, d, k); }
      panics := inodes[i].nlink < 1;
    }

    /** sys_unlink, once the name has been found. Its panic is unreachable. */
    method UnlinkFound(d: int, k: int, i: int) returns (ok: bool)
      requires Valid() && CanUnlink(inodes, home, d, k, i) && inodes[d].kind == Dir && 0 < refs[d]
      modifies this
      ensures Valid() && pending == old(pending) && home == old(home) && refs == old(refs)[d := old(refs)[d] - 1]
      ensures old(NoOrphans()) ==> NoOrphans()
      ensures 0 < old(inodes)[i].nlink && (ok <==> !HoldsNames(old(inodes), i))
      ensures ok ==> IsUnlinked(old(inodes), inodes, old(refs), d, k, i)
      ensures !ok ==> inodes == old(inodes)
    {
      hide Ok, Link, DirUnlinked, FileUnlinked, Empty;
      NotSelf(inodes, pending, home, d, k);
      Hold(i);
      var panics := LinksLost(d, k, i);
      assert !panics;
      var empty := IsDirEmpty(i);
      if inodes[i].kind == Dir && !empty {
        Iput(i);
        Iput(d);
        return false;
      }
      RemoveAndPut(d, k, i);
      ok := true;
    }

    /** The end of sys_unlink. */
    method RemoveAndPut(d: int, k: int, i: int)
      requires Valid() && CanUnlink(inodes, home, d, k, i) && (inodes[i].kind == Dir ==> Empty(inodes[i].ents))
      requires 0 < refs[d] && 0 < refs[i] && d != i && inodes[i].kind != Unused
      modifies this
      ensures Valid() && pending == old(pending) && home == old(home)
      ensures refs == old(refs)[d := old(refs)[d] - 1][i := old(refs)[i] - 1]
      ensures old(NoOrphans()) ==> NoOrphans()
      ensures IsUnlinked(old(inodes), inodes, old(refs)[i := old(refs)[i] - 1], d, k, i)
    {
      hide Ok, Link, DirUnlinked, FileUnlinked, Empty;
      RemoveName(d, k, i);
      Iput(d);
      Iput(i);
    }

    /** create, once the name is known to be absent: a new inode with one name, or nothing. Link counts stay
        right exactly if nothing is made, or it is made in a directory that is itself linked. */
    method CreateName(d: int, name: string, kind: Kind, r1: bool, r2: bool, r3: bool) returns (i: int, ghost k: int)
      requires Valid() && 1 <= d < |inodes| && inodes[d].kind == Dir && Absent(inodes[d].ents, name) && kind != Unused
      modifies this
      ensures pending == old(pending) && 0 <= i < |old(inodes)| && |inodes| == |old(inodes)|
      ensures i == 0 ==> inodes == old(inodes) && refs == old(refs) && home == old(home)
      ensures i == 0 <==>
                || (forall j :: 1 <= j < |inodes| ==> old(inodes)[j].kind != Unused)
                || (!r3 && !HasSlot(old(inodes)[d].ents)) || (kind == Dir && !(r1 && r2))
      ensures i != 0 ==>
               old(inodes)[i].kind == Unused && i != d && FreeSlot(old(inodes)[d].ents, k) && refs == old(refs)[i := 1]
      ensures i != 0 ==> inodes == Created(old(inodes), d, k, name, i, kind)
      ensures Conserved(inodes, pending) <==> i == 0 || Live(old(inodes)[d])
      ensures i == 0 || Live(old(inodes)[d]) ==> Valid()
    {
      hide Ok, Created, DirOk;
      k := 0;
      i := FindInode();
      if i == 0 {
        OkConserved(inodes, pending, home);
        return;
      }
      UnusedInode(inodes, pending, home, d, i);
      var ok, at := MakeInode(d, name, kind, i, r1, r2, r3);
      k := at;
      if !ok {
        i := 0;
        OkConserved(inodes, pending, home);
        return;
      }
      SlotInside(old(inodes), home, pending, d, k);
      CreatedKinds(old(inodes), d, k, name, i, kind);
      if Live(old(inodes)[d]) {
        CreateKeeps(old(inodes), pending, home, d, k, name, i, kind);
        OkConserved(inodes, pending, if kind == Dir then home[i := k] else home);
        home := if kind == Dir then home[i := k] else home;
      } else {
        CreateDead(old(inodes), pending, home, d, k, name, i, kind);
      }
    }

    /** The inode i is set up and named in d; on failure it is unused again. */
    method MakeInode(d: int, name: string, kind: Kind, i: int, r1: bool, r2: bool, r3: bool) returns (ok: bool, k: int)
      requires 1 <= i < |inodes| && inodes[i] == NoInode && |refs| == |inodes| && refs[i] == 0 && kind != Unused
      requires 1 <= d < |inodes| && i != d && Absent(inodes[d].ents, name)
      modifies `inodes, `refs
      ensures 0 <= k <= |old(inodes)[d].ents|
      ensures !ok ==> inodes == old(inodes) && refs == old(refs)
      ensures !ok <==> (!r3 && !HasSlot(old(inodes)[d].ents)) || (kind == Dir && !(r1 && r2))
      ensures ok ==> inodes == Created(old(inodes), d, k, name, i, kind) && refs == old(refs)[i := 1]
      ensures ok && k < |old(inodes)[d].ents| ==> old(inodes)[d].ents[k].inum == 0
    {
      hide Created;
      k := 0;
      inodes := inodes[i := Inode(kind, 1, [])];
      refs := refs[i := 1];
      ok := true;
      if kind == Dir {
        ok := DotEntries(i, d, r1, r2);
      }
      if ok {
        ok, k := DirLink(d, name, i, r3);
      }
      if !ok {
        k := 0;
        inodes := inodes[i := NoInode];
        refs := refs[i := 0];
        assert inodes == old(inodes) && refs == old(refs);
        return;
      }
      if kind == Dir {
        inodes := inodes[d := inodes[d].(nlink := inodes[d].nlink + 1)];
      }
      CreatedIs(old(inodes), d, k, name, i, kind, inodes);
    }

    /** The entries of a new directory. */
    method DotEntries(i: int, d: int, r1: bool, r2: bool) returns (ok: bool)
      requires 1 <= i < |inodes| && inodes[i].ents == [] && 1 <= d < |inodes|
      modifies `inodes
      ensures ok <==> r1 && r2
      ensures |inodes| == |old(inodes)| && forall j :: 0 <= j < |inodes| && j != i ==> inodes[j] == old(inodes)[j]
      ensures ok ==> inodes[i] == old(inodes)[i].(ents := [Ent(i, "."), Ent(d, "..")])
    {
      var k;
      ok, k := DirLink(i, ".", i, r1);
      if !ok { return; }
      assert inodes[i].ents == [Ent(i, ".")];
      ok, k := DirLink(i, "..", d, r2);
    }

    /** create, when the name is there already. */
    method OpenEntry(d: int, k: int, kind: Kind) returns (i: int)
      requires Valid() && 1 <= d < |inodes| && inodes[d].kind == Dir && 0 < refs[d]
      requires 0 <= k < |inodes[d].ents| && inodes[d].ents[k].inum != 0
      modifies `refs, `inodes
      ensures Valid() && -1 <= i && |inodes| == |old(inodes)| && 1 <= old(inodes)[d].ents[k].inum < |inodes|
      ensures i == -1 <==> old(inodes)[old(inodes)[d].ents[k].inum].kind == Unused
      ensures i == -1 ==> !Live(old(inodes)[d]) && old(inodes)[d].ents[k].name == ".." && inodes == old(inodes)
      ensures 0 < i ==> i == old(inodes)[d].ents[k].inum && (Live(old(inodes)[d]) ==> 0 < inodes[i].nlink)
      ensures 0 < i <==> kind == File && IsFile(old(inodes)[old(inodes)[d].ents[k].inum])
      ensures i != -1 ==> Opened(old(inodes), old(refs), inodes, refs, d, old(inodes)[d].ents[k].inum, 0 < i)
      ensures Live(old(inodes)[d]) ==> inodes == old(inodes)
      ensures i != -1 && old(NoOrphans()) ==> NoOrphans()
    {
      hide Ok;
      i := inodes[d].ents[k].inum;
      OpenNamed(inodes, pending, home, d, k);
      if inodes[i].kind == Unused { return -1; }
      Hold(i);
      Iput(d);
      if kind == File && (inodes[i].kind == File || inodes[i].kind == Device) { return; }
      Iput(i);
      return 0;
    }

    /** create: 0 if it fails, -1 for ilock's panic on an inode that was freed, which only ".." in an unlinked
        directory can name. A name that is there already is opened if it is no directory and a file is wanted.
        Link counts stay right exactly if no new name is made, or it is made in a directory that is itself linked. */
    method Create(d: int, name: string, kind: Kind, r1: bool, r2: bool, r3: bool) returns (i: int)
      requires Valid() && 1 <= d < |inodes| && inodes[d].kind == Dir && 0 < refs[d] && kind != Unused
      modifies this
      ensures -1 <= i && pending == old(pending) && |inodes| == |old(inodes)| && |refs| == |inodes|
      ensures i == -1 <==> name == ".." && DotDotFreed(old(inodes), d)
      ensures i == -1 ==> !Live(old(inodes)[d]) && inodes == old(inodes)
      ensures 0 < i ==> i < |inodes| && 0 < refs[i] && (Live(old(inodes)[d]) ==> 0 < inodes[i].nlink)
      ensures 0 < i && Absent(old(inodes)[d].ents, name) ==> old(inodes)[i].kind == Unused && i != d
      ensures 0 < i && Absent(old(inodes)[d].ents, name) ==>
                exists k :: FreeSlot(old(inodes)[d].ents, k) &&
                            inodes == Dropped(Created(old(inodes), d, k, name, i, kind), d, old(refs)[d])
      ensures 0 < i && Absent(old(inodes)[d].ents, name) ==> refs == old(refs)[i := 1][d := old(refs)[d] - 1]
      ensures Absent(old(inodes)[d].ents, name) ==>
                (i == 0 <==>
                 || (forall j :: 1 <= j < |inodes| ==> old(inodes)[j].kind != Unused)
                 || (!r3 && !HasSlot(old(inodes)[d].ents)) || (kind == Dir && !(r1 && r2)))
      ensures i == 0 && Absent(old(inodes)[d].ents, name) ==>
                refs == old(refs)[d := old(refs)[d] - 1] && inodes == Dropped(old(inodes), d, old(refs)[d])
      ensures i != -1 && !Absent(old(inodes)[d].ents, name) ==>
                exists k :: FirstNamed(old(inodes)[d].ents, name, k) && 1 <= old(inodes)[d].ents[k].inum < |inodes| &&
                            (0 < i <==> kind == File && IsFile(old(inodes)[old(inodes)[d].ents[k].inum])) &&
                            (0 < i ==> i == old(inodes)[d].ents[k].inum) &&
                            Opened(old(inodes), old(refs), inodes, refs, d, old(inodes)[d].ents[k].inum, 0 < i)
      ensures Live(old(inodes)[d]) && (i == 0 || !Absent(old(inodes)[d].ents, name)) ==> inodes == old(inodes)
      ensures Conserved(inodes, pending) <==> i <= 0 || Live(old(inodes)[d]) || !Absent(old(inodes)[d].ents, name)
      ensures i <= 0 || Live(old(inodes)[d]) || !Absent(old(inodes)[d].ents, name) ==>
                Valid() && (i != -1 && old(NoOrphans()) ==> NoOrphans())
    {
      hide Ok, Created, DirOk, Conserved;
      DotDotAt(inodes, pending, home, d);
      var k := DirLookup(d, name);
      if k != -1 {
        i := OpenEntry(d, k, kind);
        OkConserved(inodes, pending, home);
        return;
      }
      ghost var at;
      i, at := CreateName(d, name, kind, r1, r2, r3);
      if i != 0 { CreatedKinds(old(inodes), d, at, name, i, kind); }
      ghost var good := i == 0 || Live(old(inodes)[d]);
      if refs[d] == 1 && inodes[d].nlink == 0 {
        if good { FreeKeeps(inodes, pending, home, d); } else { DroppedDead(inodes, pending, d); }
      }
      Drop(d);
      if good { OkConserved(inodes, pending, home); }
    }

    /** A crash or a shutdown: no references are left. The log has made every call whole. */
    method Reboot()
      requires Valid() && forall i :: 0 <= i < |pending| ==> pending[i] == 0
      modifies `refs
      ensures Valid() && forall i :: 0 <= i < |refs| ==> refs[i] == 0
    {
      refs := seq(|inodes|, i => 0);
    }

    /** ireclaim: afterwards no inode in use has no links, and no other inode has changed. */
    method Ireclaim()
      requires Valid() && forall i :: 0 <= i < |refs| ==> refs[i] == 0
      modifies `inodes, `refs
      ensures Valid() && refs == old(refs) && |inodes| == |old(inodes)|
      ensures forall i :: 1 <= i < |inodes| ==> inodes[i].kind == Unused || 0 < inodes[i].nlink
      ensures forall i :: 1 <= i < |inodes| ==>
                inodes[i] == if old(inodes)[i].nlink == 0 then NoInode else old(inodes)[i]
      ensures NoOrphans()
    {
      hide Ok;
      LinksOk(inodes, pending, home);
      var i := 1;
      while i < |inodes|
        invariant 1 <= i && Valid() && refs == old(refs) && |inodes| == |old(inodes)|
        invariant forall j :: 1 <= j < |inodes| ==>
                    inodes[j] == if j < i && old(inodes)[j].nlink == 0 then NoInode else old(inodes)[j]
      {
        if inodes[i].kind != Unused && inodes[i].nlink == 0 {
          Hold(i);
          Iput(i);
          assert refs == old(refs);
        }
        i := i + 1;
      }
      LinksOk(inodes, pending, home);
    }
  }

  lemma LinksOk(ns: seq<Inode>, pending: seq<int>, home: seq<int>)
    requires Ok(ns, pending, home)
    ensures forall i :: 1 <= i < |ns| ==> 0 <= ns[i].nlink && (ns[i].kind == Unused ==> ns[i] == NoInode)
  {
    hide TreeOk;
    forall i | 1 <= i < |ns| ensures ns[i].kind == Unused ==> ns[i] == NoInode {
      DirAt(ns, home, i);
    }
  }

  /** What an entry names: an inode in use with a link, unless the directory is not linked. */
  lemma OpenNamed(ns: seq<Inode>, pending: seq<int>, home: seq<int>, d: int, k: int)
    requires Ok(ns, pending, home) && 1 <= d < |ns| && ns[d].kind == Dir && 0 <= k < |ns[d].ents| &&
             ns[d].ents[k].inum != 0
    ensures var c := ns[d].ents[k].inum;
            && 1 <= c < |ns|
            && (ns[c].kind == Unused ==> !Live(ns[d]) && ns[d].ents[k].name == "..")
            && (Live(ns[d]) ==> 0 < ns[c].nlink)
  {
    hide TreeOk;
    RootAt(ns, home);
    DirAt(ns, home, d);
    if 2 <= k && Live(ns[d]) {
      EntryAt(ns, home, d, k);
      NamedLinked(ns, pending, home, d, k, ns[d].ents[k].inum);
    } else if k == 1 && Live(ns[d]) && d != ROOT {
      HomeAt(ns, home, d);
    }
  }

  /** An entry is empty. */
  ghost predicate HasSlot(es: seq<Ent>) {
    exists k :: 0 <= k < |es| && es[k].inum == 0
  }

  /** The entry that dirlookup finds. */
  ghost predicate FirstNamed(es: seq<Ent>, name: string, k: int) {
    && 0 <= k < |es| && es[k].inum != 0 && es[k].name == name
    && forall j :: 0 <= j < k && es[j].inum != 0 ==> es[j].name != name
  }

  predicate IsFile(n: Inode) {
    n.kind == File || n.kind == Device
  }

  /** What is left once create has found inode c in directory d: its reference to d is gone, and it has one to c if c is
      its result. */
  ghost predicate Opened(ns: seq<Inode>, refs: seq<int>, ns': seq<Inode>, refs': seq<int>, d: int, c: int, found: bool)
    requires 0 <= d < |ns| && 0 <= c < |ns| && |refs| == |ns|
  {
    if found then
      c != d && refs' == refs[c := refs[c] + 1][d := refs[d] - 1] && ns' == Dropped(ns, d, refs[d])
    else
      && refs' == refs[d := refs[d] - 1]
      && ns' == if c == d then Dropped(ns, d, refs[d]) else Dropped(Dropped(ns, d, refs[d]), c, refs[c] + 1)
  }

  /** The inodes after an iput of d that found this reference count. */
  function Dropped(ns: seq<Inode>, d: int, ref: int): seq<Inode>
    requires 0 <= d < |ns|
  {
    if ref == 1 && ns[d].nlink == 0 then ns[d := NoInode] else ns
  }

  /** Freeing a directory that is not linked mends no count. */
  lemma DroppedDead(ns: seq<Inode>, pending: seq<int>, d: int)
    requires !Conserved(ns, pending) && 1 <= d < |ns| && ns[d].nlink == 0
    ensures !Conserved(ns[d := NoInode], pending)
  {
    forall i | 1 <= i < |ns| ensures Count(ns[d := NoInode], |ns|, i) == Count(ns, |ns|, i) {
      CountUpdate(ns, |ns|, d, NoInode, i);
    }
  }

  /** The ".." entry of a directory names an inode that is not in use. */
  ghost predicate DotDotFreed(ns: seq<Inode>, d: int) {
    && 0 <= d < |ns| && 2 <= |ns[d].ents| && 0 <= ns[d].ents[1].inum < |ns|
    && ns[ns[d].ents[1].inum].kind == Unused
  }

  lemma DotDotAt(ns: seq<Inode>, pending: seq<int>, home: seq<int>, d: int)
    requires Ok(ns, pending, home) && 1 <= d < |ns| && ns[d].kind == Dir
    ensures 2 <= |ns[d].ents| && ns[d].ents[1].name == ".." && 1 <= ns[d].ents[1].inum < |ns|
    ensures forall k :: 0 <= k < |ns[d].ents| && ns[d].ents[k].inum != 0 && ns[d].ents[k].name == ".." ==> k == 1
  {
    hide TreeOk;
    DirAt(ns, home, d);
  }

  /** What create does to the inodes. */
  function Created(ns: seq<Inode>, d: int, k: int, name: string, i: int, kind: Kind): seq<Inode>
    requires 0 <= d < |ns| && 0 <= i < |ns| && i != d && 0 <= k <= |ns[d].ents|
  {
    if kind == Dir then Adopted(ns[i := Inode(Dir, 0, [Ent(i, "."), Ent(d, "..")])], d, k, name, i)
    else Named(ns[i := Inode(kind, 1, [])], d, k, Ent(i, name), ns[d].nlink)
  }

  lemma CreatedIs(ns: seq<Inode>, d: int, k: int, name: string, i: int, kind: Kind, ns': seq<Inode>)
    requires 0 <= d < |ns| && 0 <= i < |ns| && i != d && 0 <= k <= |ns[d].ents| && |ns'| == |ns|
    requires forall j :: 0 <= j < |ns| && j != i && j != d ==> ns'[j] == ns[j]
    requires ns'[i] == Inode(kind, 1, if kind == Dir then [Ent(i, "."), Ent(d, "..")] else [])
    requires ns'[d] == ns[d].(ents := Put(ns[d].ents, k, Ent(i, name)),
                              nlink := if kind == Dir then ns[d].nlink + 1 else ns[d].nlink)
    ensures ns' == Created(ns, d, k, name, i, kind)
  {
  }

  lemma CreatedKinds(ns: seq<Inode>, d: int, k: int, name: string, i: int, kind: Kind)
    requires 0 <= d < |ns| && 0 <= i < |ns| && i != d && 0 <= k <= |ns[d].ents|
    ensures var ns' := Created(ns, d, k, name, i, kind);
            && |ns'| == |ns| && ns'[i].kind == kind && ns'[i].nlink == 1 && ns'[d].nlink >= ns[d].nlink
            && (forall j :: 0 <= j < |ns| && j != i ==> ns'[j].kind == ns[j].kind)
            && (forall j :: 0 <= j < |ns| && j != i && j != d ==> ns'[j] == ns[j])
  {
  }

  lemma OkConserved(ns: seq<Inode>, pending: seq<int>, home: seq<int>)
    requires Ok(ns, pending, home)
    ensures Conserved(ns, pending)
  {
  }

  lemma UnusedInode(ns: seq<Inode>, pending: seq<int>, home: seq<int>, d: int, i: int)
    requires Ok(ns, pending, home) && 1 <= i < |ns| && ns[i].kind == Unused && 1 <= d < |ns| && ns[d].kind == Dir
    ensures ns[i] == NoInode && i != d && |ns[d].ents| >= 2
  {
    hide TreeOk;
    DirAt(ns, home, i);
    DirAt(ns, home, d);
  }

  /** The first two entries of a directory are never empty. */
  lemma SlotInside(ns: seq<Inode>, home: seq<int>, pending: seq<int>, d: int, k: int)
    requires Ok(ns, pending, home) && 1 <= d < |ns| && ns[d].kind == Dir && 0 <= k <= |ns[d].ents|
    requires k < |ns[d].ents| ==> ns[d].ents[k].inum == 0
    ensures FreeSlot(ns[d].ents, k)
  {
    hide TreeOk;
    DirAt(ns, home, d);
  }

  lemma CreateKeeps(ns: seq<Inode>, pending: seq<int>, home: seq<int>, d: int, k: int, name: string, i: int, kind: Kind)
    requires Ok(ns, pending, home) && 1 <= i < |ns| && ns[i].kind == Unused && kind != Unused
    requires 1 <= d < |ns| && i != d && Live(ns[d]) && FreeSlot(ns[d].ents, k) && Absent(ns[d].ents, name)
    ensures |home| == |ns| && Ok(Created(ns, d, k, name, i, kind), pending, if kind == Dir then home[i := k] else home)
  {
    hide TreeOk, Conserved;
    RootAt(ns, home);
    if kind == Dir {
      var x := Inode(Dir, 0, [Ent(i, "."), Ent(d, "..")]);
      BirthKeeps(ns, pending, home, i, x);
      UnusedPending(ns, pending, home, i);
      DirAt(ns[i := x], home, i);
      RootAt(ns[i := x], home);
      AdoptKeeps(ns[i := x], pending, home, d, k, name, i);
    } else {
      BirthKeeps(ns, pending, home, i, Inode(kind, 1, []));
      UnusedPending(ns, pending, home, i);
      LinkKeeps(ns[i := Inode(kind, 1, [])], pending[i := 1], home, d, k, name, i);
    }
  }

  lemma UnusedPending(ns: seq<Inode>, pending: seq<int>, home: seq<int>, i: int)
    requires Ok(ns, pending, home) && 1 <= i < |ns| && ns[i].kind == Unused
    ensures pending[i := 0] == pending && pending[i := 1][i := 0] == pending
  {
  }

  /** In a directory that is not linked, create breaks the count: of the new file, or of what ".." names. */
  lemma CreateDead(ns: seq<Inode>, pending: seq<int>, home: seq<int>, d: int, k: int, name: string, i: int, kind: Kind)
    requires Ok(ns, pending, home) && 1 <= i < |ns| && ns[i].kind == Unused && kind != Unused
    requires 1 <= d < |ns| && i != d && ns[d].kind == Dir && !Live(ns[d]) && FreeSlot(ns[d].ents, k) &&
             Absent(ns[d].ents, name)
    ensures !Conserved(Created(ns, d, k, name, i, kind), pending)
  {
    hide TreeOk, Conserved;
    UnusedPending(ns, pending, home, i);
    if kind == Dir {
      var x := Inode(Dir, 0, [Ent(i, "."), Ent(d, "..")]);
      BirthKeeps(ns, pending, home, i, x);
      AdoptDead(ns[i := x], pending, home, d, k, name, i);
    } else {
      BirthKeeps(ns, pending, home, i, Inode(kind, 1, []));
      DeadName(ns[i := Inode(kind, 1, [])], pending[i := 1], d, k, Ent(i, name), i);
    }
  }

  lemma AdoptDead(ns: seq<Inode>, pending: seq<int>, home: seq<int>, d: int, k: int, name: string, i: int)
    requires Ok(ns, pending, home) && 1 <= i < |ns| && ns[i] == Inode(Dir, 0, [Ent(i, "."), Ent(d, "..")])
    requires 1 <= d < |ns| && i != d && ns[d].kind == Dir && !Live(ns[d]) && FreeSlot(ns[d].ents, k) &&
             Absent(ns[d].ents, name)
    ensures !Conserved(Adopted(ns, d, k, name, i), pending)
  {
    hide TreeOk;
    RootAt(ns, home);
    DirAt(ns, home, d);
    DirAt(ns, home, i);
    var pp := ns[d].ents[1].inum;
    var ns1 := Named(ns, d, k, Ent(i, name), ns[d].nlink + 1);
    var ns2 := Adopted(ns, d, k, name, i);
    LinksPut(ns[d].ents, k, Ent(i, name), pp);
    EmptyLinks(ns, d, pp);
    EmptyLinks(ns, i, pp);
    CountUpdate(ns, |ns|, d, ns1[d], pp);
    CountUpdate(ns1, |ns|, i, ns2[i], pp);
  }

  /** What sys_unlink does to the inodes, before the last reference goes. */
  function Unlinked(ns: seq<Inode>, d: int, k: int, i: int): seq<Inode>
    requires 0 <= d < |ns| && 0 <= k < |ns[d].ents| && 0 <= i < |ns|
  {
    if ns[i].kind == Dir then DirUnlinked(ns, d, k, i) else FileUnlinked(ns, d, k, i)
  }

  /** Name k of directory d is gone, and its inode i with it if that was its last name and nobody uses it. */
  ghost predicate IsUnlinked(ns: seq<Inode>, ns': seq<Inode>, refs: seq<int>, d: int, k: int, i: int) {
    && 0 <= d < |ns| == |refs| && 0 <= k < |ns[d].ents| && 0 <= i < |ns|
    && var ns1 := Unlinked(ns, d, k, i);
    ns' == if ns1[i].nlink == 0 && refs[i] == 0 then ns1[i := NoInode] else ns1
  }

  /** The name is that of a directory that holds names. */
  ghost predicate NamesUsed(ns: seq<Inode>, d: int, name: string) {
    && 0 <= d < |ns|
    && exists k :: 2 <= k < |ns[d].ents| && ns[d].ents[k].name == name && HoldsNames(ns, ns[d].ents[k].inum)
  }

  ghost predicate HoldsNames(ns: seq<Inode>, i: int) {
    0 <= i < |ns| && ns[i].kind == Dir && !Empty(ns[i].ents)
  }

  /** A directory holds no name of itself. */
  lemma NotSelf(ns: seq<Inode>, pending: seq<int>, home: seq<int>, d: int, k: int)
    requires Ok(ns, pending, home) && 0 <= d < |ns| && 0 <= k < |ns[d].ents| &&
             CanUnlink(ns, home, d, k, ns[d].ents[k].inum)
    ensures ns[d].ents[k].inum != d && 0 < ns[ns[d].ents[k].inum].nlink && ns[ns[d].ents[k].inum].kind != Unused
  {
    hide TreeOk;
    NamedLinked(ns, pending, home, d, k, ns[d].ents[k].inum);
    EntryAt(ns, home, d, k);
    RootAt(ns, home);
    DirAt(ns, home, d);
  }

  /** Only a linked directory has names to find. */
  lemma FoundLive(ns: seq<Inode>, pending: seq<int>, home: seq<int>, d: int, k: int)
    requires Ok(ns, pending, home) && 1 <= d < |ns| && ns[d].kind == Dir && 0 <= k < |ns[d].ents|
    requires ns[d].ents[k].inum != 0 && ns[d].ents[k].name != "." && ns[d].ents[k].name != ".."
    ensures CanUnlink(ns, home, d, k, ns[d].ents[k].inum)
  {
    hide TreeOk;
    RootAt(ns, home);
    DirAt(ns, home, d);
    assert ns[d].nlink >= 0;
    EntryAt(ns, home, d, k);
  }

  lemma RootOnly(ns: seq<Inode>, pending: seq<int>, home: seq<int>)
    requires ROOT < |ns| == |pending| == |home|
    requires forall i :: 0 <= i < |ns| ==> pending[i] == 0
    requires forall i :: 0 <= i < |ns| ==>
               ns[i] == if i == ROOT then Inode(Dir, 1, [Ent(ROOT, "."), Ent(ROOT, "..")]) else NoInode
    ensures Ok(ns, pending, home)
  {
    forall i | 1 <= i < |ns| ensures ns[i].nlink == Count(ns, |ns|, i) {
      CountAtMost(ns, |ns|, ROOT, i);
      LinksAtMost(ns[ROOT].ents, 1, i);
    }
    forall d | 0 <= d < |ns| ensures InodeOk(ns, d) {
    }
  }

  lemma LinkableFile(ns: seq<Inode>, pending: seq<int>, home: seq<int>, i: int)
    requires Ok(ns, pending, home) && 1 <= i < |ns| && 0 < pending[i]
    ensures ns[i].kind == File || ns[i].kind == Device
  {
  }

  const MAXLINK: int := 32767   // the greatest short

  /** What a short keeps of a number. */
  function Short(n: int): (r: int)
    ensures -MAXLINK - 1 <= r <= MAXLINK
  {
    (n + MAXLINK + 1) % 65536 - MAXLINK - 1
  }

  lemma CountsNatural(ns: seq<Inode>, pending: seq<int>, i: int)
    requires Conserved(ns, pending) && 1 <= i < |ns|
    ensures |pending| == |ns| && 0 <= pending[i] && 0 <= ns[i].nlink
  {
  }

  /** A file has one right count. */
  lemma WrongCount(ns: seq<Inode>, pending: seq<int>, i: int, nlink: int)
    requires Conserved(ns, pending) && 1 <= i < |ns| && ns[i].kind != Dir && nlink != ns[i].nlink + 1
    ensures !Conserved(ns[i := ns[i].(nlink := nlink)], pending[i := pending[i] + 1])
  {
    CountUpdate(ns, |ns|, i, ns[i].(nlink := nlink), i);
  }

  /** A name in a directory that is not linked is not counted. */
  lemma DeadName(ns: seq<Inode>, pending: seq<int>, d: int, k: int, e: Ent, i: int)
    requires Conserved(ns, pending) && 1 <= i < |ns| && 1 <= d < |ns| && d != i && !Live(ns[d]) &&
             0 <= k <= |ns[d].ents|
    ensures !Conserved(Named(ns, d, k, e, ns[d].nlink), pending[i := pending[i] - 1])
  {
    CountUpdate(ns, |ns|, d, Named(ns, d, k, e, ns[d].nlink)[d], i);
  }

  /** A process makes a directory, and another removes it while the first sits in it. */
  method RemovedDirectory() returns (t: FileTree, d: int)
    ensures fresh(t) && t.Valid() && t.NoOrphans() && |t.inodes| == 4 && 2 <= d < 4 && t.refs[d] == 1
    ensures t.inodes[d] == Inode(Dir, 0, [Ent(d, "."), Ent(ROOT, "..")]) && t.inodes[5 - d].kind == Unused
  {
    hide Ok, Conserved;
    t := new FileTree(4);
    t.Hold(ROOT);
    assert t.inodes[2].kind == Unused;
    d := t.Create(ROOT, "d", Dir, true, true, true);
    assert t.inodes[d] == Inode(Dir, 1, [Ent(d, "."), Ent(ROOT, "..")]);
    assert t.inodes[ROOT] == Inode(Dir, 2, [Ent(ROOT, "."), Ent(ROOT, ".."), Ent(d, "d")]);
    t.Hold(ROOT);
    assert t.inodes[ROOT].ents[2].name == "d";
    var ok, k, c := t.Unlink(ROOT, "d");
    assert ok && c == d;
  }

  /** For example: a process sits in a directory that has been removed, and creates a file there. The file then
      has a link count of 1, and no directory that is linked has a name for it. */
  method FileInRemovedDirectory() returns (t: FileTree, d: int, i: int)
    ensures 0 < d < |t.inodes| && 0 < i < |t.inodes| && t.inodes[d].kind == Dir && t.inodes[d].nlink == 0
    ensures t.inodes[i].kind == File && t.inodes[i].nlink == 1 && !Conserved(t.inodes, t.pending)
  {
    hide Ok, Conserved;
    t, d := RemovedDirectory();
    t.Hold(d);
    i := t.Create(d, "f", File, true, true, true);
  }

  /** Two directories, one in the other, are removed while a process sits in the inner one. */
  method RemovedParent() returns (t: FileTree, a: int, b: int)
    ensures fresh(t) && t.Valid() && 1 <= b < |t.inodes| && t.refs[b] == 1 && t.inodes[b].kind == Dir
    ensures 1 <= a < |t.inodes| && t.inodes[a] == NoInode && t.inodes[b].ents == [Ent(b, "."), Ent(a, "..")]
  {
    hide Ok, Conserved;
    t := new FileTree(4);
    t.Hold(ROOT);
    assert t.inodes[2].kind == Unused;
    a := t.Create(ROOT, "a", Dir, true, true, true);
    assert t.inodes[a] == Inode(Dir, 1, [Ent(a, "."), Ent(ROOT, "..")]) && t.refs[a] == 1;
    assert t.inodes[ROOT] == Inode(Dir, 2, [Ent(ROOT, "."), Ent(ROOT, ".."), Ent(a, "a")]);
    assert t.inodes[5 - a].kind == Unused;
    b := t.Create(a, "b", Dir, true, true, true);
    assert t.inodes[b] == Inode(Dir, 1, [Ent(b, "."), Ent(a, "..")]) && t.refs[b] == 1 && t.refs[a] == 0;
    assert t.inodes[a] == Inode(Dir, 2, [Ent(a, "."), Ent(ROOT, ".."), Ent(b, "b")]);
    RemoveBoth(t, a, b);
  }

  /** rmdir of the inner and then of the outer directory. */
  method RemoveBoth(t: FileTree, a: int, b: int)
    requires t.Valid() && |t.inodes| == 4 && 2 <= a < 4 && b == 5 - a && t.refs[a] == 0 && t.refs[b] == 1
    requires t.inodes[ROOT] == Inode(Dir, 2, [Ent(ROOT, "."), Ent(ROOT, ".."), Ent(a, "a")])
    requires t.inodes[a] == Inode(Dir, 2, [Ent(a, "."), Ent(ROOT, ".."), Ent(b, "b")])
    requires t.inodes[b] == Inode(Dir, 1, [Ent(b, "."), Ent(a, "..")])
    modifies t
    ensures t.Valid() && |t.inodes| == 4 && t.refs[b] == 1 && t.inodes[a] == NoInode
    ensures t.inodes[b] == Inode(Dir, 0, [Ent(b, "."), Ent(a, "..")])
  {
    hide Ok, Conserved;
    t.Hold(a);
    assert t.inodes[a].ents[2].name == "b";
    var ok, k, c := t.Unlink(a, "b");
    assert ok && c == b;
    assert t.inodes[b] == Inode(Dir, 0, [Ent(b, "."), Ent(a, "..")]) && t.refs[a] == 0;
    t.Hold(ROOT);
    assert t.inodes[ROOT].ents[2].name == "a";
    ok, k, c := t.Unlink(ROOT, "a");
    assert ok && c == a;
  }

  /** The input on which ilock panics: the process then asks for "..". */
  method DotDotPanics() returns (t: FileTree, i: int)
    ensures i == -1
  {
    hide Ok, Conserved;
    var a, b;
    t, a, b := RemovedParent();
    t.Hold(b);
    i := t.Create(b, "..", File, true, true, true);
  }

  // ---------------------------------------------------------------- more names than a short can count

  function Name(k: int): (r: string)
    requires 0 <= k < 262144
  {
    [(48 + k / 4096) as char, (48 + k / 64 % 64) as char, (48 + k % 64) as char]
  }

  lemma SameName(j: int, k: int)
    requires 0 <= j < 262144 && 0 <= k < 262144
    ensures Name(j) == Name(k) ==> j == k
  {
    if Name(j) == Name(k) {
      assert Name(j)[0] == Name(k)[0] && Name(j)[1] == Name(k)[1] && Name(j)[2] == Name(k)[2];
      Digits(j);
      Digits(k);
    }
  }

  lemma Digits(k: int)
    requires 0 <= k
    ensures k == 4096 * (k / 4096) + 64 * (k / 64 % 64) + k % 64
  {
    assert k / 64 / 64 == k / 4096;
  }

  /** An entry's name is a dot name or one of the first n. */
  ghost predicate KnownName(name: string, n: int) {
    name == "." || name == ".." || exists j :: 0 <= j < n < 262144 && name == Name(j)
  }

  ghost predicate NamesBelow(es: seq<Ent>, n: int) {
    forall k :: 0 <= k < |es| ==> KnownName(es[k].name, n)
  }

  lemma NextAbsent(es: seq<Ent>, n: int)
    requires 0 <= n < 262144 && NamesBelow(es, n)
    ensures Absent(es, Name(n))
  {
    forall k | 0 <= k < |es| && es[k].inum != 0 ensures es[k].name != Name(n) {
      assert KnownName(es[k].name, n) && |Name(n)| == 3;
      if j :| 0 <= j < n < 262144 && es[k].name == Name(j) { SameName(j, n); }
    }
  }

  lemma NamesPut(es: seq<Ent>, n: int, at: int, i: int)
    requires 0 <= n < 262143 && NamesBelow(es, n) && 0 <= at <= |es|
    ensures NamesBelow(Put(es, at, Ent(i, Name(n))), n + 1)
  {
    var es' := Put(es, at, Ent(i, Name(n)));
    forall k | 0 <= k < |es'| ensures KnownName(es'[k].name, n + 1) {
      if k != at { assert es'[k] == es[k] && KnownName(es[k].name, n); }
    }
  }

  /** A call of sys_link. */
  method OneMoreName(t: FileTree, i: int, d: int, n: int)
    requires t.Valid() && 1 <= i < |t.inodes| && 1 <= d < |t.inodes|
    requires t.inodes[i].kind == File && t.inodes[d].kind == Dir
    requires Live(t.inodes[d]) && 0 < t.refs[i] && t.inodes[i].nlink < MAXLINK
    requires 0 <= n < 262143 && NamesBelow(t.inodes[d].ents, n)
    modifies t
    ensures t.Valid() && |t.inodes| == |old(t.inodes)| && t.refs == old(t.refs) && t.inodes[d].kind == Dir
    ensures t.inodes[i] == old(t.inodes)[i].(nlink := old(t.inodes)[i].nlink + 1)
    ensures Live(t.inodes[d]) && NamesBelow(t.inodes[d].ents, n + 1)
    ensures |t.inodes[d].ents| <= |old(t.inodes)[d].ents| + 1
    ensures forall j :: 0 <= j < |t.inodes| && j != i && j != d ==> t.inodes[j] == old(t.inodes)[j]
  {
    hide Ok, Conserved, NamesBelow, Absent;
    NextAbsent(t.inodes[d].ents, n);
    OkConserved(t.inodes, t.pending, t.home);
    CountsNatural(t.inodes, t.pending, i);
    t.Hold(i);
    var ok := t.LinkStart(i);
    ghost var ns := t.inodes;
    ok := t.LinkName(d, Name(n), i, true);
    ghost var at :| 2 <= at <= |ns[d].ents| && t.inodes == Named(ns, d, at, Ent(i, Name(n)), ns[d].nlink);
    NamesPut(ns[d].ents, n, at, i);
    t.Iput(i);
  }

  method OneDirectory() returns (t: FileTree, a: int)
    ensures fresh(t) && t.Valid() && |t.inodes| == 5 && 2 <= a < 5
    ensures t.inodes[ROOT] == Inode(Dir, 2, [Ent(ROOT, "."), Ent(ROOT, ".."), Ent(a, "a")])
    ensures t.inodes[a] == Inode(Dir, 1, [Ent(a, "."), Ent(ROOT, "..")])
    ensures t.inodes[0] == NoInode && forall j :: 2 <= j < 5 && j != a ==> t.inodes[j].kind == Unused
  {
    hide Ok, Conserved;
    t := new FileTree(5);
    t.Hold(ROOT);
    assert t.inodes[2].kind == Unused;
    a := t.Create(ROOT, "a", Dir, true, true, true);
    assert t.inodes[a] == Inode(Dir, 1, [Ent(a, "."), Ent(ROOT, "..")]);
    assert t.inodes[ROOT] == Inode(Dir, 2, [Ent(ROOT, "."), Ent(ROOT, ".."), Ent(a, "a")]);
  }

  method TwoDirectories() returns (t: FileTree, a: int, b: int)
    ensures fresh(t) && t.Valid() && |t.inodes| == 5 && 2 <= a < 5 && 2 <= b < 5 && a != b
    ensures t.inodes[ROOT] == Inode(Dir, 3, [Ent(ROOT, "."), Ent(ROOT, ".."), Ent(a, "a"), Ent(b, "b")])
    ensures t.inodes[a] == Inode(Dir, 1, [Ent(a, "."), Ent(ROOT, "..")])
    ensures t.inodes[b] == Inode(Dir, 1, [Ent(b, "."), Ent(ROOT, "..")]) && t.inodes[9 - a - b].kind == Unused
    ensures t.inodes[0] == NoInode
  {
    hide Ok, Conserved;
    t, a := OneDirectory();
    t.Hold(ROOT);
    assert t.inodes[if a == 2 then 3 else 2].kind == Unused;
    b := t.Create(ROOT, "b", Dir, true, true, true);
    assert t.inodes[b] == Inode(Dir, 1, [Ent(b, "."), Ent(ROOT, "..")]);
    assert t.inodes[ROOT] == Inode(Dir, 3, [Ent(ROOT, "."), Ent(ROOT, ".."), Ent(a, "a"), Ent(b, "b")]);
  }

  /** Two directories and a file. */
  method FirstName() returns (t: FileTree, a: int, b: int, i: int)
    ensures fresh(t) && t.Valid() && |t.inodes| == 5
    ensures 2 <= a < 5 && 2 <= b < 5 && 2 <= i < 5 && a != b && a != i && b != i
    ensures t.inodes[a] == Inode(Dir, 1, [Ent(a, "."), Ent(ROOT, "..")])
    ensures t.inodes[b] == Inode(Dir, 1, [Ent(b, "."), Ent(ROOT, "..")])
    ensures t.inodes[i] == Inode(File, 1, []) && t.refs[i] == 1 && |t.inodes[ROOT].ents| == 5
    ensures t.inodes[ROOT].ents[4] == Ent(i, "f") && Live(t.inodes[ROOT])
    ensures t.inodes[0] == NoInode
  {
    hide Ok, Conserved;
    t, a, b := TwoDirectories();
    t.Hold(ROOT);
    i := t.Create(ROOT, "f", File, true, true, true);
    assert t.inodes[i] == Inode(File, 1, []);
  }

  /** A file with as many names as a short can count. No directory is full: there is room for 17152 entries. */
  method ManyNames() returns (t: FileTree, i: int)
    ensures fresh(t) && t.Valid() && 1 <= i < |t.inodes| && t.refs[i] == 1
    ensures t.inodes[i].kind == File && t.inodes[i].nlink == MAXLINK
    ensures forall j :: 0 <= j < |t.inodes| ==> |t.inodes[j].ents| <= 16386
    ensures |t.inodes[ROOT].ents| == 5 && t.inodes[ROOT].ents[4] == Ent(i, "f") && Live(t.inodes[ROOT])
  {
    hide Ok, Conserved, NamesBelow;
    var a, b;
    t, a, b, i := FirstName();
    DotNames(t.inodes[a].ents);
    DotNames(t.inodes[b].ents);
    var n := 0;
    while n < MAXLINK - 1
      invariant 0 <= n < MAXLINK && fresh(t) && t.Valid() && |t.inodes| == 5 && t.refs[i] == 1
      invariant t.inodes[i] == Inode(File, n + 1, []) && Live(t.inodes[a]) && Live(t.inodes[b])
      invariant NamesBelow(t.inodes[a].ents, n) && NamesBelow(t.inodes[b].ents, n)
      invariant |t.inodes[a].ents| <= 2 + n && (16384 <= n ==> |t.inodes[a].ents| <= 16386)
      invariant |t.inodes[b].ents| <= if n < 16384 then 2 else n - 16382
      invariant |t.inodes[ROOT].ents| == 5 && t.inodes[ROOT].ents[4] == Ent(i, "f") && Live(t.inodes[ROOT])
      invariant t.inodes[0] == NoInode
    {
      var d := if n < 16384 then a else b;
      ghost var other := if n < 16384 then b else a;
      MoreNames(t.inodes[other].ents, n);
      OneMoreName(t, i, d, n);
      n := n + 1;
    }
  }

  lemma DotNames(es: seq<Ent>)
    requires |es| == 2 && es[0].name == "." && es[1].name == ".."
    ensures NamesBelow(es, 0)
  {
  }

  lemma MoreNames(es: seq<Ent>, n: int)
    requires NamesBelow(es, n) && 0 <= n < 262143
    ensures NamesBelow(es, n + 1)
  {
    forall k | 0 <= k < |es| ensures KnownName(es[k].name, n + 1) {
      assert KnownName(es[k].name, n);
    }
  }

  /** The input on which the count goes wrong: one more call of sys_link makes it negative, and an unlink of "f" in the
      root then panics. */
  method CountOverflows() returns (t: FileTree, i: int, panics: bool)
    ensures ROOT < |t.inodes| && |t.inodes[ROOT].ents| == 5 && t.inodes[ROOT].ents[4] == Ent(i, "f")
    ensures 1 <= i < |t.inodes| && t.inodes[i].nlink == -MAXLINK - 1 && !Conserved(t.inodes, t.pending) && panics
  {
    hide Ok, Conserved;
    t, i := ManyNames();
    var ok := t.LinkStart(i);
    panics := t.LinksLost(ROOT, 4, i);
  }
}
