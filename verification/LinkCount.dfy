/** Inodes, directory entries and link counts, as kernel/sysfile.c and kernel/fs.c keep them. */
module LinkCount {

  const ROOT: int := 1

  datatype Kind = Unused | File | Device | Dir
  datatype Ent = Ent(inum: int, name: string)           // inum 0: the slot is empty
  datatype Inode = Inode(kind: Kind, nlink: int, ents: seq<Ent>)

  const NoEnt := Ent(0, "")
  const NoInode := Inode(Unused, 0, [])

  // ---------------------------------------------------------------- counting names

  /** 1 if the entry is a link to inode i: any name but "." */
  function Link(e: Ent, i: int): int {
    if e.inum == i && e.name != "." then 1 else 0
  }

  function Links(es: seq<Ent>, i: int): (n: int)
    ensures 0 <= n
  {
    if es == [] then 0 else Links(es[..|es| - 1], i) + Link(es[|es| - 1], i)
  }

  /** The links to inode i in a directory; a directory that is itself not linked does not count. */
  function LinksIn(x: Inode, i: int): (n: int)
    ensures 0 <= n
  {
    if x.kind == Dir && 0 < x.nlink then Links(x.ents, i) else 0
  }

  /** The links to inode i in the directories below n. */
  function Count(ns: seq<Inode>, n: int, i: int): (c: int)
    requires 0 <= n <= |ns|
    ensures 0 <= c
    decreases n
  {
    if n == 0 then 0 else Count(ns, n - 1, i) + LinksIn(ns[n - 1], i)
  }

  lemma {:induction false} LinksUpdate(es: seq<Ent>, k: int, e: Ent, i: int)
    requires 0 <= k < |es|
    ensures Links(es[k := e], i) == Links(es, i) - Link(es[k], i) + Link(e, i)
    decreases |es|
  {
    var n := |es| - 1;
    if k < n {
      LinksUpdate(es[..n], k, e, i);
      assert es[k := e][..n] == es[..n][k := e];
    } else {
      assert es[k := e][..n] == es[..n];
    }
  }

  lemma LinksAppend(es: seq<Ent>, e: Ent, i: int)
    ensures Links(es + [e], i) == Links(es, i) + Link(e, i)
  {
    assert (es + [e])[..|es|] == es;
  }

  lemma {:induction false} CountUpdate(ns: seq<Inode>, n: int, d: int, x: Inode, i: int)
    requires 0 <= n <= |ns| && 0 <= d < |ns|
    ensures Count(ns[d := x], n, i) == Count(ns, n, i) + if d < n then LinksIn(x, i) - LinksIn(ns[d], i) else 0
    decreases n
  {
    if 0 < n {
      CountUpdate(ns, n - 1, d, x, i);
    }
  }

  /** A link counts at least once. */
  lemma {:induction false} LinksPositive(es: seq<Ent>, k: int, i: int)
    requires 0 <= k < |es| && Link(es[k], i) == 1
    ensures 1 <= Links(es, i)
    decreases |es|
  {
    if k < |es| - 1 {
      LinksPositive(es[..|es| - 1], k, i);
    }
  }

  lemma {:induction false} CountPositive(ns: seq<Inode>, n: int, d: int, k: int, i: int)
    requires 0 <= d < n <= |ns| && ns[d].kind == Dir && 0 < ns[d].nlink
    requires 0 <= k < |ns[d].ents| && Link(ns[d].ents[k], i) == 1
    ensures 1 <= Count(ns, n, i)
    decreases n
  {
    if d < n - 1 {
      CountPositive(ns, n - 1, d, k, i);
    } else {
      LinksPositive(ns[d].ents, k, i);
    }
  }

  ghost predicate HasLink(ns: seq<Inode>, d: int, k: int, i: int) {
    0 <= d < |ns| && Live(ns[d]) && 0 <= k < |ns[d].ents| && Link(ns[d].ents[k], i) == 1
  }

  /** Links in two directories count twice. */
  lemma {:induction false} CountTwo(ns: seq<Inode>, n: int, d: int, k: int, e: int, l: int, i: int)
    requires 0 <= n <= |ns| && HasLink(ns, d, k, i) && HasLink(ns, e, l, i) && d < e < n
    ensures 2 <= Count(ns, n, i)
    decreases n
  {
    if e < n - 1 {
      CountTwo(ns, n - 1, d, k, e, l, i);
    } else {
      CountPositive(ns, n - 1, d, k, i);
      LinksPositive(ns[e].ents, l, i);
    }
  }

  /** No entry but (perhaps) one names i. */
  lemma {:induction false} LinksAtMost(es: seq<Ent>, k: int, i: int)
    requires forall j :: 0 <= j < |es| && j != k ==> Link(es[j], i) == 0
    ensures Links(es, i) == if 0 <= k < |es| then Link(es[k], i) else 0
    decreases |es|
  {
    if es != [] {
      LinksAtMost(es[..|es| - 1], k, i);
    }
  }

  lemma {:induction false} CountAtMost(ns: seq<Inode>, n: int, d: int, i: int)
    requires 0 <= n <= |ns| && 0 <= d < |ns|
    requires forall c :: 0 <= c < n && c != d ==> LinksIn(ns[c], i) == 0
    ensures Count(ns, n, i) == if d < n then LinksIn(ns[d], i) else 0
    decreases n
  {
    if 0 < n {
      CountAtMost(ns, n - 1, d, i);
    }
  }

  // ---------------------------------------------------------------- the invariant

  /** nlink is the number of links, plus the calls of sys_link that have raised it and not yet made their name. */
  ghost predicate Conserved(ns: seq<Inode>, pending: seq<int>) {
    && |pending| == |ns|
    && (forall i :: 1 <= i < |ns| ==> 0 <= pending[i] && ns[i].nlink == Count(ns, |ns|, i) + pending[i])
  }

  ghost predicate DirOk(ns: seq<Inode>, d: int)
    requires 0 <= d < |ns|
  {
    var es := ns[d].ents;
    && 2 <= |es| && es[0] == Ent(d, ".") && es[1].name == ".." && 1 <= es[1].inum < |ns|
    && (d != ROOT ==> es[1].inum != d)
    && (forall k :: 2 <= k < |es| && es[k].inum != 0 ==> es[k].name != "." && es[k].name != "..")
    && (forall j, k :: 0 <= j < k < |es| && es[j].inum != 0 && es[k].inum != 0 ==> es[j].name != es[k].name)
    && (ns[d].nlink == 0 ==> forall k :: 2 <= k < |es| ==> es[k].inum == 0)
  }

  ghost predicate Live(x: Inode) {
    x.kind == Dir && 0 < x.nlink
  }

  /** Live directories form a tree: each but the root has one name, at home[c] in the directory that its ".."
      entry names. */
  ghost predicate HomeOk(ns: seq<Inode>, home: seq<int>, c: int)
    requires 0 <= c < |ns| && |home| == |ns|
  {
    |ns[c].ents| >= 2 &&
    var p := ns[c].ents[1].inum;
    && 1 <= p < |ns| && Live(ns[p]) && p != c
    && 2 <= home[c] < |ns[p].ents| && ns[p].ents[home[c]].inum == c
  }

  ghost predicate EntryOk(ns: seq<Inode>, home: seq<int>, d: int, k: int)
    requires 0 <= d < |ns| && 0 <= k < |ns[d].ents| && |home| == |ns|
  {
    var c := ns[d].ents[k].inum;
    c != 0 ==>
      && 1 <= c < |ns| && ns[c].kind != Unused
      && (ns[c].kind == Dir ==> c != ROOT && |ns[c].ents| >= 2 && ns[c].ents[1].inum == d && home[c] == k)
  }

  ghost predicate InodeOk(ns: seq<Inode>, d: int)
    requires 0 <= d < |ns|
  {
    && (ns[d].kind == Dir ==> DirOk(ns, d))
    && (ns[d].kind != Dir ==> ns[d].ents == [])
    && (ns[d].kind == Unused ==> ns[d].nlink == 0)
  }

  ghost predicate TreeOk(ns: seq<Inode>, home: seq<int>) {
    && |home| == |ns| && ROOT < |ns| && ns[0] == NoInode
    && Live(ns[ROOT]) && |ns[ROOT].ents| >= 2 && ns[ROOT].ents[1].inum == ROOT
    && (forall d :: 0 <= d < |ns| ==> InodeOk(ns, d))
    && (forall c :: 1 <= c < |ns| && Live(ns[c]) && c != ROOT ==> HomeOk(ns, home, c))
    && (forall d, k :: 1 <= d < |ns| && Live(ns[d]) && 2 <= k < |ns[d].ents| ==> EntryOk(ns, home, d, k))
  }

  // ---------------------------------------------------------------- parts of the invariant

  lemma DirAt(ns: seq<Inode>, home: seq<int>, d: int)
    requires TreeOk(ns, home) && 0 <= d < |ns|
    ensures ns[d].kind == Dir ==> 1 <= d && DirOk(ns, d)
    ensures ns[d].kind != Dir ==> ns[d].ents == []
    ensures ns[d].kind == Unused ==> ns[d].nlink == 0
  {
    assert InodeOk(ns, d);
  }

  lemma HomeAt(ns: seq<Inode>, home: seq<int>, c: int)
    requires TreeOk(ns, home) && 1 <= c < |ns| && Live(ns[c]) && c != ROOT
    ensures HomeOk(ns, home, c)
  {
  }

  lemma EntryAt(ns: seq<Inode>, home: seq<int>, d: int, k: int)
    requires TreeOk(ns, home) && 1 <= d < |ns| && Live(ns[d]) && 2 <= k < |ns[d].ents|
    ensures EntryOk(ns, home, d, k)
  {
  }

  lemma RootAt(ns: seq<Inode>, home: seq<int>)
    requires TreeOk(ns, home)
    ensures |home| == |ns| && ROOT < |ns| && ns[0] == NoInode && Live(ns[ROOT]) && DirOk(ns, ROOT) &&
            ns[ROOT].ents[1].inum == ROOT
  {
    assert InodeOk(ns, ROOT);
  }

  /** The invariant from its parts. */
  lemma TreeFrom(ns: seq<Inode>, home: seq<int>)
    requires |home| == |ns| && ROOT < |ns| && ns[0] == NoInode
    requires Live(ns[ROOT]) && |ns[ROOT].ents| >= 2 && ns[ROOT].ents[1].inum == ROOT
    requires forall d :: 0 <= d < |ns| ==> InodeOk(ns, d)
    requires forall c :: 1 <= c < |ns| && Live(ns[c]) && c != ROOT ==> HomeOk(ns, home, c)
    requires forall d, k :: 1 <= d < |ns| && Live(ns[d]) && 2 <= k < |ns[d].ents| ==> EntryOk(ns, home, d, k)
    ensures TreeOk(ns, home)
  {
  }

  /** An inode that has not changed is still in order. */
  lemma InodeSame(ns: seq<Inode>, ns': seq<Inode>, home: seq<int>, d: int)
    requires TreeOk(ns, home) && 0 <= d < |ns| && |ns'| == |ns| && ns'[d] == ns[d]
    ensures InodeOk(ns', d)
  {
    assert InodeOk(ns, d);
  }
}
