/** What the calls of kernel/sysfile.c do to inodes and names, and that link counts are conserved. */
module LinkSteps {
  import opened LinkCount

  /** Only files and devices can have a link on its way. */
  ghost predicate PendingOk(ns: seq<Inode>, pending: seq<int>) {
    && |pending| == |ns|
    && forall i :: 0 <= i < |ns| && (ns[i].kind == Dir || ns[i].kind == Unused) ==> pending[i] == 0
  }

  ghost predicate Ok(ns: seq<Inode>, pending: seq<int>, home: seq<int>) {
    Conserved(ns, pending) && PendingOk(ns, pending) && TreeOk(ns, home)
  }

  // ---------------------------------------------------------------- a new entry

  /** Slot k of the directory is free, or just past its end. */
  ghost predicate FreeSlot(es: seq<Ent>, k: int) {
    2 <= k <= |es| && (k < |es| ==> es[k].inum == 0)
  }

  function Put(es: seq<Ent>, k: int, e: Ent): (r: seq<Ent>)
    requires 0 <= k <= |es|
    ensures k < |r| && r[k] == e && |es| <= |r| <= |es| + 1
    ensures forall j :: 0 <= j < |es| && j != k ==> r[j] == es[j]
  {
    if k == |es| then es + [e] else es[k := e]
  }

  ghost predicate Absent(es: seq<Ent>, name: string) {
    forall k :: 0 <= k < |es| && es[k].inum != 0 ==> es[k].name != name
  }

  lemma LinksPut(es: seq<Ent>, k: int, e: Ent, i: int)
    requires FreeSlot(es, k) && 1 <= i
    ensures Links(Put(es, k, e), i) == Links(es, i) + Link(e, i)
  {
    if k == |es| {
      LinksAppend(es, e, i);
    } else {
      LinksUpdate(es, k, e, i);
    }
  }

  /** Directory d with a new entry, and perhaps another link count. */
  function Named(ns: seq<Inode>, d: int, k: int, e: Ent, nlink: int): seq<Inode>
    requires 0 <= d < |ns| && 0 <= k <= |ns[d].ents|
  {
    ns[d := ns[d].(ents := Put(ns[d].ents, k, e), nlink := nlink)]
  }

  lemma NamedCount(ns: seq<Inode>, d: int, k: int, e: Ent, nlink: int, i: int)
    requires 0 <= d < |ns| && FreeSlot(ns[d].ents, k) && 1 <= i && Live(ns[d]) && 0 < nlink
    ensures Count(Named(ns, d, k, e, nlink), |ns|, i) == Count(ns, |ns|, i) + Link(e, i)
  {
    LinksPut(ns[d].ents, k, e, i);
    CountUpdate(ns, |ns|, d, Named(ns, d, k, e, nlink)[d], i);
  }

  /** A new name in directory d keeps every directory in order. */
  lemma NamedDir(ns: seq<Inode>, d: int, k: int, e: Ent, nlink: int)
    requires 1 <= d < |ns| && ns[d].kind == Dir && DirOk(ns, d) && FreeSlot(ns[d].ents, k) && Absent(ns[d].ents, e.name)
    requires e.inum != 0 && 0 < nlink
    ensures DirOk(Named(ns, d, k, e, nlink), d)
  {
    assert e.name != "." && e.name != ".." by {
      assert ns[d].ents[0].name == "." && ns[d].ents[1].name == "..";
    }
  }

  // ---------------------------------------------------------------- sys_link

  /** sys_link raises the count before it makes the name. */
  lemma RaiseKeeps(ns: seq<Inode>, pending: seq<int>, home: seq<int>, f: int, n: int)
    requires Ok(ns, pending, home) && 1 <= f < |ns| && (ns[f].kind == File || ns[f].kind == Device)
    requires n == 1 || (n == -1 && 0 < pending[f])
    ensures Ok(ns[f := ns[f].(nlink := ns[f].nlink + n)], pending[f := pending[f] + n], home)
  {
    hide TreeOk;
    var ns' := ns[f := ns[f].(nlink := ns[f].nlink + n)];
    forall i | 1 <= i < |ns| ensures Count(ns', |ns|, i) == Count(ns, |ns|, i) {
      CountUpdate(ns, |ns|, f, ns'[f], i);
    }
    SameTree(ns, ns', home, f);
  }

  /** Only the link count of a file changes. */
  lemma SameTree(ns: seq<Inode>, ns': seq<Inode>, home: seq<int>, f: int)
    requires TreeOk(ns, home) && |ns'| == |ns| && 1 <= f < |ns| && (ns[f].kind == File || ns[f].kind == Device)
    requires ns' == ns[f := ns[f].(nlink := ns'[f].nlink)]
    ensures TreeOk(ns', home)
  {
    hide TreeOk, Live;
    RootAt(ns, home);
    LiveIsDir();
    DirAt(ns, home, f);
    assert forall c :: 0 <= c < |ns| && c != f ==> ns'[c] == ns[c];
    forall c | 1 <= c < |ns| && Live(ns'[c]) && c != ROOT ensures HomeOk(ns', home, c) {
      HomeAt(ns, home, c);
    }
    forall d, k | 1 <= d < |ns| && Live(ns'[d]) && 2 <= k < |ns'[d].ents| ensures EntryOk(ns', home, d, k) {
      EntryAt(ns, home, d, k);
    }
    forall c | 0 <= c < |ns| ensures InodeOk(ns', c) {
      if c != f { InodeSame(ns, ns', home, c); }
    }
    TreeFrom(ns', home);
  }

  lemma LiveIsDir()
    ensures forall x: Inode :: Live(x) ==> x.kind == Dir
  {
  }

  /** sys_link makes the name it has counted, in a directory that is linked. */
  lemma LinkKeeps(ns: seq<Inode>, pending: seq<int>, home: seq<int>, d: int, k: int, name: string, f: int)
    requires Ok(ns, pending, home) && 1 <= f < |ns| && (ns[f].kind == File || ns[f].kind == Device) && 0 < pending[f]
    requires 1 <= d < |ns| && Live(ns[d]) && FreeSlot(ns[d].ents, k) && Absent(ns[d].ents, name)
    ensures Ok(Named(ns, d, k, Ent(f, name), ns[d].nlink), pending[f := pending[f] - 1], home)
  {
    hide TreeOk;
    var ns' := Named(ns, d, k, Ent(f, name), ns[d].nlink);
    DirAt(ns, home, d);
    NamedDir(ns, d, k, Ent(f, name), ns[d].nlink);
    NamedTree(ns, ns', home, d, k, Ent(f, name));
    forall i | 1 <= i < |ns| ensures Count(ns', |ns|, i) == Count(ns, |ns|, i) + if i == f then 1 else 0 {
      assert ns[d].ents[0] == Ent(d, ".");
      NamedCount(ns, d, k, Ent(f, name), ns[d].nlink, i);
    }
  }

  /** A name for a file changes nothing for the tree of directories. */
  lemma NamedTree(ns: seq<Inode>, ns': seq<Inode>, home: seq<int>, d: int, k: int, e: Ent)
    requires TreeOk(ns, home) && 1 <= d < |ns| && Live(ns[d]) && FreeSlot(ns[d].ents, k)
    requires 1 <= e.inum < |ns| && (ns[e.inum].kind == File || ns[e.inum].kind == Device)
    requires ns' == Named(ns, d, k, e, ns[d].nlink) && DirOk(ns', d)
    ensures TreeOk(ns', home)
  {
    hide TreeOk;
    RootAt(ns, home);
    PutAt(ns[d].ents, k, e);
    NamedHomes(ns, ns', home, d, k, e);
    NamedEntries(ns, ns', home, d, k, e);
    forall c | 0 <= c < |ns| ensures InodeOk(ns', c) {
      if c != d { InodeSame(ns, ns', home, c); }
    }
    TreeFrom(ns', home);
  }

  lemma PutAt(es: seq<Ent>, k: int, e: Ent)
    requires FreeSlot(es, k)
    ensures |Put(es, k, e)| == (if k == |es| then k + 1 else |es|) && Put(es, k, e)[k] == e
    ensures forall j :: 0 <= j < |es| && j != k ==> Put(es, k, e)[j] == es[j]
  {
  }

  lemma NamedHomes(ns: seq<Inode>, ns': seq<Inode>, home: seq<int>, d: int, k: int, e: Ent)
    requires TreeOk(ns, home) && 1 <= d < |ns| && Live(ns[d]) && FreeSlot(ns[d].ents, k)
    requires ns' == Named(ns, d, k, e, ns[d].nlink)
    ensures forall c :: 1 <= c < |ns| && Live(ns'[c]) && c != ROOT ==> |home| == |ns'| && HomeOk(ns', home, c)
  {
    hide TreeOk;
    RootAt(ns, home);
    PutAt(ns[d].ents, k, e);
    forall c | 1 <= c < |ns| && Live(ns'[c]) && c != ROOT ensures HomeOk(ns', home, c) {
      HomeAt(ns, home, c);
      DirAt(ns, home, c);
    }
  }

  lemma NamedEntries(ns: seq<Inode>, ns': seq<Inode>, home: seq<int>, d: int, k: int, e: Ent)
    requires TreeOk(ns, home) && 1 <= d < |ns| && Live(ns[d]) && FreeSlot(ns[d].ents, k)
    requires 1 <= e.inum < |ns| && (ns[e.inum].kind == File || ns[e.inum].kind == Device)
    requires ns' == Named(ns, d, k, e, ns[d].nlink)
    ensures forall c, j :: 1 <= c < |ns| && Live(ns'[c]) && 2 <= j < |ns'[c].ents| ==>
              |home| == |ns'| && EntryOk(ns', home, c, j)
  {
    hide TreeOk;
    RootAt(ns, home);
    PutAt(ns[d].ents, k, e);
    forall c, j | 1 <= c < |ns| && Live(ns'[c]) && 2 <= j < |ns'[c].ents| ensures EntryOk(ns', home, c, j) {
      if c != d || j != k {
        EntryAt(ns, home, c, j);
        DirAt(ns, home, d);
      }
    }
  }

  // ---------------------------------------------------------------- a new inode

  /** A file or device that will get its name next; a directory that is not linked yet. */
  ghost predicate NewInode(x: Inode, i: int, n: int) {
    if x.kind == Dir then
      x.nlink == 0 && |x.ents| == 2 && x.ents[0] == Ent(i, ".") && x.ents[1].name == ".." && 1 <= x.ents[1].inum < n &&
        x.ents[1].inum != i
    else x.kind != Unused && x.nlink == 1 && x.ents == []
  }

  lemma BirthKeeps(ns: seq<Inode>, pending: seq<int>, home: seq<int>, i: int, x: Inode)
    requires Ok(ns, pending, home) && 1 <= i < |ns| && ns[i].kind == Unused && NewInode(x, i, |ns|)
    ensures Ok(ns[i := x], pending[i := x.nlink], home)
  {
    hide TreeOk;
    DirAt(ns, home, i);
    forall j | 1 <= j < |ns| ensures Count(ns[i := x], |ns|, j) == Count(ns, |ns|, j) {
      CountUpdate(ns, |ns|, i, x, j);
    }
    UnlinkedTree(ns, pending, home, i, x);
  }

  /** No live directory names an inode without links. */
  lemma NotNamed(ns: seq<Inode>, pending: seq<int>, d: int, k: int, i: int)
    requires Conserved(ns, pending) && 1 <= i < |ns| && ns[i].nlink == 0
    requires 0 <= d < |ns| && Live(ns[d]) && 0 <= k < |ns[d].ents|
    ensures Link(ns[d].ents[k], i) == 0
  {
    if Link(ns[d].ents[k], i) == 1 {
      CountPositive(ns, |ns|, d, k, i);
    }
  }

  /** An inode without links may become any other that is no live directory. */
  lemma UnlinkedTree(ns: seq<Inode>, pending: seq<int>, home: seq<int>, i: int, x: Inode)
    requires Conserved(ns, pending) && TreeOk(ns, home) && 1 <= i < |ns| && ns[i].nlink == 0
    requires !Live(x) && (x.kind == Dir ==> DirOk(ns[i := x], i)) && (x.kind != Dir ==> x.ents == []) &&
             (x.kind == Unused ==> x.nlink == 0)
    ensures TreeOk(ns[i := x], home)
  {
    hide TreeOk;
    var ns' := ns[i := x];
    RootAt(ns, home);
    UnlinkedHomes(ns, ns', home, i, x);
    UnlinkedEntries(ns, ns', pending, home, i, x);
    forall c | 0 <= c < |ns| ensures InodeOk(ns', c) {
      if c != i { InodeSame(ns, ns', home, c); }
    }
    TreeFrom(ns', home);
  }

  lemma UnlinkedHomes(ns: seq<Inode>, ns': seq<Inode>, home: seq<int>, i: int, x: Inode)
    requires TreeOk(ns, home) && 1 <= i < |ns| && ns[i].nlink == 0 && !Live(x) && ns' == ns[i := x]
    ensures forall c :: 1 <= c < |ns| && Live(ns'[c]) && c != ROOT ==> |home| == |ns| && HomeOk(ns', home, c)
  {
    hide TreeOk;
    RootAt(ns, home);
    forall c | 1 <= c < |ns| && Live(ns'[c]) && c != ROOT ensures HomeOk(ns', home, c) {
      HomeAt(ns, home, c);
    }
  }

  lemma UnlinkedEntries(ns: seq<Inode>, ns': seq<Inode>, pending: seq<int>, home: seq<int>, i: int, x: Inode)
    requires Conserved(ns, pending) && TreeOk(ns, home) && 1 <= i < |ns| && ns[i].nlink == 0 && !Live(x) &&
             ns' == ns[i := x]
    ensures forall d, k :: 1 <= d < |ns| && Live(ns'[d]) && 2 <= k < |ns'[d].ents| ==>
              |home| == |ns| && EntryOk(ns', home, d, k)
  {
    hide TreeOk, Conserved;
    RootAt(ns, home);
    forall d, k | 1 <= d < |ns| && Live(ns'[d]) && 2 <= k < |ns'[d].ents| ensures EntryOk(ns', home, d, k) {
      EntryAt(ns, home, d, k);
      DirAt(ns, home, d);
      NotNamed(ns, pending, d, k, i);
    }
  }

  /** iput frees an inode without links. */
  lemma FreeKeeps(ns: seq<Inode>, pending: seq<int>, home: seq<int>, i: int)
    requires Ok(ns, pending, home) && 1 <= i < |ns| && ns[i].nlink == 0
    ensures pending[i] == 0 && Ok(ns[i := NoInode], pending, home)
  {
    hide TreeOk;
    forall j | 1 <= j < |ns| ensures Count(ns[i := NoInode], |ns|, j) == Count(ns, |ns|, j) {
      CountUpdate(ns, |ns|, i, NoInode, j);
    }
    UnlinkedTree(ns, pending, home, i, NoInode);
  }

  // ---------------------------------------------------------------- directories join and leave the tree

  /** A directory with nothing in it but "." and ".." */
  ghost predicate Empty(es: seq<Ent>) {
    forall k :: 2 <= k < |es| ==> es[k].inum == 0
  }

  lemma EmptyLinks(ns: seq<Inode>, c: int, i: int)
    requires 1 <= c < |ns| && 1 <= i && DirOk(ns, c) && Empty(ns[c].ents)
    ensures Links(ns[c].ents, i) == if i == ns[c].ents[1].inum then 1 else 0
  {
    LinksAtMost(ns[c].ents, 1, i);
  }

  /** create for a directory: directory i gets its name in d, and d a link from its ".." */
  function Adopted(ns: seq<Inode>, d: int, k: int, name: string, i: int): seq<Inode>
    requires 0 <= d < |ns| && 0 <= i < |ns| && 0 <= k <= |ns[d].ents|
  {
    var ns1 := Named(ns, d, k, Ent(i, name), ns[d].nlink + 1);
    ns1[i := ns1[i].(nlink := 1)]
  }

  ghost predicate CanAdopt(ns: seq<Inode>, home: seq<int>, d: int, k: int, name: string, i: int) {
    && |home| == |ns| && 1 <= d < |ns| && 1 <= i < |ns| && d != i && Live(ns[d]) && FreeSlot(ns[d].ents, k) &&
       Absent(ns[d].ents, name)
    && ns[i].kind == Dir && ns[i].nlink == 0 && DirOk(ns, i) && ns[i].ents[1].inum == d
  }

  lemma AdoptCount(ns: seq<Inode>, pending: seq<int>, home: seq<int>, d: int, k: int, name: string, i: int, j: int)
    requires Ok(ns, pending, home) && CanAdopt(ns, home, d, k, name, i) && 1 <= j < |ns|
    ensures name != "." &&
            Count(Adopted(ns, d, k, name, i), |ns|, j) ==
            Count(ns, |ns|, j) + (if j == i then 1 else 0) + (if j == d then 1 else 0)
  {
    hide TreeOk, Conserved;
    DirAt(ns, home, d);
    assert ns[d].ents[0] == Ent(d, ".");
    var ns1 := Named(ns, d, k, Ent(i, name), ns[d].nlink + 1);
    NamedCount(ns, d, k, Ent(i, name), ns[d].nlink + 1, j);
    assert ns1[i] == ns[i];
    EmptyLinks(ns, i, j);
    CountUpdate(ns1, |ns|, i, ns1[i].(nlink := 1), j);
  }

  lemma AdoptKeeps(ns: seq<Inode>, pending: seq<int>, home: seq<int>, d: int, k: int, name: string, i: int)
    requires Ok(ns, pending, home) && CanAdopt(ns, home, d, k, name, i)
    ensures Ok(Adopted(ns, d, k, name, i), pending, home[i := k])
  {
    hide TreeOk;
    var ns' := Adopted(ns, d, k, name, i);
    forall j | 1 <= j < |ns| ensures ns'[j].nlink == Count(ns', |ns|, j) + pending[j] {
      AdoptCount(ns, pending, home, d, k, name, i, j);
    }
    AdoptTree(ns, ns', pending, home, d, k, name, i);
  }

  lemma AdoptTree(ns: seq<Inode>, ns': seq<Inode>, pending: seq<int>, home: seq<int>, d: int, k: int, name: string,
                  i: int)
    requires Ok(ns, pending, home) && CanAdopt(ns, home, d, k, name, i) && ns' == Adopted(ns, d, k, name, i)
    ensures TreeOk(ns', home[i := k])
  {
    hide TreeOk, Conserved, PendingOk, HomeOk, EntryOk, InodeOk;
    var home' := home[i := k];
    RootAt(ns, home);
    AdoptHomes(ns, ns', home, home', d, k, name, i);
    AdoptEntries(ns, ns', pending, home, home', d, k, name, i);
    AdoptDirs(ns, ns', home, d, k, name, i);
    forall c | 0 <= c < |ns| ensures InodeOk(ns', c) {
      if c != d && c != i { InodeSame(ns, ns', home, c); }
    }
    TreeFrom(ns', home');
  }

  lemma AdoptDirs(ns: seq<Inode>, ns': seq<Inode>, home: seq<int>, d: int, k: int, name: string, i: int)
    requires TreeOk(ns, home) && CanAdopt(ns, home, d, k, name, i) && ns' == Adopted(ns, d, k, name, i)
    ensures InodeOk(ns', d) && InodeOk(ns', i)
    ensures |ns'[ROOT].ents| >= 2 && ns'[ROOT].ents[1].inum == ROOT && Live(ns'[ROOT])
  {
    hide TreeOk;
    RootAt(ns, home);
    DirAt(ns, home, d);
    PutAt(ns[d].ents, k, Ent(i, name));
    NamedDir(ns, d, k, Ent(i, name), ns[d].nlink + 1);
    assert ns'[d].ents == Put(ns[d].ents, k, Ent(i, name));
  }

  lemma AdoptHomes(ns: seq<Inode>, ns': seq<Inode>, home: seq<int>, home': seq<int>, d: int, k: int, name: string,
                   i: int)
    requires TreeOk(ns, home) && CanAdopt(ns, home, d, k, name, i) && ns' == Adopted(ns, d, k, name, i) &&
             home' == home[i := k]
    ensures forall c :: 1 <= c < |ns| && Live(ns'[c]) && c != ROOT ==> |home| == |ns| && HomeOk(ns', home', c)
  {
    hide TreeOk;
    RootAt(ns, home);
    PutAt(ns[d].ents, k, Ent(i, name));
    forall c | 1 <= c < |ns| && Live(ns'[c]) && c != ROOT ensures HomeOk(ns', home', c) {
      if c != i {
        HomeAt(ns, home, c);
        DirAt(ns, home, c);
      }
    }
  }

  lemma AdoptEntries(ns: seq<Inode>, ns': seq<Inode>, pending: seq<int>, home: seq<int>, home': seq<int>, d: int,
                     k: int, name: string, i: int)
    requires Ok(ns, pending, home) && CanAdopt(ns, home, d, k, name, i) && ns' == Adopted(ns, d, k, name, i) &&
             home' == home[i := k]
    ensures forall c, j :: 1 <= c < |ns| && Live(ns'[c]) && 2 <= j < |ns'[c].ents| ==>
              |home| == |ns| && EntryOk(ns', home', c, j)
  {
    hide TreeOk, Conserved, PendingOk;
    RootAt(ns, home);
    PutAt(ns[d].ents, k, Ent(i, name));
    forall c, j | 1 <= c < |ns| && Live(ns'[c]) && 2 <= j < |ns'[c].ents| ensures EntryOk(ns', home', c, j) {
      if c != i && (c != d || j != k) {
        EntryAt(ns, home, c, j);
        DirAt(ns, home, c);
        NotNamed(ns, pending, c, j, i);
        DirAt(ns, home, d);
      }
    }
  }

  // ---------------------------------------------------------------- sys_unlink

  /** Entry k of directory d goes away. */
  function Unnamed(ns: seq<Inode>, d: int, k: int, nlink: int): seq<Inode>
    requires 0 <= d < |ns| && 0 <= k < |ns[d].ents|
  {
    ns[d := ns[d].(ents := ns[d].ents[k := NoEnt], nlink := nlink)]
  }

  lemma UnnamedCount(ns: seq<Inode>, d: int, k: int, nlink: int, i: int)
    requires 0 <= d < |ns| && 0 <= k < |ns[d].ents| && 1 <= i && Live(ns[d]) && 0 < nlink
    ensures Count(Unnamed(ns, d, k, nlink), |ns|, i) == Count(ns, |ns|, i) - Link(ns[d].ents[k], i)
  {
    LinksUpdate(ns[d].ents, k, NoEnt, i);
    CountUpdate(ns, |ns|, d, Unnamed(ns, d, k, nlink)[d], i);
  }

  lemma UnnamedDir(ns: seq<Inode>, d: int, k: int, nlink: int)
    requires 1 <= d < |ns| && ns[d].kind == Dir && DirOk(ns, d) && 2 <= k < |ns[d].ents| && 0 < nlink
    ensures DirOk(Unnamed(ns, d, k, nlink), d)
  {
  }

  ghost predicate CanUnlink(ns: seq<Inode>, home: seq<int>, d: int, k: int, i: int) {
    && |home| == |ns| && 1 <= d < |ns| && Live(ns[d]) && 2 <= k < |ns[d].ents| && ns[d].ents[k].inum == i &&
       1 <= i < |ns|
  }

  /** sys_unlink of a file: one name and one link less. */
  function FileUnlinked(ns: seq<Inode>, d: int, k: int, i: int): seq<Inode>
    requires 0 <= d < |ns| && 0 <= k < |ns[d].ents| && 0 <= i < |ns|
  {
    var ns1 := Unnamed(ns, d, k, ns[d].nlink);
    ns1[i := ns1[i].(nlink := ns1[i].nlink - 1)]
  }

  lemma FileUnlinkKeeps(ns: seq<Inode>, pending: seq<int>, home: seq<int>, d: int, k: int, i: int)
    requires Ok(ns, pending, home) && CanUnlink(ns, home, d, k, i) && ns[i].kind != Dir
    ensures Ok(FileUnlinked(ns, d, k, i), pending, home) && 1 <= ns[i].nlink
  {
    hide TreeOk;
    var ns' := FileUnlinked(ns, d, k, i);
    NamedLinked(ns, pending, home, d, k, i);
    forall j | 1 <= j < |ns| ensures Count(ns', |ns|, j) == Count(ns, |ns|, j) - if j == i then 1 else 0 {
      UnnamedCount(ns, d, k, ns[d].nlink, j);
      CountUpdate(Unnamed(ns, d, k, ns[d].nlink), |ns|, i, ns'[i], j);
    }
    UnlinkTree(ns, ns', home, d, k, i);
  }

  /** What a live directory names has a link. */
  lemma NamedLinked(ns: seq<Inode>, pending: seq<int>, home: seq<int>, d: int, k: int, i: int)
    requires Ok(ns, pending, home) && CanUnlink(ns, home, d, k, i)
    ensures 1 <= Count(ns, |ns|, i) && 1 <= ns[i].nlink && ns[i].kind != Unused && Link(ns[d].ents[k], i) == 1
  {
    hide TreeOk;
    DirAt(ns, home, d);
    EntryAt(ns, home, d, k);
    CountPositive(ns, |ns|, d, k, i);
  }

  /** Removing the name of a file leaves the tree of directories as it is. */
  lemma UnlinkTree(ns: seq<Inode>, ns': seq<Inode>, home: seq<int>, d: int, k: int, i: int)
    requires TreeOk(ns, home) && CanUnlink(ns, home, d, k, i) && ns[i].kind != Dir && ns[i].kind != Unused
    requires ns' == FileUnlinked(ns, d, k, i)
    ensures TreeOk(ns', home)
  {
    hide TreeOk, HomeOk, EntryOk, InodeOk;
    RootAt(ns, home);
    UnlinkHomes(ns, ns', home, d, k, i);
    UnlinkDirs(ns, ns', home, d, k, i);
    forall c | 0 <= c < |ns| ensures InodeOk(ns', c) {
      if c != d && c != i { InodeSame(ns, ns', home, c); }
    }
    TreeFrom(ns', home);
  }

  lemma UnlinkDirs(ns: seq<Inode>, ns': seq<Inode>, home: seq<int>, d: int, k: int, i: int)
    requires TreeOk(ns, home) && CanUnlink(ns, home, d, k, i) && ns[i].kind != Dir && ns[i].kind != Unused
    requires ns' == FileUnlinked(ns, d, k, i)
    ensures InodeOk(ns', d) && InodeOk(ns', i)
    ensures |ns'[ROOT].ents| >= 2 && ns'[ROOT].ents[1].inum == ROOT && Live(ns'[ROOT])
  {
    hide TreeOk;
    RootAt(ns, home);
    DirAt(ns, home, d);
    DirAt(ns, home, i);
    UnnamedDir(ns, d, k, ns[d].nlink);
  }

  lemma UnlinkHomes(ns: seq<Inode>, ns': seq<Inode>, home: seq<int>, d: int, k: int, i: int)
    requires TreeOk(ns, home) && CanUnlink(ns, home, d, k, i) && ns[i].kind != Dir && ns[i].kind != Unused
    requires ns' == FileUnlinked(ns, d, k, i)
    ensures forall c :: 1 <= c < |ns| && Live(ns'[c]) && c != ROOT ==> |home| == |ns| && HomeOk(ns', home, c)
    ensures forall c, j :: 1 <= c < |ns| && Live(ns'[c]) && 2 <= j < |ns'[c].ents| ==>
              |home| == |ns| && EntryOk(ns', home, c, j)
  {
    hide TreeOk;
    forall c | 1 <= c < |ns| && Live(ns'[c]) && c != ROOT ensures HomeOk(ns', home, c) {
      HomeAt(ns, home, c);
    }
    forall c, j | 1 <= c < |ns| && Live(ns'[c]) && 2 <= j < |ns'[c].ents| ensures EntryOk(ns', home, c, j) {
      EntryAt(ns, home, c, j);
    }
  }

  /** sys_unlink of a directory: it and its ".." leave the tree. */
  function DirUnlinked(ns: seq<Inode>, d: int, k: int, i: int): seq<Inode>
    requires 0 <= d < |ns| && 0 <= k < |ns[d].ents| && 0 <= i < |ns|
  {
    var ns1 := Unnamed(ns, d, k, ns[d].nlink - 1);
    ns1[i := ns1[i].(nlink := ns1[i].nlink - 1)]
  }

  /** The names of a directory without children: none but the one in its parent. */
  lemma NoOtherName(ns: seq<Inode>, home: seq<int>, d: int, k: int, i: int, c: int, j: int)
    requires TreeOk(ns, home) && CanUnlink(ns, home, d, k, i) && ns[i].kind == Dir && Empty(ns[i].ents)
    requires 1 <= c < |ns| && Live(ns[c]) && 0 <= j < |ns[c].ents| && (c != d || j != k)
    ensures Link(ns[c].ents[j], i) == 0
  {
    hide TreeOk;
    EntryAt(ns, home, d, k);
    RootAt(ns, home);
    DirAt(ns, home, c);
    if j == 1 {
      if c != ROOT { HomeAt(ns, home, c); }
    } else if 2 <= j {
      EntryAt(ns, home, c, j);
    }
  }

  lemma OneName(ns: seq<Inode>, home: seq<int>, d: int, k: int, i: int)
    requires TreeOk(ns, home) && CanUnlink(ns, home, d, k, i) && ns[i].kind == Dir && Empty(ns[i].ents)
    ensures Count(ns, |ns|, i) <= 1
  {
    hide TreeOk;
    RootAt(ns, home);
    forall c | 0 <= c < |ns| && c != d ensures LinksIn(ns[c], i) == 0 {
      if c != 0 && Live(ns[c]) {
        forall j | 0 <= j < |ns[c].ents| ensures Link(ns[c].ents[j], i) == 0 {
          NoOtherName(ns, home, d, k, i, c, j);
        }
        LinksAtMost(ns[c].ents, -1, i);
      }
    }
    CountAtMost(ns, |ns|, d, i);
    forall j | 0 <= j < |ns[d].ents| && j != k ensures Link(ns[d].ents[j], i) == 0 {
      NoOtherName(ns, home, d, k, i, d, j);
    }
    LinksAtMost(ns[d].ents, k, i);
  }

  /** The directory above a directory has two links at least: its own, and the ".." of the other. */
  lemma TwoLinks(ns: seq<Inode>, pending: seq<int>, home: seq<int>, d: int, k: int, i: int)
    requires Ok(ns, pending, home) && CanUnlink(ns, home, d, k, i) && ns[i].kind == Dir && Empty(ns[i].ents)
    ensures i != d && i != ROOT && Live(ns[i]) && |ns[i].ents| >= 2 && ns[i].ents[1].inum == d && 2 <= ns[d].nlink
  {
    hide TreeOk;
    NamedLinked(ns, pending, home, d, k, i);
    EntryAt(ns, home, d, k);
    RootAt(ns, home);
    DirAt(ns, home, i);
    DirAt(ns, home, d);
    assert HasLink(ns, i, 1, d);
    var e, l := ROOT, 1;
    if d != ROOT {
      HomeAt(ns, home, d);
      e, l := ns[d].ents[1].inum, home[d];
      DirAt(ns, home, e);
    }
    assert HasLink(ns, e, l, d) && e != i;
    if e < i {
      CountTwo(ns, |ns|, e, l, i, 1, d);
    } else {
      CountTwo(ns, |ns|, i, 1, e, l, d);
    }
  }

  lemma DirUnlinkCount(ns: seq<Inode>, pending: seq<int>, home: seq<int>, d: int, k: int, i: int, j: int)
    requires Ok(ns, pending, home) && CanUnlink(ns, home, d, k, i) && ns[i].kind == Dir && Empty(ns[i].ents) &&
             1 <= j < |ns|
    requires i != d && ns[i].nlink == 1 && |ns[i].ents| >= 2 && ns[i].ents[1].inum == d && 2 <= ns[d].nlink
    ensures Count(DirUnlinked(ns, d, k, i), |ns|, j) ==
            Count(ns, |ns|, j) - (if j == i then 1 else 0) - (if j == d then 1 else 0)
  {
    hide TreeOk, Conserved;
    DirAt(ns, home, d);
    DirAt(ns, home, i);
    NamedLinked(ns, pending, home, d, k, i);
    var ns1 := Unnamed(ns, d, k, ns[d].nlink - 1);
    UnnamedCount(ns, d, k, ns[d].nlink - 1, j);
    assert ns1[i] == ns[i];
    EmptyLinks(ns, i, j);
    CountUpdate(ns1, |ns|, i, ns1[i].(nlink := 0), j);
  }

  lemma DirUnlinkKeeps(ns: seq<Inode>, pending: seq<int>, home: seq<int>, d: int, k: int, i: int)
    requires Ok(ns, pending, home) && CanUnlink(ns, home, d, k, i) && ns[i].kind == Dir && Empty(ns[i].ents)
    ensures Ok(DirUnlinked(ns, d, k, i), pending, home) && ns[i].nlink == 1 && i != d
  {
    hide TreeOk;
    var ns' := DirUnlinked(ns, d, k, i);
    TwoLinks(ns, pending, home, d, k, i);
    OneName(ns, home, d, k, i);
    forall j | 1 <= j < |ns| ensures ns'[j].nlink == Count(ns', |ns|, j) + pending[j] {
      DirUnlinkCount(ns, pending, home, d, k, i, j);
    }
    DirUnlinkTree(ns, ns', home, d, k, i);
  }

  lemma DirUnlinkTree(ns: seq<Inode>, ns': seq<Inode>, home: seq<int>, d: int, k: int, i: int)
    requires TreeOk(ns, home) && CanUnlink(ns, home, d, k, i) && ns[i].kind == Dir && Empty(ns[i].ents)
    requires i != d && i != ROOT && ns[i].nlink == 1 && 2 <= ns[d].nlink && ns' == DirUnlinked(ns, d, k, i)
    ensures TreeOk(ns', home)
  {
    hide TreeOk, HomeOk, EntryOk, InodeOk;
    RootAt(ns, home);
    DirUnlinkHomes(ns, ns', home, d, k, i);
    DirUnlinkEntries(ns, ns', home, d, k, i);
    DirUnlinkDirs(ns, ns', home, d, k, i);
    forall c | 0 <= c < |ns| ensures InodeOk(ns', c) {
      if c != d && c != i { InodeSame(ns, ns', home, c); }
    }
    TreeFrom(ns', home);
  }

  lemma DirUnlinkDirs(ns: seq<Inode>, ns': seq<Inode>, home: seq<int>, d: int, k: int, i: int)
    requires TreeOk(ns, home) && CanUnlink(ns, home, d, k, i) && ns[i].kind == Dir && Empty(ns[i].ents)
    requires i != d && i != ROOT && ns[i].nlink == 1 && 2 <= ns[d].nlink && ns' == DirUnlinked(ns, d, k, i)
    ensures InodeOk(ns', d) && InodeOk(ns', i)
    ensures |ns'[ROOT].ents| >= 2 && ns'[ROOT].ents[1].inum == ROOT && Live(ns'[ROOT])
  {
    hide TreeOk;
    RootAt(ns, home);
    DirAt(ns, home, d);
    DirAt(ns, home, i);
    UnnamedDir(ns, d, k, ns[d].nlink - 1);
  }

  lemma DirUnlinkEntries(ns: seq<Inode>, ns': seq<Inode>, home: seq<int>, d: int, k: int, i: int)
    requires TreeOk(ns, home) && CanUnlink(ns, home, d, k, i) && ns[i].kind == Dir
    requires i != d && ns[i].nlink == 1 && ns' == DirUnlinked(ns, d, k, i)
    ensures forall c, j :: 1 <= c < |ns| && Live(ns'[c]) && 2 <= j < |ns'[c].ents| ==>
              |home| == |ns| && EntryOk(ns', home, c, j)
  {
    hide TreeOk;
    forall c, j | 1 <= c < |ns| && Live(ns'[c]) && 2 <= j < |ns'[c].ents| ensures EntryOk(ns', home, c, j) {
      EntryAt(ns, home, c, j);
    }
  }

  lemma DirUnlinkHomes(ns: seq<Inode>, ns': seq<Inode>, home: seq<int>, d: int, k: int, i: int)
    requires TreeOk(ns, home) && CanUnlink(ns, home, d, k, i) && ns[i].kind == Dir && Empty(ns[i].ents)
    requires i != d && i != ROOT && ns[i].nlink == 1 && 2 <= ns[d].nlink && ns' == DirUnlinked(ns, d, k, i)
    ensures forall c :: 1 <= c < |ns| && Live(ns'[c]) && c != ROOT ==> |home| == |ns| && HomeOk(ns', home, c)
  {
    hide TreeOk;
    forall c | 1 <= c < |ns| && Live(ns'[c]) && c != ROOT ensures HomeOk(ns', home, c) {
      HomeAt(ns, home, c);
    }
  }
}
