/** The disk while kernel/log.c commits a transaction: block after block to the log, the header, block after block home,
    and the empty header; and what recovery makes of it at each point. */
module LogDisk {
  import opened Basics
  import opened Bio
  import opened LogHeader

  /** The header block and the log blocks after it, and the blocks of the transaction elsewhere. */
  ghost predicate Laid(disk: map<Block, seq<int>>, start: int, header: seq<int>) {
    && |header| <= LOGBLOCKS && Distinct(header)
    && (forall k :: start <= k <= start + LOGBLOCKS ==> Block(ROOTDEV, k) in disk)
    && (forall k :: 0 <= k < |header| ==>
          Block(ROOTDEV, header[k]) in disk && !(start <= header[k] <= start + LOGBLOCKS) && 0 <= header[k] < MAXWORD)
    && |disk[Block(ROOTDEV, start)]| == BSIZE
  }

  /** The disk after the first k blocks have been copied to the log. */
  ghost function LogCopied(disk: map<Block, seq<int>>, start: int, data: seq<seq<int>>, k: int): map<Block, seq<int>>
    requires 0 <= k <= |data|
    decreases k
  {
    if k == 0 then disk else LogCopied(disk, start, data, k - 1)[Block(ROOTDEV, start + k) := data[k - 1]]
  }

  /** The disk after the first k blocks have been copied home. */
  ghost function Installed(disk: map<Block, seq<int>>, header: seq<int>, data: seq<seq<int>>, k: int)
    : map<Block, seq<int>>
    requires 0 <= k <= |data| == |header|
    decreases k
  {
    if k == 0 then disk else Installed(disk, header, data, k - 1)[Block(ROOTDEV, header[k - 1]) := data[k - 1]]
  }

  lemma {:induction false} LogCopiedAt(disk: map<Block, seq<int>>, start: int, data: seq<seq<int>>, k: int, x: Block)
    requires 0 <= k <= |data| && x in disk
    ensures x in LogCopied(disk, start, data, k)
    ensures LogCopied(disk, start, data, k)[x] ==
            if x.dev == ROOTDEV && start < x.blockno <= start + k then data[x.blockno - start - 1] else disk[x]
    decreases k
  {
    if k > 0 { LogCopiedAt(disk, start, data, k - 1, x); }
  }

  lemma {:induction false} InstalledElsewhere(disk: map<Block, seq<int>>, header: seq<int>, data: seq<seq<int>>, k: int,
                                              x: Block)
    requires 0 <= k <= |data| == |header| && x in disk
    requires forall j :: 0 <= j < k ==> x != Block(ROOTDEV, header[j])
    ensures x in Installed(disk, header, data, k) && Installed(disk, header, data, k)[x] == disk[x]
    decreases k
  {
    if k > 0 { InstalledElsewhere(disk, header, data, k - 1, x); }
  }

  lemma {:induction false} InstalledAt(disk: map<Block, seq<int>>, header: seq<int>, data: seq<seq<int>>, k: int,
                                       j: int)
    requires 0 <= j < k <= |data| == |header| && Distinct(header)
    ensures Block(ROOTDEV, header[j]) in Installed(disk, header, data, k)
    ensures Installed(disk, header, data, k)[Block(ROOTDEV, header[j])] == data[j]
    decreases k
  {
    if j < k - 1 { InstalledAt(disk, header, data, k - 1, j); }
  }

  /** Installing does not touch the log. */
  lemma SlotStays(disk: map<Block, seq<int>>, start: int, header: seq<int>, data: seq<seq<int>>, tail: int)
    requires Laid(disk, start, header) && 0 <= tail < |header| == |data|
    ensures var x := Block(ROOTDEV, start + 1 + tail);
            x in disk && x in Installed(disk, header, data, tail) && Installed(disk, header, data, tail)[x] == disk[x]
  {
    InstalledElsewhere(disk, header, data, tail, Block(ROOTDEV, start + 1 + tail));
  }

  /** The blocks of the transaction have the buffers' data, the log area may have changed, and nothing else has. */
  ghost predicate Committed(disk: map<Block, seq<int>>, disk': map<Block, seq<int>>, start: int, header: seq<int>,
                            data: seq<seq<int>>) {
    && |header| == |data|
    && (forall k :: 0 <= k < |header| ==>
          Block(ROOTDEV, header[k]) in disk' && disk'[Block(ROOTDEV, header[k])] == data[k])
    && (forall x ::
          x in disk && !(x.dev == ROOTDEV && (x.blockno in header || start <= x.blockno <= start + LOGBLOCKS)) ==>
          x in disk' && disk'[x] == disk[x])
  }

  /** The log area after write_log and write_head; nothing else has changed. */
  lemma LoggedDisk(disk: map<Block, seq<int>>, start: int, header: seq<int>, data: seq<seq<int>>, d: seq<int>)
    requires Laid(disk, start, header) && |header| == |data| && |d| == BSIZE
    ensures var disk1 := LogCopied(disk, start, data, |data|)[Block(ROOTDEV, start) := d];
            && Laid(disk1, start, header)
            && (forall k :: 0 <= k < |data| ==> disk1[Block(ROOTDEV, start + 1 + k)] == data[k])
            && (forall x :: x in disk && !(x.dev == ROOTDEV && start <= x.blockno <= start + LOGBLOCKS) ==>
                  x in disk1 && disk1[x] == disk[x])
  {
    var n := |data|;
    var disk1 := LogCopied(disk, start, data, n)[Block(ROOTDEV, start) := d];
    forall x | x in disk
      ensures x in disk1
      ensures x != Block(ROOTDEV, start) ==>
                disk1[x] == if x.dev == ROOTDEV && start < x.blockno <= start + n
                            then data[x.blockno - start - 1] else disk[x]
    {
      LogCopiedAt(disk, start, data, n, x);
    }
  }

  lemma CommitDisk(disk: map<Block, seq<int>>, start: int, header: seq<int>, data: seq<seq<int>>, d: seq<int>,
                   e: seq<int>)
    requires Laid(disk, start, header) && |header| == |data| && |d| == BSIZE
    ensures var disk1 := LogCopied(disk, start, data, |data|)[Block(ROOTDEV, start) := d];
            && Laid(disk1, start, header)
            && (forall k :: 0 <= k < |data| ==> disk1[Block(ROOTDEV, start + 1 + k)] == data[k])
            && Committed(disk, Installed(disk1, header, data, |data|)[Block(ROOTDEV, start) := e], start, header, data)
  {
    hide LogCopied, Installed;
    var n := |data|;
    var disk1 := LogCopied(disk, start, data, n)[Block(ROOTDEV, start) := d];
    var disk2 := Installed(disk1, header, data, n)[Block(ROOTDEV, start) := e];
    LoggedDisk(disk, start, header, data, d);
    forall k | 0 <= k < n ensures Block(ROOTDEV, header[k]) in disk2 && disk2[Block(ROOTDEV, header[k])] == data[k] {
      InstalledAt(disk1, header, data, n, k);
    }
    forall x | x in disk && !(x.dev == ROOTDEV && (x.blockno in header || start <= x.blockno <= start + LOGBLOCKS))
      ensures x in disk2 && disk2[x] == disk[x]
    {
      InstalledElsewhere(disk1, header, data, n, x);
    }
  }

  // ---------------------------------------------------------------- recovery

  /** The blocks that the header on a disk names. */
  ghost function HeadOn(disk: map<Block, seq<int>>, start: int): (h: seq<int>)
    requires Block(ROOTDEV, start) in disk && |disk[Block(ROOTDEV, start)]| == BSIZE
  {
    var d := disk[Block(ROOTDEV, start)];
    var n := WordAt(d, 0);
    if 0 <= n <= LOGBLOCKS then seq(n, k requires 0 <= k < n => WordAt(d, k + 1)) else []
  }

  /** What recover_from_log makes of a disk: every block that the header names is as the log has it. */
  ghost function Recovered(disk: map<Block, seq<int>>, start: int): map<Block, seq<int>>
    requires Block(ROOTDEV, start) in disk && |disk[Block(ROOTDEV, start)]| == BSIZE
    requires forall k :: start <= k <= start + LOGBLOCKS ==> Block(ROOTDEV, k) in disk
  {
    var h := HeadOn(disk, start);
    Installed(disk, h, seq(|h|, k requires 0 <= k < |h| => disk[Block(ROOTDEV, start + 1 + k)]), |h|)
  }

  ghost predicate InLog(x: Block, start: int) {
    x.dev == ROOTDEV && start <= x.blockno <= start + LOGBLOCKS
  }

  /** Recovery gives the blocks of another disk, but for the log's own. */
  ghost predicate RecoversTo(disk: map<Block, seq<int>>, start: int, goal: map<Block, seq<int>>) {
    && (forall k :: start <= k <= start + LOGBLOCKS ==> Block(ROOTDEV, k) in disk)
    && Block(ROOTDEV, start) in disk && |disk[Block(ROOTDEV, start)]| == BSIZE
    && forall x :: x in goal && !InLog(x, start) ==>
         x in Recovered(disk, start) && Recovered(disk, start)[x] == goal[x]
  }

  /** A crash at this point loses the whole transaction or nothing of it. */
  ghost predicate Whole(disk: map<Block, seq<int>>, start: int, before: map<Block, seq<int>>, header: seq<int>,
                        data: seq<seq<int>>)
    requires |header| == |data|
  {
    RecoversTo(disk, start, before) || RecoversTo(disk, start, Installed(before, header, data, |data|))
  }

  lemma HeadIs(disk: map<Block, seq<int>>, start: int, header: seq<int>)
    requires Block(ROOTDEV, start) in disk && HoldsHead(disk[Block(ROOTDEV, start)], header) && |header| <= LOGBLOCKS
    ensures HeadOn(disk, start) == header
  {
  }

  /** Nothing is done under an empty header. */
  lemma EmptyRecovers(disk: map<Block, seq<int>>, start: int, goal: map<Block, seq<int>>)
    requires forall k :: start <= k <= start + LOGBLOCKS ==> Block(ROOTDEV, k) in disk
    requires Block(ROOTDEV, start) in disk && HoldsHead(disk[Block(ROOTDEV, start)], [])
    requires forall x :: x in goal && !InLog(x, start) ==> x in disk && disk[x] == goal[x]
    ensures RecoversTo(disk, start, goal)
  {
    HeadIs(disk, start, []);
  }

  /** Before the header is written: the transaction is not there. */
  lemma CopyingIsWhole(disk: map<Block, seq<int>>, start: int, header: seq<int>, data: seq<seq<int>>, k: int)
    requires Laid(disk, start, header) && |header| == |data| && 0 <= k <= |data|
    requires HoldsHead(disk[Block(ROOTDEV, start)], [])
    ensures Whole(LogCopied(disk, start, data, k), start, disk, header, data)
  {
    hide LogCopied, HoldsHead, RecoversTo;
    var disk1 := LogCopied(disk, start, data, k);
    forall x | x in disk ensures x in disk1 && (!InLog(x, start) || x.blockno == start ==> disk1[x] == disk[x]) {
      LogCopiedAt(disk, start, data, k, x);
    }
    assert InLog(Block(ROOTDEV, start), start);
    EmptyRecovers(disk1, start, disk);
  }

  /** Once the header is written: recovery does what is left to do. */
  lemma InstallingIsWhole(disk: map<Block, seq<int>>, disk1: map<Block, seq<int>>, start: int, header: seq<int>,
                          data: seq<seq<int>>, k: int)
    requires Laid(disk, start, header) && |header| == |data| && Laid(disk1, start, header) && 0 <= k <= |data|
    requires HoldsHead(disk1[Block(ROOTDEV, start)], header)
    requires forall j :: 0 <= j < |data| ==> disk1[Block(ROOTDEV, start + 1 + j)] == data[j]
    requires forall x :: x in disk && !InLog(x, start) ==> x in disk1 && disk1[x] == disk[x]
    ensures Whole(Installed(disk1, header, data, k), start, disk, header, data)
  {
    hide Installed, HoldsHead;
    var n, disk2 := |data|, Installed(disk1, header, data, k);
    forall j | start <= j <= start + LOGBLOCKS
      ensures Block(ROOTDEV, j) in disk2 && disk2[Block(ROOTDEV, j)] == disk1[Block(ROOTDEV, j)]
    {
      InstalledElsewhere(disk1, header, data, k, Block(ROOTDEV, j));
    }
    assert start <= start <= start + LOGBLOCKS;
    HeadIs(disk2, start, header);
    assert seq(n, j requires 0 <= j < n => disk2[Block(ROOTDEV, start + 1 + j)]) == data;
    assert Recovered(disk2, start) == Installed(disk2, header, data, n);
    forall x | x in Installed(disk, header, data, n) && !InLog(x, start)
      ensures x in Installed(disk2, header, data, n)
      ensures Installed(disk2, header, data, n)[x] == Installed(disk, header, data, n)[x]
    {
      InstalledSame(disk, disk1, header, data, k, x);
    }
  }

  /** Installing what is installed in part gives what installing at once does. */
  lemma InstalledSame(disk: map<Block, seq<int>>, disk1: map<Block, seq<int>>, header: seq<int>, data: seq<seq<int>>,
                      k: int, x: Block)
    requires |header| == |data| && Distinct(header) && 0 <= k <= |data|
    requires x in Installed(disk, header, data, |data|) && (x in disk ==> x in disk1 && disk1[x] == disk[x])
    ensures x in Installed(Installed(disk1, header, data, k), header, data, |data|)
    ensures Installed(Installed(disk1, header, data, k), header, data, |data|)[x] ==
            Installed(disk, header, data, |data|)[x]
  {
    hide Installed;
    var n, disk2 := |data|, Installed(disk1, header, data, k);
    if j :| 0 <= j < n && x == Block(ROOTDEV, header[j]) {
      InstalledAt(disk, header, data, n, j);
      InstalledAt(disk2, header, data, n, j);
    } else {
      InstalledKeys(disk, header, data, n, x);
      InstalledElsewhere(disk, header, data, n, x);
      InstalledElsewhere(disk1, header, data, k, x);
      InstalledElsewhere(disk2, header, data, n, x);
    }
  }

  lemma {:induction false} InstalledKeys(disk: map<Block, seq<int>>, header: seq<int>, data: seq<seq<int>>, k: int,
                                         x: Block)
    requires 0 <= k <= |data| == |header| && x in Installed(disk, header, data, k)
    requires forall j :: 0 <= j < k ==> x != Block(ROOTDEV, header[j])
    ensures x in disk
    decreases k
  {
    if k > 0 { InstalledKeys(disk, header, data, k - 1, x); }
  }

  /** Once the header is empty again: the transaction is at home. */
  lemma InstalledIsWhole(disk: map<Block, seq<int>>, disk1: map<Block, seq<int>>, start: int, header: seq<int>,
                         data: seq<seq<int>>, e: seq<int>)
    requires Laid(disk, start, header) && |header| == |data| && Laid(disk1, start, header) && HoldsHead(e, [])
    requires forall x :: x in disk && !InLog(x, start) ==> x in disk1 && disk1[x] == disk[x]
    ensures Whole(Installed(disk1, header, data, |data|)[Block(ROOTDEV, start) := e], start, disk, header, data)
  {
    hide Installed, HoldsHead, RecoversTo;
    var n := |data|;
    var disk2, goal := Installed(disk1, header, data, n)[Block(ROOTDEV, start) := e], Installed(disk, header, data, n);
    forall j | start <= j <= start + LOGBLOCKS ensures Block(ROOTDEV, j) in disk2 {
      InstalledElsewhere(disk1, header, data, n, Block(ROOTDEV, j));
    }
    forall x | x in goal && !InLog(x, start) ensures x in disk2 && disk2[x] == goal[x] {
      if j :| 0 <= j < n && x == Block(ROOTDEV, header[j]) {
        InstalledAt(disk, header, data, n, j);
        InstalledAt(disk1, header, data, n, j);
      } else {
        InstalledKeys(disk, header, data, n, x);
        InstalledElsewhere(disk, header, data, n, x);
        InstalledElsewhere(disk1, header, data, n, x);
      }
    }
    EmptyRecovers(disk2, start, goal);
  }

  // ---------------------------------------------------------------- all disks on the way

  /** Some blocks have been copied to the log. */
  ghost predicate IsCopied(disk: map<Block, seq<int>>, disk0: map<Block, seq<int>>, start: int, data: seq<seq<int>>) {
    exists k :: 0 <= k <= |data| && disk == LogCopied(disk0, start, data, k)
  }

  ghost predicate AllCopied(disks: seq<map<Block, seq<int>>>, from: int, disk0: map<Block, seq<int>>, start: int,
                            data: seq<seq<int>>)
    requires 0 <= from
  {
    forall i :: from <= i < |disks| ==> IsCopied(disks[i], disk0, start, data)
  }

  /** Some blocks have been copied home. */
  ghost predicate IsInstalled(disk: map<Block, seq<int>>, disk1: map<Block, seq<int>>, header: seq<int>,
                              data: seq<seq<int>>)
    requires |header| == |data|
  {
    exists k :: 0 <= k <= |data| && disk == Installed(disk1, header, data, k)
  }

  ghost predicate AllInstalled(disks: seq<map<Block, seq<int>>>, from: int, disk1: map<Block, seq<int>>,
                               header: seq<int>, data: seq<seq<int>>)
    requires |header| == |data| && 0 <= from
  {
    forall i :: from <= i < |disks| ==> IsInstalled(disks[i], disk1, header, data)
  }

  lemma CopiedMore(disks: seq<map<Block, seq<int>>>, from: int, disk0: map<Block, seq<int>>, start: int,
                   data: seq<seq<int>>, k: int)
    requires 0 <= from <= |disks| && AllCopied(disks, from, disk0, start, data) && 0 <= k <= |data|
    ensures AllCopied(disks + [LogCopied(disk0, start, data, k)], from, disk0, start, data)
  {
    hide LogCopied;
    assert IsCopied(LogCopied(disk0, start, data, k), disk0, start, data);
  }

  lemma InstalledMore(disks: seq<map<Block, seq<int>>>, from: int, disk1: map<Block, seq<int>>, header: seq<int>,
                      data: seq<seq<int>>, k: int)
    requires |header| == |data| && 0 <= from <= |disks| && AllInstalled(disks, from, disk1, header, data)
    requires 0 <= k <= |data|
    ensures AllInstalled(disks + [Installed(disk1, header, data, k)], from, disk1, header, data)
  {
    hide Installed;
    assert IsInstalled(Installed(disk1, header, data, k), disk1, header, data);
  }

  /** The disk at the start of a commit: the header on it is empty. */
  ghost predicate Clean(disk: map<Block, seq<int>>, start: int) {
    Block(ROOTDEV, start) in disk && HoldsHead(disk[Block(ROOTDEV, start)], [])
  }

  ghost predicate AllWhole(disks: seq<map<Block, seq<int>>>, from: int, start: int, before: map<Block, seq<int>>,
                           header: seq<int>, data: seq<seq<int>>)
    requires |header| == |data| && 0 <= from
  {
    forall i :: from <= i < |disks| ==> Whole(disks[i], start, before, header, data)
  }

  lemma AllCopying(disks: seq<map<Block, seq<int>>>, from: int, start: int, before: map<Block, seq<int>>,
                   header: seq<int>, data: seq<seq<int>>)
    requires Laid(before, start, header) && |header| == |data| && 0 <= from && Clean(before, start)
    requires AllCopied(disks, from, before, start, data)
    ensures AllWhole(disks, from, start, before, header, data)
  {
    hide LogCopied, Laid, HoldsHead, Whole;
    forall i | from <= i < |disks| ensures Whole(disks[i], start, before, header, data) {
      assert IsCopied(disks[i], before, start, data);
      var k :| 0 <= k <= |data| && disks[i] == LogCopied(before, start, data, k);
      CopyingIsWhole(before, start, header, data, k);
    }
  }

  lemma AllInstalling(disks: seq<map<Block, seq<int>>>, from: int, start: int, before: map<Block, seq<int>>,
                      disk1: map<Block, seq<int>>, header: seq<int>, data: seq<seq<int>>)
    requires Laid(before, start, header) && |header| == |data| && Laid(disk1, start, header) && 0 <= from
    requires HoldsHead(disk1[Block(ROOTDEV, start)], header)
    requires forall j :: 0 <= j < |data| ==> disk1[Block(ROOTDEV, start + 1 + j)] == data[j]
    requires forall x :: x in before && !InLog(x, start) ==> x in disk1 && disk1[x] == before[x]
    requires AllInstalled(disks, from, disk1, header, data)
    ensures AllWhole(disks, from, start, before, header, data)
  {
    hide Installed, HoldsHead, Whole;
    forall i | from <= i < |disks| ensures Whole(disks[i], start, before, header, data) {
      assert IsInstalled(disks[i], disk1, header, data);
      var k :| 0 <= k <= |data| && disks[i] == Installed(disk1, header, data, k);
      InstallingIsWhole(before, disk1, start, header, data, k);
    }
  }

  lemma AllJoin(disks: seq<map<Block, seq<int>>>, disks': seq<map<Block, seq<int>>>, from: int, start: int,
                before: map<Block, seq<int>>, header: seq<int>, data: seq<seq<int>>)
    requires |header| == |data| && 0 <= from && disks <= disks' && AllWhole(disks, from, start, before, header, data)
    requires AllWhole(disks', |disks|, start, before, header, data)
    ensures AllWhole(disks', from, start, before, header, data)
  {
    hide Whole;
    forall i | from <= i < |disks'| ensures Whole(disks'[i], start, before, header, data) {
      if i < |disks| { assert disks[i] == disks'[i]; }
    }
  }
}
