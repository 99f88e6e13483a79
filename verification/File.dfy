/** filewrite of kernel/file.c for an inode file: one log operation for each chunk. */
module File {
  import opened FsBytes
  import opened FsImage
  import opened FsContent
  import opened LogMachine
  import opened LogReservation
  import opened Fs

  lemma SpliceLength(c: seq<int>, off: int, t: seq<int>)
    requires 0 <= off <= |c|
    ensures |Splice(c, off, t)| >= off + |t|
  {
  }

  lemma SpliceNothing(c: seq<int>, off: int)
    requires 0 <= off <= |c|
    ensures Splice(c, off, []) == c
  {
  }

  lemma SpliceSplice(c: seq<int>, off: int, a: seq<int>, b: seq<int>)
    requires 0 <= off <= |c|
    ensures |Splice(c, off, a)| >= off + |a|
    ensures Splice(Splice(c, off, a), off + |a|, b) == Splice(c, off, a + b)
  {
  }

  /** c is c0 with the first n bytes of src from off on. */
  ghost predicate WrittenSoFar(c0: seq<int>, off: int, src: seq<int>, n: int, c: seq<int>) {
    && 0 <= n <= |src| && 0 <= off
    && (n > 0 ==> off <= |c0|)
    && c == if n == 0 then c0 else Splice(c0, off, src[..n])
  }

  lemma AppendWritten(c0: seq<int>, off: int, src: seq<int>, i: int, r: int, c: seq<int>, c': seq<int>)
    requires WrittenSoFar(c0, off, src, i, c) && 0 <= r && i + r <= |src|
    requires off + i <= |c| && c' == Splice(c, off + i, src[i..i + r])
    ensures WrittenSoFar(c0, off, src, i + r, c')
    ensures off + i + r <= |c'|
  {
    hide Splice;
    SpliceLength(c, off + i, src[i..i + r]);
    assert src[..i] + src[i..i + r] == src[..i + r];
    if i > 0 {
      SpliceSplice(c0, off, src[..i], src[i..i + r]);
    } else if r == 0 {
      assert src[i..i + r] == [];
      SpliceNothing(c0, off);
    }
  }

  /** The lists, one after the other. */
  ghost function Flat(ops: seq<seq<int>>): seq<int> {
    if ops == [] then [] else Flat(ops[..|ops| - 1]) + ops[|ops| - 1]
  }

  lemma FlatSnoc(ops: seq<seq<int>>, w: seq<int>, from: seq<int>, mid: seq<int>, to: seq<int>)
    requires from <= mid <= to && Flat(ops) == mid[|from|..] && w == to[|mid|..]
    ensures Flat(ops + [w]) == to[|from|..]
  {
    assert (ops + [w])[..|ops|] == ops;
  }

  lemma NoOperations()
    ensures Flat([]) == []
  {
  }

  lemma NothingLogged(w: seq<int>)
    requires w == []
    ensures WithinBudget(w)
  {
  }

  class OpenFile {
    const fs: FileSystem
    const inum: int
    var off: int
    ghost var history: seq<seq<int>>  // the blocks that each operation of each filewrite has logged, in order

    constructor (fs: FileSystem, inum: int)
      requires fs.Valid() && Complete(fs.Img()) && inum in fs.isize
      ensures Valid() && this.fs == fs && this.inum == inum && off == 0 && history == []
    {
      this.fs := fs;
      this.inum := inum;
      off := 0;
      history := [];
    }

    ghost predicate Valid()
      reads this, fs
    {
      && fs.Valid() && Complete(fs.Img()) && inum in fs.isize && 0 <= off < 0x1_0000_0000
      && forall k :: 0 <= k < |history| ==> WithinBudget(history[k])
    }

    /** One pass of filewrite's loop, which is one operation. */
    method Chunk(part: seq<int>, avail: int) returns (r: int, ghost w: seq<int>)
      requires Valid() && |part| <= MAXCHUNK && Bytes(part)
      modifies this, fs
      ensures Valid() && fs.isize.Keys == old(fs.isize).Keys && -1 <= r <= |part|
      ensures off == old(off) + if r > 0 then r else 0
      ensures history == old(history) + [w] && old(fs.logged) <= fs.logged && w == fs.logged[|old(fs.logged)|..]
      ensures r == -1 <==> old(off) > |Content(old(fs.Img()), inum)| || old(off) + |part| > MAXFILE * BSIZE
      ensures r == -1 ==> Content(fs.Img(), inum) == Content(old(fs.Img()), inum)
      ensures r != -1 ==> Content(fs.Img(), inum) == Splice(Content(old(fs.Img()), inum), old(off), part[..r])
      ensures 0 <= r < |part| ==> fs.Full() || avail < r + Fs.Chunk(old(off), part, r)
      ensures r <= 0 || r <= avail
      ensures old(fs.Synced()) ==> fs.Synced()
      ensures forall j :: j in old(fs.isize) && j != inum ==> Content(fs.Img(), j) == Content(old(fs.Img()), j)
    {
      hide Content, ByteAt, Complete, WithinBudget, Owned, BitmapOk, DataOk, FileSystem.Full, Journaled, Splice;
      hide FileSystem.Synced, InodesJournaled, HoldsInode;
      ContentLength(fs.Img(), inum);
      r := fs.Writei(inum, off, part, avail);
      w := fs.logged[|old(fs.logged)|..];
      if r == -1 { NothingLogged(w); }
      history := history + [w];
      if r > 0 {
        off := off + r;
      }
    }

    /** The turn of filewrite's loop that writes from position i of the source on; r is -1 or the bytes written. */
    method Turn(src: seq<int>, i: int, avail: int, ghost c0: seq<int>) returns (r: int, more: bool, ghost w: seq<int>)
      requires Valid() && |src| < 0x8000_0000 && Bytes(src) && 0 <= i < |src| && i <= off
      requires WrittenSoFar(c0, off - i, src, i, Content(fs.Img(), inum))
      requires i > 0 ==> off <= |Content(fs.Img(), inum)|
      modifies this, fs
      ensures Valid() && fs.isize.Keys == old(fs.isize).Keys && -1 <= r <= |src| - i && (more ==> 0 < r)
      ensures off == old(off) + if r > 0 then r else 0
      ensures WrittenSoFar(c0, old(off) - i, src, off - old(off) + i, Content(fs.Img(), inum))
      ensures 0 < r ==> off <= |Content(fs.Img(), inum)| && r <= avail
      ensures !more ==>
                || old(off) > |Content(old(fs.Img()), inum)| || old(off) + |src| - i > MAXFILE * BSIZE
                || fs.Full() || avail < |src| - i
      ensures more ==> r == |src| - i || r == MAXCHUNK
      ensures !more ==> i + r < |src|
      ensures history == old(history) + [w] && old(fs.logged) <= fs.logged && w == fs.logged[|old(fs.logged)|..]
      ensures forall j :: j in old(fs.isize) && j != inum ==> Content(fs.Img(), j) == Content(old(fs.Img()), j)
      ensures old(fs.Synced()) ==> fs.Synced()
    {
      hide Content, ByteAt, Complete, WithinBudget, Owned, BitmapOk, DataOk, FileSystem.Full, Splice, FileSystem.Synced;
      var n1 := |src| - i;
      if n1 > MAXCHUNK {
        n1 := MAXCHUNK;
      }
      ghost var c := Content(fs.Img(), inum);
      r, w := Chunk(src[i..i + n1], avail);
      if r != -1 {
        assert src[i..i + n1][..r] == src[i..i + r];
        AppendWritten(c0, old(off) - i, src, i, r, c, Content(fs.Img(), inum));
      }
      more := r == n1;
    }

    /** filewrite. The file's bytes from the old offset on are replaced by what was written, which is
        all of the source exactly when the call succeeds. Each chunk is one operation, and the blocks
        that each operation logs are within what begin_op has reserved for it. */
    method Filewrite(src: seq<int>, avail: int) returns (ret: int, ghost ops: seq<seq<int>>)
      requires Valid() && |src| < 0x8000_0000 && Bytes(src)
      modifies this, fs
      ensures Valid() && ret == (if off == old(off) + |src| then |src| else -1)
      ensures old(off) <= off <= old(off) + |src|
      ensures off > old(off) ==> old(off) <= |Content(old(fs.Img()), inum)|
      ensures off > old(off) ==>
                Content(fs.Img(), inum) == Splice(Content(old(fs.Img()), inum), old(off), src[..off - old(off)])
      ensures off == old(off) ==> Content(fs.Img(), inum) == Content(old(fs.Img()), inum)
      ensures forall j :: j in old(fs.isize) && j != inum ==>
                j in fs.isize && Content(fs.Img(), j) == Content(old(fs.Img()), j)
      ensures old(fs.logged) <= fs.logged && Flat(ops) == fs.logged[|old(fs.logged)|..] && history == old(history) + ops
      ensures old(fs.Synced()) ==> fs.Synced()
      ensures off == old(off) || off - old(off) <= avail
      ensures src != [] && ret == -1 ==>
                || old(off) > |Content(old(fs.Img()), inum)| || old(off) + |src| > MAXFILE * BSIZE
                || fs.Full() || avail < |src|
    {
      hide Content, ByteAt, Complete, WithinBudget, Owned, BitmapOk, DataOk, FileSystem.Full, Splice, Flat;
      hide FileSystem.Synced;
      ghost var im0, c0, off0 := fs.Img(), Content(fs.Img(), inum), off;
      ops := [];
      NoOperations();
      var i := 0;
      while i < |src|
        invariant 0 <= i <= |src| && Valid() && off == off0 + i
        invariant WrittenSoFar(c0, off0, src, i, Content(fs.Img(), inum))
        invariant i > 0 ==> off <= |Content(fs.Img(), inum)| && i <= avail
        invariant fs.isize.Keys == old(fs.isize).Keys
        invariant forall j :: j in old(fs.isize) && j != inum ==> Content(fs.Img(), j) == Content(im0, j)
        invariant history == old(history) + ops && (old(fs.Synced()) ==> fs.Synced())
        invariant old(fs.logged) <= fs.logged && Flat(ops) == fs.logged[|old(fs.logged)|..]
        decreases |src| - i
      {
        ghost var before := fs.logged;
        var r, more, w := Turn(src, i, avail - i, c0);
        FlatSnoc(ops, w, old(fs.logged), before, fs.logged);
        ops := ops + [w];
        if !more {
          break;
        }
        i := i + r;
      }
      ret := if i == |src| then |src| else -1;
    }
  }

  /** What filewrite's chunk size is for: in every run of the log whose operations log what filewrite operations log,
      on any number of files, in any interleaving and with crashes, log_write's size check never fires. */
  lemma FilewritesNeverPanic(files: set<OpenFile>, plans: map<OpId, seq<int>>, run: seq<State>, i: nat)
    requires forall f :: f in files ==> f.Valid()
    requires forall op :: op in plans ==> exists f :: f in files && plans[op] in f.history
    requires IsPlannedRun(run, plans) && i < |run|
    ensures run[i].pc != Panicked && Reserved(run[i])
  {
    forall op | op in plans ensures WithinBudget(plans[op]) {
      var f :| f in files && plans[op] in f.history;
      assert f.Valid();
    }
    PlannedNeverPanics(run, plans, i);
  }
}
