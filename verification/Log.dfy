/** The functions of kernel/log.c over a mutable log record and disk.

    The ghost field `run` records every state the machine of LogMachine passes through. Each method
    promises that `run` is still a run of that machine and ends in the present state, so the
    theorems of LogSafety hold between any two disk writes that the code makes. */
module Log {
  import opened LogMachine
  import opened LogSafety

  class LogManager {
    var disk: Disk
    var cache: map<int, Block>
    var n: nat
    const block: array<int>
    var outstanding: nat
    var committing: bool
    ghost var run: seq<State>

    ghost predicate Matches(s: State)
      reads this, block
    {
      && block.Length == LOGBLOCKS && n <= LOGBLOCKS
      && s.disk == disk && s.cache == cache && s.lh == block[..n]
      && s.outstanding == outstanding && s.committing == committing
    }

    ghost predicate Valid()
      reads this, block
    {
      |run| > 0 && IsRun(run) && WellFormed(Now()) && Matches(Now())
    }

    ghost function Now(): State
      reads this
      requires |run| > 0
    {
      run[|run| - 1]
    }

    /** An empty log over a disk whose header is clear. */
    constructor (home: map<int, Block>, logArea: seq<Block>)
      requires |logArea| == LOGBLOCKS
      ensures Valid() && Now().pc == Running && cache == home == disk.home && fresh(block)
    {
      disk := Disk([], logArea, home);
      cache := home;
      n := 0;
      block := new int[LOGBLOCKS];
      outstanding := 0;
      committing := false;
      new;
      run := [State(disk, home, [], 0, false, Running, map[], map[], home, [], 0, home, home, {}, {})];
      assert Init(run[0]);
    }

    /** Append to the run the state that the fields have just been brought to. */
    ghost method Record(step: Step)
      requires IsRun(run) && WellFormed(Now()) && Enabled(Now(), step) && Matches(Do(Now(), step))
      modifies this`run
      ensures Valid() && run == old(run) + [Do(old(Now()), step)]
    {
      hide WellFormed, Enabled, Do;
      var s := Do(Now(), step);
      assert Next(Now(), s);
      run := run + [s];
      assert forall i :: 0 <= i < |run| - 1 ==> Next(run[i], run[i + 1]);
      RunKeepsInv(run, |run| - 1);
    }

    lemma Invariant()
      requires Valid()
      ensures Inv(Now())
    {
      RunKeepsInv(run, |run| - 1);
    }

    lemma EntriesKnown()
      requires Valid()
      ensures forall b :: b in block[..n] ==> b in Now().init
    {
      RunKeepsInv(run, |run| - 1);
    }

    /** begin_op, one pass of its loop: false means that the caller sleeps and tries again. */
    method BeginOp(ghost op: OpId) returns (admitted: bool)
      requires Valid() && Now().pc !in {Panicked, Down} && !Now().pc.Recovering? && op !in Now().used
      modifies this`outstanding, this`run
      ensures Valid()
      ensures admitted <==> !committing && n + (old(outstanding) + 1) * MAXOPBLOCKS <= LOGBLOCKS
      ensures outstanding == old(outstanding) + if admitted then 1 else 0
      ensures run == old(run) + if admitted then [DoBegin(old(Now()), op)] else []
    {
      Invariant();
      if committing {
        return false;
      } else if n + (outstanding + 1) * MAXOPBLOCKS > LOGBLOCKS {
        return false;
      }
      outstanding := outstanding + 1;
      Record(Begin(op));
      return true;
    }

    /** The caller of log_write changes the buffer it has locked. */
    method ChangeBuffer(ghost op: OpId, b: int, data: Block)
      requires Valid() && CanModify(Now(), op, b)
      modifies this`cache, this`run
      ensures Valid() && cache == old(cache)[b := data] && run == old(run) + [DoModify(old(Now()), op, b, data)]
    {
      Invariant();
      cache := cache[b := data];
      Record(Modify(op, b, data));
    }

    /** The search loop of log_write. */
    method FindEntry(b: int) returns (i: nat)
      requires n <= block.Length
      ensures i == Slot(block[..n], b)
    {
      i := 0;
      while i < n && block[i] != b
        invariant 0 <= i <= n
        invariant b !in block[..i]
      {
        i := i + 1;
      }
      assert block[..n][..i] == block[..i];
      FoundSlot(block[..n], b, i);
    }

    /** log_write. The panic test comes before the search for an earlier entry. */
    method Write(ghost op: OpId, b: int) returns (panicked: bool)
      requires Valid() && WellFormed(Now()) && CanLogWrite(Now(), op, b)
      modifies this`n, this`run, block
      ensures Valid() && run == old(run) + [DoLogWrite(old(Now()), op, b)]
      ensures panicked <==> old(n) == LOGBLOCKS
      ensures panicked <==> Now().pc == Panicked
      ensures !panicked ==> b in block[..n] && n == if b in old(block[..n]) then old(n) else old(n) + 1
    {
      hide IsRun;
      ghost var entries := block[..n];
      if n >= LOGBLOCKS {
        Record(LogWrite(op, b));
        return true;
      }
      var i := FindEntry(b);
      block[i] := b;
      if i == n {
        n := n + 1;
      }
      assert block[..n] == if i == |entries| then entries + [b] else entries[i := b];
      assert block[i] == b;
      Record(LogWrite(op, b));
      return false;
    }

    /** One pass of write_log's loop: copy a cached block to the log area. */
    method CopyToLog(tail: nat)
      requires Valid() && Now().pc == WritingLog(tail) && tail < n
      modifies this`disk, this`run
      ensures Valid() && Now().pc == WritingLog(tail + 1) && |run| == |old(run)| + 1 && old(run) <= run
      ensures tail < |old(disk).log| && block[tail] in cache
      ensures disk == old(disk).(log := old(disk).log[tail := cache[block[tail]]])
    {
      Invariant();
      assert block[tail] == Now().lh[tail];
      disk := disk.(log := disk.log[tail := cache[block[tail]]]);
      Record(WriteLogBlock);
    }

    /** write_log: copy modified blocks from the cache to the log. */
    method WriteLog()
      requires Valid() && Now().pc == WritingLog(0)
      modifies this`disk, this`run
      ensures Valid() && Now().pc == WritingLog(n) && old(run) <= run && QuietSince(|old(run)|)
      ensures disk.header == old(disk.header) && disk.home == old(disk.home) && |disk.log| == |old(disk).log|
      ensures n <= |disk.log| && forall j :: 0 <= j < n ==> block[j] in cache && disk.log[j] == cache[block[j]]
    {
      hide IsRun, WellFormed;
      var tail := 0;
      while tail < n
        invariant 0 <= tail <= n && tail <= |disk.log|
        invariant Valid() && Now().pc == WritingLog(tail) && old(run) <= run && QuietSince(|old(run)|)
        invariant disk.header == old(disk.header) && disk.home == old(disk.home) && |disk.log| == |old(disk).log|
        invariant forall j :: 0 <= j < tail ==> block[j] in cache && disk.log[j] == cache[block[j]]
      {
        CopyToLog(tail);
        tail := tail + 1;
      }
    }

    /** write_head before installation: the commit point. */
    method WriteHead()
      requires Valid() && Now().pc == WritingLog(n)
      modifies this`disk, this`run
      ensures Valid() && Now().pc == Installing(0) && |run| == |old(run)| + 1 && old(run) <= run
      ensures disk == old(disk).(header := block[..n])
    {
      Invariant();
      disk := disk.(header := block[..n]);
      Record(Step.WriteHead);
    }

    /** One pass of install_trans's loop: copy a log block to its home block. */
    method CopyHome(tail: nat)
      requires Valid() && tail < n && (Now().pc == Installing(tail) || Now().pc == Recovering(tail))
      modifies this`disk, this`cache, this`run
      ensures Valid() && |run| == |old(run)| + 1 && old(run) <= run
      ensures Now().pc == if old(Now()).pc.Installing? then Installing(tail + 1) else Recovering(tail + 1)
      ensures tail < |old(disk).log| && disk.log == old(disk).log && disk.header == old(disk).header
      ensures disk.home == old(disk).home[block[tail] := disk.log[tail]]
      ensures cache == old(cache)[block[tail] := disk.log[tail]]
    {
      hide IsRun, Enabled, Do;
      EntriesKnown();
      ghost var s := Now();
      assert block[tail] == s.lh[tail];
      InstallStep(s);
      var data := disk.log[tail];
      cache := cache[block[tail] := data];
      disk := disk.(home := disk.home[block[tail] := data]);
      Record(if s.pc.Installing? then InstallBlock else RecoverBlock);
    }

    /** install_trans: copy committed blocks from the log to their home location. */
    method InstallTrans()
      requires Valid() && (Now().pc == Installing(0) || Now().pc == Recovering(0))
      modifies this`disk, this`cache, this`run
      ensures Valid() && old(run) <= run && QuietSince(|old(run)|)
      ensures Now().pc == if old(Now()).pc.Installing? then Installing(n) else Recovering(n)
      ensures n <= |disk.log| && disk.log == old(disk).log && disk.header == old(disk).header
      ensures disk.home == Install(old(disk).home, block[..n], disk.log)
      ensures cache == Install(old(cache), block[..n], disk.log)
    {
      hide IsRun, WellFormed;
      var tail := 0;
      while tail < n
        invariant 0 <= tail <= n && tail <= |disk.log|
        invariant Valid() && old(run) <= run && QuietSince(|old(run)|)
        invariant Now().pc == if old(Now()).pc.Installing? then Installing(tail) else Recovering(tail)
        invariant disk.log == old(disk).log && disk.header == old(disk).header
        invariant disk.home == Install(old(disk).home, block[..tail], disk.log)
        invariant cache == Install(old(cache), block[..tail], disk.log)
      {
        CopyHome(tail);
        assert block[..tail + 1][..tail] == block[..tail];
        tail := tail + 1;
      }
    }

    /** Forget the transaction in memory, then write_head to erase it from the disk. */
    method EraseHead()
      requires Valid() && (Now().pc == Installing(n) || Now().pc == Recovering(n))
      modifies this`disk, this`n, this`run
      ensures Valid() && |run| == |old(run)| + 1 && old(run) <= run
      ensures Now().pc == if old(Now()).pc.Installing? then Committed else Running
      ensures n == 0 && disk == old(disk).(header := [])
      ensures disk.home == cache && Now().cut == |Now().writes|
    {
      Invariant();
      ghost var s := Now();
      n := 0;
      disk := disk.(header := []);
      assert block[..n] == [];
      Record(if s.pc.Installing? then Step.EraseHead else RecoverErase);
      EraseKeepsInv(s, Now(), s.pc.i);
      assert s.pc.Recovering? ==> cache == disk.home;
    }

    /** commit. On return the home blocks hold what the cache held and the on-disk header is empty; a
        crash at any point in between recovers to the contents before or to the contents after. */
    method Commit()
      requires Valid() && Now().pc == (if n > 0 then WritingLog(0) else Committed)
      modifies this`disk, this`cache, this`n, this`run
      ensures Valid() && old(run) <= run && Now().pc == Committed
      ensures n == 0 && disk.header == [] && cache == disk.home == old(cache)
      ensures Now().cut == |Now().writes|
      ensures forall k :: |old(run)| <= k < |run| ==>
                && |run[k].disk.header| <= |run[k].disk.log|
                && (Recovered(run[k].disk) == old(disk).home || Recovered(run[k].disk) == old(cache))
    {
      if n > 0 {
        hide IsRun, Recovered, WellFormed;
        CommitLogged();
        EachRecovers(|old(run)| - 1);
      } else {
        Invariant();
      }
    }

    /** The body of commit when something has been logged. */
    method CommitLogged()
      requires Valid() && Now().pc == WritingLog(0)
      modifies this`disk, this`cache, this`n, this`run
      ensures Valid() && old(run) <= run && Now().pc == Committed && QuietSince(|old(run)| - 1)
      ensures n == 0 && disk.header == [] && cache == disk.home == old(cache) && Now().cut == |Now().writes|
    {
      hide IsRun, Recovered, WellFormed, Install;
      WriteLog();
      WriteHead();
      InstallSame(cache, block[..n], disk.log);
      InstallTrans();
      EraseHead();
    }

    /** CrashAtomicity applied to every state since a commit started. */
    lemma EachRecovers(start: nat)
      requires Valid() && start < |run| && run[start].pc == WritingLog(0) && QuietSince(start)
      ensures forall k :: start <= k < |run| ==>
                && |run[k].disk.header| <= |run[k].disk.log|
                && (Recovered(run[k].disk) == run[start].disk.home || Recovered(run[k].disk) == run[start].cache)
    {
      forall k | start <= k < |run|
        ensures && |run[k].disk.header| <= |run[k].disk.log|
                && (Recovered(run[k].disk) == run[start].disk.home || Recovered(run[k].disk) == run[start].cache)
      {
        CrashAtomicity(run, start, k);
      }
    }

    /** end_op. The last operation out runs the commit. */
    method EndOp(ghost op: OpId)
      requires Valid() && CanEnd(Now(), op)
      modifies this
      ensures Valid() && old(run) <= run && Now().pc == Running && !committing
      ensures outstanding == old(outstanding) - 1 && cache == old(cache)
      ensures |run| > |old(run)| && run[|old(run)|] == DoEnd(old(Now()), op)
      ensures outstanding > 0 ==> disk == old(disk) && n == old(n)
      ensures outstanding == 0 ==> n == 0 && disk.header == [] && disk.home == cache && Now().cut == |Now().writes|
    {
      hide IsRun, HistoryOk, HeadersOk, Recoverable;
      Invariant();
      outstanding := outstanding - 1;
      var doCommit := outstanding == 0;
      if doCommit {
        committing := true;
      }
      Record(End(op));
      if doCommit {
        Commit();
        committing := false;
        Record(FinishCommit);
      }
    }

    /** The machine stops and restarts: only the disk survives. */
    method Crash()
      requires Valid()
      modifies this
      ensures Valid() && Now().pc == Down && run == old(run) + [DoCrash(old(Now()))]
      ensures disk == old(disk)
    {
      Invariant();
      cache := disk.home;
      n := 0;
      outstanding := 0;
      committing := false;
      assert block[..n] == [];
      Record(Step.Crash);
    }

    /** read_head: copy the on-disk header to memory. */
    method ReadHead()
      requires Valid() && Now().pc == Down
      modifies this`n, this`run, block
      ensures Valid() && Now().pc == Recovering(0) && |run| == |old(run)| + 1 && old(run) <= run
      ensures block[..n] == disk.header
    {
      Invariant();
      n := |disk.header|;
      var i := 0;
      while i < n
        modifies block
        invariant 0 <= i <= n == |disk.header| <= block.Length
        invariant block[..i] == disk.header[..i]
      {
        block[i] := disk.header[i];
        i := i + 1;
      }
      Record(Step.ReadHead);
    }

    /** recover_from_log: on return the home blocks hold what the disk's log called for. */
    method RecoverFromLog()
      requires Valid() && Now().pc == Down
      modifies this`disk, this`cache, this`n, this`run, block
      ensures Valid() && old(run) <= run && Now().pc == Running
      ensures |old(disk).header| <= |old(disk).log| && disk.home == Recovered(old(disk)) && disk.header == []
      ensures n == 0 && cache == disk.home && Now().cut == |Now().writes|
    {
      hide IsRun, WellFormed;
      ReadHead();
      InstallTrans();
      EraseHead();
    }

    /** initlog on what any stop of the machine has left: recovery is done, and operations may begin. */
    method InitLog()
      requires Valid()
      modifies this, block
      ensures Valid() && old(run) < run && Now().pc == Running && n == 0 && outstanding == 0 && !committing
      ensures |old(disk).header| <= |old(disk).log| && disk.home == Recovered(old(disk)) == cache && disk.header == []
    {
      hide IsRun, WellFormed;
      Crash();
      RecoverFromLog();
    }

    /** No operation has run since the run had `from` states. */
    ghost predicate QuietSince(from: nat)
      reads this
    {
      forall k :: from <= k < |run| ==> !run[k].pc.Running? && !run[k].pc.Panicked?
    }
  }

  /** A pass of install_trans's loop as a step of the machine. */
  lemma InstallStep(s: State)
    requires WellFormed(s) && (s.pc.Installing? || s.pc.Recovering?) && CanInstall(s, s.pc.i)
    ensures var step := if s.pc.Installing? then InstallBlock else RecoverBlock;
            var pc := if s.pc.Installing? then Installing(s.pc.i + 1) else Recovering(s.pc.i + 1);
            Enabled(s, step) && Do(s, step) == DoInstall(s, s.pc.i, pc)
  {
  }

  /** Installing what a block already holds changes nothing. */
  lemma {:induction false} InstallSame(m: map<int, Block>, blocks: seq<int>, log: seq<Block>)
    requires |blocks| <= |log| && forall j :: 0 <= j < |blocks| ==> blocks[j] in m && m[blocks[j]] == log[j]
    ensures Install(m, blocks, log) == m
  {
    if blocks != [] {
      InstallSame(m, blocks[..|blocks| - 1], log);
    }
  }

  lemma {:induction false} FoundSlot(entries: seq<int>, b: int, i: nat)
    requires i <= |entries| && b !in entries[..i] && (i == |entries| || entries[i] == b)
    ensures Slot(entries, b) == i
  {
    if i > 0 {
      assert entries[0] == entries[..i][0];
      assert entries[1..][..i - 1] == entries[..i][1..];
      FoundSlot(entries[1..], b, i - 1);
    }
  }
}
