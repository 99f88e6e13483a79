/** Safety of the log over whole runs: crash atomicity, group commit and durability. */
module LogSafety {
  import opened Basics
  import opened LogMachine

  lemma SizeAfterAdd<K, V>(m: map<K, V>, k: K, v: V)
    ensures |m[k := v]| == if k in m then |m| else |m| + 1
    ensures k in m ==> |m| > 0
  {
    assert m[k := v].Keys == m.Keys + {k};
    assert |m| == |m.Keys| && |m[k := v]| == |m[k := v].Keys|;
  }

  lemma SizeAfterDrop<K, V>(m: map<K, V>, k: K)
    requires k in m
    ensures |m - {k}| == |m| - 1
    ensures |m| == 1 ==> m - {k} == map[]
  {
    assert (m - {k}).Keys == m.Keys - {k};
    assert |m| == |m.Keys| && |m - {k}| == |(m - {k}).Keys|;
    if |m| == 1 { assert m.Keys - {k} == {}; }
  }

  lemma SameContents(m: map<int, Block>, m': map<int, Block>)
    requires m.Keys == m'.Keys && forall b :: b in m.Keys ==> m[b] == m'[b]
    ensures m == m'
  {
    forall b: int | b in m ensures m[b] == m'[b] {}
  }

  lemma HistoryUnchanged(s: State, s': State)
    requires WellFormed(s) && HistoryOk(s) && WellFormed(s')
    requires s'.active == s.active && s'.held == s.held && s'.outstanding == s.outstanding && s'.init == s.init
    requires s'.writes == s.writes && s'.used == s.used && s'.ended == s.ended
    requires s'.cut == s.cut || (s'.cut == |s.writes| && s.active == map[])
    ensures HistoryOk(s')
  {
  }

  lemma BeginKeepsInv(s: State, s': State, op: OpId)
    requires Inv(s) && CanBegin(s, op) && s' == DoBegin(s, op)
    ensures Inv(s')
  {
    SizeAfterAdd(s.active, op, {});
  }

  lemma ModifyKeepsInv(s: State, s': State, op: OpId, b: int, data: Block)
    requires Inv(s) && CanModify(s, op, b) && s' == DoModify(s, op, b, data)
    ensures Inv(s')
  {
    assert HistoryOk(s');
    assert PendingLogged(s');
    hide HistoryOk, PendingLogged;
  }

  lemma LogWriteKeepsHistory(s: State, s': State, op: OpId, b: int)
    requires Inv(s) && CanLogWrite(s, op, b) && s' == DoLogWrite(s, op, b)
    ensures WellFormed(s') && HistoryOk(s')
  {
    hide HeadersOk, Recoverable, PhaseOk;
    SizeAfterAdd(s.active, op, s'.active[op]);
    assert |s.lh| < LOGBLOCKS ==> s'.writes[..|s.writes|] == s.writes;
    assert OpsAtomic(s');
  }

  lemma LogWriteKeepsInv(s: State, s': State, op: OpId, b: int)
    requires Inv(s) && CanLogWrite(s, op, b) && s' == DoLogWrite(s, op, b)
    ensures Inv(s')
  {
    LogWriteKeepsHistory(s, s', op, b);
    hide HistoryOk;
    if |s.lh| < LOGBLOCKS {
      AddedEntry(s.lh, s'.lh, b);
      assert PendingLogged(s');
    } else {
      SizeAfterAdd(s.active, op, s.active[op]);
    }
  }

  /** log_write leaves a header whose entries are the old ones and the new block. */
  lemma AddedEntry(lh: seq<int>, lh': seq<int>, b: int)
    requires Distinct(lh)
    requires var i := Slot(lh, b); lh' == if i == |lh| then lh + [b] else lh[i := b]
    ensures Distinct(lh')
    ensures forall c :: c in lh' <==> c == b || c in lh
  {
    var i := Slot(lh, b);
    assert i < |lh| ==> lh' == lh;
  }

  lemma EndKeepsInv(s: State, s': State, op: OpId)
    requires Inv(s) && CanEnd(s, op) && s' == DoEnd(s, op)
    ensures Inv(s')
  {
    SizeAfterDrop(s.active, op);
    if s'.outstanding == 0 {
      assert s'.held == map[] by { assert forall b :: b !in s'.held; }
      if |s.lh| == 0 { NoPendingWrites(s'); }
    }
  }

  /** With an empty header nothing is pending, so the home blocks are current. */
  lemma NoPendingWrites(s: State)
    requires WellFormed(s) && Recoverable(s) && PendingLogged(s) && |s.lh| == 0 && s.held == map[]
    ensures s.cut == |s.writes| && s.disk.home == s.current == s.cache == s.durable
  {
    assert forall b :: b in s.init ==> b !in s.lh && b !in s.disk.header;
    SameContents(s.disk.home, s.current);
    SameContents(s.current, s.cache);
    SameContents(s.disk.home, s.durable);
  }

  lemma WriteLogBlockKeepsInv(s: State, s': State)
    requires Inv(s) && CanWriteLogBlock(s) && s' == DoWriteLogBlock(s)
    ensures Inv(s')
  {
    HistoryUnchanged(s, s');
    hide HistoryOk;
    var b := s.lh[s.pc.i];
    assert b in s.init && b !in s.held && s.cache[b] == s.current[b];
    assert LoggedUpTo(s', s'.pc.i);
  }

  lemma WriteHeadKeepsInv(s: State, s': State)
    requires Inv(s) && s.pc == WritingLog(|s.lh|) && s' == DoWriteHead(s)
    ensures Inv(s')
  {
    HistoryUnchanged(s, s');
    hide HistoryOk;
    SameContents(s'.cache, s'.current);
  }

  lemma InstallOneMore(s: State, s': State, i: nat, pc: Pc)
    requires WellFormed(s) && HeadersOk(s) && Recoverable(s) && InstalledUpTo(s, i) && CanInstall(s, i)
    requires s' == DoInstall(s, i, pc)
    ensures WellFormed(s') && HeadersOk(s') && Recoverable(s') && InstalledUpTo(s', i + 1)
    ensures s.cache == s.current ==> s'.cache == s'.current
    ensures s.cache == s.disk.home ==> s'.cache == s'.disk.home
  {
    var b := s.lh[i];
    assert s.disk.log[i] == s.current[b];
    assert s'.disk.home == s.disk.home[b := s.current[b]];
    assert s'.cache == s.cache[b := s.current[b]];
  }

  lemma InstallKeepsInv(s: State, s': State, i: nat)
    requires Inv(s) && (s.pc == Installing(i) || s.pc == Recovering(i)) && CanInstall(s, i)
    requires s' == DoInstall(s, i, if s.pc.Installing? then Installing(i + 1) else Recovering(i + 1))
    ensures Inv(s')
  {
    InstallOneMore(s, s', i, s'.pc);
    HistoryUnchanged(s, s');
    hide HistoryOk, HeadersOk, Recoverable, InstalledUpTo;
  }

  lemma EraseKeepsInv(s: State, s': State, i: nat)
    requires Inv(s) && (s.pc == Installing(i) || s.pc == Recovering(i)) && i == |s.lh|
    requires s' == DoErase(s, if s.pc.Installing? then Committed else Running)
    ensures Inv(s')
    ensures s'.disk.home == s'.durable && |s'.disk.header| == 0
  {
    HistoryUnchanged(s, s');
    hide HistoryOk;
    forall b | b in s.init
      ensures s.disk.home[b] == s.durable[b]
    {
      if b in s.disk.header {
        var j :| 0 <= j < i && s.disk.header[j] == b;
      }
    }
    assert s'.disk.home == s.durable;
  }

  lemma CrashKeepsInv(s: State, s': State)
    requires Inv(s) && s' == DoCrash(s)
    ensures Inv(s')
  {
  }

  lemma ReadHeadKeepsInv(s: State, s': State)
    requires Inv(s) && s.pc == Down && s' == DoReadHead(s)
    ensures Inv(s')
  {
  }

  lemma FinishKeepsInv(s: State, s': State)
    requires Inv(s) && s.pc == Committed && s' == s.(committing := false, pc := Running)
    ensures Inv(s')
  {
  }

  lemma StepKeepsInv(s: State, s': State, step: Step)
    requires Inv(s) && Enabled(s, step) && s' == Do(s, step)
    ensures Inv(s')
  {
    hide HistoryOk, HeadersOk, Recoverable, PhaseOk;
    match step {
      case Begin(op) => BeginKeepsInv(s, s', op);
      case Modify(op, b, data) => ModifyKeepsInv(s, s', op, b, data);
      case LogWrite(op, b) => LogWriteKeepsInv(s, s', op, b);
      case End(op) => EndKeepsInv(s, s', op);
      case WriteLogBlock => WriteLogBlockKeepsInv(s, s');
      case WriteHead => WriteHeadKeepsInv(s, s');
      case InstallBlock => InstallKeepsInv(s, s', s.pc.i);
      case EraseHead => EraseKeepsInv(s, s', s.pc.i);
      case FinishCommit => FinishKeepsInv(s, s');
      case Crash => CrashKeepsInv(s, s');
      case ReadHead => ReadHeadKeepsInv(s, s');
      case RecoverBlock => InstallKeepsInv(s, s', s.pc.i);
      case RecoverErase => EraseKeepsInv(s, s', s.pc.i);
    }
  }

  lemma LogWriteKeepsContents(s: State, s': State, op: OpId, b: int)
    requires WellFormed(s) && ContentsOk(s) && CanLogWrite(s, op, b) && s' == DoLogWrite(s, op, b)
    ensures WellFormed(s') && ContentsOk(s')
    ensures s.cut == s'.cut && s'.writes[..s'.cut] == s.writes[..s.cut]
  {
    if |s.lh| < LOGBLOCKS {
      ApplyWritesSnoc(s.init, s.writes, Write(op, b, s.cache[b]));
      assert s'.writes[..s'.cut] == s.writes[..s.cut];
    }
  }

  lemma StepKeepsContents(s: State, s': State, step: Step)
    requires WellFormed(s) && ContentsOk(s) && Enabled(s, step) && s' == Do(s, step) && WellFormed(s')
    ensures ContentsOk(s') && s'.init == s.init
    ensures s.cut <= s'.cut && s.writes[..s.cut] <= s'.writes[..s'.cut]
  {
    hide ApplyWrites;
    if step.LogWrite? {
      LogWriteKeepsContents(s, s', step.op, step.blockno);
    } else if step.WriteHead? {
      assert s'.writes[..s'.cut] == s.writes;
    } else if step.Crash? {
      assert s'.writes[..s'.cut] == s.writes[..s.cut] == s'.writes;
    }
  }

  lemma RunStep(run: seq<State>, i: nat) returns (step: Step)
    requires IsRun(run) && i + 1 < |run|
    ensures WellFormed(run[i]) && Enabled(run[i], step) && run[i + 1] == Do(run[i], step)
  {
    hide WellFormed, Enabled, Do;
    assert Next(run[i], run[i + 1]);
    step :| Enabled(run[i], step) && run[i + 1] == Do(run[i], step);
  }

  lemma {:induction false} RunKeepsInv(run: seq<State>, i: nat)
    requires IsRun(run) && i < |run|
    ensures Inv(run[i]) && ContentsOk(run[i])
    ensures run[i].init == run[0].disk.home
  {
    hide HistoryOk, HeadersOk, Recoverable, PhaseOk, ContentsOk, Do, Enabled;
    if i == 0 {
      InitInv(run[0]);
    } else {
      RunKeepsInv(run, i - 1);
      var step := RunStep(run, i - 1);
      StepKeepsInv(run[i - 1], run[i], step);
      StepKeepsContents(run[i - 1], run[i], step);
    }
  }

  lemma InitInv(s: State)
    requires Init(s)
    ensures Inv(s) && ContentsOk(s)
  {
  }

  /** A recovery from any state of the invariant yields the durable contents. */
  lemma RecoveryYieldsDurable(s: State)
    requires Inv(s)
    ensures Recovered(s.disk) == s.durable
  {
    var es := s.disk.header;
    InstallAt(s.disk.home, es, s.disk.log);
    forall b: int | b in s.init
      ensures Recovered(s.disk)[b] == s.durable[b]
    {
      if b in es {
        var j :| 0 <= j < |es| && es[j] == b;
      }
    }
    SameContents(Recovered(s.disk), s.durable);
  }

  // ---------------------------------------------------------------- theorems over whole runs

  /** Group commit: at every point of every run, including inside commit and inside recovery, a
      recovery started now leaves the effect of a prefix of the logged writes, and that prefix cuts
      no operation in two and contains no write of an operation that has not called end_op. */
  lemma GroupCommitSafety(run: seq<State>, i: nat)
    requires IsRun(run) && i < |run|
    ensures WellFormed(run[i]) && OpsAtomic(run[i])
    ensures Recovered(run[i].disk) == ApplyWrites(run[0].disk.home, run[i].writes[..run[i].cut])
  {
    RunKeepsInv(run, i);
    RecoveryYieldsDurable(run[i]);
  }

  /** What is permanent stays permanent, through any number of later commits and crashes. */
  lemma {:induction false} CommittedForever(run: seq<State>, i: nat, j: nat)
    requires IsRun(run) && i <= j < |run|
    ensures run[i].cut <= |run[i].writes| && run[j].cut <= |run[j].writes|
    ensures run[i].writes[..run[i].cut] <= run[j].writes[..run[j].cut]
  {
    hide HistoryOk, HeadersOk, Recoverable, PhaseOk, ContentsOk, Do, Enabled;
    RunKeepsInv(run, j);
    if i < j {
      CommittedForever(run, i, j - 1);
      RunKeepsInv(run, j - 1);
      var step := RunStep(run, j - 1);
      StepKeepsContents(run[j - 1], run[j], step);
    }
  }

  /** When commit returns, every write logged so far is permanent and the on-disk header is empty. */
  lemma CommitMakesPermanent(run: seq<State>, i: nat)
    requires IsRun(run) && i < |run| && run[i].pc == Committed
    ensures run[i].cut == |run[i].writes| && run[i].disk.header == []
    ensures run[i].disk.home == run[i].cache == ApplyWrites(run[0].disk.home, run[i].writes)
  {
    RunKeepsInv(run, i);
    assert run[i].writes[..run[i].cut] == run[i].writes;
  }

  lemma LeavingRecovery(s: State, s': State, step: Step)
    requires WellFormed(s) && Enabled(s, step) && s' == Do(s, step)
    requires s.pc.Recovering? && s'.pc == Running
    ensures s.pc.i == |s.lh| && s' == DoErase(s, Running)
  {
  }

  /** A recovery that completes leaves the permanent contents at home and an empty header. */
  lemma RecoveryCompletes(run: seq<State>, i: nat)
    requires IsRun(run) && i + 1 < |run| && run[i].pc.Recovering? && run[i + 1].pc == Running
    ensures run[i + 1].disk.header == [] && run[i + 1].cut == |run[i + 1].writes|
    ensures run[i + 1].disk.home == run[i + 1].cache == ApplyWrites(run[0].disk.home, run[i + 1].writes)
  {
    RunKeepsInv(run, i);
    RunKeepsInv(run, i + 1);
    hide HistoryOk, HeadersOk, Recoverable;
    var s, s' := run[i], run[i + 1];
    var step := RunStep(run, i);
    assert s.disk.header == s.lh && s.cache == s.disk.home && s.cut == |s.writes|;
    hide PhaseOk;
    LeavingRecovery(s, s', step);
    EraseKeepsInv(s, s', s.pc.i);
    assert s'.writes[..s'.cut] == s'.writes;
  }

  /** No operation runs between states i and j: the system is committing, down or recovering. */
  ghost predicate NoOperations(run: seq<State>, i: nat, j: nat)
    requires i <= j < |run|
  {
    forall k :: i <= k <= j ==> !run[k].pc.Running? && !run[k].pc.Panicked?
  }

  lemma {:induction false} CommitOrNot(run: seq<State>, i: nat, j: nat)
    requires IsRun(run) && i <= j < |run| && run[i].pc == WritingLog(0) && NoOperations(run, i, j)
    ensures run[j].durable == run[i].durable || run[j].durable == run[i].current
    ensures run[j].current == run[i].current || run[j].current == run[j].durable
  {
    hide HistoryOk, HeadersOk, Recoverable, PhaseOk, Do, Enabled, Init;
    if i < j {
      CommitOrNot(run, i, j - 1);
      var step := RunStep(run, j - 1);
      assert !run[j - 1].pc.Running? && !run[j].pc.Running?;
      CommitOrNotStep(run[j - 1], run[j], step);
    }
  }

  lemma CommitOrNotStep(s: State, s': State, step: Step)
    requires WellFormed(s) && Enabled(s, step) && s' == Do(s, step) && !s.pc.Running?
    ensures s'.durable == s.durable || s'.durable == s.current
    ensures s'.current == s.current || s'.current == s'.durable
    ensures s'.durable == s.durable || s'.current == s'.durable
  {
  }

  /** Crash atomicity: from the start of a commit, through crashes between any two of its disk writes
      and any number of crashes inside the recoveries that follow, a recovery leaves all home blocks
      as they were or all home blocks as the transaction left them in the cache. */
  lemma CrashAtomicity(run: seq<State>, i: nat, j: nat)
    requires IsRun(run) && i <= j < |run| && run[i].pc == WritingLog(0) && NoOperations(run, i, j)
    ensures WellFormed(run[j])
    ensures Recovered(run[j].disk) == run[i].disk.home || Recovered(run[j].disk) == run[i].cache
  {
    CommitOrNot(run, i, j);
    RunKeepsInv(run, i);
    RunKeepsInv(run, j);
    RecoveryYieldsDurable(run[j]);
    BeforeCommit(run[i]);
  }

  lemma BeforeCommit(s: State)
    requires Inv(s) && s.pc == WritingLog(0)
    ensures s.disk.home == s.durable && s.cache == s.current
  {
    SameContents(s.disk.home, s.durable);
    SameContents(s.cache, s.current);
  }
}
