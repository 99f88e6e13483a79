/** Safety of the exit/wait protocol over whole runs. */
module ProcSafety {
  import opened ProcMachine

  /** p has dropped wait_lock in kwait's sleep and has not been woken. */
  ghost predicate Waiting(x: Proc) {
    x.pc.SleepUnlocked? || x.pc.SleepSched? || (x.pc.Asleep? && x.state == SLEEPING)
  }

  predicate Exiting(pc: Pc) {
    pc.Reparent? || pc.ReparentWake? || pc.WakeParent? || pc.ExitLock? || pc.Dying? || pc.DyingSched? || pc.Dead?
  }

  /** Which states go with which places in the code. */
  ghost predicate Coherent(p: int, x: Proc) {
    && (x.state == UNUSED ==> x == Free.(killed := x.killed))
    && (x.state == USED ==> x.pc == Outside)
    && (x.state == ZOMBIE <==> x.pc.Dying? || x.pc.DyingSched? || x.pc.Dead?)
    && (x.state == SLEEPING ==> x.pc.SleepSched? || x.pc.Asleep? || x.pc.AsleepElsewhere?)
    && (x.pc.SleepSched? ==> x.state == SLEEPING)
    && (x.pc.SleepSched? || x.pc.Asleep? ==> x.chan == OnProc(p))
    && (HoldsWait(x.pc) && !x.pc.Dying? ==> x.state == RUNNING)
    && (x.pc.SleepUnlocked? ==> x.state == RUNNING)
    && (Exiting(x.pc) ==> p != INIT)
    && (x.pc.Reparent? ==> 0 <= x.pc.i <= NPROC)
    && (x.pc.ReparentWake? ==> 0 <= x.pc.i < NPROC && 0 <= x.pc.j <= NPROC)
    && (x.pc.WakeParent? ==> 0 <= x.pc.j <= NPROC)
    && (x.pc.WaitScan? ==> 0 <= x.pc.i <= NPROC)
  }

  ghost predicate Alive(x: Proc) {
    x.state == SLEEPING || x.state == RUNNABLE || x.state == RUNNING
  }

  ghost predicate LocksOk(s: State) {
    && |s.procs| == NPROC
    && (forall p :: 0 <= p < NPROC ==> Coherent(p, s.procs[p]))
    && (forall p :: 0 <= p < NPROC ==> (HoldsWait(s.procs[p].pc) <==> s.waitLock == p))
    && (s.waitLock != NOBODY ==> 0 <= s.waitLock < NPROC)
  }

  /** A child between kfork's allocproc and its first scheduling is in nobody else's hands. */
  ghost predicate ForksOk(s: State)
    requires |s.procs| == NPROC
  {
    && (forall p :: 0 <= p < NPROC && s.procs[p].pc.ForkLink? ==>
          IsProc(s, s.procs[p].pc.child) && s.procs[s.procs[p].pc.child].state == USED &&
            s.procs[s.procs[p].pc.child].parent == NOBODY)
    && (forall p :: 0 <= p < NPROC && s.procs[p].pc.ForkStart? ==>
          IsProc(s, s.procs[p].pc.child) && s.procs[s.procs[p].pc.child].state == USED &&
            s.procs[s.procs[p].pc.child].parent == p)
    && (forall p, q :: 0 <= p < q < NPROC && s.procs[p].pc.ForkLink? && s.procs[q].pc.ForkLink? ==>
          s.procs[p].pc.child != s.procs[q].pc.child)
  }

  /** Every parent is a living process, and an exiting one sheds its children in table order. */
  ghost predicate TreeOk(s: State)
    requires |s.procs| == NPROC
  {
    && Alive(s.procs[INIT]) && s.procs[INIT].parent == NOBODY
    && (forall c :: 0 <= c < NPROC && s.procs[c].parent != NOBODY ==>
          IsProc(s, s.procs[c].parent) && s.procs[c].parent != c && Alive(s.procs[s.procs[c].parent]))
    && (forall c :: 0 <= c < NPROC && s.procs[c].parent != NOBODY ==> Sheds(s.procs[s.procs[c].parent].pc, c))
  }

  /** May a process at pc still be the parent of table entry c? */
  ghost predicate Sheds(pc: Pc, c: int) {
    && (pc.Reparent? ==> c >= pc.i)
    && (pc.ReparentWake? ==> c > pc.i)
    && !pc.WakeParent? && !pc.ExitLock? && !pc.Dying?
  }

  /** A child that a waiting or scanning parent must not miss. */
  ghost predicate NotMissed(s: State, c: int)
    requires IsProc(s, c) && IsProc(s, s.procs[c].parent)
  {
    var p := s.procs[c].parent;
    var x := s.procs[p];
    s.procs[c].state == ZOMBIE ==>
      && (x.pc.WaitScan? ==> c >= x.pc.i)
      && !x.pc.SleepEnter? && !x.pc.SleepLocked?
      && (Waiting(x) ==>
            p == INIT && IsProc(s, s.waitLock) && s.procs[s.waitLock].pc.ReparentWake? &&
            s.procs[s.waitLock].pc.j <= INIT)
  }

  /** Having passed its parent's table entry in wakeup, an exiting process's parent is not waiting. */
  ghost predicate ParentWoken(s: State)
    requires |s.procs| == NPROC
  {
    IsProc(s, s.waitLock) && IsProc(s, s.procs[s.waitLock].parent) ==>
      var h := s.procs[s.waitLock];
      (h.pc.WakeParent? && h.pc.j > h.parent) || h.pc.ExitLock? || h.pc.Dying? ==> !Waiting(s.procs[h.parent])
  }

  ghost predicate WakeupsOk(s: State)
    requires |s.procs| == NPROC
  {
    && (forall c :: 0 <= c < NPROC && IsProc(s, s.procs[c].parent) ==> NotMissed(s, c))
    && ParentWoken(s)
  }

  /** Does a process at x count on having a child? */
  predicate CountsOnChild(x: Proc) {
    || x.pc.SleepEnter? || x.pc.SleepLocked? || x.pc.SleepUnlocked? || x.pc.SleepSched?
    || (x.pc.Asleep? && x.state == SLEEPING)
    || (x.pc.WaitScan? && x.pc.havekids)
  }

  ghost predicate HasChild(s: State, p: int)
    requires |s.procs| == NPROC
  {
    exists c :: 0 <= c < NPROC && s.procs[c].parent == p
  }

  ghost predicate KidsOk(s: State)
    requires |s.procs| == NPROC
  {
    forall p :: 0 <= p < NPROC && CountsOnChild(s.procs[p]) ==> HasChild(s, p)
  }

  /** Pids are never used twice, among living processes and those already reaped. */
  ghost predicate PidsOk(s: State)
    requires |s.procs| == NPROC
  {
    && (forall p :: 0 <= p < NPROC && s.procs[p].state != UNUSED ==> s.procs[p].pid < s.nextpid)
    && (forall p, q :: 0 <= p < q < NPROC && s.procs[p].state != UNUSED && s.procs[q].state != UNUSED ==>
          s.procs[p].pid != s.procs[q].pid)
    && (forall k :: 0 <= k < |s.reaped| ==> s.reaped[k].pid < s.nextpid)
    && (forall k, p :: 0 <= k < |s.reaped| && 0 <= p < NPROC && s.procs[p].state != UNUSED ==>
          s.reaped[k].pid != s.procs[p].pid)
    && (forall j, k :: 0 <= j < k < |s.reaped| ==> s.reaped[j].pid != s.reaped[k].pid)
  }

  ghost predicate Inv(s: State) {
    LocksOk(s) && ForksOk(s) && TreeOk(s) && WakeupsOk(s) && KidsOk(s) && PidsOk(s)
  }

  // ---------------------------------------------------------------- one table entry changes

  lemma OneKeepsLocks(s: State, s': State, p: int, x: Proc)
    requires LocksOk(s) && IsProc(s, p) && s'.procs == s.procs[p := x] && Coherent(p, x)
    requires HoldsWait(x.pc) <==> s'.waitLock == p
    requires s'.waitLock == s.waitLock || (s.waitLock == NOBODY && s'.waitLock == p) ||
             (s.waitLock == p && s'.waitLock == NOBODY)
    ensures LocksOk(s')
  {
    hide Coherent, HoldsWait;
  }

  lemma OneKeepsForks(s: State, s': State, p: int, x: Proc)
    requires |s.procs| == NPROC && ForksOk(s) && IsProc(s, p) && s'.procs == s.procs[p := x]
    requires x.parent == s.procs[p].parent && (s.procs[p].state == USED ==> x.state == USED)
    requires x.pc.ForkLink? || x.pc.ForkStart? ==> x.pc == s.procs[p].pc
    ensures ForksOk(s')
  {
  }

  lemma OneKeepsTree(s: State, s': State, p: int, x: Proc)
    requires |s.procs| == NPROC && TreeOk(s) && IsProc(s, p) && s'.procs == s.procs[p := x]
    requires x.parent == s.procs[p].parent
    requires Alive(x) || (p != INIT && forall c :: 0 <= c < NPROC ==> s.procs[c].parent != p)
    requires forall c :: 0 <= c < NPROC && s.procs[c].parent == p ==> Sheds(x.pc, c)
    ensures TreeOk(s')
  {
    hide Sheds;
  }

  lemma OneKeepsKids(s: State, s': State, p: int, x: Proc)
    requires |s.procs| == NPROC && KidsOk(s) && IsProc(s, p) && s'.procs == s.procs[p := x]
    requires x.parent == s.procs[p].parent
    requires CountsOnChild(x) ==> HasChild(s, p)
    ensures KidsOk(s')
  {
    hide CountsOnChild;
    forall q | 0 <= q < NPROC && HasChild(s, q)
      ensures HasChild(s', q)
    {
      var c :| 0 <= c < NPROC && s.procs[c].parent == q;
      assert s'.procs[c].parent == q;
    }
  }

  lemma OneKeepsPids(s: State, s': State, p: int, x: Proc)
    requires |s.procs| == NPROC && PidsOk(s) && IsProc(s, p) && s'.procs == s.procs[p := x]
    requires s'.nextpid == s.nextpid && s'.reaped == s.reaped
    requires x.pid == s.procs[p].pid && (x.state == UNUSED <==> s.procs[p].state == UNUSED)
    ensures PidsOk(s')
  {
  }

  /** A change that makes nobody wait, nobody a zombie, and is not seen through wait_lock. */
  lemma BenignKeepsWakeups(s: State, s': State, p: int, x: Proc)
    requires |s.procs| == NPROC && WakeupsOk(s) && IsProc(s, p) && s'.procs == s.procs[p := x] &&
             s'.waitLock == s.waitLock
    requires x.parent == s.procs[p].parent && (x.state == ZOMBIE <==> s.procs[p].state == ZOMBIE)
    requires Waiting(x) ==> Waiting(s.procs[p])
    requires x.pc.WaitScan? || x.pc.SleepEnter? || x.pc.SleepLocked? ==> x.pc == s.procs[p].pc
    requires s.waitLock == p ==> x.pc == s.procs[p].pc
    ensures WakeupsOk(s')
  {
    hide Waiting;
    forall c | 0 <= c < NPROC && IsProc(s', s'.procs[c].parent)
      ensures NotMissed(s', c)
    {
      assert NotMissed(s, c);
    }
  }

  /** A change of one entry that leaves the process tree, the locks and the wait protocol as they are. */
  ghost predicate Benign(x: Proc, x': Proc) {
    && x'.parent == x.parent && x'.pid == x.pid
    && (x'.state == UNUSED <==> x.state == UNUSED) && (x'.state == USED <==> x.state == USED)
    && (x'.state == ZOMBIE <==> x.state == ZOMBIE)
    && (Waiting(x') ==> Waiting(x)) && (CountsOnChild(x') ==> CountsOnChild(x))
    && (HoldsWait(x'.pc) <==> HoldsWait(x.pc))
    && (x'.pc == x.pc || (!HoldsWait(x.pc) && !x'.pc.ForkLink? && !x'.pc.ForkStart?))
  }

  lemma BenignKeepsInv(s: State, s': State, p: int, x: Proc)
    requires Inv(s) && IsProc(s, p) && s' == Upd(s, p, x) && Coherent(p, x) && Benign(s.procs[p], x)
    ensures Inv(s')
  {
    hide LocksOk, ForksOk, TreeOk, WakeupsOk, KidsOk, PidsOk;
    EntryFacts(s, p);
    OneKeepsLocks(s, s', p, x);
    OneKeepsForks(s, s', p, x);
    OneKeepsTree(s, s', p, x);
    OneKeepsKids(s, s', p, x);
    OneKeepsPids(s, s', p, x);
    BenignKeepsWakeups(s, s', p, x);
  }

  /** What the invariant says of one entry. */
  lemma EntryFacts(s: State, p: int)
    requires Inv(s) && IsProc(s, p)
    ensures var x := s.procs[p];
      && Coherent(p, x) && (HoldsWait(x.pc) <==> s.waitLock == p)
      && (CountsOnChild(x) ==> HasChild(s, p))
      && (!Alive(x) ==> p != INIT && forall c :: 0 <= c < NPROC ==> s.procs[c].parent != p)
      && (forall c :: 0 <= c < NPROC && s.procs[c].parent == p ==> Sheds(x.pc, c))
      && (s.waitLock != NOBODY ==> IsProc(s, s.waitLock))
  {
    hide Coherent, Sheds, CountsOnChild, ForksOk, WakeupsOk, PidsOk, HasChild;
  }

  lemma LocalStepKeepsInv(s: State, s': State, step: Step)
    requires Inv(s) && Enabled(s, step) && s' == Do(s, step)
    requires step.Dispatch? || step.Preempt? || step.SwitchOut? || step.FallAsleep? || step.Resume?
             || step.SleepElsewhere? || step.WakeElsewhere?
    ensures Inv(s')
  {
    hide LocksOk, ForksOk, TreeOk, WakeupsOk, KidsOk, PidsOk;
    EntryFacts(s, step.p);
    BenignKeepsInv(s, s', step.p, s'.procs[step.p]);
  }

  lemma KillKeepsInv(s: State, s': State, p: int, q: int)
    requires Inv(s) && Enabled(s, Kill(p, q)) && s' == Do(s, Kill(p, q))
    ensures Inv(s')
  {
    hide LocksOk, ForksOk, TreeOk, WakeupsOk, KidsOk, PidsOk;
    EntryFacts(s, q);
    BenignKeepsInv(s, s', q, s'.procs[q]);
  }

  // ---------------------------------------------------------------- taking and dropping wait_lock

  lemma AcquireKeepsInv(s: State, s': State, p: int, pc: Pc, status: int)
    requires Inv(s) && IsProc(s, p) && s.waitLock == NOBODY && s.procs[p].state == RUNNING
    requires s.procs[p].pc == Outside || s.procs[p].pc == Woken
    requires pc == WaitScan(0, false) || (pc == Reparent(0) && p != INIT)
    requires s' == Upd(s, p, s.procs[p].(pc := pc, status := status)).(waitLock := p, exits := s'.exits)
    ensures Inv(s')
  {
    hide LocksOk, ForksOk, TreeOk, WakeupsOk, KidsOk, PidsOk;
    var x := s.procs[p].(pc := pc, status := status);
    EntryFacts(s, p);
    OneKeepsLocks(s, s', p, x);
    OneKeepsForks(s, s', p, x);
    OneKeepsTree(s, s', p, x);
    OneKeepsKids(s, s', p, x);
    OneKeepsPids(s, s', p, x);
    AcquireKeepsWakeups(s, s', p, x);
  }

  lemma AcquireKeepsWakeups(s: State, s': State, p: int, x: Proc)
    requires |s.procs| == NPROC && WakeupsOk(s) && IsProc(s, p) && s'.procs == s.procs[p := x]
    requires s.waitLock == NOBODY && s'.waitLock == p
    requires x.parent == s.procs[p].parent && x.state == s.procs[p].state == RUNNING
    requires x.pc == WaitScan(0, false) || x.pc == Reparent(0)
    ensures WakeupsOk(s')
  {
    hide Waiting;
    assert !Waiting(x) by { WaitingIs(x); }
    forall c | 0 <= c < NPROC && IsProc(s', s'.procs[c].parent)
      ensures NotMissed(s', c)
    {
      assert NotMissed(s, c);
    }
  }

  lemma WaitingIs(x: Proc)
    ensures Waiting(x) <==> x.pc.SleepUnlocked? || x.pc.SleepSched? || (x.pc.Asleep? && x.state == SLEEPING)
  {
  }

  lemma DropKeepsInv(s: State, s': State, p: int)
    requires Inv(s) && IsProc(s, p) && (s.procs[p].pc == SleepLocked || s.procs[p].pc == Dying)
    requires s' == At(s, p, if s.procs[p].pc == Dying then DyingSched else SleepUnlocked).(waitLock := NOBODY)
    ensures Inv(s')
  {
    hide LocksOk, ForksOk, TreeOk, WakeupsOk, KidsOk, PidsOk;
    var x := s'.procs[p];
    EntryFacts(s, p);
    OneKeepsLocks(s, s', p, x);
    OneKeepsForks(s, s', p, x);
    OneKeepsTree(s, s', p, x);
    OneKeepsKids(s, s', p, x);
    OneKeepsPids(s, s', p, x);
    DropKeepsWakeups(s, s', p, x);
  }

  /** The heart of sleep(): when wait_lock goes free, a process that falls asleep has no zombie child,
      and a new zombie's parent is not asleep. */
  lemma DropKeepsWakeups(s: State, s': State, p: int, x: Proc)
    requires |s.procs| == NPROC && WakeupsOk(s) && TreeOk(s) && IsProc(s, p) && s'.procs == s.procs[p := x]
    requires s.waitLock == p && s'.waitLock == NOBODY && x.parent == s.procs[p].parent && x.state == s.procs[p].state
    requires (s.procs[p].pc == SleepLocked && x.pc == SleepUnlocked) || (s.procs[p].pc == Dying && x.pc == DyingSched)
    ensures WakeupsOk(s')
  {
    forall c | 0 <= c < NPROC && IsProc(s', s'.procs[c].parent)
      ensures NotMissed(s', c)
    {
      assert NotMissed(s, c);
    }
  }

  // ---------------------------------------------------------------- kexit

  /** The lock holder moves on in kexit without touching another entry. */
  lemma MoveKeepsInv(s: State, s': State, p: int, pc: Pc)
    requires Inv(s) && IsProc(s, p) && s.waitLock == p && s' == At(s, p, pc) && s.procs[p].state == RUNNING
    requires Coherent(p, s.procs[p].(pc := pc)) && HoldsWait(pc) && Exiting(pc)
    requires forall c :: 0 <= c < NPROC && s.procs[c].parent == p ==> Sheds(pc, c)
    requires WakeupsOk(s')
    ensures Inv(s')
  {
    hide LocksOk, ForksOk, TreeOk, WakeupsOk, KidsOk, PidsOk;
    var x := s.procs[p].(pc := pc);
    EntryFacts(s, p);
    OneKeepsLocks(s, s', p, x);
    OneKeepsForks(s, s', p, x);
    OneKeepsTree(s, s', p, x);
    OneKeepsKids(s, s', p, x);
    OneKeepsPids(s, s', p, x);
  }

  /** The lock holder's place matters only for the pending wakeup of initproc and for its own parent. */
  lemma MoveKeepsWakeups(s: State, s': State, p: int, x: Proc)
    requires |s.procs| == NPROC && WakeupsOk(s) && IsProc(s, p) && s'.procs == s.procs[p := x] &&
             s.waitLock == s'.waitLock == p
    requires x.parent == s.procs[p].parent && x.state == s.procs[p].state && Exiting(x.pc) && Exiting(s.procs[p].pc)
    requires s.procs[p].pc.ReparentWake? && s.procs[p].pc.j <= INIT ==>
               (x.pc.ReparentWake? && x.pc.j <= INIT) || !Waiting(s.procs[INIT])
    requires IsProc(s, x.parent) && ((x.pc.WakeParent? && x.pc.j > x.parent) || x.pc.ExitLock? || x.pc.Dying?) ==>
               !Waiting(s.procs[x.parent])
    ensures WakeupsOk(s')
  {
    hide Waiting;
    WaitingIs(x);
    forall c | 0 <= c < NPROC && IsProc(s', s'.procs[c].parent)
      ensures NotMissed(s', c)
    {
      assert NotMissed(s, c);
    }
  }

  lemma WakeOneKeepsInv(s: State, j: int, chan: Chan)
    requires Inv(s) && IsProc(s, j) && LockFree(s, j)
    ensures Inv(WakeOne(s, j, chan))
    ensures chan == OnProc(j) ==> !Waiting(WakeOne(s, j, chan).procs[j])
    ensures forall k :: 0 <= k < NPROC && k != j ==> WakeOne(s, j, chan).procs[k] == s.procs[k]
  {
    hide LocksOk, ForksOk, TreeOk, WakeupsOk, KidsOk, PidsOk;
    EntryFacts(s, j);
    var x := s.procs[j];
    if x.state == SLEEPING && x.chan == chan {
      BenignKeepsInv(s, WakeOne(s, j, chan), j, x.(state := RUNNABLE));
    }
  }

  lemma WakeInitKeepsInv(s: State, s': State, p: int)
    requires Inv(s) && IsProc(s, p) && s.procs[p].state == RUNNING && s.procs[p].pc.ReparentWake?
    requires var j := s.procs[p].pc.j; 0 <= j <= NPROC && (j < NPROC && j != p ==> LockFree(s, j))
    requires s' == DoWakeInit(s, p, s.procs[p].pc.i, s.procs[p].pc.j)
    ensures Inv(s')
  {
    hide LocksOk, ForksOk, TreeOk, WakeupsOk, KidsOk, PidsOk;
    var i, j := s.procs[p].pc.i, s.procs[p].pc.j;
    EntryFacts(s, p);
    var s1, pc := s, if j == NPROC then Reparent(i + 1) else ReparentWake(i, j + 1);
    if j < NPROC && j != p {
      s1 := WakeOne(s, j, OnProc(INIT));
      WakeOneKeepsInv(s, j, OnProc(INIT));
    }
    EntryFacts(s1, p);
    WakeupsMoved(s1, s', p, pc);
    MoveKeepsInv(s1, s', p, pc);
  }

  /** MoveKeepsWakeups for a process in reparent. */
  lemma WakeupsMoved(s: State, s': State, p: int, pc: Pc)
    requires Inv(s) && IsProc(s, p) && s.waitLock == p && s' == At(s, p, pc) && s.procs[p].pc.ReparentWake?
    requires pc.ReparentWake? || pc.Reparent?
    requires s.procs[p].pc.j <= INIT ==> !Waiting(s.procs[INIT])
    ensures WakeupsOk(s')
  {
    hide LocksOk, ForksOk, TreeOk, KidsOk, PidsOk;
    MoveKeepsWakeups(s, s', p, s.procs[p].(pc := pc));
  }

  lemma WakeMineKeepsInv(s: State, s': State, p: int)
    requires Inv(s) && IsProc(s, p) && s.procs[p].state == RUNNING && s.procs[p].pc.WakeParent?
    requires var j := s.procs[p].pc.j; 0 <= j <= NPROC && (j < NPROC && j != p ==> LockFree(s, j))
    requires s' == DoWakeMine(s, p, s.procs[p].pc.j)
    ensures Inv(s')
  {
    hide LocksOk, ForksOk, TreeOk, WakeupsOk, KidsOk, PidsOk;
    var j := s.procs[p].pc.j;
    EntryFacts(s, p);
    ParentFacts(s, p);
    var s1, pc := s, if j == NPROC then ExitLock else WakeParent(j + 1);
    if j < NPROC && j != p {
      s1 := WakeOne(s, j, OnProc(s.procs[p].parent));
      WakeOneKeepsInv(s, j, OnProc(s.procs[p].parent));
    }
    EntryFacts(s1, p);
    MoveKeepsWakeupsOfParent(s1, s', p, pc);
    MoveKeepsInv(s1, s', p, pc);
  }

  lemma ParentFacts(s: State, p: int)
    requires Inv(s) && IsProc(s, p) && s.waitLock == p && s.procs[p].pc.WakeParent?
    ensures var q := s.procs[p].parent;
             q != p && (q != NOBODY ==> IsProc(s, q)) && (IsProc(s, q) && s.procs[p].pc.j > q ==> !Waiting(s.procs[q]))
  {
    hide LocksOk, ForksOk, KidsOk, PidsOk, Waiting;
  }

  lemma MoveKeepsWakeupsOfParent(s: State, s': State, p: int, pc: Pc)
    requires Inv(s) && IsProc(s, p) && s.waitLock == p && s' == At(s, p, pc) && s.procs[p].pc.WakeParent? &&
             (pc.WakeParent? || pc.ExitLock?)
    requires var q := s.procs[p].parent; IsProc(s, q) && (pc.ExitLock? || pc.j > q) ==> !Waiting(s.procs[q])
    ensures WakeupsOk(s')
  {
    hide LocksOk, ForksOk, TreeOk, KidsOk, PidsOk;
    MoveKeepsWakeups(s, s', p, s.procs[p].(pc := pc));
  }

  lemma ReparentKeepsInv(s: State, s': State, p: int)
    requires Inv(s) && IsProc(s, p) && s.procs[p].state == RUNNING && s.procs[p].pc.Reparent? &&
             0 <= s.procs[p].pc.i <= NPROC
    requires s' == DoReparent(s, p, s.procs[p].pc.i)
    ensures Inv(s')
  {
    hide LocksOk, ForksOk, TreeOk, WakeupsOk, KidsOk, PidsOk;
    var i := s.procs[p].pc.i;
    EntryFacts(s, p);
    if i < NPROC && s.procs[i].parent == p {
      AdoptKeepsInv(s, s', p, i);
    } else {
      var pc := if i == NPROC then WakeParent(0) else Reparent(i + 1);
      ReparentMoved(s, s', p, pc);
      MoveKeepsInv(s, s', p, pc);
    }
  }

  lemma ReparentMoved(s: State, s': State, p: int, pc: Pc)
    requires Inv(s) && IsProc(s, p) && s.waitLock == p && s' == At(s, p, pc) && s.procs[p].pc.Reparent? &&
             (pc == WakeParent(0) || pc.Reparent?)
    ensures WakeupsOk(s')
  {
    hide LocksOk, ForksOk, KidsOk, PidsOk;
    MoveKeepsWakeups(s, s', p, s.procs[p].(pc := pc));
  }

  /** reparent hands a child to initproc; initproc may be asleep, and its wakeup is now pending. */
  lemma AdoptKeepsInv(s: State, s': State, p: int, i: int)
    requires Inv(s) && IsProc(s, p) && s.procs[p].pc == Reparent(i) && 0 <= i < NPROC && s.procs[i].parent == p
    requires s' == At(Upd(s, i, s.procs[i].(parent := INIT)), p, ReparentWake(i, 0))
    ensures Inv(s')
  {
    hide LocksOk, ForksOk, TreeOk, WakeupsOk, KidsOk, PidsOk;
    EntryFacts(s, p);
    EntryFacts(s, i);
    EntryFacts(s, INIT);
    AdoptKeepsTree(s, s', p, i);
    var x, y := s.procs[i].(parent := INIT), s.procs[p].(pc := ReparentWake(i, 0));
    var s1 := Upd(s, i, x);
    OneKeepsLocks(s, s1, i, x);
    OneKeepsLocks(s1, s', p, y);
    OneKeepsPids(s, s1, i, x);
    OneKeepsPids(s1, s', p, y);
    AdoptKeepsForks(s, s', p, i);
    AdoptKeepsWakeups(s, s', p, i);
    AdoptKeepsKids(s, s', p, i);
  }

  lemma AdoptKeepsTree(s: State, s': State, p: int, i: int)
    requires |s.procs| == NPROC && TreeOk(s) && IsProc(s, p) && s.procs[p].pc == Reparent(i) && 0 <= i < NPROC &&
             s.procs[i].parent == p
    requires !Exiting(s.procs[INIT].pc)
    requires s' == At(Upd(s, i, s.procs[i].(parent := INIT)), p, ReparentWake(i, 0))
    ensures TreeOk(s') && i != p && i != INIT
  {
  }

  lemma AdoptKeepsForks(s: State, s': State, p: int, i: int)
    requires Inv(s) && IsProc(s, p) && s.procs[p].pc == Reparent(i) && 0 <= i < NPROC && s.procs[i].parent == p &&
             i != p
    requires s' == At(Upd(s, i, s.procs[i].(parent := INIT)), p, ReparentWake(i, 0))
    ensures ForksOk(s')
  {
    hide LocksOk, TreeOk, WakeupsOk, KidsOk, PidsOk;
  }

  lemma AdoptKeepsKids(s: State, s': State, p: int, i: int)
    requires |s.procs| == NPROC && KidsOk(s) && IsProc(s, p) && 0 <= i < NPROC && i != p && s.procs[i].parent == p
    requires s' == At(Upd(s, i, s.procs[i].(parent := INIT)), p, ReparentWake(i, 0))
    ensures KidsOk(s')
  {
    forall q | 0 <= q < NPROC && q != p && HasChild(s, q)
      ensures HasChild(s', q)
    {
      var c :| 0 <= c < NPROC && s.procs[c].parent == q;
      assert s'.procs[c].parent == q;
    }
  }

  lemma AdoptKeepsWakeups(s: State, s': State, p: int, i: int)
    requires |s.procs| == NPROC && WakeupsOk(s) && LocksOk(s) && IsProc(s, p) && s.waitLock == p && p != INIT
    requires s.procs[p].pc == Reparent(i) && 0 <= i < NPROC && s.procs[i].parent == p && i != p
    requires s' == At(Upd(s, i, s.procs[i].(parent := INIT)), p, ReparentWake(i, 0))
    ensures WakeupsOk(s')
  {
    assert !HoldsWait(s.procs[INIT].pc);
    forall c | 0 <= c < NPROC && IsProc(s', s'.procs[c].parent)
      ensures NotMissed(s', c)
    {
      assert c != i && IsProc(s, s.procs[c].parent) ==> NotMissed(s, c);
    }
  }

  lemma ZombieKeepsInv(s: State, s': State, p: int)
    requires Inv(s) && IsProc(s, p) && s.procs[p].pc == ExitLock &&
             s' == Upd(s, p, s.procs[p].(xstate := s.procs[p].status, state := ZOMBIE, pc := Dying))
    ensures Inv(s')
  {
    hide LocksOk, ForksOk, TreeOk, WakeupsOk, KidsOk, PidsOk;
    var x := s.procs[p].(xstate := s.procs[p].status, state := ZOMBIE, pc := Dying);
    EntryFacts(s, p);
    OneKeepsLocks(s, s', p, x);
    OneKeepsForks(s, s', p, x);
    OneKeepsTree(s, s', p, x);
    OneKeepsKids(s, s', p, x);
    OneKeepsPids(s, s', p, x);
    ZombieKeepsWakeups(s, s', p, x);
  }

  lemma ZombieKeepsWakeups(s: State, s': State, p: int, x: Proc)
    requires |s.procs| == NPROC && WakeupsOk(s) && LocksOk(s) && IsProc(s, p) && s.waitLock == p &&
             s.procs[p].pc == ExitLock
    requires s.procs[p].parent != p && x == s.procs[p].(xstate := s.procs[p].status, state := ZOMBIE, pc := Dying)
    requires s'.procs == s.procs[p := x] && s'.waitLock == p
    ensures WakeupsOk(s')
  {
    hide Waiting;
    WaitingIs(x);
    assert forall q :: 0 <= q < NPROC && q != p ==> !HoldsWait(s.procs[q].pc);
    forall c | 0 <= c < NPROC && IsProc(s', s'.procs[c].parent)
      ensures NotMissed(s', c)
    {
      assert NotMissed(s, c);
    }
  }

  // ---------------------------------------------------------------- kwait

  lemma ScanKeepsInv(s: State, s': State, p: int, copied: bool)
    requires Inv(s) && IsProc(s, p) && s.procs[p].pc.WaitScan? && 0 <= s.procs[p].pc.i <= NPROC
    requires s' == DoScan(s, p, s.procs[p].pc.i, s.procs[p].pc.havekids, copied)
    requires var i := s.procs[p].pc.i; i < NPROC && s.procs[i].parent == p ==> LockFree(s, i)
    ensures Inv(s')
  {
    hide LocksOk, ForksOk, TreeOk, WakeupsOk, KidsOk, PidsOk;
    var i := s.procs[p].pc.i;
    EntryFacts(s, p);
    if i < NPROC && s.procs[i].parent == p && s.procs[i].state == ZOMBIE && copied {
      ReapKeepsInv(s, s', p, i);
    } else {
      var x := s'.procs[p];
      OneKeepsLocks(s, s', p, x);
      OneKeepsForks(s, s', p, x);
      OneKeepsTree(s, s', p, x);
      OneKeepsKids(s, s', p, x);
      OneKeepsPids(s, s', p, x);
      ScanKeepsWakeups(s, s', p, x);
    }
  }

  lemma ScanKeepsWakeups(s: State, s': State, p: int, x: Proc)
    requires |s.procs| == NPROC && WakeupsOk(s) && IsProc(s, p) && s.waitLock == p && s.procs[p].pc.WaitScan?
    requires s'.procs == s.procs[p := x] && x == s.procs[p].(pc := x.pc) && (s'.waitLock == p || s'.waitLock == NOBODY)
    requires x.pc == Outside
             || (x.pc.WaitScan? && x.pc.i == s.procs[p].pc.i + 1
                 && (0 <= s.procs[p].pc.i < NPROC && s.procs[s.procs[p].pc.i].parent == p ==>
                    s.procs[s.procs[p].pc.i].state != ZOMBIE))
             || (x.pc == SleepEnter && s.procs[p].pc.i == NPROC)
    requires x.pc != Outside ==> s'.waitLock == p
    ensures WakeupsOk(s')
  {
    forall c | 0 <= c < NPROC && IsProc(s', s'.procs[c].parent)
      ensures NotMissed(s', c)
    {
      assert NotMissed(s, c);
    }
  }

  /** sleep takes the process's own lock. */
  lemma LockSelfKeepsInv(s: State, s': State, p: int)
    requires Inv(s) && IsProc(s, p) && s.procs[p].pc == SleepEnter && s' == At(s, p, SleepLocked)
    ensures Inv(s')
  {
    hide LocksOk, ForksOk, TreeOk, WakeupsOk, KidsOk, PidsOk;
    var x := s.procs[p].(pc := SleepLocked);
    EntryFacts(s, p);
    OneKeepsLocks(s, s', p, x);
    OneKeepsForks(s, s', p, x);
    OneKeepsTree(s, s', p, x);
    OneKeepsKids(s, s', p, x);
    OneKeepsPids(s, s', p, x);
    LockSelfKeepsWakeups(s, s', p, x);
  }

  lemma LockSelfKeepsWakeups(s: State, s': State, p: int, x: Proc)
    requires |s.procs| == NPROC && WakeupsOk(s) && IsProc(s, p) && s.waitLock == p && s.procs[p].pc == SleepEnter
    requires s'.procs == s.procs[p := x] && x == s.procs[p].(pc := SleepLocked) && s'.waitLock == p
    ensures WakeupsOk(s')
  {
    forall c | 0 <= c < NPROC && IsProc(s', s'.procs[c].parent)
      ensures NotMissed(s', c)
    {
      assert NotMissed(s, c);
    }
  }

  /** kwait frees the zombie's entry. Its lock being free, the zombie has left its stack. */
  lemma ReapKeepsInv(s: State, s': State, p: int, i: int)
    requires Inv(s) && IsProc(s, p) && IsProc(s, i) && s.procs[p].pc.WaitScan?
    requires s.procs[i].parent == p && s.procs[i].state == ZOMBIE && LockFree(s, i)
    requires s' == At(Upd(s, i, Free), p, Outside)
                   .(waitLock := NOBODY, reaped := s.reaped + [Reap(s.procs[i].pid, p, s.procs[i].xstate)])
    ensures Inv(s')
  {
    hide LocksOk, ForksOk, TreeOk, WakeupsOk, KidsOk, PidsOk;
    EntryFacts(s, p);
    EntryFacts(s, i);
    var y := s.procs[p].(pc := Outside);
    var s1 := Upd(s, i, Free);
    OneKeepsLocks(s, s1, i, Free);
    OneKeepsLocks(s1, s', p, y);
    ReapKeepsForks(s, s', p, i);
    ReapKeepsTree(s, s', p, i);
    ReapKeepsWakeups(s, s', p, i);
    ReapKeepsKids(s, s', p, i);
    ReapKeepsPids(s, s', p, i);
  }

  lemma ReapKeepsForks(s: State, s': State, p: int, i: int)
    requires |s.procs| == NPROC && ForksOk(s) && IsProc(s, p) && IsProc(s, i) && s.procs[i].state == ZOMBIE
    requires s'.procs == s.procs[i := Free][p := s.procs[p].(pc := Outside)] && i != p && s.procs[p].state == RUNNING
    ensures ForksOk(s')
  {
  }

  lemma ReapKeepsTree(s: State, s': State, p: int, i: int)
    requires |s.procs| == NPROC && TreeOk(s) && IsProc(s, p) && IsProc(s, i) && i != INIT &&
             s.procs[i].state == ZOMBIE && i != p
    requires s'.procs == s.procs[i := Free][p := s.procs[p].(pc := Outside)]
    ensures TreeOk(s')
  {
  }

  lemma ReapKeepsWakeups(s: State, s': State, p: int, i: int)
    requires |s.procs| == NPROC && WakeupsOk(s) && IsProc(s, p) && IsProc(s, i) && i != p && s.waitLock == p &&
             s.procs[p].pc.WaitScan?
    requires s'.procs == s.procs[i := Free][p := s.procs[p].(pc := Outside)] && s'.waitLock == NOBODY
    ensures WakeupsOk(s')
  {
    forall c | 0 <= c < NPROC && IsProc(s', s'.procs[c].parent)
      ensures NotMissed(s', c)
    {
      assert c != i;
      assert NotMissed(s, c);
    }
  }

  lemma ReapKeepsKids(s: State, s': State, p: int, i: int)
    requires |s.procs| == NPROC && KidsOk(s) && IsProc(s, p) && IsProc(s, i) && i != p && s.procs[i].parent == p
    requires s'.procs == s.procs[i := Free][p := s.procs[p].(pc := Outside)]
    ensures KidsOk(s')
  {
    forall q | 0 <= q < NPROC && q != p && HasChild(s, q)
      ensures HasChild(s', q)
    {
      var c :| 0 <= c < NPROC && s.procs[c].parent == q;
      assert s'.procs[c].parent == q;
    }
  }

  lemma ReapKeepsPids(s: State, s': State, p: int, i: int)
    requires |s.procs| == NPROC && PidsOk(s) && IsProc(s, p) && IsProc(s, i) && i != p && s.procs[i].state != UNUSED
    requires s'.procs == s.procs[i := Free][p := s.procs[p].(pc := Outside)]
    requires s'.nextpid == s.nextpid && s'.reaped == s.reaped + [Reap(s.procs[i].pid, p, s.procs[i].xstate)]
    ensures PidsOk(s')
  {
  }

  // ---------------------------------------------------------------- kfork

  lemma ForkKeepsInv(s: State, s': State, p: int, c: int)
    requires Inv(s) && Enabled(s, Fork(p, c)) && s' == Do(s, Fork(p, c))
    ensures Inv(s')
  {
    hide LocksOk, ForksOk, TreeOk, WakeupsOk, KidsOk, PidsOk;
    EntryFacts(s, p);
    EntryFacts(s, c);
    var x, y := s.procs[c].(state := USED, pid := s.nextpid), s.procs[p].(pc := ForkLink(c));
    var s1 := Upd(s, c, x);
    OneKeepsLocks(s, s1, c, x);
    OneKeepsLocks(s1, s', p, y);
    OneKeepsTree(s, s1, c, x);
    OneKeepsTree(s1, s', p, y);
    OneKeepsKids(s, s1, c, x);
    OneKeepsKids(s1, s', p, y);
    BenignKeepsWakeups(s, s1, c, x);
    BenignKeepsWakeups(s1, s', p, y);
    ForkKeepsForks(s, s', p, c, x, y);
    ForkKeepsPids(s, s', p, c, x, y);
  }

  lemma ForkKeepsForks(s: State, s': State, p: int, c: int, x: Proc, y: Proc)
    requires |s.procs| == NPROC && ForksOk(s) && IsProc(s, p) && IsProc(s, c) && p != c && s.procs[c].state == UNUSED &&
             !s.procs[c].pc.ForkLink? && !s.procs[c].pc.ForkStart?
    requires s.procs[p].state == RUNNING && x.state == USED && x.parent == NOBODY && x.pc == Outside &&
             y == s.procs[p].(pc := ForkLink(c))
    requires s'.procs == s.procs[c := x][p := y]
    ensures ForksOk(s')
  {
  }

  lemma ForkKeepsPids(s: State, s': State, p: int, c: int, x: Proc, y: Proc)
    requires |s.procs| == NPROC && PidsOk(s) && IsProc(s, p) && IsProc(s, c) && p != c && s.procs[p].state == RUNNING
    requires x.pid == s.nextpid && y == s.procs[p].(pc := ForkLink(c))
    requires s'.procs == s.procs[c := x][p := y] && s'.nextpid == s.nextpid + 1 && s'.reaped == s.reaped
    ensures PidsOk(s')
  {
  }

  lemma LinkKeepsInv(s: State, s': State, p: int)
    requires Inv(s) && Enabled(s, Link(p)) && s' == Do(s, Link(p))
    ensures Inv(s')
  {
    hide LocksOk, ForksOk, TreeOk, WakeupsOk, KidsOk, PidsOk;
    var c := s.procs[p].pc.child;
    EntryFacts(s, p);
    ForkLinkFacts(s, p);
    EntryFacts(s, c);
    var x, y := s.procs[c].(parent := p), s.procs[p].(pc := ForkStart(c));
    var s1 := Upd(s, c, x);
    OneKeepsLocks(s, s1, c, x);
    OneKeepsLocks(s1, s', p, y);
    OneKeepsPids(s, s1, c, x);
    OneKeepsPids(s1, s', p, y);
    LinkKeepsForks(s, s', p, c);
    LinkKeepsTree(s, s', p, c);
    LinkKeepsWakeups(s, s', p, c);
    LinkKeepsKids(s, s', p, c);
  }

  lemma ForkLinkFacts(s: State, p: int)
    requires Inv(s) && IsProc(s, p) && s.procs[p].state == RUNNING && s.procs[p].pc.ForkLink?
    ensures var c := s.procs[p].pc.child;
             IsProc(s, c) && c != p && c != INIT && s.procs[c].state == USED && s.procs[c].parent == NOBODY
  {
    hide LocksOk, WakeupsOk, KidsOk, PidsOk;
  }

  lemma LinkKeepsForks(s: State, s': State, p: int, c: int)
    requires |s.procs| == NPROC && ForksOk(s) && IsProc(s, p) && IsProc(s, c) && p != c && s.procs[p].pc == ForkLink(c)
    requires s'.procs == s.procs[c := s.procs[c].(parent := p)][p := s.procs[p].(pc := ForkStart(c))]
    requires s.procs[p].state == RUNNING && s.procs[c].parent == NOBODY
    ensures ForksOk(s')
  {
    assert s.procs[c].state == USED;
  }

  lemma LinkKeepsTree(s: State, s': State, p: int, c: int)
    requires |s.procs| == NPROC && TreeOk(s) && IsProc(s, p) && IsProc(s, c) && p != c && c != INIT &&
             s.procs[p].pc == ForkLink(c)
    requires s.procs[p].state == RUNNING
    requires s'.procs == s.procs[c := s.procs[c].(parent := p)][p := s.procs[p].(pc := ForkStart(c))]
    ensures TreeOk(s')
  {
  }

  lemma LinkKeepsWakeups(s: State, s': State, p: int, c: int)
    requires |s.procs| == NPROC && WakeupsOk(s) && IsProc(s, p) && IsProc(s, c) && p != c &&
             s.procs[p].pc == ForkLink(c)
    requires s.waitLock == NOBODY == s'.waitLock && s.procs[c].state == USED
    requires s'.procs == s.procs[c := s.procs[c].(parent := p)][p := s.procs[p].(pc := ForkStart(c))]
    ensures WakeupsOk(s')
  {
    forall k | 0 <= k < NPROC && IsProc(s', s'.procs[k].parent)
      ensures NotMissed(s', k)
    {
      assert k != c ==> NotMissed(s, k);
    }
  }

  lemma LinkKeepsKids(s: State, s': State, p: int, c: int)
    requires |s.procs| == NPROC && KidsOk(s) && IsProc(s, p) && IsProc(s, c) && p != c && s.procs[c].parent == NOBODY
    requires s'.procs == s.procs[c := s.procs[c].(parent := p)][p := s.procs[p].(pc := ForkStart(c))]
    ensures KidsOk(s')
  {
    forall q | 0 <= q < NPROC && HasChild(s, q)
      ensures HasChild(s', q)
    {
      var k :| 0 <= k < NPROC && s.procs[k].parent == q;
      assert s'.procs[k].parent == q;
    }
  }

  lemma StartKeepsInv(s: State, s': State, p: int)
    requires Inv(s) && Enabled(s, Start(p)) && s' == Do(s, Start(p))
    ensures Inv(s')
  {
    hide LocksOk, ForksOk, TreeOk, WakeupsOk, KidsOk, PidsOk;
    var c := s.procs[p].pc.child;
    EntryFacts(s, p);
    ForkStartFacts(s, p);
    EntryFacts(s, c);
    var x, y := s.procs[c].(state := RUNNABLE), s.procs[p].(pc := Outside);
    var s1 := Upd(s, c, x);
    OneKeepsLocks(s, s1, c, x);
    OneKeepsLocks(s1, s', p, y);
    OneKeepsTree(s, s1, c, x);
    OneKeepsTree(s1, s', p, y);
    OneKeepsKids(s, s1, c, x);
    OneKeepsKids(s1, s', p, y);
    OneKeepsPids(s, s1, c, x);
    OneKeepsPids(s1, s', p, y);
    BenignKeepsWakeups(s, s1, c, x);
    BenignKeepsWakeups(s1, s', p, y);
    StartKeepsForks(s, s', p, c, x, y);
  }

  lemma ForkStartFacts(s: State, p: int)
    requires Inv(s) && IsProc(s, p) && s.procs[p].state == RUNNING && s.procs[p].pc.ForkStart?
    ensures var c := s.procs[p].pc.child;
             IsProc(s, c) && c != p && c != INIT && s.procs[c].state == USED && s.procs[c].parent == p
  {
    hide LocksOk, WakeupsOk, KidsOk, PidsOk;
  }

  lemma StartKeepsForks(s: State, s': State, p: int, c: int, x: Proc, y: Proc)
    requires |s.procs| == NPROC && ForksOk(s) && IsProc(s, p) && IsProc(s, c) && p != c && s.procs[p].pc == ForkStart(c)
    requires s.procs[c].pc == Outside && s.procs[c].parent == p && x == s.procs[c].(state := RUNNABLE) &&
             y == s.procs[p].(pc := Outside)
    requires s'.procs == s.procs[c := x][p := y] && s.procs[p].state == RUNNING
    ensures ForksOk(s')
  {
  }

  // ---------------------------------------------------------------- whole runs

  lemma StepKeepsInv(s: State, s': State, step: Step)
    requires Inv(s) && Enabled(s, step) && s' == Do(s, step)
    ensures Inv(s')
  {
    hide LocksOk, ForksOk, TreeOk, WakeupsOk, KidsOk, PidsOk;
    var p := step.p;
    match step {
      case Fork(_, c) => ForkKeepsInv(s, s', p, c);
      case Link(_) => LinkKeepsInv(s, s', p);
      case Start(_) => StartKeepsInv(s, s', p);
      case Exit(_, arg) => AcquireKeepsInv(s, s', p, Reparent(0), arg);
      case ReparentOne(_) => ReparentKeepsInv(s, s', p);
      case WakeInit(_) => WakeInitKeepsInv(s, s', p);
      case WakeMine(_) => WakeMineKeepsInv(s, s', p);
      case BecomeZombie(_) => ZombieKeepsInv(s, s', p);
      case DropWait(_) => DropKeepsInv(s, s', p);
      case Wait(_) => AcquireKeepsInv(s, s', p, WaitScan(0, false), s.procs[p].status);
      case Scan(_, copied) => ScanKeepsInv(s, s', p, copied);
      case LockSelf(_) => LockSelfKeepsInv(s, s', p);
      case Retake(_) => AcquireKeepsInv(s, s', p, WaitScan(0, false), s.procs[p].status);
      case Kill(_, q) => KillKeepsInv(s, s', p, q);
      case _ => LocalStepKeepsInv(s, s', step);
    }
  }

  lemma InitInv(s: State)
    requires Init(s)
    ensures Inv(s)
  {
    forall p | 0 <= p < NPROC
      ensures s.procs[p] == Free || (p == INIT && s.procs[p] == Proc(RUNNABLE, NOBODY, NoChan, false, 1, 0, Outside, 0))
    {
    }
  }

  /** What a step does to the entry of another process. */
  ghost predicate OtherStep(s: State, step: Step, x: Proc, x': Proc, c: int)
    requires Enabled(s, step)
  {
    var me := s.procs[step.p];
    match step
    case Fork(_, child) => x' == if c == child then x.(state := USED, pid := s.nextpid) else x
    case Link(_) => x' == if c == me.pc.child then x.(parent := step.p) else x
    case Start(_) => x' == if c == me.pc.child then x.(state := RUNNABLE) else x
    case ReparentOne(_) => x' == x || x' == x.(parent := INIT)
    case WakeInit(_) => x' == x || (x.state == SLEEPING && x' == x.(state := RUNNABLE))
    case WakeMine(_) => x' == x || (x.state == SLEEPING && x' == x.(state := RUNNABLE))
    case Scan(_, _) => x' == x || (x.state == ZOMBIE && x' == Free)
    case Kill(_, q) =>
      x' == if c == q then x.(killed := true, state := if x.state == SLEEPING then RUNNABLE else x.state) else x
    case _ => x' == x
  }

  lemma StepOnOther(s: State, s': State, step: Step, c: int)
    requires Enabled(s, step) && s' == Do(s, step) && IsProc(s, c) && c != step.p
    ensures IsProc(s', c) && OtherStep(s, step, s.procs[c], s'.procs[c], c)
    ensures s'.exits == if step.Exit? then s.exits[s.procs[step.p].pid := step.arg] else s.exits
  {
  }

  lemma {:induction false} RunKeepsInv(run: seq<State>, k: nat)
    requires IsRun(run) && k < |run|
    ensures Inv(run[k])
  {
    hide Enabled, Do, Inv, Init;
    if k == 0 {
      InitInv(run[0]);
    } else {
      RunKeepsInv(run, k - 1);
      assert Next(run[k - 1], run[k - 1 + 1]);
      var step :| Enabled(run[k - 1], step) && run[k] == Do(run[k - 1], step);
      StepKeepsInv(run[k - 1], run[k], step);
    }
  }

  /** No lost exit wakeup: in every interleaving, whenever wait_lock is free, no process that is asleep
      in kwait, or has dropped wait_lock on its way to sleep, has a zombie child. */
  lemma NoLostWakeup(run: seq<State>, k: nat, p: int, c: int)
    requires IsRun(run) && k < |run| && run[k].waitLock == NOBODY
    requires IsProc(run[k], p) && IsProc(run[k], c) && run[k].procs[c].parent == p
    requires Waiting(run[k].procs[p]) || (run[k].procs[p].state == SLEEPING && run[k].procs[p].chan == OnProc(p))
    ensures run[k].procs[c].state != ZOMBIE
  {
    RunKeepsInv(run, k);
    hide ForksOk, TreeOk, KidsOk, PidsOk;
    assert Coherent(p, run[k].procs[p]);
    SelfChanIsWaiting(run, k, p);
    assert NotMissed(run[k], c);
  }

  /** Only kwait sleeps on a process's own channel. */
  lemma SelfChanIsWaiting(run: seq<State>, k: nat, p: int)
    requires IsRun(run) && k < |run| && IsProc(run[k], p)
    ensures run[k].procs[p].state == SLEEPING && run[k].procs[p].chan == OnProc(p) ==> Waiting(run[k].procs[p])
  {
    RunKeepsChannels(run, k);
    RunKeepsInv(run, k);
    assert Coherent(p, run[k].procs[p]);
  }

  ghost predicate ChannelAt(x: Proc) {
    x.pc.AsleepElsewhere? && x.state == SLEEPING ==> x.chan == Elsewhere
  }

  ghost predicate ChannelsOk(s: State) {
    forall p :: 0 <= p < |s.procs| ==> ChannelAt(s.procs[p])
  }

  lemma StepKeepsChannel(s: State, s': State, step: Step, c: int)
    requires Enabled(s, step) && s' == Do(s, step) && IsProc(s, c) && ChannelAt(s.procs[c])
    ensures IsProc(s', c) && ChannelAt(s'.procs[c])
  {
  }

  lemma StepKeepsChannels(s: State, s': State, step: Step)
    requires ChannelsOk(s) && Enabled(s, step) && s' == Do(s, step)
    ensures ChannelsOk(s')
  {
    hide Enabled, Do, ChannelAt;
    StepIsProc(s, step);
    StepKeepsChannel(s, s', step, step.p);
    forall c | 0 <= c < |s.procs| ensures IsProc(s', c) && ChannelAt(s'.procs[c]) {
      StepKeepsChannel(s, s', step, c);
    }
  }

  lemma {:induction false} RunKeepsChannels(run: seq<State>, k: nat)
    requires IsRun(run) && k < |run|
    ensures ChannelsOk(run[k])
  {
    if k > 0 {
      hide Enabled, Do;
      RunKeepsChannels(run, k - 1);
      assert Next(run[k - 1], run[k - 1 + 1]);
      var step :| Enabled(run[k - 1], step) && run[k] == Do(run[k - 1], step);
      StepKeepsChannels(run[k - 1], run[k], step);
    }
  }

  /** A process that sleeps in kwait has a child whose exit will wake it. */
  lemma SleeperHasChild(run: seq<State>, k: nat, p: int)
    requires IsRun(run) && k < |run| && IsProc(run[k], p) && Waiting(run[k].procs[p])
    ensures exists c :: IsProc(run[k], c) && run[k].procs[c].parent == p
  {
    RunKeepsInv(run, k);
    hide LocksOk, ForksOk, TreeOk, WakeupsOk, PidsOk;
    assert HasChild(run[k], p);
  }

  /** Every parent is alive: whoever exits has passed its children to initproc first. */
  lemma ParentsAreAlive(run: seq<State>, k: nat, c: int)
    requires IsRun(run) && k < |run| && IsProc(run[k], c) && run[k].procs[c].parent != NOBODY
    ensures IsProc(run[k], run[k].procs[c].parent) && Alive(run[k].procs[run[k].procs[c].parent])
  {
    RunKeepsInv(run, k);
  }

  /** No pid is returned by kwait twice. */
  lemma ReapedOnce(run: seq<State>, k: nat, i: nat, j: nat)
    requires IsRun(run) && k < |run| && i < j < |run[k].reaped|
    ensures run[k].reaped[i].pid != run[k].reaped[j].pid
  {
    RunKeepsInv(run, k);
  }

  /** What kwait reaps is a zombie that has left its stack, and the reaper is its current parent. */
  lemma ReapedByParent(run: seq<State>, k: nat)
    requires IsRun(run) && k + 1 < |run| && run[k + 1].reaped != run[k].reaped
    ensures exists c, p :: IsProc(run[k], c) && IsProc(run[k], p) && run[k].waitLock == p
              && run[k].procs[c].state == ZOMBIE && run[k].procs[c].pc == Dead && run[k].procs[c].parent == p
              && run[k + 1].procs[c].state == UNUSED
              && run[k + 1].reaped == run[k].reaped + [Reap(run[k].procs[c].pid, p, run[k].procs[c].xstate)]
  {
    var s, s' := run[k], run[k + 1];
    RunKeepsInv(run, k);
    assert Next(s, s');
    var step :| Enabled(s, step) && s' == Do(s, step);
    OnlyScanReaps(s, s', step);
    var p := step.p;
    var c := s.procs[p].pc.i;
    EntryFacts(s, p);
    EntryFacts(s, c);
  }

  lemma OnlyScanReaps(s: State, s': State, step: Step)
    requires Enabled(s, step) && s' == Do(s, step) && s'.reaped != s.reaped
    ensures step.Scan? && var i := s.procs[step.p].pc.i;
      && 0 <= i < NPROC && s.procs[i].parent == step.p && s.procs[i].state == ZOMBIE && LockFree(s, i)
      && s' == At(Upd(s, i, Free), step.p, Outside)
               .(waitLock := NOBODY, reaped := s.reaped + [Reap(s.procs[i].pid, step.p, s.procs[i].xstate)])
  {
  }

  // ---------------------------------------------------------------- exit statuses

  /** What kexit was called with is on the stack of the exiting process, and then in its entry. */
  ghost predicate StatusAt(x: Proc, exits: map<int, int>) {
    x.state != UNUSED ==>
      && (x.pid in exits <==> Exiting(x.pc))
      && (Exiting(x.pc) ==> x.status == exits[x.pid])
      && (x.state == ZOMBIE ==> Exiting(x.pc) && x.xstate == exits[x.pid])
  }

  /** In the end the parent has it. */
  ghost predicate StatusOk(s: State) {
    && (forall pid :: pid in s.exits ==> pid < s.nextpid)
    && (forall p :: 0 <= p < |s.procs| ==> StatusAt(s.procs[p], s.exits))
    && (forall k :: 0 <= k < |s.reaped| ==>
          s.reaped[k].pid in s.exits && s.reaped[k].status == s.exits[s.reaped[k].pid])
  }

  /** kwait returns a pid, with the status that this pid has called kexit with. */
  ghost predicate Returns(s: State, s': State, r: Reap) {
    s'.reaped == s.reaped + [r] && r.pid in s.exits && r.status == s.exits[r.pid]
  }

  /** The histories grow by one entry at most. */
  lemma HistoryStep(s: State, s': State, step: Step)
    requires Inv(s) && StatusOk(s) && Enabled(s, step) && s' == Do(s, step)
    ensures s.nextpid <= s'.nextpid && |s'.procs| == |s.procs|
    ensures s'.exits == s.exits || (step.Exit? && s.procs[step.p].pid !in s.exits && s.procs[step.p].pid < s.nextpid
                                    && s'.exits == s.exits[s.procs[step.p].pid := step.arg])
    ensures s'.reaped == s.reaped || (s'.exits == s.exits && exists r :: Returns(s, s', r))
  {
    hide LocksOk, ForksOk, TreeOk, WakeupsOk, KidsOk, OfExit;
    EntryFacts(s, step.p);
    if s'.reaped != s.reaped {
      hide Do;
      OnlyScanReaps(s, s', step);
      var i := s.procs[step.p].pc.i;
      assert StatusAt(s.procs[i], s.exits);
      assert Returns(s, s', Reap(s.procs[i].pid, step.p, s.procs[i].xstate));
    } else {
      assert StatusAt(s.procs[step.p], s.exits);
    }
  }

  /** A step of kexit. */
  ghost predicate OfExit(step: Step) {
    || step.Exit? || step.ReparentOne? || step.WakeInit? || step.WakeMine? || step.BecomeZombie? || step.DropWait?
    || step.SwitchOut?
  }

  lemma StatusInExit(s: State, s': State, step: Step)
    requires Inv(s) && StatusOk(s) && Enabled(s, step) && s' == Do(s, step) && IsProc(s', step.p) && OfExit(step)
    ensures StatusAt(s'.procs[step.p], s'.exits)
  {
    hide LocksOk, ForksOk, TreeOk, WakeupsOk, KidsOk, PidsOk;
    EntryFacts(s, step.p);
    assert StatusAt(s.procs[step.p], s.exits);
  }

  lemma StatusByItself(s: State, s': State, step: Step)
    requires Inv(s) && StatusOk(s) && Enabled(s, step) && s' == Do(s, step) && IsProc(s', step.p) && !OfExit(step)
    ensures StatusAt(s'.procs[step.p], s'.exits)
  {
    hide LocksOk, ForksOk, TreeOk, WakeupsOk, KidsOk, PidsOk;
    EntryFacts(s, step.p);
    assert StatusAt(s.procs[step.p], s.exits);
  }

  lemma StatusByOthers(s: State, s': State, step: Step, c: int)
    requires Inv(s) && StatusOk(s) && Enabled(s, step) && s' == Do(s, step) && IsProc(s, c) && IsProc(s', c)
    requires c != step.p
    ensures StatusAt(s'.procs[c], s'.exits)
  {
    hide LocksOk, ForksOk, TreeOk, WakeupsOk, KidsOk, Do;
    EntryFacts(s, c);
    if step.Start? { ForkStartFacts(s, step.p); }
    StepOnOther(s, s', step, c);
    assert StatusAt(s.procs[c], s.exits);
  }

  lemma StepKeepsStatus(s: State, s': State, step: Step)
    requires Inv(s) && StatusOk(s) && Enabled(s, step) && s' == Do(s, step)
    ensures StatusOk(s')
    ensures forall pid :: pid in s.exits ==> pid in s'.exits && s'.exits[pid] == s.exits[pid]
  {
    hide Inv, Enabled, Do, StatusAt, OfExit;
    HistoryStep(s, s', step);
    StepIsProc(s, step);
    forall c | 0 <= c < |s'.procs| ensures StatusAt(s'.procs[c], s'.exits) {
      if c == step.p && OfExit(step) {
        StatusInExit(s, s', step);
      } else if c == step.p {
        StatusByItself(s, s', step);
      } else {
        StatusByOthers(s, s', step, c);
      }
    }
  }

  lemma StepIsProc(s: State, step: Step)
    requires Enabled(s, step)
    ensures IsProc(s, step.p)
  {
  }

  lemma {:induction false} RunKeepsStatus(run: seq<State>, k: nat)
    requires IsRun(run) && k < |run|
    ensures StatusOk(run[k])
  {
    hide Enabled, Do, Inv, StatusOk;
    if k == 0 {
      NoExits(run[0]);
    } else {
      RunKeepsStatus(run, k - 1);
      RunKeepsInv(run, k - 1);
      assert Next(run[k - 1], run[k - 1 + 1]);
      var step :| Enabled(run[k - 1], step) && run[k] == Do(run[k - 1], step);
      StepKeepsStatus(run[k - 1], run[k], step);
    }
  }

  lemma NoExits(s: State)
    requires Init(s)
    ensures StatusOk(s)
  {
  }

  /** Every status that kwait returns is the one that the process with that pid has called kexit with. */
  lemma StatusDelivered(run: seq<State>, k: nat, i: nat)
    requires IsRun(run) && k < |run| && i < |run[k].reaped|
    ensures run[k].reaped[i].pid in run[k].exits && run[k].reaped[i].status == run[k].exits[run[k].reaped[i].pid]
  {
    RunKeepsStatus(run, k);
  }

  /** No pid calls kexit twice. */
  lemma ExitsOnce(run: seq<State>, k: nat, pid: int)
    requires IsRun(run) && k + 1 < |run| && pid in run[k].exits
    ensures pid in run[k + 1].exits && run[k + 1].exits[pid] == run[k].exits[pid]
  {
    hide Inv, StatusOk, Enabled, Do;
    RunKeepsStatus(run, k);
    RunKeepsInv(run, k);
    assert Next(run[k], run[k + 1]);
    var step :| Enabled(run[k], step) && run[k + 1] == Do(run[k], step);
    StepKeepsStatus(run[k], run[k + 1], step);
  }

  // ---------------------------------------------------------------- kkill(0)

  /** What a step does to the mark of an entry that is unused afterwards: kwait clears it, kkill sets it. */
  lemma UnusedStep(s: State, s': State, step: Step, c: int)
    requires Inv(s) && Enabled(s, step) && s' == Do(s, step) && IsProc(s, c) && IsProc(s', c)
    requires s'.procs[c].state == UNUSED
    ensures s'.procs[c].killed <==> s.procs[c].state == UNUSED && (s.procs[c].killed || (step.Kill? && step.q == c))
  {
    hide Inv, Enabled, Do;
    if step.p == c {
      UnusedByItself(s, s', step);
    } else {
      UnusedByOthers(s, s', step, c);
    }
  }

  lemma UnusedByItself(s: State, s': State, step: Step)
    requires Inv(s) && Enabled(s, step) && s' == Do(s, step)
    ensures IsProc(s', step.p) && s.procs[step.p].state != UNUSED && s'.procs[step.p].state != UNUSED
  {
    hide LocksOk, ForksOk, TreeOk, WakeupsOk, KidsOk, PidsOk;
    EntryFacts(s, step.p);
  }

  lemma UnusedByOthers(s: State, s': State, step: Step, c: int)
    requires Inv(s) && Enabled(s, step) && s' == Do(s, step) && IsProc(s, c) && IsProc(s', c)
    requires s'.procs[c].state == UNUSED && step.p != c
    ensures s'.procs[c].killed <==> s.procs[c].state == UNUSED && (s.procs[c].killed || (step.Kill? && step.q == c))
  {
    hide LocksOk, ForksOk, TreeOk, WakeupsOk, KidsOk, PidsOk, Do;
    EntryFacts(s, c);
    if step.Link? { ForkLinkFacts(s, step.p); }
    StepOnOther(s, s', step, c);
  }

  /** Step j of the run is a kkill that hits entry c. */
  ghost predicate KillAt(run: seq<State>, j: nat, c: int) {
    j + 1 < |run| && exists p :: Enabled(run[j], Kill(p, c)) && run[j + 1] == Do(run[j], Kill(p, c))
  }

  /** Entry c has been unused from state j to state k. */
  ghost predicate UnusedSince(run: seq<State>, j: nat, k: nat, c: int) {
    k < |run| && forall m :: j <= m <= k ==> IsProc(run[m], c) && run[m].procs[c].state == UNUSED
  }

  /** A kkill that hit entry c when it was unused, as it has been since. */
  ghost predicate HitWhileUnused(run: seq<State>, k: nat, c: int) {
    exists j: nat :: j < k && KillAt(run, j, c) && UnusedSince(run, j, k, c)
  }

  lemma {:induction false} HitMarks(run: seq<State>, j: nat, k: nat, c: int)
    requires IsRun(run) && j < k < |run| && KillAt(run, j, c) && UnusedSince(run, j, k, c)
    ensures run[k].procs[c].killed
  {
    hide Do, Enabled;
    var s, s' := run[k - 1], run[k - 1 + 1];
    RunKeepsInv(run, k - 1);
    if j == k - 1 {
      var p :| Enabled(s, Kill(p, c)) && s' == Do(s, Kill(p, c));
      UnusedStep(s, s', Kill(p, c), c);
    } else {
      HitMarks(run, j, k - 1, c);
      assert Next(s, s');
      var step :| Enabled(s, step) && s' == Do(s, step);
      UnusedStep(s, s', step, c);
    }
  }

  lemma {:induction false} MarkIsHit(run: seq<State>, k: nat, c: int)
    requires IsRun(run) && k < |run| && IsProc(run[k], c) && run[k].procs[c].state == UNUSED && run[k].procs[c].killed
    ensures HitWhileUnused(run, k, c)
  {
    hide Do, Enabled;
    if k > 0 {
      var s, s' := run[k - 1], run[k - 1 + 1];
      RunKeepsInv(run, k - 1);
      assert Next(s, s') && |s.procs| == NPROC;
      var step :| Enabled(s, step) && s' == Do(s, step);
      UnusedStep(s, s', step, c);
      if s.procs[c].killed {
        MarkIsHit(run, k - 1, c);
        var j: nat :| j < k - 1 && KillAt(run, j, c) && UnusedSince(run, j, k - 1, c);
        assert UnusedSince(run, j, k, c);
      } else {
        assert Enabled(run[k - 1], Kill(step.p, c));
        assert KillAt(run, k - 1, c) && UnusedSince(run, k - 1, k, c);
      }
    }
  }

  /** In every run, an unused table entry, whose pid is 0, is marked as killed if and only if a kkill has hit it and
      it has been unused ever since. */
  lemma MarkedWhileUnused(run: seq<State>, k: nat, c: int)
    requires IsRun(run) && k < |run| && IsProc(run[k], c) && run[k].procs[c].state == UNUSED
    ensures run[k].procs[c].pid == 0
    ensures run[k].procs[c].killed <==> HitWhileUnused(run, k, c)
  {
    RunKeepsInv(run, k);
    EntryFacts(run[k], c);
    if run[k].procs[c].killed {
      MarkIsHit(run, k, c);
    }
    if HitWhileUnused(run, k, c) {
      var j: nat :| j < k && KillAt(run, j, c) && UnusedSince(run, j, k, c);
      HitMarks(run, j, k, c);
    }
  }

  /** Hence a child is born killed if and only if a kkill, which can only have been kkill(0), has hit its table entry
      since the entry was last freed. */
  lemma KilledAtBirth(run: seq<State>, k: nat, p: int, c: int)
    requires IsRun(run) && k + 1 < |run| && Enabled(run[k], Fork(p, c)) && run[k + 1] == Do(run[k], Fork(p, c))
    ensures IsProc(run[k + 1], c) && run[k + 1].procs[c].state == USED && run[k + 1].procs[c].pid == run[k].nextpid
    ensures run[k + 1].procs[c].killed <==> HitWhileUnused(run, k, c)
  {
    MarkedWhileUnused(run, k, c);
  }

  /** initproc calls kkill(0) and then kfork: the child has pid 2, which nobody has killed, and is killed. */
  lemma BornKilled() returns (run: seq<State>)
    ensures IsRun(run) && IsProc(run[|run| - 1], 1)
    ensures var x := run[|run| - 1].procs[1]; x.state == USED && x.pid == 2 && x.killed
  {
    var first := Proc(RUNNABLE, NOBODY, NoChan, false, 1, 0, Outside, 0);
    var s0 := State(seq(NPROC, p => if p == INIT then first else Free), NOBODY, 2, [], map[]);
    assert Init(s0);
    var s1 := Do(s0, Dispatch(INIT));
    var s2 := Do(s1, Kill(INIT, 1));
    var s3 := Do(s2, Fork(INIT, 1));
    assert Next(s0, s1) && Next(s1, s2) && Next(s2, s3);
    run := [s0, s1, s2, s3];
  }

  // ---------------------------------------------------------------- a killed process that sleeps in kwait

  /** The process has passed kwait's test of killed and nobody has woken it since. */
  ghost predicate Retiring(x: Proc) {
    x.pc.SleepEnter? || x.pc.SleepLocked? || Waiting(x)
  }

  /** What a step does to the mark of such a process. */
  lemma RetiringStep(s: State, s': State, step: Step, p: int)
    requires Inv(s) && Enabled(s, step) && s' == Do(s, step) && IsProc(s, p) && IsProc(s', p) && Retiring(s'.procs[p])
    ensures s'.procs[p].killed <==>
              && Retiring(s.procs[p])
              && (s.procs[p].killed || (step.Kill? && step.q == p && s.procs[p].pc == SleepEnter))
  {
    hide Inv, Enabled, Do;
    if step.p == p {
      RetiringByItself(s, s', step);
    } else {
      RetiringByOthers(s, s', step, p);
    }
  }

  lemma RetiringByItself(s: State, s': State, step: Step)
    requires Inv(s) && Enabled(s, step) && s' == Do(s, step) && IsProc(s', step.p) && Retiring(s'.procs[step.p])
    ensures s'.procs[step.p].killed <==> Retiring(s.procs[step.p]) && s.procs[step.p].killed
    ensures !(step.Kill? && step.q == step.p)
  {
    hide LocksOk, ForksOk, TreeOk, WakeupsOk, KidsOk, PidsOk;
    EntryFacts(s, step.p);
  }

  lemma RetiringByOthers(s: State, s': State, step: Step, p: int)
    requires Inv(s) && Enabled(s, step) && s' == Do(s, step) && IsProc(s, p) && IsProc(s', p) && Retiring(s'.procs[p])
    requires step.p != p
    ensures Retiring(s.procs[p]) && (s'.procs[p].killed <==>
              s.procs[p].killed || (step.Kill? && step.q == p && s.procs[p].pc == SleepEnter))
  {
    hide LocksOk, ForksOk, TreeOk, WakeupsOk, KidsOk, PidsOk, Do;
    EntryFacts(s, p);
    if step.Link? { ForkLinkFacts(s, step.p); }
    if step.Start? { ForkStartFacts(s, step.p); }
    StepOnOther(s, s', step, p);
  }

  /** Process p has been retiring from state j to state k. */
  ghost predicate RetiringSince(run: seq<State>, j: nat, k: nat, p: int) {
    k < |run| && forall m :: j <= m <= k ==> IsProc(run[m], p) && Retiring(run[m].procs[p])
  }

  /** A kkill that hit p between kwait's test of killed and sleep's taking of its lock, and p has not woken since. */
  ghost predicate HitTooLate(run: seq<State>, k: nat, p: int) {
    exists j: nat :: j < k && KillAt(run, j, p) && RetiringSince(run, j, k, p) && run[j].procs[p].pc == SleepEnter
  }

  lemma {:induction false} TooLateMarks(run: seq<State>, j: nat, k: nat, p: int)
    requires IsRun(run) && j < k < |run| && KillAt(run, j, p) && RetiringSince(run, j, k, p)
    requires run[j].procs[p].pc == SleepEnter
    ensures run[k].procs[p].killed
  {
    hide Do, Enabled, Retiring;
    var s, s' := run[k - 1], run[k - 1 + 1];
    RunKeepsInv(run, k - 1);
    if j == k - 1 {
      var q :| Enabled(s, Kill(q, p)) && s' == Do(s, Kill(q, p));
      RetiringStep(s, s', Kill(q, p), p);
    } else {
      TooLateMarks(run, j, k - 1, p);
      assert Next(s, s');
      var step :| Enabled(s, step) && s' == Do(s, step);
      RetiringStep(s, s', step, p);
    }
  }

  lemma {:induction false} MarkIsTooLate(run: seq<State>, k: nat, p: int)
    requires IsRun(run) && k < |run| && IsProc(run[k], p) && Retiring(run[k].procs[p]) && run[k].procs[p].killed
    ensures HitTooLate(run, k, p)
  {
    hide Do, Enabled, Retiring, ForksOk, TreeOk, WakeupsOk, KidsOk, PidsOk;
    if k > 0 {
      var s, s' := run[k - 1], run[k - 1 + 1];
      RunKeepsInv(run, k - 1);
      assert Next(s, s') && |s.procs| == NPROC;
      var step :| Enabled(s, step) && s' == Do(s, step);
      RetiringStep(s, s', step, p);
      if s.procs[p].killed {
        MarkIsTooLate(run, k - 1, p);
        var j: nat :| j < k - 1 && KillAt(run, j, p) && RetiringSince(run, j, k - 1, p) &&
          run[j].procs[p].pc == SleepEnter;
        assert RetiringSince(run, j, k, p);
      } else {
        assert Enabled(run[k - 1], Kill(step.p, p));
        assert KillAt(run, k - 1, p) && RetiringSince(run, k - 1, k, p);
      }
    }
  }

  /** In every run, a process that sleeps in kwait, or is about to, is killed if and only if a kkill has hit it between
      the test of killed and sleep's taking of the process's lock. */
  lemma KilledAsleep(run: seq<State>, k: nat, p: int)
    requires IsRun(run) && k < |run| && IsProc(run[k], p) && Retiring(run[k].procs[p])
    ensures run[k].procs[p].killed <==> HitTooLate(run, k, p)
  {
    if run[k].procs[p].killed {
      MarkIsTooLate(run, k, p);
    }
    if HitTooLate(run, k, p) {
      var j: nat :| j < k && KillAt(run, j, p) && RetiringSince(run, j, k, p) && run[j].procs[p].pc == SleepEnter;
      TooLateMarks(run, j, k, p);
    }
  }

  /** A run goes on with a step. */
  lemma Extend(run: seq<State>, step: Step) returns (run': seq<State>)
    requires IsRun(run) && Enabled(run[|run| - 1], step)
    ensures IsRun(run') && |run'| == |run| + 1 && run'[|run|] == Do(run[|run| - 1], step)
  {
    hide Do, Enabled, Init;
    var s := Do(run[|run| - 1], step);
    run' := run + [s];
    assert Next(run[|run| - 1], s);
    forall k | 0 <= k < |run'| - 1 ensures Next(run'[k], run'[k + 1]) {
      if k < |run| - 1 { assert Next(run[k], run[k + 1]); }
    }
  }

  /** initproc with its only child, which runs too, at entry i of kwait's scan. */
  ghost predicate InitWaits(s: State, pc: Pc, lock: int) {
    && |s.procs| == NPROC && s.waitLock == lock
    && s.procs[INIT] == Proc(RUNNING, NOBODY, NoChan, s.procs[INIT].killed, 1, 0, pc, 0)
    && s.procs[1] == Proc(RUNNING, INIT, NoChan, false, 2, 0, Outside, 0)
    && forall q :: 2 <= q < NPROC ==> s.procs[q] == Free
  }

  /** The scan passes all entries. */
  lemma {:induction false} ScanAll(run: seq<State>, i: nat) returns (run': seq<State>)
    requires IsRun(run) && i <= NPROC
    requires InitWaits(run[|run| - 1], WaitScan(i, i > 1), INIT) && !run[|run| - 1].procs[INIT].killed
    ensures IsRun(run') && InitWaits(run'[|run'| - 1], WaitScan(NPROC, true), INIT) &&
            !run'[|run'| - 1].procs[INIT].killed
    decreases NPROC - i
  {
    if i == NPROC {
      run' := run;
    } else {
      run' := Extend(run, Scan(INIT, true));
      run' := ScanAll(run', i + 1);
    }
  }

  /** initproc has a child and calls kwait. */
  lemma InitCallsWait() returns (run: seq<State>)
    ensures IsRun(run) && InitWaits(run[|run| - 1], WaitScan(0, false), INIT) && !run[|run| - 1].procs[INIT].killed
  {
    var first := Proc(RUNNABLE, NOBODY, NoChan, false, 1, 0, Outside, 0);
    run := [State(seq(NPROC, p => if p == INIT then first else Free), NOBODY, 2, [], map[])];
    run := Extend(run, Dispatch(INIT));
    run := Extend(run, Fork(INIT, 1));
    run := Extend(run, Link(INIT));
    run := Extend(run, Start(INIT));
    run := Extend(run, Dispatch(1));
    run := Extend(run, Wait(INIT));
  }

  /** The child's kkill hits initproc after its test; initproc goes to sleep although it is killed. */
  lemma KilledSleeps() returns (run: seq<State>)
    ensures IsRun(run)
    ensures IsProc(run[|run| - 1], INIT)
    ensures var x := run[|run| - 1].procs[INIT]; x.killed && x.state == SLEEPING && x.pc == Asleep
  {
    run := InitCallsWait();
    run := ScanAll(run, 0);
    run := Extend(run, Scan(INIT, true));
    run := Extend(run, Kill(1, INIT));
    run := Extend(run, LockSelf(INIT));
    run := Extend(run, DropWait(INIT));
    run := Extend(run, FallAsleep(INIT));
    run := Extend(run, SwitchOut(INIT));
  }
}
