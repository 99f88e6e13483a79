/** kfork, kexit, kwait, reparent, sleep, wakeup and kkill of kernel/proc.c as a step machine.

    A step is what one process does while it holds a spinlock that nobody else can see it holding: the
    check-and-set of one table entry under that entry's lock, or taking or dropping wait_lock. A
    process's own lock is modelled where it is held across steps: in sleep(), between acquiring it and
    the switch to the scheduler, and in kexit(), from setting ZOMBIE to the switch. */
module ProcMachine {

  const NPROC: nat := 64
  const INIT: int := 0      // the table index of initproc
  const NOBODY: int := -1

  datatype PState = UNUSED | USED | SLEEPING | RUNNABLE | RUNNING | ZOMBIE

  datatype Chan = NoChan | OnProc(p: int) | Elsewhere

  /** Where a process is in its kernel code. */
  datatype Pc =
    | Outside                            // in none of the functions below
    | ForkLink(child: int)               // kfork, before np->parent is set
    | ForkStart(child: int)              // kfork, before np->state is set
    | WaitScan(i: int, havekids: bool)   // kwait's table scan; holds wait_lock
    | SleepEnter                         // kwait, after its test of killed; holds wait_lock
    | SleepLocked                        // sleep: holds wait_lock and its own lock
    | SleepUnlocked                      // sleep: wait_lock dropped, not yet SLEEPING; holds its own lock
    | SleepSched                         // sleep: SLEEPING, in sched; holds its own lock
    | Asleep                             // switched out of sleep
    | Woken                              // sleep, before it takes wait_lock again
    | Reparent(i: int)                   // kexit in reparent's loop; holds wait_lock
    | ReparentWake(i: int, j: int)       // kexit in reparent's wakeup(initproc); holds wait_lock
    | WakeParent(j: int)                 // kexit in wakeup(p->parent); holds wait_lock
    | ExitLock                           // kexit, before it takes its own lock; holds wait_lock
    | Dying                              // kexit, ZOMBIE; holds wait_lock and its own lock
    | DyingSched                         // kexit, in sched; holds its own lock
    | Dead                               // switched out of kexit
    | AsleepElsewhere                    // asleep on some other channel

  /** A table entry, and where its process is; `status` is the argument of kexit, on the process's stack. */
  datatype Proc = Proc(state: PState, parent: int, chan: Chan, killed: bool, pid: int, xstate: int, pc: Pc, status: int)

  datatype Reap = Reap(pid: int, parent: int, status: int)

  datatype State = State(
    procs: seq<Proc>,
    waitLock: int,          // who holds wait_lock
    nextpid: int,
    reaped: seq<Reap>,      // history: the pids and statuses kwait has returned, and to whom
    exits: map<int, int>)   // history: the status that each pid has called kexit with

  ghost predicate IsProc(s: State, p: int) {
    |s.procs| == NPROC && 0 <= p < NPROC
  }

  /** Does the process hold its own lock between steps? */
  predicate HoldsOwn(pc: Pc) {
    pc.SleepLocked? || pc.SleepUnlocked? || pc.SleepSched? || pc.Dying? || pc.DyingSched?
  }

  predicate HoldsWait(pc: Pc) {
    || pc.WaitScan? || pc.SleepEnter? || pc.SleepLocked?
    || pc.Reparent? || pc.ReparentWake? || pc.WakeParent? || pc.ExitLock? || pc.Dying?
  }

  ghost predicate LockFree(s: State, p: int)
    requires IsProc(s, p)
  {
    !HoldsOwn(s.procs[p].pc)
  }

  ghost function Upd(s: State, p: int, x: Proc): State
    requires IsProc(s, p)
  {
    s.(procs := s.procs[p := x])
  }

  ghost function At(s: State, p: int, pc: Pc): State
    requires IsProc(s, p)
  {
    Upd(s, p, s.procs[p].(pc := pc))
  }

  datatype Step =
    | Dispatch(p: int) | Preempt(p: int)
    | Fork(p: int, c: int) | Link(p: int) | Start(p: int)
    | Exit(p: int, arg: int) | ReparentOne(p: int) | WakeInit(p: int) | WakeMine(p: int) | BecomeZombie(p: int)
    | DropWait(p: int) | SwitchOut(p: int)
    | Wait(p: int) | Scan(p: int, copied: bool) | LockSelf(p: int) | FallAsleep(p: int) | Resume(p: int)
    | Retake(p: int)
    | Kill(p: int, q: int) | SleepElsewhere(p: int) | WakeElsewhere(p: int)

  /** wakeup's work on one table entry: the entry's lock must be free. */
  ghost function WakeOne(s: State, j: int, chan: Chan): State
    requires IsProc(s, j)
  {
    if s.procs[j].state == SLEEPING && s.procs[j].chan == chan then Upd(s, j, s.procs[j].(state := RUNNABLE)) else s
  }

  /** freeproc's effect on the table entry. */
  const Free: Proc := Proc(UNUSED, NOBODY, NoChan, false, 0, 0, Outside, 0)

  ghost predicate Runs(s: State, p: int, pc: Pc) {
    IsProc(s, p) && s.procs[p].state == RUNNING && s.procs[p].pc == pc
  }

  ghost predicate Enabled(s: State, step: Step) {
    && IsProc(s, step.p)
    && var me := s.procs[step.p];
    match step
    case Dispatch(p) => me.state == RUNNABLE && !HoldsOwn(me.pc)
    case Preempt(p) => me.state == RUNNING && !HoldsOwn(me.pc) && !HoldsWait(me.pc)
    case Fork(p, c) => Runs(s, p, Outside) && IsProc(s, c) && s.procs[c].state == UNUSED
    case Link(p) => me.state == RUNNING && me.pc.ForkLink? && IsProc(s, me.pc.child) && s.waitLock == NOBODY
    case Start(p) => me.state == RUNNING && me.pc.ForkStart? && IsProc(s, me.pc.child) && LockFree(s, me.pc.child)
    case Exit(p, arg) => Runs(s, p, Outside) && p != INIT && s.waitLock == NOBODY
    case ReparentOne(p) => me.state == RUNNING && me.pc.Reparent? && 0 <= me.pc.i <= NPROC
    case WakeInit(p) =>
      me.state == RUNNING && me.pc.ReparentWake? && 0 <= me.pc.j <= NPROC
      && (me.pc.j < NPROC && me.pc.j != p ==> LockFree(s, me.pc.j))
    case WakeMine(p) =>
      me.state == RUNNING && me.pc.WakeParent? && 0 <= me.pc.j <= NPROC
      && (me.pc.j < NPROC && me.pc.j != p ==> LockFree(s, me.pc.j))
    case BecomeZombie(p) => Runs(s, p, ExitLock)
    case DropWait(p) => me.pc == SleepLocked || me.pc == Dying
    case SwitchOut(p) => me.pc == SleepSched || me.pc == DyingSched
    case Wait(p) => Runs(s, p, Outside) && s.waitLock == NOBODY
    case Scan(p, copied) =>
      me.state == RUNNING && me.pc.WaitScan? && 0 <= me.pc.i <= NPROC
      && (me.pc.i < NPROC && s.procs[me.pc.i].parent == p ==> LockFree(s, me.pc.i))
    case LockSelf(p) => Runs(s, p, SleepEnter)
    case FallAsleep(p) => me.pc == SleepUnlocked
    case Resume(p) => Runs(s, p, Asleep)
    case Retake(p) => Runs(s, p, Woken) && s.waitLock == NOBODY
    case Kill(p, q) => Runs(s, p, Outside) && IsProc(s, q) && LockFree(s, q)
    case SleepElsewhere(p) => Runs(s, p, Outside)
    case WakeElsewhere(p) => me.state == SLEEPING && me.chan == Elsewhere
  }

  ghost function Do(s: State, step: Step): State
    requires Enabled(s, step)
  {
    var p := step.p;
    var me := s.procs[p];
    match step
    case Dispatch(_) => Upd(s, p, me.(state := RUNNING, pc := if me.pc == AsleepElsewhere then Outside else me.pc))
    case Preempt(_) => Upd(s, p, me.(state := RUNNABLE))
    case Fork(_, c) =>
      At(Upd(s, c, s.procs[c].(state := USED, pid := s.nextpid)), p, ForkLink(c)).(nextpid := s.nextpid + 1)
    case Link(_) => At(Upd(s, me.pc.child, s.procs[me.pc.child].(parent := p)), p, ForkStart(me.pc.child))
    case Start(_) => At(Upd(s, me.pc.child, s.procs[me.pc.child].(state := RUNNABLE)), p, Outside)
    case Exit(_, arg) =>
      Upd(s, p, me.(pc := Reparent(0), status := arg)).(waitLock := p, exits := s.exits[me.pid := arg])
    case ReparentOne(_) => DoReparent(s, p, me.pc.i)
    case WakeInit(_) => DoWakeInit(s, p, me.pc.i, me.pc.j)
    case WakeMine(_) => DoWakeMine(s, p, me.pc.j)
    case BecomeZombie(_) => Upd(s, p, me.(xstate := me.status, state := ZOMBIE, pc := Dying))
    case DropWait(_) => At(s, p, if me.pc == Dying then DyingSched else SleepUnlocked).(waitLock := NOBODY)
    case SwitchOut(_) => At(s, p, if me.pc == DyingSched then Dead else Asleep)
    case Wait(_) => At(s, p, WaitScan(0, false)).(waitLock := p)
    case Scan(_, copied) => DoScan(s, p, me.pc.i, me.pc.havekids, copied)
    case LockSelf(_) => At(s, p, SleepLocked)
    case FallAsleep(_) => Upd(s, p, me.(chan := OnProc(p), state := SLEEPING, pc := SleepSched))
    case Resume(_) => Upd(s, p, me.(chan := NoChan, pc := Woken))
    case Retake(_) => At(s, p, WaitScan(0, false)).(waitLock := p)
    case Kill(_, q) =>
      var x := s.procs[q];
      Upd(s, q, x.(killed := true, state := if x.state == SLEEPING then RUNNABLE else x.state))
    case SleepElsewhere(_) => Upd(s, p, me.(chan := Elsewhere, state := SLEEPING, pc := AsleepElsewhere))
    case WakeElsewhere(_) => Upd(s, p, me.(state := RUNNABLE, chan := NoChan))
  }

  ghost function DoReparent(s: State, p: int, i: int): State
    requires IsProc(s, p) && 0 <= i <= NPROC
  {
    if i == NPROC then At(s, p, WakeParent(0))
    else if s.procs[i].parent == p then At(Upd(s, i, s.procs[i].(parent := INIT)), p, ReparentWake(i, 0))
    else At(s, p, Reparent(i + 1))
  }

  ghost function DoWakeInit(s: State, p: int, i: int, j: int): State
    requires IsProc(s, p) && 0 <= j <= NPROC
  {
    if j == NPROC then At(s, p, Reparent(i + 1))
    else At(if j == p then s else WakeOne(s, j, OnProc(INIT)), p, ReparentWake(i, j + 1))
  }

  ghost function DoWakeMine(s: State, p: int, j: int): State
    requires IsProc(s, p) && 0 <= j <= NPROC
  {
    if j == NPROC then At(s, p, ExitLock)
    else At(if j == p then s else WakeOne(s, j, OnProc(s.procs[p].parent)), p, WakeParent(j + 1))
  }

  /** One entry of kwait's scan. A zombie child is reaped unless its status cannot be copied out; after
      the last entry the caller gives up or goes to sleep. */
  ghost function DoScan(s: State, p: int, i: int, havekids: bool, copied: bool): State
    requires IsProc(s, p) && 0 <= i <= NPROC
  {
    if i == NPROC then
      if !havekids || s.procs[p].killed then At(s, p, Outside).(waitLock := NOBODY) else At(s, p, SleepEnter)
    else if s.procs[i].parent != p then At(s, p, WaitScan(i + 1, havekids))
    else if s.procs[i].state != ZOMBIE then At(s, p, WaitScan(i + 1, true))
    else if !copied then At(s, p, Outside).(waitLock := NOBODY)
    else
      At(Upd(s, i, Free), p, Outside)
      .(waitLock := NOBODY, reaped := s.reaped + [Reap(s.procs[i].pid, p, s.procs[i].xstate)])
  }

  ghost predicate Init(s: State) {
    && |s.procs| == NPROC && s.waitLock == NOBODY && s.nextpid == 2 && s.reaped == [] && s.exits == map[]
    && s.procs[INIT] == Proc(RUNNABLE, NOBODY, NoChan, false, 1, 0, Outside, 0)
    && forall p :: 0 <= p < NPROC && p != INIT ==> s.procs[p] == Free
  }

  ghost predicate Next(s: State, s': State) {
    exists step :: Enabled(s, step) && s' == Do(s, step)
  }

  ghost predicate IsRun(run: seq<State>) {
    && |run| > 0 && Init(run[0])
    && forall k :: 0 <= k < |run| - 1 ==> Next(run[k], run[k + 1])
  }
}
