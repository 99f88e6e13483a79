/** Log space: begin_op's reservation against log_write's "too big a transaction" check.

    The check compares lh.n with LOGBLOCKS before it looks for an earlier entry, so an operation
    that has logged MAXOPBLOCKS distinct blocks can be stopped by a block it has logged before. */
module LogReservation {
  import opened Basics
  import opened LogMachine
  import opened LogSafety

  /** The log space that the running operations may still take. */
  ghost function Unspent(active: map<OpId, set<int>>): int
    decreases |active|
  {
    if active.Keys == {} then 0
    else
      var op :| op in active.Keys;
      SizeAfterDrop(active, op);
      MAXOPBLOCKS - |active[op]| + Unspent(active - {op})
  }

  lemma {:induction false} UnspentWithout(active: map<OpId, set<int>>, op: OpId)
    requires op in active
    ensures Unspent(active) == MAXOPBLOCKS - |active[op]| + Unspent(active - {op})
    decreases |active|
  {
    SizeAfterDrop(active, op);
    var c :| c in active && Unspent(active) == MAXOPBLOCKS - |active[c]| + Unspent(active - {c});
    if c != op {
      SizeAfterDrop(active, c);
      UnspentWithout(active - {c}, op);
      UnspentWithout(active - {op}, c);
      assert active - {c} - {op} == active - {op} - {c};
    }
  }

  lemma {:induction false} UnspentBounds(active: map<OpId, set<int>>)
    requires forall op :: op in active ==> |active[op]| <= MAXOPBLOCKS
    ensures 0 <= Unspent(active) <= |active| * MAXOPBLOCKS
    decreases |active|
  {
    if op :| op in active {
      SizeAfterDrop(active, op);
      UnspentBounds(active - {op});
      UnspentWithout(active, op);
    }
  }

  /** A log_write by an operation that has so far logged fewer than MAXOPBLOCKS distinct blocks. */
  ghost predicate Thrifty(s: State, step: Step)
    requires WellFormed(s) && Enabled(s, step)
  {
    step.LogWrite? ==> |s.active[step.op]| < MAXOPBLOCKS
  }

  ghost predicate ThriftyNext(s: State, s': State) {
    WellFormed(s) && exists step :: Enabled(s, step) && Thrifty(s, step) && s' == Do(s, step)
  }

  ghost predicate IsThriftyRun(run: seq<State>) {
    && |run| > 0 && Init(run[0])
    && forall i :: 0 <= i < |run| - 1 ==> ThriftyNext(run[i], run[i + 1])
  }

  /** Entries plus unspent budgets fit the log, and what an operation has logged is in the log. */
  ghost predicate Reserved(s: State) {
    && s.pc != Panicked
    && s.outstanding == |s.active|
    && (s.pc != Running ==> s.active == map[])
    && (s.pc == Running ==>
          && |s.lh| + Unspent(s.active) <= LOGBLOCKS
          && (forall op :: op in s.active ==> |s.active[op]| <= MAXOPBLOCKS)
          && (forall op, b :: op in s.active && b in s.active[op] ==> b in s.lh))
  }

  lemma BeginReserves(s: State, s': State, op: OpId)
    requires Reserved(s) && CanBegin(s, op) && op !in s.active && s' == DoBegin(s, op)
    ensures Reserved(s')
  {
    UnspentBounds(s.active);
    UnspentWithout(s'.active, op);
    SizeAfterAdd(s.active, op, {});
    assert s'.active - {op} == s.active;
  }

  lemma LogWriteReserves(s: State, s': State, op: OpId, b: int)
    requires WellFormed(s) && HeadersOk(s) && Reserved(s) && CanLogWrite(s, op, b)
    requires |s.active[op]| < MAXOPBLOCKS && s' == DoLogWrite(s, op, b)
    ensures Reserved(s') && s'.pc == Running
  {
    var rest := s.active - {op};
    UnspentWithout(s.active, op);
    UnspentBounds(rest);
    assert |s.lh| < LOGBLOCKS;
    assert s'.active - {op} == rest;
    UnspentWithout(s'.active, op);
    SizeAfterAdd(s.active, op, s'.active[op]);
    AddedEntry(s.lh, s'.lh, b);
    if b in s.active[op] {
      assert s.active[op] + {b} == s.active[op];
      assert b in s.lh;
    }
  }

  lemma EndReserves(s: State, s': State, op: OpId)
    requires Reserved(s) && CanEnd(s, op) && s' == DoEnd(s, op)
    ensures Reserved(s')
  {
    SizeAfterDrop(s.active, op);
    UnspentWithout(s.active, op);
  }

  lemma StepReserves(s: State, s': State, step: Step)
    requires WellFormed(s) && HeadersOk(s) && Reserved(s) && Enabled(s, step) && Thrifty(s, step) && s' == Do(s, step)
    requires forall op :: op in s.active ==> op in s.used
    ensures Reserved(s')
  {
    match step {
      case Begin(op) => BeginReserves(s, s', op);
      case LogWrite(op, b) => LogWriteReserves(s, s', op, b);
      case End(op) => EndReserves(s, s', op);
      case _ =>
    }
  }

  lemma ThriftyRunIsRun(run: seq<State>)
    requires IsThriftyRun(run)
    ensures IsRun(run)
  {
    forall i | 0 <= i < |run| - 1
      ensures Next(run[i], run[i + 1])
    {
      assert ThriftyNext(run[i], run[i + 1]);
    }
  }

  /** If every operation has logged fewer than MAXOPBLOCKS distinct blocks each time it calls
      log_write, then in every interleaving the log never overflows, the check never fires, and
      entries plus unspent budgets never exceed LOGBLOCKS. */
  lemma {:induction false} ReservationHolds(run: seq<State>, i: nat)
    requires IsThriftyRun(run) && i < |run|
    ensures run[i].pc != Panicked
    ensures Reserved(run[i])
  {
    hide Do, Enabled, Thrifty, Reserved, WellFormed, HeadersOk, Recoverable, PhaseOk;
    ThriftyRunIsRun(run);
    RunKeepsInv(run, i);
    if i == 0 {
      InitReserved(run[0]);
    } else {
      ReservationHolds(run, i - 1);
      RunKeepsInv(run, i - 1);
      assert ThriftyNext(run[i - 1], run[i - 1 + 1]);
      var step :| Enabled(run[i - 1], step) && Thrifty(run[i - 1], step) && run[i] == Do(run[i - 1], step);
      StepReserves(run[i - 1], run[i], step);
    }
    NotPanicked(run[i]);
  }

  lemma InitReserved(s: State)
    requires Init(s)
    ensures Reserved(s)
  {
  }

  lemma NotPanicked(s: State)
    requires Reserved(s)
    ensures s.pc != Panicked
  {
  }

  // ---------------------------------------------------------------- the exact condition

  function Blocks(w: seq<int>): set<int> {
    set b | b in w
  }

  /** Each block of the list is logged after fewer than MAXOPBLOCKS distinct ones. */
  ghost predicate WithinBudget(w: seq<int>) {
    forall k :: 0 <= k < |w| ==> |Blocks(w[..k])| < MAXOPBLOCKS
  }

  /** The blocks an operation has logged, in order. */
  ghost function LoggedBy(writes: seq<Write>, op: OpId): seq<int> {
    if writes == [] then []
    else
      var k := |writes| - 1;
      LoggedBy(writes[..k], op) + if writes[k].op == op then [writes[k].blockno] else []
  }

  /** Operation `op` may log the next block of the list w; the others are thrifty. */
  ghost predicate Follows(s: State, step: Step, op: OpId, w: seq<int>)
    requires WellFormed(s) && Enabled(s, step)
  {
    step.LogWrite? ==>
      if step.op == op then LoggedBy(s.writes, op) + [step.blockno] <= w
      else |s.active[step.op]| < MAXOPBLOCKS
  }

  ghost predicate FollowsNext(s: State, s': State, op: OpId, w: seq<int>) {
    WellFormed(s) && exists step :: Enabled(s, step) && Follows(s, step, op, w) && s' == Do(s, step)
  }

  /** A run in which operation `op` logs blocks of w in order, among thrifty operations. */
  ghost predicate IsRunOf(run: seq<State>, op: OpId, w: seq<int>) {
    && |run| > 0 && Init(run[0])
    && forall i :: 0 <= i < |run| - 1 ==> FollowsNext(run[i], run[i + 1], op, w)
  }

  lemma LoggedBySnoc(writes: seq<Write>, w: Write, op: OpId)
    ensures LoggedBy(writes + [w], op) == LoggedBy(writes, op) + if w.op == op then [w.blockno] else []
  {
    assert (writes + [w])[..|writes|] == writes;
  }

  /** The blocks charged to a running operation are those it has logged. */
  ghost predicate Charged(s: State, op: OpId) {
    && (op in s.active ==> s.active[op] == Blocks(LoggedBy(s.writes, op)))
    && (op !in s.used ==> LoggedBy(s.writes, op) == [])
    && (op in s.active ==> op in s.used)
  }

  lemma StepKeepsCharged(s: State, s': State, step: Step, op: OpId)
    requires WellFormed(s) && Charged(s, op) && Enabled(s, step) && s' == Do(s, step)
    requires step.Crash? ==> op in s.used || LoggedBy(s.writes[..s.cut], op) == []
    ensures Charged(s', op)
  {
    if step.LogWrite? && |s.lh| < LOGBLOCKS {
      LoggedBySnoc(s.writes, Write(step.op, step.blockno, s.cache[step.blockno]), op);
    }
  }

  lemma {:induction false} NothingLoggedBefore(writes: seq<Write>, k: nat, op: OpId)
    requires k <= |writes| && LoggedBy(writes, op) == []
    ensures LoggedBy(writes[..k], op) == []
  {
    if k < |writes| {
      var m := |writes| - 1;
      NothingLoggedBefore(writes[..m], k, op);
      assert writes[..m][..k] == writes[..k];
    } else {
      assert writes[..k] == writes;
    }
  }

  lemma {:induction false} FollowingIsThrifty(run: seq<State>, op: OpId, w: seq<int>, i: nat)
    requires IsRunOf(run, op, w) && WithinBudget(w) && i < |run|
    ensures IsThriftyRun(run[..i + 1]) && Charged(run[i], op)
  {
    hide Do, Enabled;
    if i == 0 {
      assert run[..1] == [run[0]];
    } else {
      FollowingIsThrifty(run, op, w, i - 1);
      var s, s' := run[i - 1], run[i - 1 + 1];
      assert FollowsNext(s, s', op, w);
      var step :| Enabled(s, step) && Follows(s, step, op, w) && s' == Do(s, step);
      FollowsIsThrifty(s, step, op, w);
      assert ThriftyNext(s, s');
      var prefix := run[..i];
      assert run[..i + 1] == prefix + [s'];
      if op !in s.used { NothingLoggedBefore(s.writes, s.cut, op); }
      StepKeepsCharged(s, s', step, op);
    }
  }

  lemma FollowsIsThrifty(s: State, step: Step, op: OpId, w: seq<int>)
    requires WellFormed(s) && Enabled(s, step) && Follows(s, step, op, w) && Charged(s, op) && WithinBudget(w)
    ensures Thrifty(s, step)
  {
    if step.LogWrite? && step.op == op {
      var done := LoggedBy(s.writes, op);
      assert w[..|done|] == done;
    }
  }

  /** s ends a run in which operation `op` logs blocks of w in order, among thrifty operations. */
  ghost predicate Reached(s: State, op: OpId, w: seq<int>) {
    exists run :: IsRunOf(run, op, w) && run[|run| - 1] == s
  }

  lemma Extend(s: State, op: OpId, w: seq<int>, step: Step)
    requires Reached(s, op, w) && WellFormed(s) && Enabled(s, step) && Follows(s, step, op, w)
    ensures Reached(Do(s, step), op, w)
  {
    hide WellFormed, Enabled, Follows, Do;
    var run :| IsRunOf(run, op, w) && run[|run| - 1] == s;
    var run' := run + [Do(s, step)];
    forall i | 0 <= i < |run'| - 1
      ensures FollowsNext(run'[i], run'[i + 1], op, w)
    {
      assert i < |run| - 1 ==> FollowsNext(run[i], run[i + 1], op, w);
    }
    assert IsRunOf(run', op, w);
  }

  /** A running system in which nobody holds a changed buffer and `op` may log more. */
  ghost predicate Ready(s: State, op: OpId) {
    WellFormed(s) && s.pc == Running && s.held == map[] && op in s.active && Distinct(s.lh)
  }

  lemma ChangeOne(s: State, victim: OpId, w: seq<int>, op: OpId, b: int) returns (s1: State)
    requires Reached(s, victim, w) && Ready(s, op) && b in s.init
    ensures Reached(s1, victim, w) && WellFormed(s1) && s1 == s.(cache := s.cache[b := []], held := map[b := op])
  {
    hide Reached, Distinct;
    s1 := Do(s, Modify(op, b, []));
    Extend(s, victim, w, Modify(op, b, []));
  }

  /** One block is changed and logged. */
  lemma LogOne(s: State, victim: OpId, w: seq<int>, op: OpId, b: int) returns (s': State)
    requires Reached(s, victim, w) && Ready(s, op) && b in s.init && |s.lh| < LOGBLOCKS
    requires if op == victim then LoggedBy(s.writes, op) + [b] <= w else |s.active[op]| < MAXOPBLOCKS
    ensures Reached(s', victim, w) && Ready(s', op) && s'.init == s.init
    ensures s'.active == s.active[op := s.active[op] + {b}]
    ensures LoggedBy(s'.writes, victim) == LoggedBy(s.writes, victim) + (if op == victim then [b] else [])
    ensures s'.lh == (if b in s.lh then s.lh else s.lh + [b]) && s'.outstanding == s.outstanding
  {
    hide Reached, LoggedBy;
    var s1 := ChangeOne(s, victim, w, op, b);
    s' := Do(s1, LogWrite(op, b));
    Extend(s1, victim, w, LogWrite(op, b));
    AddedEntry(s.lh, s'.lh, b);
    LoggedBySnoc(s.writes, Write(op, b, []), victim);
    assert s'.held == map[];
  }

  /** The header after a list of blocks has been logged. */
  ghost function Entered(lh: seq<int>, bs: seq<int>): seq<int> {
    if bs == [] then lh
    else
      var r, b := Entered(lh, bs[..|bs| - 1]), bs[|bs| - 1];
      if b in r then r else r + [b]
  }

  lemma {:induction false} EnteredFacts(lh: seq<int>, bs: seq<int>)
    requires forall b :: b in bs ==> b !in lh
    ensures forall c :: c in Entered(lh, bs) <==> c in bs || c in lh
    ensures |Entered(lh, bs)| == |lh| + |Blocks(bs)|
    ensures Distinct(bs) ==> Entered(lh, bs) == lh + bs
  {
    hide Blocks;
    if bs == [] {
      NoBlocks();
    } else {
      var k := |bs| - 1;
      var front, b := bs[..k], bs[k];
      assert bs == front + [b];
      EnteredFacts(lh, front);
      BlocksSnoc(front, b);
    }
  }

  lemma EnteredSnoc(lh: seq<int>, bs: seq<int>, b: int)
    ensures Entered(lh, []) == lh
    ensures Entered(lh, bs + [b]) == var r := Entered(lh, bs); if b in r then r else r + [b]
  {
    assert (bs + [b])[..|bs|] == bs;
  }

  /** A list of blocks that are not yet in the log is changed and logged. */
  lemma {:induction false} LogMany(s: State, victim: OpId, w: seq<int>, op: OpId, bs: seq<int>) returns (s': State)
    requires Reached(s, victim, w) && Ready(s, op) && s.active[op] == {} && LoggedBy(s.writes, victim) == []
    requires forall b :: b in bs ==> b in s.init && b !in s.lh
    requires forall j :: 0 <= j < |bs| ==> |s.lh| + |Blocks(bs[..j])| < LOGBLOCKS
    requires if op == victim then bs <= w else forall j :: 0 <= j < |bs| ==> |Blocks(bs[..j])| < MAXOPBLOCKS
    ensures Reached(s', victim, w) && Ready(s', op) && s'.init == s.init && s'.outstanding == s.outstanding
    ensures s'.active == s.active[op := Blocks(bs)] && s'.lh == Entered(s.lh, bs)
    ensures LoggedBy(s'.writes, victim) == if op == victim then bs else []
  {
    hide Reached, LoggedBy, WellFormed, Entered, Blocks, Distinct;
    if bs == [] {
      s' := s;
      NoBlocks();
      EnteredSnoc(s.lh, [], 0);
      assert s.active == s.active[op := {}];
    } else {
      var k := |bs| - 1;
      var front, b := bs[..k], bs[k];
      assert bs == front + [b];
      assert forall j :: 0 <= j < k ==> front[..j] == bs[..j];
      var s1 := LogMany(s, victim, w, op, front);
      EnteredFacts(s.lh, front);
      assert |s1.lh| == |s.lh| + |Blocks(bs[..k])|;
      s' := LogOne(s1, victim, w, op, b);
      BlocksSnoc(front, b);
      EnteredSnoc(s.lh, front, b);
      assert s'.active == s.active[op := Blocks(bs)];
    }
  }

  lemma BlocksSnoc(front: seq<int>, b: int)
    ensures Blocks(front + [b]) == Blocks(front) + {b}
    ensures |Blocks(front + [b])| == if b in front then |Blocks(front)| else |Blocks(front)| + 1
  {
    forall c: int | c in Blocks(front + [b]) || c in Blocks(front) + {b}
      ensures c in Blocks(front + [b]) && c in Blocks(front) + {b}
    {
    }
    if b in front { assert Blocks(front) + {b} == Blocks(front); }
  }

  /** The numbers lo, lo + 1, ..., lo + n - 1. */
  function Range(lo: int, n: nat): (r: seq<int>)
  {
    seq(n, i => lo + i)
  }

  lemma NoBlocks()
    ensures Blocks([]) == {}
  {
  }

  lemma {:induction false} AboveAll(w: seq<int>) returns (m: int)
    ensures forall b :: b in w ==> b < m
  {
    if w == [] {
      m := 0;
    } else {
      m := AboveAll(w[1..]);
      if m <= w[0] { m := w[0] + 1; }
      assert forall b :: b in w ==> b == w[0] || b in w[1..];
    }
  }

  /** The first prefix of an over-budget list that has MAXOPBLOCKS distinct blocks. */
  lemma {:induction false} FirstOverBudget(w: seq<int>, n: nat) returns (k: nat)
    requires n < |w| && |Blocks(w[..n])| >= MAXOPBLOCKS
    ensures k < |w| && |Blocks(w[..k])| == MAXOPBLOCKS
    ensures forall j :: 0 <= j < k ==> |Blocks(w[..j])| < MAXOPBLOCKS
  {
    k := 0;
    assert Blocks(w[..0]) == {};
    while k < n && |Blocks(w[..k])| < MAXOPBLOCKS
      invariant k <= n && |Blocks(w[..k])| <= MAXOPBLOCKS
      invariant forall j :: 0 <= j < k ==> |Blocks(w[..j])| < MAXOPBLOCKS
    {
      assert w[..k + 1] == w[..k] + [w[k]];
      BlocksSnoc(w[..k], w[k]);
      k := k + 1;
    }
  }

  ghost function InitialState(blocks: set<int>): State {
    var home := map b | b in blocks :: [];
    State(Disk([], seq(LOGBLOCKS, _ => []), home), home, [], 0, false, Running, map[], map[],
          home, [], 0, home, home, {}, {})
  }

  /** Three operations begin on an empty log. */
  lemma ThreeBegin(blocks: set<int>, w: seq<int>) returns (s: State)
    ensures Reached(s, Op(0), w) && forall i :: 0 <= i < 3 ==> Ready(s, Op(i)) && s.active[Op(i)] == {}
    ensures s.lh == [] && LoggedBy(s.writes, Op(0)) == [] && s.init.Keys == blocks
    ensures s.outstanding == 3 && s.active.Keys == {Op(0), Op(1), Op(2)}
  {
    var s0 := InitialState(blocks);
    assert Init(s0);
    assert Reached(s0, Op(0), w) by {
      assert IsRunOf([s0], Op(0), w);
    }
    hide Reached;
    Extend(s0, Op(0), w, Begin(Op(0)));
    var s1 := Do(s0, Begin(Op(0)));
    Extend(s1, Op(0), w, Begin(Op(1)));
    var s2 := Do(s1, Begin(Op(1)));
    Extend(s2, Op(0), w, Begin(Op(2)));
    s := Do(s2, Begin(Op(2)));
  }

  lemma {:induction false} DistinctBlocks(w: seq<int>, k: nat)
    requires Distinct(w) && k <= |w|
    ensures |Blocks(w[..k])| == k
  {
    hide Blocks;
    if k == 0 {
      NoBlocks();
      assert w[..k] == [];
    } else {
      DistinctBlocks(w, k - 1);
      assert w[..k] == w[..k - 1] + [w[k - 1]];
      BlocksSnoc(w[..k - 1], w[k - 1]);
    }
  }

  /** An operation logs up to MAXOPBLOCKS distinct blocks that nobody has logged. */
  lemma LogNew(s: State, victim: OpId, w: seq<int>, op: OpId, bs: seq<int>) returns (s': State)
    requires Reached(s, victim, w) && Ready(s, op) && s.active[op] == {} && LoggedBy(s.writes, victim) == []
    requires Distinct(bs) && |bs| <= MAXOPBLOCKS && |s.lh| + |bs| <= LOGBLOCKS && (op == victim ==> bs == w)
    requires forall b :: b in bs ==> b in s.init && b !in s.lh
    ensures Reached(s', victim, w) && Ready(s', op) && s'.init == s.init && s'.outstanding == s.outstanding
    ensures s'.active == s.active[op := Blocks(bs)] && s'.lh == s.lh + bs
    ensures op != victim ==> LoggedBy(s'.writes, victim) == []
  {
    hide Reached, LoggedBy, WellFormed, Entered, Blocks;
    forall k | 0 <= k < |bs| ensures |Blocks(bs[..k])| == k { DistinctBlocks(bs, k); }
    EnteredFacts(s.lh, bs);
    s' := LogMany(s, victim, w, op, bs);
  }

  /** Two operations fill all but MAXOPBLOCKS entries of the log with blocks that are not in w. */
  lemma FillLog(w: seq<int>) returns (s: State)
    ensures Reached(s, Op(0), w) && Ready(s, Op(0)) && |s.lh| == 2 * MAXOPBLOCKS
    ensures s.active[Op(0)] == {} && LoggedBy(s.writes, Op(0)) == []
    ensures forall b :: b in w ==> b in s.init && b !in s.lh
  {
    hide Reached, LoggedBy, WellFormed;
    var m := AboveAll(w);
    var one, two := Range(m, MAXOPBLOCKS), Range(m + MAXOPBLOCKS, MAXOPBLOCKS);
    assert Distinct(one) && Distinct(two) && forall b :: b in two ==> b !in one;
    var s0 := ThreeBegin(Blocks(w) + Blocks(one) + Blocks(two), w);
    hide Range, Distinct;
    assert Ready(s0, Op(1)) && Ready(s0, Op(2)) && Ready(s0, Op(0));
    var s1 := LogNew(s0, Op(0), w, Op(1), one);
    s := LogNew(s1, Op(0), w, Op(2), two);
  }

  /** An operation that goes over budget can be stopped by two operations that stay within theirs. */
  lemma OverBudgetPanics(w: seq<int>) returns (s: State)
    requires !WithinBudget(w)
    ensures Reached(s, Op(0), w) && s.pc == Panicked
  {
    hide Reached, LoggedBy, Entered, Blocks, Distinct;
    var n :| 0 <= n < |w| && |Blocks(w[..n])| >= MAXOPBLOCKS;
    var k := FirstOverBudget(w, n);
    var s0 := FillLog(w);
    assert forall j :: 0 <= j < k ==> w[..k][..j] == w[..j];
    var s1 := LogMany(s0, Op(0), w, Op(0), w[..k]);
    EnteredFacts(s0.lh, w[..k]);
    assert w[..k] + [w[k]] <= w;
    var s2 := Do(s1, Modify(Op(0), w[k], []));
    Extend(s1, Op(0), w, Modify(Op(0), w[k], []));
    Extend(s2, Op(0), w, LogWrite(Op(0), w[k]));
    s := Do(s2, LogWrite(Op(0), w[k]));
  }

  /** The exact condition: among operations that stay within budget, an operation can log the blocks
      w in every interleaving without the check firing if and only if each block of w is logged
      after fewer than MAXOPBLOCKS distinct ones. */
  lemma BudgetIsExact(w: seq<int>)
    ensures WithinBudget(w) <==> forall s :: Reached(s, Op(0), w) ==> s.pc != Panicked
  {
    if WithinBudget(w) {
      forall s | Reached(s, Op(0), w)
        ensures s.pc != Panicked
      {
        var run :| IsRunOf(run, Op(0), w) && run[|run| - 1] == s;
        var i := |run| - 1;
        FollowingIsThrifty(run, Op(0), w, i);
        assert run[..i + 1] == run;
        ReservationHolds(run, i);
      }
    } else {
      var s := OverBudgetPanics(w);
    }
  }

  /** Ten distinct blocks followed by one of them again: within the space reserved, and still stopped. */
  lemma RewriteCanPanic()
    ensures var w := Range(0, MAXOPBLOCKS) + [0];
      |Blocks(w)| <= MAXOPBLOCKS && exists s :: Reached(s, Op(0), w) && s.pc == Panicked
  {
    var r := Range(0, MAXOPBLOCKS);
    var w := r + [0];
    DistinctBlocks(r, MAXOPBLOCKS);
    assert r[..MAXOPBLOCKS] == r == w[..MAXOPBLOCKS];
    assert r[0] == 0;
    BlocksSnoc(r, 0);
    var s := OverBudgetPanics(w);
  }

  // ---------------------------------------------------------------- what a header can hold when a commit starts

  lemma Parts(one: seq<int>, two: seq<int>, three: seq<int>)
    requires Distinct(one + two + three)
    ensures Distinct(one) && Distinct(two) && Distinct(three)
    ensures forall b :: b in two ==> b !in one
    ensures forall b :: b in three ==> b !in one + two
  {
    var all := one + two + three;
    forall k | 0 <= k < |one| ensures one[k] == all[k] {}
    forall k | 0 <= k < |two| ensures two[k] == all[|one| + k] {}
    forall k | 0 <= k < |three| ensures three[k] == all[|one| + |two| + k] {}
  }

  /** Three operations log these blocks, at most MAXOPBLOCKS each. */
  lemma LogThree(one: seq<int>, two: seq<int>, three: seq<int>) returns (s: State)
    requires |one| <= MAXOPBLOCKS && |two| <= MAXOPBLOCKS && |three| <= MAXOPBLOCKS && Distinct(one + two + three)
    ensures Reached(s, Op(0), three) && s.lh == one + two + three && s.outstanding == 3
    ensures Ready(s, Op(0)) && Ready(s, Op(1)) && Ready(s, Op(2))
  {
    Parts(one, two, three);
    hide Reached, LoggedBy, WellFormed, Distinct;
    var s0 := ThreeBegin(Blocks(one + two + three), three);
    assert Ready(s0, Op(0)) && Ready(s0, Op(1)) && Ready(s0, Op(2));
    var s1 := LogNew(s0, Op(0), three, Op(1), one);
    var s2 := LogNew(s1, Op(0), three, Op(2), two);
    s := LogNew(s2, Op(0), three, Op(0), three);
  }

  /** The last of three operations to end starts the commit. */
  lemma EndThree(s0: State, w: seq<int>) returns (s: State)
    requires Reached(s0, Op(0), w) && s0.outstanding == 3 && s0.lh != []
    requires Ready(s0, Op(0)) && Ready(s0, Op(1)) && Ready(s0, Op(2))
    ensures Reached(s, Op(0), w) && s.pc == WritingLog(0) && s.lh == s0.lh
  {
    hide Reached, Distinct;
    var s1 := Do(s0, End(Op(0)));
    Extend(s0, Op(0), w, End(Op(0)));
    var s2 := Do(s1, End(Op(1)));
    Extend(s1, Op(0), w, End(Op(1)));
    s := Do(s2, End(Op(2)));
    Extend(s2, Op(0), w, End(Op(2)));
  }

  /** A commit can start with any header of up to LOGBLOCKS distinct blocks, although every operation has kept to
      its budget. */
  lemma CommitWithHeader(blocks: seq<int>) returns (run: seq<State>, s: State)
    requires 0 < |blocks| <= LOGBLOCKS && Distinct(blocks)
    ensures IsThriftyRun(run) && s == run[|run| - 1] && s.pc == WritingLog(0) && s.lh == blocks
  {
    var n := |blocks|;
    var a, b := if n < MAXOPBLOCKS then n else MAXOPBLOCKS, if n < 2 * MAXOPBLOCKS then n else 2 * MAXOPBLOCKS;
    var one, two, three := blocks[..a], blocks[a..b], blocks[b..];
    assert one + two + three == blocks;
    var s0 := LogThree(one, two, three);
    s := EndThree(s0, three);
    run :| IsRunOf(run, Op(0), three) && run[|run| - 1] == s;
    assert WithinBudget(three) by {
      forall k | 0 <= k < |three| ensures |Blocks(three[..k])| < MAXOPBLOCKS { DistinctBlocks(three, k); }
    }
    FollowingIsThrifty(run, Op(0), three, |run| - 1);
    assert run[..|run|] == run;
  }

  // ---------------------------------------------------------------- runs in which every operation has its list

  /** The step does not take an operation beyond its list. */
  ghost predicate Planned(s: State, step: Step, plans: map<OpId, seq<int>>)
    requires WellFormed(s) && Enabled(s, step)
  {
    step.LogWrite? ==> step.op in plans && LoggedBy(s.writes, step.op) + [step.blockno] <= plans[step.op]
  }

  ghost predicate PlannedNext(s: State, s': State, plans: map<OpId, seq<int>>) {
    WellFormed(s) && exists step :: Enabled(s, step) && Planned(s, step, plans) && s' == Do(s, step)
  }

  /** A run in which every operation logs blocks of its own list, in order, and then perhaps stops early. */
  ghost predicate IsPlannedRun(run: seq<State>, plans: map<OpId, seq<int>>) {
    && |run| > 0 && Init(run[0])
    && forall i :: 0 <= i < |run| - 1 ==> PlannedNext(run[i], run[i + 1], plans)
  }

  lemma PlannedStep(s: State, s': State, step: Step, plans: map<OpId, seq<int>>)
    requires WellFormed(s) && Enabled(s, step) && Planned(s, step, plans) && s' == Do(s, step)
    requires forall op :: op in plans ==> WithinBudget(plans[op])
    requires forall op :: Charged(s, op)
    ensures Thrifty(s, step) && forall op :: Charged(s', op)
  {
    hide Do, Enabled, WithinBudget;
    if step.LogWrite? {
      assert Charged(s, step.op);
      FollowsIsThrifty(s, step, step.op, plans[step.op]);
    }
    forall op ensures Charged(s', op) {
      assert Charged(s, op);
      if op !in s.used { NothingLoggedBefore(s.writes, s.cut, op); }
      StepKeepsCharged(s, s', step, op);
    }
  }

  lemma {:induction false} PlannedIsThrifty(run: seq<State>, plans: map<OpId, seq<int>>, i: nat)
    requires IsPlannedRun(run, plans) && i < |run| && forall op :: op in plans ==> WithinBudget(plans[op])
    ensures IsThriftyRun(run[..i + 1]) && forall op :: Charged(run[i], op)
  {
    hide Do, Enabled, WithinBudget, Planned, Thrifty;
    if i == 0 {
      assert run[..1] == [run[0]];
    } else {
      PlannedIsThrifty(run, plans, i - 1);
      var s, s' := run[i - 1], run[i - 1 + 1];
      assert PlannedNext(s, s', plans);
      var step :| Enabled(s, step) && Planned(s, step, plans) && s' == Do(s, step);
      PlannedStep(s, s', step, plans);
      assert ThriftyNext(s, s');
      assert run[..i + 1] == run[..i] + [s'];
    }
  }

  /** If the lists of all operations are within budget, the check never fires, in any interleaving and
      across any crashes. */
  lemma PlannedNeverPanics(run: seq<State>, plans: map<OpId, seq<int>>, i: nat)
    requires IsPlannedRun(run, plans) && i < |run| && forall op :: op in plans ==> WithinBudget(plans[op])
    ensures run[i].pc != Panicked && Reserved(run[i])
  {
    PlannedIsThrifty(run, plans, i);
    ReservationHolds(run[..i + 1], i);
  }
}
