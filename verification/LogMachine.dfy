/** The redo log of kernel/log.c as a step machine.

    Every write of one disk block is one step, and the machine can crash between any two steps.
    Home blocks, the log area and the header block are kept apart because they never overlap on
    the disk; a header write is a single block write (the header is smaller than BSIZE).

    The fields `init`, `writes`, `cut`, `current`, `durable` and `ended` of a state are history: no
    guard reads them. `writes` is the list of all writes handed to log_write that have not been lost
    in a crash, and `cut` is how many of them the on-disk header has made permanent; `current` and
    `durable` are the contents that all of `writes` and its first `cut` entries leave. */
module LogMachine {
  import opened Basics

  const MAXOPBLOCKS: nat := 10
  const LOGBLOCKS: nat := MAXOPBLOCKS * 3

  type Block = seq<int>
  datatype OpId = Op(id: int)

  datatype Disk = Disk(header: seq<int>, log: seq<Block>, home: map<int, Block>)
  datatype Write = Write(op: OpId, blockno: int, data: Block)

  datatype Pc =
    | Running
    | WritingLog(i: nat)
    | Installing(i: nat)
    | Committed
    | Panicked
    | Down
    | Recovering(i: nat)

  datatype State = State(
    disk: Disk,
    cache: map<int, Block>,        // what bread returns for each home block
    lh: seq<int>,                  // the in-memory header: its first n entries
    outstanding: nat,
    committing: bool,
    pc: Pc,
    active: map<OpId, set<int>>,   // operations between begin_op and end_op, with the blocks each has logged
    held: map<int, OpId>,          // buffers an operation has changed and not yet passed to log_write
    init: map<int, Block>,
    writes: seq<Write>,
    cut: nat,
    current: map<int, Block>,
    durable: map<int, Block>,
    used: set<OpId>,
    ended: set<OpId>)

  datatype Step =
    | Begin(op: OpId)
    | Modify(op: OpId, blockno: int, data: Block)
    | LogWrite(op: OpId, blockno: int)
    | End(op: OpId)
    | WriteLogBlock
    | WriteHead
    | InstallBlock
    | EraseHead
    | FinishCommit
    | Crash
    | ReadHead
    | RecoverBlock
    | RecoverErase

  /** Copy log blocks to the home blocks named by `blocks`, in order. */
  function Install(home: map<int, Block>, blocks: seq<int>, log: seq<Block>): map<int, Block>
    requires |blocks| <= |log|
  {
    if blocks == [] then home
    else
      var k := |blocks| - 1;
      Install(home, blocks[..k], log)[blocks[k] := log[k]]
  }

  /** The home blocks that a recovery started on this disk leaves behind. */
  function Recovered(d: Disk): map<int, Block>
    requires |d.header| <= |d.log|
  {
    Install(d.home, d.header, d.log)
  }

  /** The effect of a list of writes. */
  function ApplyWrites(home: map<int, Block>, ws: seq<Write>): map<int, Block> {
    if ws == [] then home
    else
      var k := |ws| - 1;
      ApplyWrites(home, ws[..k])[ws[k].blockno := ws[k].data]
  }

  /** The position log_write stores a block number at: its first entry, or the end. */
  function Slot(blocks: seq<int>, b: int): (i: nat)
    ensures i <= |blocks|
    ensures i < |blocks| ==> blocks[i] == b
    ensures i == |blocks| <==> b !in blocks
  {
    if blocks == [] then 0
    else if blocks[0] == b then 0
    else 1 + Slot(blocks[1..], b)
  }

  ghost predicate WellFormed(s: State) {
    && |s.lh| <= LOGBLOCKS && |s.disk.header| <= LOGBLOCKS
    && |s.disk.log| == LOGBLOCKS
    && s.disk.home.Keys == s.init.Keys
    && s.cache.Keys == s.current.Keys == s.durable.Keys == s.init.Keys
    && s.cut <= |s.writes|
  }

  ghost predicate Init(s: State) {
    && WellFormed(s)
    && |s.disk.header| == 0 && s.disk.home == s.init && s.cache == s.init
    && |s.lh| == 0 && s.outstanding == 0 && !s.committing && s.pc == Running
    && s.active == map[] && s.held == map[]
    && s.writes == [] && s.cut == 0 && s.current == s.init && s.durable == s.init && s.used == {} && s.ended == {}
  }

  // ---------------------------------------------------------------- the steps

  ghost predicate CanBegin(s: State, op: OpId) {
    s.pc == Running && !s.committing && op !in s.used
    && |s.lh| + (s.outstanding + 1) * MAXOPBLOCKS <= LOGBLOCKS
  }

  ghost function DoBegin(s: State, op: OpId): State {
    s.(outstanding := s.outstanding + 1, active := s.active[op := {}], used := s.used + {op})
  }

  /** An operation that holds a buffer's lock changes its data. */
  ghost predicate CanModify(s: State, op: OpId, b: int) {
    s.pc == Running && op in s.active && b in s.init && (b in s.held ==> s.held[b] == op)
  }

  ghost function DoModify(s: State, op: OpId, b: int, data: Block): State {
    s.(cache := s.cache[b := data], held := s.held[b := op])
  }

  ghost predicate CanLogWrite(s: State, op: OpId, b: int) {
    s.pc == Running && op in s.active && b in s.init && b in s.held && s.held[b] == op
  }

  ghost function DoLogWrite(s: State, op: OpId, b: int): State
    requires WellFormed(s) && CanLogWrite(s, op, b)
  {
    if |s.lh| >= LOGBLOCKS then s.(pc := Panicked) else
    var i := Slot(s.lh, b);
    s.(lh := if i == |s.lh| then s.lh + [b] else s.lh[i := b],
       held := s.held - {b},
       active := s.active[op := s.active[op] + {b}],
       writes := s.writes + [Write(op, b, s.cache[b])],
       current := s.current[b := s.cache[b]])
  }

  ghost predicate CanEnd(s: State, op: OpId) {
    s.pc == Running && op in s.active && s.outstanding > 0 && forall b :: b in s.held ==> s.held[b] != op
  }

  ghost function DoEnd(s: State, op: OpId): State
    requires CanEnd(s, op)
  {
    var s1 := s.(outstanding := s.outstanding - 1, active := s.active - {op}, ended := s.ended + {op});
    if s1.outstanding > 0 then s1
    else s1.(committing := true, pc := if |s.lh| > 0 then WritingLog(0) else Committed)
  }

  ghost predicate CanWriteLogBlock(s: State)
    requires WellFormed(s)
  {
    s.pc.WritingLog? && s.pc.i < |s.lh| && s.lh[s.pc.i] in s.cache
  }

  ghost function DoWriteLogBlock(s: State): State
    requires WellFormed(s) && CanWriteLogBlock(s)
  {
    s.(disk := s.disk.(log := s.disk.log[s.pc.i := s.cache[s.lh[s.pc.i]]]), pc := WritingLog(s.pc.i + 1))
  }

  /** The commit point: the header now names every logged block. */
  ghost function DoWriteHead(s: State): State
    requires WellFormed(s)
  {
    s.(disk := s.disk.(header := s.lh), pc := Installing(0),
       cut := |s.writes|, durable := s.current)
  }

  ghost predicate CanInstall(s: State, i: nat)
    requires WellFormed(s)
  {
    i < |s.lh| && s.lh[i] in s.init
  }

  ghost function DoInstall(s: State, i: nat, pc: Pc): State
    requires WellFormed(s) && CanInstall(s, i)
  {
    var b := s.lh[i];
    s.(disk := s.disk.(home := s.disk.home[b := s.disk.log[i]]), cache := s.cache[b := s.disk.log[i]], pc := pc)
  }

  ghost function DoErase(s: State, pc: Pc): State
    requires WellFormed(s)
  {
    s.(lh := [], disk := s.disk.(header := []), pc := pc)
  }

  /** A crash loses the cache, the in-memory header and every write past the cut. */
  ghost function DoCrash(s: State): State
    requires WellFormed(s)
  {
    s.(cache := s.disk.home, lh := [], outstanding := 0, committing := false, pc := Down,
       active := map[], held := map[], writes := s.writes[..s.cut], current := s.durable)
  }

  ghost function DoReadHead(s: State): State
    requires WellFormed(s)
  {
    s.(lh := s.disk.header, pc := Recovering(0))
  }

  ghost predicate Enabled(s: State, step: Step)
    requires WellFormed(s)
  {
    match step
    case Begin(op) => CanBegin(s, op)
    case Modify(op, b, data) => CanModify(s, op, b)
    case LogWrite(op, b) => CanLogWrite(s, op, b)
    case End(op) => CanEnd(s, op)
    case WriteLogBlock => CanWriteLogBlock(s)
    case WriteHead => s.pc.WritingLog? && s.pc.i == |s.lh|
    case InstallBlock => s.pc.Installing? && CanInstall(s, s.pc.i)
    case EraseHead => s.pc.Installing? && s.pc.i == |s.lh|
    case FinishCommit => s.pc == Committed
    case Crash => true
    case ReadHead => s.pc == Down
    case RecoverBlock => s.pc.Recovering? && CanInstall(s, s.pc.i)
    case RecoverErase => s.pc.Recovering? && s.pc.i == |s.lh|
  }

  ghost function Do(s: State, step: Step): (s': State)
    requires WellFormed(s) && Enabled(s, step)
  {
    match step
    case Begin(op) => DoBegin(s, op)
    case Modify(op, b, data) => DoModify(s, op, b, data)
    case LogWrite(op, b) => DoLogWrite(s, op, b)
    case End(op) => DoEnd(s, op)
    case WriteLogBlock => DoWriteLogBlock(s)
    case WriteHead => DoWriteHead(s)
    case InstallBlock => DoInstall(s, s.pc.i, Installing(s.pc.i + 1))
    case EraseHead => DoErase(s, Committed)
    case FinishCommit => s.(committing := false, pc := Running)
    case Crash => DoCrash(s)
    case ReadHead => DoReadHead(s)
    case RecoverBlock => DoInstall(s, s.pc.i, Recovering(s.pc.i + 1))
    case RecoverErase => DoErase(s, Running)
  }

  ghost predicate Next(s: State, s': State) {
    WellFormed(s) && exists step :: Enabled(s, step) && s' == Do(s, step)
  }

  ghost predicate IsRun(run: seq<State>) {
    && |run| > 0 && Init(run[0])
    && forall i :: 0 <= i < |run| - 1 ==> Next(run[i], run[i + 1])
  }

  // ---------------------------------------------------------------- facts about Install and ApplyWrites

  lemma {:induction false} InstallAt(home: map<int, Block>, blocks: seq<int>, log: seq<Block>)
    requires |blocks| <= |log| && Distinct(blocks)
    ensures Install(home, blocks, log).Keys == home.Keys + (set b | b in blocks)
    ensures forall j :: 0 <= j < |blocks| ==> Install(home, blocks, log)[blocks[j]] == log[j]
    ensures forall b :: b in home && b !in blocks ==> Install(home, blocks, log)[b] == home[b]
  {
    if blocks == [] {
    } else {
      var k := |blocks| - 1;
      InstallAt(home, blocks[..k], log);
      assert blocks == blocks[..k] + [blocks[k]];
      assert blocks[k] !in blocks[..k];
    }
  }

  lemma ApplyWritesSnoc(home: map<int, Block>, ws: seq<Write>, w: Write)
    ensures ApplyWrites(home, ws + [w]) == ApplyWrites(home, ws)[w.blockno := w.data]
  {
    assert (ws + [w])[..|ws|] == ws;
  }

  // ---------------------------------------------------------------- the invariant

  /** An operation is wholly before the cut, and then it has ended, or wholly after it. */
  ghost predicate OpsAtomic(s: State)
    requires s.cut <= |s.writes|
  {
    && (forall j :: 0 <= j < s.cut ==> s.writes[j].op in s.ended)
    && (forall j, k :: 0 <= j < s.cut <= k < |s.writes| ==> s.writes[j].op != s.writes[k].op)
  }

  ghost predicate HistoryOk(s: State)
    requires WellFormed(s)
  {
    && OpsAtomic(s)
    && s.outstanding == |s.active|
    && (forall op :: op in s.active ==> op in s.used && op !in s.ended)
    && (forall op :: op in s.ended ==> op in s.used)
    && (forall k :: 0 <= k < |s.writes| ==>
          s.writes[k].blockno in s.init && (s.writes[k].op in s.active || s.writes[k].op in s.ended))
    && (forall b :: b in s.held ==> b in s.init && s.held[b] in s.active)
  }

  /** Both headers name distinct home blocks. */
  ghost predicate HeadersOk(s: State)
    requires WellFormed(s)
  {
    && Distinct(s.lh) && (forall b :: b in s.lh ==> b in s.init)
    && Distinct(s.disk.header) && (forall b :: b in s.disk.header ==> b in s.init)
  }

  /** A recovery started on the disk would install exactly the durable contents. */
  ghost predicate Recoverable(s: State)
    requires WellFormed(s)
  {
    && (forall j :: 0 <= j < |s.disk.header| ==>
          s.disk.header[j] in s.init && s.disk.log[j] == s.durable[s.disk.header[j]])
    && (forall b :: b in s.init && b !in s.disk.header ==> s.disk.home[b] == s.durable[b])
  }

  /** Only logged blocks differ between what the system sees and the home blocks. */
  ghost predicate PendingLogged(s: State)
    requires WellFormed(s)
  {
    && |s.disk.header| == 0
    && (s.lh == [] ==> s.cut == |s.writes|)
    && (forall b :: b in s.init && b !in s.lh ==> s.current[b] == s.disk.home[b])
    && (forall b :: b in s.init && b !in s.held ==> s.cache[b] == s.current[b])
  }

  ghost predicate Quiet(s: State) {
    s.active == map[] && s.held == map[] && s.outstanding == 0
  }

  /** The log area holds the current contents of the first i blocks of the in-memory header. */
  ghost predicate LoggedUpTo(s: State, i: nat)
    requires WellFormed(s)
  {
    && i <= |s.lh|
    && (forall j :: 0 <= j < i ==> s.lh[j] in s.init && s.disk.log[j] == s.current[s.lh[j]])
  }

  /** Both headers agree, nothing is pending, and the first i of their blocks are home. */
  ghost predicate InstalledUpTo(s: State, i: nat)
    requires WellFormed(s)
  {
    && i <= |s.lh|
    && s.disk.header == s.lh
    && s.cut == |s.writes| && s.current == s.durable
    && (forall j :: 0 <= j < i ==> s.lh[j] in s.init && s.disk.home[s.lh[j]] == s.current[s.lh[j]])
  }

  ghost predicate PhaseOk(s: State)
    requires WellFormed(s)
  {
    match s.pc
    case Running => !s.committing && PendingLogged(s)
    case WritingLog(i) => s.committing && Quiet(s) && PendingLogged(s) && |s.lh| > 0 && LoggedUpTo(s, i)
    case Installing(i) => s.committing && Quiet(s) && s.cache == s.current && InstalledUpTo(s, i)
    case Committed =>
      s.committing && Quiet(s) && |s.lh| == 0 && |s.disk.header| == 0 && s.cut == |s.writes|
      && s.disk.home == s.current == s.cache == s.durable
    case Panicked => s.outstanding > 0
    case Down => !s.committing && Quiet(s) && s.cut == |s.writes| && s.current == s.durable && s.cache == s.disk.home &&
      |s.lh| == 0
    case Recovering(i) => !s.committing && Quiet(s) && s.cache == s.disk.home && InstalledUpTo(s, i)
  }

  /** `current` and `durable` are what the recorded writes say. */
  ghost predicate ContentsOk(s: State)
    requires WellFormed(s)
  {
    s.current == ApplyWrites(s.init, s.writes) && s.durable == ApplyWrites(s.init, s.writes[..s.cut])
  }

  ghost predicate Inv(s: State) {
    WellFormed(s) && HistoryOk(s) && HeadersOk(s) && Recoverable(s) && PhaseOk(s)
  }
}
